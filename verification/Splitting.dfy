/** Joining and splitting text at a separator character. */
module Splitting {
  predicate Contains(s: string, separator: char) {
    exists i :: 0 <= i < |s| && s[i] == separator
  }

  function Split(s: string, separator: char): (r: seq<string>)
    ensures r != []
  {
    if s == "" then [""]
    else if s[0] == separator then [""] + Split(s[1..], separator)
    else [[s[0]] + Split(s[1..], separator)[0]] + Split(s[1..], separator)[1..]
  }

  function Join(parts: seq<string>, separator: char): string {
    if parts == [] then ""
    else if |parts| == 1 then parts[0] else parts[0] + [separator] + Join(parts[1..], separator)
  }

  lemma TailHasNone(s: string, separator: char)
    requires s != "" && !Contains(s, separator)
    ensures s[0] != separator && !Contains(s[1..], separator)
  {
    forall i | 0 <= i < |s[1..]| ensures s[1..][i] != separator { assert s[i + 1] != separator; }
  }

  lemma {:induction false} SplitOne(s: string, separator: char)
    requires !Contains(s, separator)
    ensures Split(s, separator) == [s]
  {
    if s != "" {
      TailHasNone(s, separator);
      SplitOne(s[1..], separator);
      assert s == [s[0]] + s[1..];
    }
  }

  lemma {:induction false} SplitFirst(a: string, rest: string, separator: char)
    requires !Contains(a, separator)
    ensures Split(a + [separator] + rest, separator) == [a] + Split(rest, separator)
  {
    var s := a + [separator] + rest;
    if a == "" {
      assert s[1..] == rest;
    } else {
      TailHasNone(a, separator);
      SplitFirst(a[1..], rest, separator);
      assert s[1..] == a[1..] + [separator] + rest;
      assert a == [a[0]] + a[1..];
    }
  }

  lemma {:induction false} SplitOfJoin(parts: seq<string>, separator: char)
    requires parts != [] && forall i :: 0 <= i < |parts| ==> !Contains(parts[i], separator)
    ensures Split(Join(parts, separator), separator) == parts
  {
    if |parts| == 1 {
      SplitOne(parts[0], separator);
    } else {
      SplitOfJoin(parts[1..], separator);
      SplitFirst(parts[0], Join(parts[1..], separator), separator);
    }
  }

  lemma JoinFirst(c: char, parts: seq<string>, separator: char)
    requires parts != []
    ensures Join([[c] + parts[0]] + parts[1..], separator) == [c] + Join(parts, separator)
  {
    var all := [[c] + parts[0]] + parts[1..];
    if |parts| > 1 {
      assert all[1..] == parts[1..];
      assert [c] + (parts[0] + [separator] + Join(parts[1..], separator))
               == ([c] + parts[0]) + [separator] + Join(parts[1..], separator);
    }
  }

  lemma {:induction false} JoinOfSplit(s: string, separator: char)
    ensures Join(Split(s, separator), separator) == s
  {
    if s != "" {
      JoinOfSplit(s[1..], separator);
      assert s == [s[0]] + s[1..];
      if s[0] != separator {
        JoinFirst(s[0], Split(s[1..], separator), separator);
      } else {
        assert ([""] + Split(s[1..], separator))[1..] == Split(s[1..], separator);
      }
    }
  }
}
