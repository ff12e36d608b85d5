/** The default `sort` of an array of strings: ascending, by code unit. */
module Sorting {
  predicate Leq(a: string, b: string) {
    a == [] || (b != [] && (a[0] < b[0] || (a[0] == b[0] && Leq(a[1..], b[1..]))))
  }

  lemma {:induction false} LeqTotal(a: string, b: string)
    ensures Leq(a, b) || Leq(b, a)
    ensures Leq(a, b) && Leq(b, a) ==> a == b
  {
    if a != [] && b != [] {
      LeqTotal(a[1..], b[1..]);
      assert a == [a[0]] + a[1..] && b == [b[0]] + b[1..];
    }
  }

  lemma {:induction false} LeqTransitive(a: string, b: string, c: string)
    requires Leq(a, b) && Leq(b, c)
    ensures Leq(a, c)
  {
    if a != [] && a[0] == b[0] == c[0] {
      LeqTransitive(a[1..], b[1..], c[1..]);
    }
  }

  ghost predicate Ascending(s: seq<string>) {
    forall i, j :: 0 <= i < j < |s| ==> Leq(s[i], s[j])
  }

  function Insert(x: string, s: seq<string>): seq<string> {
    if s == [] then [x]
    else if Leq(s[|s| - 1], x) then s + [x]
    else Insert(x, s[..|s| - 1]) + [s[|s| - 1]]
  }

  function Sort(s: seq<string>): seq<string> {
    if s == [] then [] else Insert(s[|s| - 1], Sort(s[..|s| - 1]))
  }

  lemma InsertedBelow(x: string, s: seq<string>, top: string)
    requires Leq(x, top) && (forall i :: 0 <= i < |s| ==> Leq(s[i], top))
    requires multiset(Insert(x, s)) == multiset(s) + multiset{x}
    ensures forall i :: 0 <= i < |Insert(x, s)| ==> Leq(Insert(x, s)[i], top)
  {
    var r := Insert(x, s);
    forall i | 0 <= i < |r| ensures Leq(r[i], top) {
      assert r[i] in multiset(r);
      assert r[i] == x || r[i] in s;
    }
  }

  lemma AppendAscending(s: seq<string>, x: string)
    requires s != [] && Ascending(s) && Leq(s[|s| - 1], x)
    ensures Ascending(s + [x]) && multiset(s + [x]) == multiset(s) + multiset{x}
  {
    forall i | 0 <= i < |s| - 1 ensures Leq(s[i], x) { LeqTransitive(s[i], s[|s| - 1], x); }
  }

  lemma {:induction false} InsertIntoAscending(x: string, s: seq<string>)
    requires Ascending(s)
    ensures Ascending(Insert(x, s))
    ensures multiset(Insert(x, s)) == multiset(s) + multiset{x}
  {
    if s != [] {
      var n := |s| - 1;
      assert s == s[..n] + [s[n]];
      if Leq(s[n], x) {
        AppendAscending(s, x);
      } else {
        LeqTotal(s[n], x);
        InsertIntoAscending(x, s[..n]);
        InsertedBelow(x, s[..n], s[n]);
      }
    }
  }

  /** Sorting gives an ascending permutation. */
  lemma {:induction false} SortSorts(s: seq<string>)
    ensures Ascending(Sort(s)) && multiset(Sort(s)) == multiset(s) && |Sort(s)| == |s|
  {
    if s != [] {
      var n := |s| - 1;
      SortSorts(s[..n]);
      InsertIntoAscending(s[n], Sort(s[..n]));
      assert s == s[..n] + [s[n]];
    }
    assert |multiset(Sort(s))| == |Sort(s)|;
  }

  lemma LastIsGreatest(s: seq<string>, x: string)
    requires Ascending(s) && s != [] && x in s
    ensures Leq(x, s[|s| - 1])
  {
    LeqTotal(x, x);
  }

  lemma CountWithoutLast(s: seq<string>)
    requires s != []
    ensures multiset(s[..|s| - 1]) == multiset(s) - multiset{s[|s| - 1]}
  {
    assert s == s[..|s| - 1] + [s[|s| - 1]];
  }

  lemma SameLength(s: seq<string>, t: seq<string>)
    requires multiset(s) == multiset(t)
    ensures |s| == |t|
  {
    assert |multiset(s)| == |s| && |multiset(t)| == |t|;
  }

  lemma {:induction false} AscendingIsUnique(s: seq<string>, t: seq<string>)
    requires Ascending(s) && Ascending(t) && multiset(s) == multiset(t)
    ensures s == t
  {
    SameLength(s, t);
    if s != [] {
      var n := |s| - 1;
      assert s[n] == t[n] by {
        assert s[n] in multiset(t) && t[n] in multiset(s);
        LastIsGreatest(t, s[n]);
        LastIsGreatest(s, t[n]);
        LeqTotal(s[n], t[n]);
      }
      CountWithoutLast(s);
      CountWithoutLast(t);
      AscendingIsUnique(s[..n], t[..n]);
      assert s == s[..n] + [s[n]] && t == t[..n] + [t[n]];
    }
  }

  /** The sorted sequence depends only on which strings there are, so it reveals nothing of their order. */
  lemma SortHidesOrder(s: seq<string>, t: seq<string>)
    requires multiset(s) == multiset(t)
    ensures Sort(s) == Sort(t)
  {
    SortSorts(s);
    SortSorts(t);
    AscendingIsUnique(Sort(s), Sort(t));
  }
}
