/** PEM boundaries and certificate chains: the skipping search, and what parsing makes of the text it is given. */
module Pem {
  import opened Basics
  import opened Splitting
  import Base64

  datatype Keyword = BEGIN | END
  datatype Span = Span(start: nat, end: nat)
  datatype PemError = NoCertificates

  const DASHES := "-----"
  const CERTIFICATE := "CERTIFICATE"

  function Prefix(keyword: Keyword): (s: string)
    ensures |s| >= 6 && s[0] == '-'
  {
    if keyword.BEGIN? then "-----BEGIN " else "-----END "
  }

  predicate OccursAt(s: string, pattern: string, i: nat) {
    i + |pattern| <= |s| && s[i..i + |pattern|] == pattern
  }

  predicate FirstOccurrence(s: string, pattern: string, from: nat, i: nat) {
    from <= i && OccursAt(s, pattern, i) && forall k :: from <= k < i ==> !OccursAt(s, pattern, k)
  }

  /** `indexOf`: the leftmost occurrence at or after `from`. */
  function IndexOf(s: string, pattern: string, from: nat): (r: Option<nat>)
    ensures r.Some? ==> from <= r.value && r.value + |pattern| <= |s|
  {
    if i :| 0 <= i <= |s| && FirstOccurrence(s, pattern, from, i) then Some(i) else None
  }

  lemma {:induction false} HasFirst(s: string, pattern: string, from: nat, i: nat) returns (first: nat)
    requires from <= i && OccursAt(s, pattern, i)
    ensures first <= i <= |s| && FirstOccurrence(s, pattern, from, first)
    decreases i - from
  {
    if OccursAt(s, pattern, from) {
      first := from;
    } else {
      first := HasFirst(s, pattern, from + 1, i);
    }
  }

  lemma IndexIsLeftmost(s: string, pattern: string, from: nat)
    ensures var r := IndexOf(s, pattern, from);
            && (r.Some? ==> OccursAt(s, pattern, r.value))
            && forall i :: from <= i && OccursAt(s, pattern, i) ==> r.Some? && r.value <= i
  {
    forall i | from <= i && OccursAt(s, pattern, i)
      ensures IndexOf(s, pattern, from).Some? && IndexOf(s, pattern, from).value <= i {
      var first := HasFirst(s, pattern, from, i);
    }
  }

  /** `A-Z`, `0-9` and space. */
  predicate IsLabelCharacter(c: char) {
    'A' <= c <= 'Z' || '0' <= c <= '9' || c == ' '
  }

  predicate IsLabel(s: string) {
    s != "" && forall i :: 0 <= i < |s| ==> IsLabelCharacter(s[i])
  }

  // ---------- boundaries with any label ----------

  /** A boundary with some label stands at `b.start` and ends before `b.end`. */
  ghost predicate IsBoundary(pem: string, keyword: Keyword, b: Span) {
    var n := |Prefix(keyword)|;
    && b.start + n + |DASHES| <= b.end <= |pem|
    && OccursAt(pem, Prefix(keyword), b.start)
    && IsLabel(pem[b.start + n..b.end - |DASHES|])
    && OccursAt(pem, DASHES, b.end - |DASHES|)
  }

  /** The characters of a label, and the first one after it, are read once. */
  ghost predicate Ascending(scanned: seq<nat>) {
    forall i, j :: 0 <= i < j < |scanned| ==> scanned[i] < scanned[j]
  }

  lemma NoBoundaryAt(pem: string, keyword: Keyword, start: nat, labelEnd: nat, other: Span)
    requires OccursAt(pem, Prefix(keyword), start) && start + |Prefix(keyword)| <= labelEnd <= |pem|
    requires forall i :: start + |Prefix(keyword)| <= i < labelEnd ==> IsLabelCharacter(pem[i])
    requires labelEnd < |pem| ==> !IsLabelCharacter(pem[labelEnd])
    requires IsBoundary(pem, keyword, other) && start <= other.start < labelEnd
    ensures other.start == start && other.end == labelEnd + |DASHES| && labelEnd > start + |Prefix(keyword)|
            && OccursAt(pem, DASHES, labelEnd)
  {
    var n := |Prefix(keyword)|;
    assert pem[other.start..other.start + n][0] == '-';
    assert pem[other.start] == '-';
    assert other.start < start + n;
    NoSelfOverlap(pem, keyword, start, other.start);
    var name := pem[start + n..other.end - |DASHES|];
    assert pem[other.end - |DASHES|] == pem[other.end - |DASHES|..other.end][0] == '-';
  }

  /** A prefix begins with five dashes, and has no others. */
  lemma DashesOfPrefix(pem: string, keyword: Keyword, i: nat, k: nat)
    requires OccursAt(pem, Prefix(keyword), i) && k < |Prefix(keyword)|
    ensures |Prefix(keyword)| >= 9 && i + k < |pem| && (pem[i + k] == '-' <==> k < 5)
  {
    assert pem[i + k] == pem[i..i + |Prefix(keyword)|][k];
  }

  /** The prefix does not overlap itself. */
  lemma NoSelfOverlap(pem: string, keyword: Keyword, i: nat, j: nat)
    requires OccursAt(pem, Prefix(keyword), i) && OccursAt(pem, Prefix(keyword), j) && i <= j < i + |Prefix(keyword)|
    ensures i == j
  {
    DashesOfPrefix(pem, keyword, j, 0);
    DashesOfPrefix(pem, keyword, i, j - i);
    DashesOfPrefix(pem, keyword, j, 4);
    DashesOfPrefix(pem, keyword, i, j + 4 - i);
  }

  method ScanLabel(pem: string, labelStart: nat, ghost before: seq<nat>)
    returns (labelEnd: nat, ghost scanned: seq<nat>)
    requires labelStart <= |pem| && Ascending(before) && forall i :: 0 <= i < |before| ==> before[i] < labelStart
    ensures labelStart <= labelEnd <= |pem|
    ensures forall i :: labelStart <= i < labelEnd ==> IsLabelCharacter(pem[i])
    ensures labelEnd < |pem| ==> !IsLabelCharacter(pem[labelEnd])
    ensures Ascending(scanned) && forall i :: 0 <= i < |scanned| ==> scanned[i] <= labelEnd
  {
    labelEnd := labelStart;
    scanned := before;
    while labelEnd < |pem| && IsLabelCharacter(pem[labelEnd])
      invariant labelStart <= labelEnd <= |pem|
      invariant forall i :: labelStart <= i < labelEnd ==> IsLabelCharacter(pem[i])
      invariant Ascending(scanned) && forall i :: 0 <= i < |scanned| ==> scanned[i] < labelEnd
    {
      scanned := scanned + [labelEnd];
      labelEnd := labelEnd + 1;
    }
    if labelEnd < |pem| {
      scanned := scanned + [labelEnd];
    }
  }

  /**
   * The search that skips prefixes and labels finds the leftmost boundary, as a search from every position would, and
   * the positions read while scanning labels ascend.
   */
  method FindAnyBoundary(pem: string, keyword: Keyword, start: nat) returns (r: Option<Span>, ghost scanned: seq<nat>)
    ensures r.None? ==> forall b: Span :: b.start >= start ==> !IsBoundary(pem, keyword, b)
    ensures r.Some? ==> IsBoundary(pem, keyword, r.value) && r.value.start >= start
    ensures r.Some? ==> forall b: Span :: b.start >= start && IsBoundary(pem, keyword, b) ==>
              r.value.start < b.start || r.value == b
    ensures Ascending(scanned)
  {
    var prefix := Prefix(keyword);
    var from := start;
    scanned := [];
    var found := IndexOf(pem, prefix, from);
    while found.Some?
      invariant start <= from && found == IndexOf(pem, prefix, from)
      invariant forall b: Span :: start <= b.start < from ==> !IsBoundary(pem, keyword, b)
      invariant Ascending(scanned) && forall i :: 0 <= i < |scanned| ==> scanned[i] <= from
      decreases |pem| - from
    {
      var at := found.value;
      IndexIsLeftmost(pem, prefix, from);
      var labelStart := at + |prefix|;
      var labelEnd;
      labelEnd, scanned := ScanLabel(pem, labelStart, scanned);
      forall b: Span | IsBoundary(pem, keyword, b) && from <= b.start < labelEnd
        ensures b == Span(at, labelEnd + |DASHES|) && labelEnd > labelStart && OccursAt(pem, DASHES, labelEnd)
      {
        NoBoundaryAt(pem, keyword, at, labelEnd, b);
      }
      if labelEnd > labelStart && OccursAt(pem, DASHES, labelEnd) {
        assert IsBoundary(pem, keyword, Span(at, labelEnd + |DASHES|));
        return Some(Span(at, labelEnd + |DASHES|)), scanned;
      }
      from := labelEnd;
      found := IndexOf(pem, prefix, from);
    }
    IndexIsLeftmost(pem, prefix, from);
    r := None;
  }

  // ---------- boundaries with one label, and blocks ----------

  function Boundary(keyword: Keyword, name: string): string {
    Prefix(keyword) + name + DASHES
  }

  function FindBoundary(pem: string, boundary: string, from: nat): (r: Option<Span>)
    ensures r.Some? ==> from <= r.value.start && r.value.end == r.value.start + |boundary| <= |pem|
  {
    match IndexOf(pem, boundary, from)
    case None => None
    case Some(start) => Some(Span(start, start + |boundary|))
  }

  datatype Block = Block(content: string, end: nat)

  /** The first block at or after `from` between two boundaries. */
  function FindPemBlock(pem: string, begin: string, end: string, from: nat): (r: Option<Block>)
    ensures r.Some? ==> from + |begin| + |end| <= r.value.end <= |pem|
  {
    match FindBoundary(pem, begin, from)
    case None => None
    case Some(first) =>
      match FindBoundary(pem, end, first.end)
      case None => None
      case Some(last) => Some(Block(pem[first.end..last.start], last.end))
  }

  /** The characters `\s` stands for. */
  predicate IsSpace(c: char) {
    var code := c as int;
    || 9 <= code <= 13 || code == 32 || code == 160 || code == 0x1680 || 0x2000 <= code <= 0x200A
    || code == 0x2028 || code == 0x2029 || code == 0x202F || code == 0x205F || code == 0x3000 || code == 0xFEFF
  }

  function Without(s: string, drop: char -> bool): string {
    if s == "" then "" else (if drop(s[0]) then "" else [s[0]]) + Without(s[1..], drop)
  }

  function WithoutSpace(s: string): string {
    Without(s, IsSpace)
  }

  /** The contents of the blocks between two boundaries, one after the other. */
  function Contents(pem: string, begin: string, end: string, from: nat): seq<string>
    requires begin != ""
    decreases |pem| - from
  {
    match FindPemBlock(pem, begin, end, from)
    case None => []
    case Some(block) => [block.content] + Contents(pem, begin, end, block.end)
  }

  function Stripped(bodies: seq<string>): seq<string> {
    if bodies == [] then [] else [WithoutSpace(bodies[0])] + Stripped(bodies[1..])
  }

  function Certificates(pem: string): seq<string> {
    Stripped(Contents(pem, Boundary(BEGIN, CERTIFICATE), Boundary(END, CERTIFICATE), 0))
  }

  method ParseCertificateChain(pem: string) returns (r: Outcome<seq<string>, PemError>)
    ensures r == if Certificates(pem) == [] then Err(NoCertificates) else Ok(Certificates(pem))
  {
    var certs := CollectContents(pem, Boundary(BEGIN, CERTIFICATE), Boundary(END, CERTIFICATE));
    r := if certs == [] then Err(NoCertificates) else Ok(certs);
  }

  method CollectContents(pem: string, begin: string, end: string) returns (certs: seq<string>)
    requires begin != ""
    ensures certs == Stripped(Contents(pem, begin, end, 0))
  {
    certs := [];
    ghost var from := 0;
    var block := FindPemBlock(pem, begin, end, 0);
    while block.Some?
      invariant block == FindPemBlock(pem, begin, end, from)
      invariant certs + Stripped(Contents(pem, begin, end, from)) == Stripped(Contents(pem, begin, end, 0))
      decreases |pem| - from
    {
      var content := WithoutSpace(block.value.content);
      Associates(certs, [content], Stripped(Contents(pem, begin, end, block.value.end)));
      certs := certs + [content];
      from := block.value.end;
      block := FindPemBlock(pem, begin, end, block.value.end);
    }
  }

  // ---------- writing ----------

  predicate EndsLine(c: char) {
    var code := c as int;
    code == 10 || code == 13 || code == 0x2028 || code == 0x2029
  }

  /** How many of the first characters, at most `limit`, stand before a line end. */
  function Run(s: string, limit: nat): (n: nat)
    ensures n <= limit && n <= |s|
    ensures (forall i :: 0 <= i < |s| ==> !EndsLine(s[i])) ==> n == if |s| < limit then |s| else limit
  {
    if s == "" || limit == 0 || EndsLine(s[0]) then 0 else 1 + Run(s[1..], limit - 1)
  }

  /** The matches of `.{1,64}`. */
  function Lines(s: string): seq<string> {
    if s == "" then []
    else if Run(s, 64) == 0 then Lines(s[1..])
    else [s[..Run(s, 64)]] + Lines(s[Run(s, 64)..])
  }

  function Body(der: string): string {
    "\n" + Join(Lines(der), '\n') + "\n"
  }

  function ToPem(der: string): string {
    Boundary(BEGIN, CERTIFICATE) + Body(der) + Boundary(END, CERTIFICATE)
  }

  // ---------- reading what was written ----------

  predicate NoHyphen(s: string) {
    forall i :: 0 <= i < |s| ==> s[i] != '-'
  }

  predicate Plain(s: string) {
    NoHyphen(s) && forall i :: 0 <= i < |s| ==> !IsSpace(s[i])
  }

  lemma {:induction false} WithoutOfConcat(a: string, b: string, drop: char -> bool)
    ensures Without(a + b, drop) == Without(a, drop) + Without(b, drop)
  {
    if a == "" {
      assert a + b == b;
    } else {
      assert (a + b)[0] == a[0] && (a + b)[1..] == a[1..] + b;
      WithoutOfConcat(a[1..], b, drop);
    }
  }

  lemma {:induction false} KeptStays(s: string, drop: char -> bool)
    requires forall i :: 0 <= i < |s| ==> !drop(s[i])
    ensures Without(s, drop) == s
  {
    if s != "" {
      KeptStays(s[1..], drop);
    }
  }

  lemma DroppedAlone(c: char, drop: char -> bool)
    requires drop(c)
    ensures Without([c], drop) == ""
  {
    assert [c][1..] == "";
  }

  ghost predicate OnOneLine(s: string) {
    forall i :: 0 <= i < |s| ==> !EndsLine(s[i])
  }

  /** A text without line ends is cut into a first line and the lines of the rest. */
  lemma FirstLine(s: string) returns (line: string, rest: string)
    requires s != "" && OnOneLine(s)
    ensures s == line + rest && line != "" && |rest| < |s|
    ensures Join(Lines(s), '\n') == if rest == "" then line else line + "\n" + Join(Lines(rest), '\n')
  {
    var n := Run(s, 64);
    line, rest := s[..n], s[n..];
    if rest == "" {
      assert Lines(s) == [line];
    } else {
      assert Lines(s)[1..] == Lines(rest) && Run(rest, 64) > 0;
    }
  }

  lemma LineBreakDropped(a: string, b: string, drop: char -> bool)
    requires drop('\n')
    ensures Without(a + "\n" + b, drop) == Without(a, drop) + Without(b, drop)
  {
    WithoutOfConcat(a + "\n", b, drop);
    WithoutOfConcat(a, "\n", drop);
    DroppedAlone('\n', drop);
  }

  lemma {:induction false} LinesKeepText(s: string, drop: char -> bool)
    requires OnOneLine(s) && drop('\n') && forall i :: 0 <= i < |s| ==> !drop(s[i])
    ensures Without(Join(Lines(s), '\n'), drop) == s
    decreases |s|
  {
    if s != "" {
      var line, rest := FirstLine(s);
      assert forall i :: 0 <= i < |rest| ==> rest[i] == s[|line| + i];
      assert forall i :: 0 <= i < |line| ==> line[i] == s[i];
      LinesKeepText(rest, drop);
      KeptStays(line, drop);
      if rest != "" {
        LineBreakDropped(line, Join(Lines(rest), '\n'), drop);
      }
    }
  }

  lemma {:induction false} LinesHaveNoHyphen(s: string)
    requires OnOneLine(s) && NoHyphen(s)
    ensures NoHyphen(Join(Lines(s), '\n'))
    decreases |s|
  {
    if s != "" {
      var line, rest := FirstLine(s);
      assert forall i :: 0 <= i < |rest| ==> rest[i] == s[|line| + i];
      assert forall i :: 0 <= i < |line| ==> line[i] == s[i];
      LinesHaveNoHyphen(rest);
    }
  }

  lemma LineEndIsSpace(c: char)
    requires !IsSpace(c)
    ensures !EndsLine(c)
  {
  }

  lemma BodyKeepsText(der: string)
    requires Plain(der)
    ensures WithoutSpace(Body(der)) == der && NoHyphen(Body(der))
  {
    var joined := Join(Lines(der), '\n');
    forall i | 0 <= i < |der| ensures !EndsLine(der[i]) && !IsSpace(der[i]) { LineEndIsSpace(der[i]); }
    assert IsSpace('\n');
    LinesKeepText(der, IsSpace);
    LinesHaveNoHyphen(der);
    WithoutOfConcat("\n" + joined, "\n", IsSpace);
    WithoutOfConcat("\n", joined, IsSpace);
    DroppedAlone('\n', IsSpace);
  }

  lemma FirstCharacter(s: string, pattern: string, i: nat)
    requires OccursAt(s, pattern, i) && pattern != ""
    ensures i < |s| && s[i] == pattern[0]
  {
    assert s[i..i + |pattern|][0] == s[i];
  }

  /** A text without hyphens hides no pattern that starts with one. */
  lemma NotInPlain(s: string, plain: string, from: nat, pattern: string, i: nat)
    requires NoHyphen(plain) && pattern != "" && pattern[0] == '-'
    requires from + |plain| <= |s| && s[from..from + |plain|] == plain && from <= i < from + |plain|
    ensures !OccursAt(s, pattern, i)
  {
    assert s[i] == plain[i - from];
    if OccursAt(s, pattern, i) {
      FirstCharacter(s, pattern, i);
    }
  }

  lemma FindsAfterPlain(s: string, from: nat, at: nat, pattern: string)
    requires from <= at <= |s| && NoHyphen(s[from..at]) && pattern != "" && pattern[0] == '-'
             && OccursAt(s, pattern, at)
    ensures IndexOf(s, pattern, from) == Some(at)
  {
    IndexIsLeftmost(s, pattern, from);
    forall i | from <= i < at ensures !OccursAt(s, pattern, i) {
      NotInPlain(s, s[from..at], from, pattern, i);
    }
  }

  lemma FindsPair(s: string, from: nat, b: nat, d: nat, begin: string, end: string)
    requires begin != "" && begin[0] == '-' && end != "" && end[0] == '-'
    requires from <= b && b + |begin| <= d && d + |end| <= |s|
    requires NoHyphen(s[from..b]) && s[b..b + |begin|] == begin && NoHyphen(s[b + |begin|..d]) && s[d..d + |end|] == end
    ensures IndexOf(s, begin, from) == Some(b) && IndexOf(s, end, b + |begin|) == Some(d)
  {
    FindsAfterPlain(s, from, b, begin);
    FindsAfterPlain(s, b + |begin|, d, end);
  }

  lemma BlockFound(pem: string, from: nat, b: nat, d: nat, begin: string, end: string)
    requires IndexOf(pem, begin, from) == Some(b) && IndexOf(pem, end, b + |begin|) == Some(d)
    ensures FindPemBlock(pem, begin, end, from) == Some(Block(pem[b + |begin|..d], d + |end|))
  {
  }

  /** Some texts from number `k` on, with another text before each of them and one at the end. */
  function Chain(pems: seq<string>, between: seq<string>, k: nat): string
    requires |between| == |pems| + 1 && k <= |pems|
    decreases |pems| - k
  {
    if k == |pems| then between[k] else between[k] + pems[k] + Chain(pems, between, k + 1)
  }

  /** At `at` stand a text, a boundary, a body and a boundary. */
  ghost predicate BlockStandsAt(pem: string, at: nat, plain: string, begin: string, body: string, end: string) {
    var b := at + |plain|;
    var c := b + |begin|;
    var d := c + |body|;
    d + |end| <= |pem| && pem[at..b] == plain && pem[b..c] == begin && pem[c..d] == body && pem[d..d + |end|] == end
  }

  ghost predicate ChainStandsAt(pem: string, at: nat, bodies: seq<string>, between: seq<string>, k: nat, begin: string,
                                end: string)
    requires |between| == |bodies| + 1 && k <= |bodies|
    decreases |bodies| - k
  {
    at <= |pem| &&
    if k == |bodies| then pem[at..] == between[k]
    else
      var next := at + |between[k]| + |begin| + |bodies[k]| + |end|;
      BlockStandsAt(pem, at, between[k], begin, bodies[k], end)
      && ChainStandsAt(pem, next, bodies, between, k + 1, begin, end)
  }

  lemma Middle(x: string, y: string, z: string)
    ensures (x + y + z)[|x|..|x| + |y|] == y
  {
  }

  lemma PlainStands(before: string, plain: string, begin: string, body: string, end: string, after: string)
    ensures (before + (plain + (begin + body + end) + after))[|before|..|before| + |plain|] == plain
  {
    assert before + (plain + (begin + body + end) + after) == before + plain + ((begin + body + end) + after);
    Middle(before, plain, (begin + body + end) + after);
  }

  lemma BeginStands(before: string, plain: string, begin: string, body: string, end: string, after: string)
    ensures var b := |before| + |plain|;
            (before + (plain + (begin + body + end) + after))[b..b + |begin|] == begin
  {
    assert before + (plain + (begin + body + end) + after) == (before + plain) + begin + (body + end + after);
    Middle(before + plain, begin, body + end + after);
  }

  lemma BodyStands(before: string, plain: string, begin: string, body: string, end: string, after: string)
    ensures var c := |before| + |plain| + |begin|;
            (before + (plain + (begin + body + end) + after))[c..c + |body|] == body
  {
    assert before + (plain + (begin + body + end) + after) == (before + plain + begin) + body + (end + after);
    Middle(before + plain + begin, body, end + after);
  }

  lemma EndStands(before: string, plain: string, begin: string, body: string, end: string, after: string)
    ensures var d := |before| + |plain| + |begin| + |body|;
            (before + (plain + (begin + body + end) + after))[d..d + |end|] == end
  {
    assert before + (plain + (begin + body + end) + after) == (before + plain + begin + body) + end + after;
    Middle(before + plain + begin + body, end, after);
  }

  lemma BlockStands(before: string, plain: string, begin: string, body: string, end: string, after: string)
    ensures BlockStandsAt(before + (plain + (begin + body + end) + after), |before|, plain, begin, body, end)
  {
    PlainStands(before, plain, begin, body, end, after);
    BeginStands(before, plain, begin, body, end, after);
    BodyStands(before, plain, begin, body, end, after);
    EndStands(before, plain, begin, body, end, after);
  }

  lemma Regroup(before: string, plain: string, pem: string, rest: string)
    ensures before + (plain + pem + rest) == (before + plain + pem) + rest
    ensures |before + plain + pem| == |before| + |plain| + |pem|
  {
  }

  lemma LastStands(before: string, last: string)
    ensures (before + last)[|before|..] == last
  {
  }

  lemma HeadStands(before: string, plain: string, begin: string, body: string, end: string, rest: string, pem: string,
                   all: string)
    returns (head: string)
    requires pem == begin + body + end && all == before + (plain + pem + rest)
    ensures BlockStandsAt(all, |before|, plain, begin, body, end)
    ensures all == head + rest && |head| == |before| + |plain| + |begin| + |body| + |end|
  {
    head := before + plain + pem;
    BlockStands(before, plain, begin, body, end, rest);
    Regroup(before, plain, pem, rest);
  }

  lemma StandsBefore(pem: string, at: nat, bodies: seq<string>, between: seq<string>, k: nat, begin: string,
                     end: string, next: nat)
    requires |between| == |bodies| + 1 && k < |bodies| && at <= |pem|
    requires next == at + |between[k]| + |begin| + |bodies[k]| + |end|
    requires BlockStandsAt(pem, at, between[k], begin, bodies[k], end)
             && ChainStandsAt(pem, next, bodies, between, k + 1, begin, end)
    ensures ChainStandsAt(pem, at, bodies, between, k, begin, end)
  {
  }

  lemma {:induction false} ChainStands(before: string, pems: seq<string>, bodies: seq<string>, between: seq<string>,
                                       k: nat,
                                       begin: string, end: string, all: string)
    requires |between| == |bodies| + 1 == |pems| + 1 && k <= |pems|
    requires forall i :: 0 <= i < |pems| ==> pems[i] == begin + bodies[i] + end
    requires all == before + Chain(pems, between, k)
    ensures ChainStandsAt(all, |before|, bodies, between, k, begin, end)
    decreases |pems| - k
  {
    if k == |pems| {
      LastStands(before, between[k]);
    } else {
      var head := HeadStands(before, between[k], begin, bodies[k], end, Chain(pems, between, k + 1), pems[k], all);
      ChainStands(head, pems, bodies, between, k + 1, begin, end, all);
      StandsBefore(all, |before|, bodies, between, k, begin, end, |head|);
    }
  }

  lemma NothingAfterPlain(s: string, from: nat, pattern: string)
    requires from <= |s| && NoHyphen(s[from..]) && pattern != "" && pattern[0] == '-'
    ensures IndexOf(s, pattern, from) == None
  {
    IndexIsLeftmost(s, pattern, from);
    forall i | from <= i ensures !OccursAt(s, pattern, i) {
      if i < |s| { NotInPlain(s, s[from..], from, pattern, i); }
    }
  }

  lemma BlockRead(pem: string, at: nat, plain: string, begin: string, body: string, end: string)
    requires BlockStandsAt(pem, at, plain, begin, body, end) && NoHyphen(plain) && NoHyphen(body)
    requires begin != "" && begin[0] == '-' && end != "" && end[0] == '-'
    ensures FindPemBlock(pem, begin, end, at) == Some(Block(body, at + |plain| + |begin| + |body| + |end|))
  {
    var b := at + |plain|;
    var d := b + |begin| + |body|;
    FindsPair(pem, at, b, d, begin, end);
    BlockFound(pem, at, b, d, begin, end);
  }

  lemma NoBlock(pem: string, at: nat, begin: string, end: string)
    requires at <= |pem| && NoHyphen(pem[at..]) && begin != "" && begin[0] == '-'
    ensures FindPemBlock(pem, begin, end, at) == None
  {
    NothingAfterPlain(pem, at, begin);
  }

  ghost predicate AllPlain(texts: seq<string>) {
    forall i :: 0 <= i < |texts| ==> NoHyphen(texts[i])
  }

  lemma FirstFound(pem: string, at: nat, bodies: seq<string>, between: seq<string>, k: nat, begin: string, end: string,
                   next: nat)
    requires |between| == |bodies| + 1 && k < |bodies| && AllPlain(bodies) && AllPlain(between)
    requires ChainStandsAt(pem, at, bodies, between, k, begin, end)
    requires begin != "" && begin[0] == '-' && end != "" && end[0] == '-'
    requires next == at + |between[k]| + |bodies[k]| + (|begin| + |end|)
    ensures FindPemBlock(pem, begin, end, at) == Some(Block(bodies[k], next))
    ensures ChainStandsAt(pem, next, bodies, between, k + 1, begin, end)
  {
    assert next == at + |between[k]| + |begin| + |bodies[k]| + |end|;
    BlockRead(pem, at, between[k], begin, bodies[k], end);
  }

  /** From where block number `k` of a chain stands, the contents of the remaining blocks are found. */
  lemma {:induction false} ChainIsFound(pem: string, at: nat, bodies: seq<string>, between: seq<string>, k: nat,
                                        begin: string, end: string)
    requires |between| == |bodies| + 1 && k <= |bodies| && AllPlain(bodies) && AllPlain(between)
    requires ChainStandsAt(pem, at, bodies, between, k, begin, end)
    requires begin != "" && begin[0] == '-' && end != "" && end[0] == '-'
    ensures Contents(pem, begin, end, at) == bodies[k..]
    decreases |bodies| - k
  {
    if k == |bodies| {
      NoBlock(pem, at, begin, end);
    } else {
      var next := at + |between[k]| + |bodies[k]| + (|begin| + |end|);
      FirstFound(pem, at, bodies, between, k, begin, end, next);
      ChainIsFound(pem, next, bodies, between, k + 1, begin, end);
      FirstContents(pem, begin, end, at, bodies, k, next);
    }
  }

  lemma FirstContents(pem: string, begin: string, end: string, at: nat, bodies: seq<string>, k: nat, next: nat)
    requires k < |bodies| && begin != "" && FindPemBlock(pem, begin, end, at) == Some(Block(bodies[k], next))
    requires Contents(pem, begin, end, next) == bodies[k + 1..]
    ensures Contents(pem, begin, end, at) == bodies[k..]
  {
    assert bodies[k..] == [bodies[k]] + bodies[k + 1..];
  }

  lemma ChainRead(pems: seq<string>, bodies: seq<string>, between: seq<string>, begin: string, end: string)
    requires |between| == |bodies| + 1 == |pems| + 1 && forall i :: 0 <= i < |pems| ==>
               pems[i] == begin + bodies[i] + end
    requires AllPlain(bodies) && AllPlain(between)
    requires begin != "" && begin[0] == '-' && end != "" && end[0] == '-'
    ensures Contents(Chain(pems, between, 0), begin, end, 0) == bodies
  {
    var all := Chain(pems, between, 0);
    assert all == "" + all;
    ChainStands("", pems, bodies, between, 0, begin, end, all);
    ChainIsFound(all, 0, bodies, between, 0, begin, end);
    assert bodies[0..] == bodies;
  }

  function Pems(ders: seq<string>): seq<string> {
    seq(|ders|, i requires 0 <= i < |ders| => ToPem(ders[i]))
  }

  function Bodies(ders: seq<string>): seq<string> {
    seq(|ders|, i requires 0 <= i < |ders| => Body(ders[i]))
  }

  lemma {:induction false} BodiesStripped(ders: seq<string>)
    requires forall i :: 0 <= i < |ders| ==> Plain(ders[i])
    ensures Stripped(Bodies(ders)) == ders
  {
    if ders != [] {
      BodyKeepsText(ders[0]);
      assert Bodies(ders)[1..] == Bodies(ders[1..]);
      BodiesStripped(ders[1..]);
      assert ders == [ders[0]] + ders[1..];
    }
  }

  lemma PemsAreFramed(ders: seq<string>)
    ensures forall i :: 0 <= i < |ders| ==>
              Pems(ders)[i] == Boundary(BEGIN, CERTIFICATE) + Bodies(ders)[i] + Boundary(END, CERTIFICATE)
  {
  }

  lemma BodiesArePlain(ders: seq<string>)
    requires forall i :: 0 <= i < |ders| ==> Plain(ders[i])
    ensures AllPlain(Bodies(ders))
  {
    forall i | 0 <= i < |ders| ensures NoHyphen(Bodies(ders)[i]) { BodyKeepsText(ders[i]); }
  }

  lemma BoundaryStarts(keyword: Keyword, name: string)
    ensures Boundary(keyword, name) != "" && Boundary(keyword, name)[0] == '-'
  {
  }

  /** Every written chain is read back: the certificates in order, whatever text without hyphens stands around them. */
  lemma ChainRoundTrip(ders: seq<string>, between: seq<string>)
    requires |between| == |ders| + 1
    requires (forall i :: 0 <= i < |ders| ==> Plain(ders[i])) && AllPlain(between)
    ensures Certificates(Chain(Pems(ders), between, 0)) == ders
  {
    PemsAreFramed(ders);
    BodiesArePlain(ders);
    BoundaryStarts(BEGIN, CERTIFICATE);
    BoundaryStarts(END, CERTIFICATE);
    ChainRead(Pems(ders), Bodies(ders), between, Boundary(BEGIN, CERTIFICATE), Boundary(END, CERTIFICATE));
    BodiesStripped(ders);
  }

  lemma EncodedIsPlain(bytes: seq<Base64.Byte>)
    ensures Plain(Base64.Encode(bytes, Base64.Standard))
  {
    var s := Base64.Encode(bytes, Base64.Standard);
    Base64.ValuesOfText(Base64.Standard, Base64.Sextets(bytes));
    forall i | 0 <= i < |s| ensures s[i] != '-' && !IsSpace(s[i]) {
      if i < |Base64.Sextets(bytes)| {
        assert Base64.IndexOf(Base64.Standard, s[i]).Some?;
      } else {
        assert s[i] == '=';
      }
    }
  }
}
