/** `mandatoryClaimStatus`: present, missing or undisclosed, and how the verdict behaves as more is disclosed. */
module Mandatory {
  import opened Basics
  import opened Json
  import opened Embedding
  import opened Collecting

  datatype SdPolicy = Always | Allowed | Never

  datatype Claim = Claim(path: ClaimPath, sd: Option<SdPolicy>, mandatory: bool)

  datatype Status = Present | Missing | Undisclosed

  // ---------- childEntries ----------

  function SdItems(node: Json): seq<Json> {
    match Child(node, Key(SD_DIGEST))
    case Some(Arr(items)) => items
    case _ => []
  }

  /** The disclosed values among array elements, and the elements that are no digests. */
  function Elements(items: seq<Json>, m: Disclosures): seq<Json> {
    if items == [] then []
    else
      var last := items[|items| - 1];
      Elements(items[..|items| - 1], m) +
      match PlaceholderDigest(last)
      case None => [last]
      case Some(d) => if d in m then [m[d].value] else []
  }

  predicate HidesElement(items: seq<Json>, m: Disclosures) {
    exists i :: 0 <= i < |items| && PlaceholderDigest(items[i]).Some? && PlaceholderDigest(items[i]).value !in m
  }

  /** The values disclosed under one name. */
  function Named(digests: seq<Json>, name: string, m: Disclosures): seq<Json> {
    if digests == [] then []
    else
      var last := digests[|digests| - 1];
      Named(digests[..|digests| - 1], name, m) +
      if last.Str? && last.s in m && m[last.s].key == Some(name) then [m[last.s].value] else []
  }

  predicate HidesMember(digests: seq<Json>, m: Disclosures) {
    exists i :: 0 <= i < |digests| && !(digests[i].Str? && digests[i].s in m)
  }

  function Own(node: Json, name: string): seq<Json> {
    if name == SD_DIGEST then [] else match Child(node, Key(name)) case Some(v) => [v] case None => []
  }

  datatype Entries = Entries(present: seq<Json>, hidden: bool)

  function ChildEntries(node: Json, segment: Option<string>, m: Disclosures): Entries {
    match segment
    case None => if node.Arr? then Entries(Elements(node.items, m), HidesElement(node.items, m)) else Entries([], false)
    case Some(name) =>
      if node.Obj? then Entries(Own(node, name) + Named(SdItems(node), name, m), HidesMember(SdItems(node), m))
      else Entries([], false)
  }

  // ---------- the walk ----------

  /** The policy of the first metadata claim with this path. */
  function SdOf(metadata: seq<Claim>, path: ClaimPath): Option<SdPolicy> {
    if metadata == [] then None
    else if metadata[0].path == path then metadata[0].sd
    else SdOf(metadata[1..], path)
  }

  function Walk(path: ClaimPath, metadata: seq<Claim>, node: Json, depth: nat, m: Disclosures): Status
    requires depth <= |path|
    decreases |path| - depth, 1, 0
  {
    if depth == |path| then Present
    else
      var entries := ChildEntries(node, path[depth], m);
      var status := Worst(WalkAll(path, metadata, entries.present, depth + 1, m));
      var never := SdOf(metadata, path[..depth + 1]) == Some(Never);
      Verdict(status, path[depth].None?, node.Arr?, entries.present == [], entries.hidden, never)
  }

  /** The status of a node from the worst status of its children and from what is there and hidden. */
  function Verdict(status: Status, isNull: bool, isArray: bool, nothing: bool, hidden: bool, never: bool): Status {
    if status == Missing then Missing
    else if isNull then
      if !isArray then Missing else if nothing && hidden then Undisclosed else status
    else if !nothing then status
    else if hidden && !never then Undisclosed
    else Missing
  }

  function WalkAll(path: ClaimPath, metadata: seq<Claim>, nodes: seq<Json>, depth: nat, m: Disclosures): seq<Status>
    requires depth <= |path|
    decreases |path| - depth, 2, 0
  {
    seq(|nodes|, i requires 0 <= i < |nodes| => Walk(path, metadata, nodes[i], depth, m))
  }

  /** The worst of some statuses, present if there is none. */
  function Worst(statuses: seq<Status>): (r: Status)
    ensures r == Missing <==> Missing in statuses
    ensures r == Present <==> forall i :: 0 <= i < |statuses| ==> statuses[i] == Present
  {
    if statuses == [] then Present
    else
      var before, last := Worst(statuses[..|statuses| - 1]), statuses[|statuses| - 1];
      assert statuses == statuses[..|statuses| - 1] + [last];
      if before == Missing || last == Missing then Missing
      else if before == Undisclosed || last == Undisclosed then Undisclosed
      else Present
  }

  function StatusOf(claim: Claim, metadata: seq<Claim>, payload: Json, m: Disclosures): Status {
    Walk(claim.path, metadata, payload, 0, m)
  }

  /** A null-free step that is present has a child, and its children are present. */
  lemma PresentStep(path: ClaimPath, metadata: seq<Claim>, node: Json, depth: nat, m: Disclosures)
    requires depth < |path| && path[depth].Some? && Walk(path, metadata, node, depth, m) == Present
    ensures var present := ChildEntries(node, path[depth], m).present;
            present != [] && Walk(path, metadata, present[0], depth + 1, m) == Present
  {
    var present := ChildEntries(node, path[depth], m).present;
    var all := WalkAll(path, metadata, present, depth + 1, m);
    assert Worst(all) == Present;
    assert all[0] == Present;
  }

  /** A step by name to the only child there is takes its status. */
  lemma SingleStep(path: ClaimPath, metadata: seq<Claim>, node: Json, depth: nat, m: Disclosures, v: Json)
    requires depth < |path| && path[depth].Some? && ChildEntries(node, path[depth], m).present == [v]
    ensures Walk(path, metadata, node, depth, m) == Walk(path, metadata, v, depth + 1, m)
  {
    WorstOfOne(WalkAll(path, metadata, [v], depth + 1, m));
  }

  lemma WorstOfOne(statuses: seq<Status>)
    requires |statuses| == 1
    ensures Worst(statuses) == statuses[0]
  {
    assert statuses[..0] == [];
  }

  lemma WorstOneMore(statuses: seq<Status>, i: nat)
    requires i < |statuses|
    ensures Worst(statuses[..i + 1]) ==
            var before := Worst(statuses[..i]);
            if before == Missing || statuses[i] == Missing then Missing
            else if before == Undisclosed || statuses[i] == Undisclosed then Undisclosed
            else Present
    ensures statuses[i] == Missing ==> Worst(statuses) == Missing
  {
    assert statuses[..i + 1][..i] == statuses[..i];
  }

  method MandatoryClaimStatus(claim: Claim, metadata: seq<Claim>, payload: Json, disclosures: Disclosures)
    returns (status: Status)
    ensures status == StatusOf(claim, metadata, payload, disclosures)
  {
    status := WalkNode(claim.path, metadata, payload, 0, disclosures);
  }

  method WalkNode(path: ClaimPath, metadata: seq<Claim>, node: Json, depth: nat, m: Disclosures)
    returns (status: Status)
    requires depth <= |path|
    ensures status == Walk(path, metadata, node, depth, m)
    decreases |path| - depth
  {
    if depth == |path| {
      return Present;
    }
    var segment := path[depth];
    var entries := ChildEntries(node, segment, m);
    ghost var statuses := WalkAll(path, metadata, entries.present, depth + 1, m);
    status := Present;
    for i := 0 to |entries.present|
      invariant status == Worst(statuses[..i]) != Missing
    {
      WorstOneMore(statuses, i);
      var childStatus := WalkNode(path, metadata, entries.present[i], depth + 1, m);
      if childStatus == Missing {
        return Missing;
      }
      if childStatus == Undisclosed {
        status := Undisclosed;
      }
    }
    assert statuses[..|statuses|] == statuses;
    if segment.None? {
      if !node.Arr? {
        return Missing;
      }
      return if entries.present == [] && entries.hidden then Undisclosed else status;
    }
    if entries.present != [] {
      return status;
    }
    return if entries.hidden && SdOf(metadata, path[..depth + 1]) != Some(Never) then Undisclosed else Missing;
  }

  // ---------- growing disclosure ----------

  ghost predicate Extends(m: Disclosures, more: Disclosures) {
    forall d :: d in m ==> d in more && more[d] == m[d]
  }

  lemma {:induction false} ElementsGrow(items: seq<Json>, m: Disclosures, more: Disclosures)
    requires Extends(m, more)
    ensures forall v :: v in Elements(items, m) ==> v in Elements(items, more)
    ensures !HidesElement(items, m) ==> Elements(items, more) == Elements(items, m)
  {
    if items != [] {
      var n := |items| - 1;
      ElementsGrow(items[..n], m, more);
      if !HidesElement(items, m) {
        assert !HidesElement(items[..n], m);
      }
    }
  }

  lemma {:induction false} NamedGrow(digests: seq<Json>, name: string, m: Disclosures, more: Disclosures)
    requires Extends(m, more)
    ensures forall v :: v in Named(digests, name, m) ==> v in Named(digests, name, more)
    ensures !HidesMember(digests, m) ==> Named(digests, name, more) == Named(digests, name, m)
  {
    if digests != [] {
      var n := |digests| - 1;
      NamedGrow(digests[..n], name, m, more);
      if !HidesMember(digests, m) {
        assert forall i :: 0 <= i < n ==> digests[..n][i] == digests[i];
        assert !HidesMember(digests[..n], m);
        assert digests[n].Str? && digests[n].s in m;
      }
    }
  }

  /** What is present stays present; nothing is added unless something was hidden; hiding never starts. */
  lemma EntriesGrow(node: Json, segment: Option<string>, m: Disclosures, more: Disclosures)
    requires Extends(m, more)
    ensures var a, b := ChildEntries(node, segment, m), ChildEntries(node, segment, more);
            && (forall v :: v in a.present ==> v in b.present)
            && (!a.hidden ==> b == a)
            && (b.hidden ==> a.hidden)
  {
    match segment
    case None => if node.Arr? { ElementsGrow(node.items, m, more); }
    case Some(name) => if node.Obj? { NamedGrow(SdItems(node), name, m, more); }
  }

  /** No prefix of the path from `depth` on is declared never selectively disclosable. */
  ghost predicate NoNever(path: ClaimPath, metadata: seq<Claim>) {
    forall n :: 0 < n <= |path| ==> SdOf(metadata, path[..n]) != Some(Never)
  }

  lemma {:induction false} MissingStays(path: ClaimPath, metadata: seq<Claim>, node: Json, depth: nat, m: Disclosures,
                                        more: Disclosures)
    requires depth <= |path| && Extends(m, more) && NoNever(path, metadata)
    requires Walk(path, metadata, node, depth, m) == Missing
    ensures Walk(path, metadata, node, depth, more) == Missing
    decreases |path| - depth
  {
    var a, b := ChildEntries(node, path[depth], m), ChildEntries(node, path[depth], more);
    EntriesGrow(node, path[depth], m, more);
    var before, after := WalkAll(path, metadata, a.present, depth + 1, m),
        WalkAll(path, metadata, b.present, depth + 1, more);
    if Missing in before {
      var i :| 0 <= i < |before| && before[i] == Missing;
      MissingStays(path, metadata, a.present[i], depth + 1, m, more);
      assert a.present[i] in b.present;
      var k :| 0 <= k < |b.present| && b.present[k] == a.present[i];
      assert after[k] == Missing;
    }
  }

  /** A claim reported missing is missing under every larger set of disclosures, if no prefix of it is `never`. */
  lemma MissingIsFinal(claim: Claim, metadata: seq<Claim>, payload: Json, m: Disclosures, more: Disclosures)
    requires Extends(m, more) && NoNever(claim.path, metadata)
    requires StatusOf(claim, metadata, payload, m) == Missing
    ensures StatusOf(claim, metadata, payload, more) == Missing
  {
    MissingStays(claim.path, metadata, payload, 0, m, more);
  }

  /** Along the path, every name occurs at most once per node. */
  ghost predicate NamesOnce(path: ClaimPath, node: Json, depth: nat, m: Disclosures)
    requires depth <= |path|
    decreases |path| - depth
  {
    depth < |path| ==>
      var present := ChildEntries(node, path[depth], m).present;
      |present| <= 1 && (|present| == 1 ==> NamesOnce(path, present[0], depth + 1, m))
  }

  ghost predicate NullFree(path: ClaimPath) {
    forall i :: 0 <= i < |path| ==> path[i].Some?
  }

  /** A property of values at depths of the walk. */
  type Judge = (nat, Json) -> bool

  ghost predicate JudgesPresent(w: Judge, path: ClaimPath, metadata: seq<Claim>, m: Disclosures) {
    forall depth: nat, v {:trigger Walk(path, metadata, v, depth, m)} ::
      depth <= |path| ==> (w(depth, v) <==> Walk(path, metadata, v, depth, m) == Present)
  }

  ghost predicate JudgesOnce(w: Judge, path: ClaimPath, m: Disclosures) {
    forall depth: nat, v {:trigger NamesOnce(path, v, depth, m)} ::
      depth <= |path| ==> (w(depth, v) <==> NamesOnce(path, v, depth, m))
  }

  /** A claim that is present leads to a child from where it is present; if it stays so there, it stays so here. */
  lemma PresentStaysAt(path: ClaimPath, metadata: seq<Claim>, node: Json, depth: nat, m: Disclosures, more: Disclosures,
                       now: Judge, later: Judge, once: Judge) returns (v: Json)
    requires JudgesPresent(now, path, metadata, m) && JudgesPresent(later, path, metadata, more)
             && JudgesOnce(once, path, more)
    requires depth < |path| && path[depth].Some? && Extends(m, more) && once(depth, node) && now(depth, node)
    ensures once(depth + 1, v) && now(depth + 1, v) && (later(depth + 1, v) ==> later(depth, node))
  {
    assert Walk(path, metadata, node, depth, m) == Present && NamesOnce(path, node, depth, more);
    PresentStep(path, metadata, node, depth, m);
    v := ChildEntries(node, path[depth], m).present[0];
    SameChild(path, node, depth, m, more, v);
    SingleStep(path, metadata, node, depth, more, v);
  }

  lemma {:induction false} PresentStays(path: ClaimPath, metadata: seq<Claim>, node: Json, depth: nat, m: Disclosures,
                                        more: Disclosures, now: Judge, later: Judge, once: Judge)
    requires JudgesPresent(now, path, metadata, m) && JudgesPresent(later, path, metadata, more)
             && JudgesOnce(once, path, more)
    requires depth <= |path| && NullFree(path) && Extends(m, more) && once(depth, node) && now(depth, node)
    ensures later(depth, node)
    decreases |path| - depth
  {
    if depth < |path| {
      var v := PresentStaysAt(path, metadata, node, depth, m, more, now, later, once);
      PresentStays(path, metadata, v, depth + 1, m, more, now, later, once);
    } else {
      assert Walk(path, metadata, node, depth, more) == Present;
    }
  }

  /** A child that is present is the only one, and stays so. */
  lemma SameChild(path: ClaimPath, node: Json, depth: nat, m: Disclosures, more: Disclosures, v: Json)
    requires depth < |path| && Extends(m, more) && NamesOnce(path, node, depth, more)
    requires v in ChildEntries(node, path[depth], m).present
    ensures ChildEntries(node, path[depth], more).present == [v] && NamesOnce(path, v, depth + 1, more)
  {
    EntriesGrow(node, path[depth], m, more);
  }

  /** A null-free claim reported present stays present, where names occur once per node. */
  lemma PresentIsFinal(claim: Claim, metadata: seq<Claim>, payload: Json, m: Disclosures, more: Disclosures)
    requires NullFree(claim.path) && Extends(m, more) && NamesOnce(claim.path, payload, 0, more)
    requires StatusOf(claim, metadata, payload, m) == Present
    ensures StatusOf(claim, metadata, payload, more) == Present
  {
    var path := claim.path;
    var now := (depth: nat, v: Json) => depth <= |path| && Walk(path, metadata, v, depth, m) == Present;
    var later := (depth: nat, v: Json) => depth <= |path| && Walk(path, metadata, v, depth, more) == Present;
    var once := (depth: nat, v: Json) => depth <= |path| && NamesOnce(path, v, depth, more);
    PresentStays(path, metadata, payload, 0, m, more, now, later, once);
  }

  lemma TwoElements(first: Json, second: Json, m: Disclosures)
    requires PlaceholderDigest(first).None? && PlaceholderDigest(second).Some?
    ensures var d := PlaceholderDigest(second).value;
            Elements([first, second], m) == if d in m then [first, m[d].value] else [first]
  {
    assert [first, second][..1] == [first] && [first][..0] == [];
    assert Elements([first], m) == [first];
  }

  /** A null step over an array that shows something has the worst status of what it shows. */
  lemma NullStep(path: ClaimPath, metadata: seq<Claim>, items: seq<Json>, depth: nat, m: Disclosures, v: Json)
    requires depth < |path| && path[depth].None? && v in Elements(items, m)
    ensures var status := Walk(path, metadata, Arr(items), depth, m);
            && (Walk(path, metadata, v, depth + 1, m) == Missing ==> status == Missing)
            && (Elements(items, m) == [v] && Walk(path, metadata, v, depth + 1, m) == Present ==> status == Present)
  {
    var all := WalkAll(path, metadata, Elements(items, m), depth + 1, m);
    var k :| 0 <= k < |Elements(items, m)| && Elements(items, m)[k] == v;
    assert all[k] == Walk(path, metadata, v, depth + 1, m);
  }

  /** With a null segment present can become missing: an array element disclosed later need not have the claim. */
  lemma NullCanTurnMissing(metadata: seq<Claim>, more: Disclosures)
    requires "d" in more && more["d"].value == Null
    ensures var claim := Claim([Some("l"), None, Some("a")], None, true);
            var items := [Obj([Member("a", Null)]), Obj([Member(SD_LIST_KEY, Str("d"))])];
            var payload := Obj([Member("l", Arr(items))]);
            && StatusOf(claim, metadata, payload, map[]) == Present
            && StatusOf(claim, metadata, payload, more) == Missing
  {
    var path: ClaimPath := [Some("l"), None, Some("a")];
    var items := [Obj([Member("a", Null)]), Obj([Member(SD_LIST_KEY, Str("d"))])];
    ListTurnsMissing(path, metadata, items, more);
    MemberTurnsMissing(path, metadata, "l", Arr(items), more);
  }

  lemma MemberTurnsMissing(path: ClaimPath, metadata: seq<Claim>, name: string, v: Json, more: Disclosures)
    requires path != [] && path[0] == Some(name) && name != SD_DIGEST
    requires Walk(path, metadata, v, 1, map[]) == Present && Walk(path, metadata, v, 1, more) == Missing
    ensures Walk(path, metadata, Obj([Member(name, v)]), 0, map[]) == Present
    ensures Walk(path, metadata, Obj([Member(name, v)]), 0, more) == Missing
  {
    OnlyMember(path, metadata, name, v, 0, map[]);
    OnlyMember(path, metadata, name, v, 0, more);
  }

  lemma ListTurnsMissing(path: ClaimPath, metadata: seq<Claim>, items: seq<Json>, more: Disclosures)
    requires |path| == 3 && path[1].None? && path[2] == Some("a") && "d" in more && more["d"].value == Null
    requires items == [Obj([Member("a", Null)]), Obj([Member(SD_LIST_KEY, Str("d"))])]
    ensures Walk(path, metadata, Arr(items), 1, map[]) == Present
            && Walk(path, metadata, Arr(items), 1, more) == Missing
  {
    TwoElements(items[0], items[1], map[]);
    TwoElements(items[0], items[1], more);
    ShownElement(path, metadata, more);
    NullStep(path, metadata, items, 1, map[], items[0]);
    NullStep(path, metadata, items, 1, more, Null);
  }

  lemma ShownElement(path: ClaimPath, metadata: seq<Claim>, more: Disclosures)
    requires |path| == 3 && path[2] == Some("a")
    ensures Walk(path, metadata, Obj([Member("a", Null)]), 2, map[]) == Present
    ensures Walk(path, metadata, Null, 2, more) == Missing
  {
    OnlyMember(path, metadata, "a", Null, 2, map[]);
  }

  lemma OnlyMember(path: ClaimPath, metadata: seq<Claim>, name: string, v: Json, depth: nat, m: Disclosures)
    requires depth < |path| && path[depth] == Some(name) && name != SD_DIGEST
    ensures Walk(path, metadata, Obj([Member(name, v)]), depth, m) == Walk(path, metadata, v, depth + 1, m)
  {
    ChildOfOne(name, v);
    SingleStep(path, metadata, Obj([Member(name, v)]), depth, m, v);
  }

  lemma ChildOfOne(name: string, v: Json)
    requires name != SD_DIGEST
    ensures Child(Obj([Member(name, v)]), Key(name)) == Some(v) && Child(Obj([Member(name, v)]), Key(SD_DIGEST)).None?
  {
    assert Cells(Obj([Member(name, v)])) == [Cell(Key(name), v)];
  }
}
