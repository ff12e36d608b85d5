/** Where the walk of a mandatory claim ends in a packed payload, and what verdict that gives. */
module WalkEnds {
  import opened Basics
  import opened Json
  import opened Packing
  import opened Embedding
  import opened Collecting
  import opened Presenting
  import opened Mandatory
  import opened Presence
  import opened PackedEntries

  // ---------- the walk on a packed payload ----------

  /** One null-free step: the walk goes on in the slot of that name, if there is one and it is revealed. */
  lemma NamedStep(path: ClaimPath, metadata: seq<Claim>, t: Tree, depth: nat, m: Disclosures)
    requires depth < |path| && path[depth].Some? && Sound(t) && Agrees(t, m)
    ensures var s := SlotAt(Slots(t), Key(path[depth].value));
            var found := s.Some? && Revealed(s.value, m);
            && (Walk(path, metadata, Emit(t), depth, m) == Present <==>
                  found && Walk(path, metadata, Emit(s.value.child), depth + 1, m) == Present)
            && (found ==> Sound(s.value.child) && Agrees(s.value.child, m))
  {
    EntriesOfTree(t, path[depth].value, m);
    var s := SlotAt(Slots(t), Key(path[depth].value));
    if s.None? || !Revealed(s.value, m) {
      NothingPresent(path, metadata, Emit(t), depth, m);
    } else {
      SingleStep(path, metadata, Emit(t), depth, m, Emit(s.value.child));
    }
  }

  lemma {:induction false} WalkOfPacked(path: ClaimPath, metadata: seq<Claim>, t: Tree, depth: nat, m: Disclosures)
    requires depth < |path| && NullFree(path) && Sound(t) && Agrees(t, m)
    ensures Walk(path, metadata, Emit(t), depth, m) == Present <==> Shows(t, KeysFrom(path, depth), m)
    decreases |path| - depth
  {
    NamedStep(path, metadata, t, depth, m);
    var s := SlotAt(Slots(t), Key(path[depth].value));
    var keys := KeysFrom(path, depth);
    assert keys[0] == Key(path[depth].value) && keys[1..] == KeysFrom(path, depth + 1);
    if s.Some? && Revealed(s.value, m) && depth + 1 < |path| {
      WalkOfPacked(path, metadata, s.value.child, depth + 1, m);
    }
  }

  // ---------- exactly when a claim is missing, undisclosed or present ----------

  /** The tree below a path whose slots exist. */
  ghost function Subtree(t: Tree, q: Path): Tree
    decreases |q|
  {
    if q == [] then t
    else match SlotAt(Slots(t), q[0])
         case None => t
         case Some(s) => Subtree(s.child, q[1..])
  }

  ghost predicate ShowsTo(t: Tree, q: Path, m: Disclosures) {
    q == [] || Shows(t, q, m)
  }

  /** The walk that is at depth `depth` in `t` comes to the end of `q`, which is not the end of the claim path. */
  ghost predicate WayDown(path: ClaimPath, depth: nat, t: Tree, q: Path, m: Disclosures) {
    depth + |q| < |path| && (forall i :: 0 <= i < |q| ==> Fits(path[depth + i], q[i])) && ShowsTo(t, q, m)
  }

  /** A property of a tree at a depth of the walk. */
  type Judgement = (nat, Tree) -> bool

  /** The walk from `t` takes the way `q`, all of it shown, and `p` holds of the depth and the tree it comes to. */
  ghost predicate Ends(path: ClaimPath, depth: nat, t: Tree, q: Path, m: Disclosures, p: Judgement)
    decreases |q|
  {
    depth < |path| &&
    if q == [] then p(depth, t)
    else match SlotAt(Slots(t), q[0])
         case None => false
         case Some(s) => Fits(path[depth], q[0]) && Revealed(s, m) && Ends(path, depth + 1, s.child, q[1..], m, p)
  }

  /** The walk ends below `t` somewhere where `p` holds of the depth and the tree. */
  ghost predicate Reaches(path: ClaimPath, depth: nat, t: Tree, m: Disclosures, p: Judgement) {
    exists q :: Ends(path, depth, t, q, m, p)
  }

  /** Some revealed slot that fits the segment has a child with the property. */
  ghost predicate SomeBelow(path: ClaimPath, depth: nat, t: Tree, m: Disclosures, p: Judgement)
    requires depth < |path|
  {
    var slots := Slots(t);
    exists i ::
        0 <= i < |slots| && Fits(path[depth], slots[i].seg) && Revealed(slots[i], m) && p(depth + 1, slots[i].child)
  }

  ghost function Reaching(path: ClaimPath, m: Disclosures, p: Judgement): Judgement {
    (depth: nat, t: Tree) => Reaches(path, depth, t, m, p)
  }

  /** Slots with different segments are found by their segments. */
  lemma SlotIsAt(slots: seq<Slot>, i: nat)
    requires i < |slots| && forall i, j :: 0 <= i < j < |slots| ==> slots[i].seg != slots[j].seg
    ensures SlotAt(slots, slots[i].seg) == Some(slots[i])
  {
  }

  lemma FitsStep(path: ClaimPath, depth: nat, q: Path)
    requires q != [] && depth + |q| < |path|
    ensures (forall i :: 0 <= i < |q| ==> Fits(path[depth + i], q[i])) <==>
            Fits(path[depth], q[0]) && forall i :: 0 <= i < |q[1..]| ==> Fits(path[depth + 1 + i], q[1..][i])
  {
    if forall i :: 0 <= i < |q| ==> Fits(path[depth + i], q[i]) {
      assert Fits(path[depth + 0], q[0]);
      forall i | 0 <= i < |q[1..]|
        ensures Fits(path[depth + 1 + i], q[1..][i]) { assert Fits(path[depth + (i + 1)], q[i + 1]); }
    }
    if Fits(path[depth], q[0]) && forall i :: 0 <= i < |q[1..]| ==> Fits(path[depth + 1 + i], q[1..][i]) {
      forall i | 0 <= i < |q| ensures Fits(path[depth + i], q[i]) {
        assert i > 0 ==> Fits(path[depth + 1 + (i - 1)], q[1..][i - 1]);
      }
    }
  }

  lemma StepDown(path: ClaimPath, depth: nat, t: Tree, s: Slot, q: Path, m: Disclosures)
    requires depth < |path| && q != [] && SlotAt(Slots(t), q[0]) == Some(s)
    ensures WayDown(path, depth, t, q, m) <==>
            Fits(path[depth], q[0]) && Revealed(s, m) && WayDown(path, depth + 1, s.child, q[1..], m)
  {
    if depth + |q| < |path| {
      FitsStep(path, depth, q);
      assert ShowsTo(t, q, m) <==> Revealed(s, m) && ShowsTo(s.child, q[1..], m);
    }
  }

  lemma SubtreeStep(t: Tree, s: Slot, q: Path)
    requires q != [] && SlotAt(Slots(t), q[0]) == Some(s)
    ensures Subtree(t, q) == Subtree(s.child, q[1..])
  {
  }

  /** `Ends`, in terms of the whole way. */
  ghost predicate EndsAfter(path: ClaimPath, depth: nat, t: Tree, q: Path, m: Disclosures, p: Judgement, end: nat) {
    Ends(path, depth, t, q, m, p) <==> WayDown(path, depth, t, q, m) && p(end, Subtree(t, q))
  }

  lemma EndsOneMore(path: ClaimPath, depth: nat, t: Tree, s: Slot, q: Path, m: Disclosures, p: Judgement, end: nat)
    requires depth < |path| && q != [] && SlotAt(Slots(t), q[0]) == Some(s)
    requires EndsAfter(path, depth + 1, s.child, q[1..], m, p, end)
    ensures EndsAfter(path, depth, t, q, m, p, end)
  {
    StepDown(path, depth, t, s, q, m);
    SubtreeStep(t, s, q);
  }

  lemma {:induction false} EndsIsWayDown(path: ClaimPath, depth: nat, t: Tree, q: Path, m: Disclosures, p: Judgement,
                                         end: nat)
    requires end == depth + |q|
    ensures EndsAfter(path, depth, t, q, m, p, end)
    decreases |q|
  {
    if q == [] || depth >= |path| || SlotAt(Slots(t), q[0]).None? {
      EndsAtOnce(path, depth, t, q, m, p);
    } else {
      var child := SlotAt(Slots(t), q[0]).value.child;
      EndsIsWayDown(path, depth + 1, child, q[1..], m, p, end);
      EndsOneMore(path, depth, t, SlotAt(Slots(t), q[0]).value, q, m, p, end);
    }
  }

  lemma EndsAtOnce(path: ClaimPath, depth: nat, t: Tree, q: Path, m: Disclosures, p: Judgement)
    requires q == [] || depth >= |path| || SlotAt(Slots(t), q[0]).None?
    ensures EndsAfter(path, depth, t, q, m, p, depth + |q|)
  {
    if q == [] {
      assert Subtree(t, q) == t && depth + |q| == depth;
    }
  }

  lemma ReachesDown(path: ClaimPath, depth: nat, t: Tree, m: Disclosures, p: Judgement)
    requires depth < |path| && Reaches(path, depth, t, m, p)
    ensures p(depth, t) || SomeBelow(path, depth, t, m, Reaching(path, m, p))
  {
    var q :| Ends(path, depth, t, q, m, p);
    if q != [] {
      var s := SlotAt(Slots(t), q[0]).value;
      assert Ends(path, depth + 1, s.child, q[1..], m, p);
      var i :| 0 <= i < |Slots(t)| && Slots(t)[i] == s;
      assert Reaches(path, depth + 1, Slots(t)[i].child, m, p);
    }
  }

  lemma ReachesUp(path: ClaimPath, depth: nat, t: Tree, m: Disclosures, p: Judgement, i: nat)
    requires depth < |path| && i < |Slots(t)| && SlotAt(Slots(t), Slots(t)[i].seg) == Some(Slots(t)[i])
    requires Fits(path[depth], Slots(t)[i].seg) && Revealed(Slots(t)[i], m)
             && Reaches(path, depth + 1, Slots(t)[i].child, m, p)
    ensures Reaches(path, depth, t, m, p)
  {
    var s := Slots(t)[i];
    var q :| Ends(path, depth + 1, s.child, q, m, p);
    var all := [s.seg] + q;
    assert all[0] == s.seg && all[1..] == q;
    assert Ends(path, depth, t, all, m, p);
  }

  lemma ReachesHere(path: ClaimPath, depth: nat, t: Tree, m: Disclosures, p: Judgement)
    requires depth < |path| && p(depth, t)
    ensures Reaches(path, depth, t, m, p)
  {
    assert Ends(path, depth, t, [], m, p);
  }

  lemma ReachesStep(path: ClaimPath, depth: nat, t: Tree, m: Disclosures, p: Judgement)
    requires depth < |path| && Sound(t) && Agrees(t, m)
    ensures Reaches(path, depth, t, m, p) <==> p(depth, t) || SomeBelow(path, depth, t, m, Reaching(path, m, p))
  {
    if Reaches(path, depth, t, m, p) {
      ReachesDown(path, depth, t, m, p);
    }
    if p(depth, t) {
      ReachesHere(path, depth, t, m, p);
    }
    if SomeBelow(path, depth, t, m, Reaching(path, m, p)) {
      SlotsBelow(t, m);
      var i :| 0 <= i < |Slots(t)| && Fits(path[depth], Slots(t)[i].seg) && Revealed(Slots(t)[i], m)
               && Reaches(path, depth + 1, Slots(t)[i].child, m, p);
      SlotIsAt(Slots(t), i);
      ReachesUp(path, depth, t, m, p, i);
    }
  }

  ghost predicate FindsNone(t: Tree, segment: Option<string>, m: Disclosures) {
    forall i :: 0 <= i < |Slots(t)| ==> !(Fits(segment, Slots(t)[i].seg) && Revealed(Slots(t)[i], m))
  }

  ghost predicate IsNever(path: ClaimPath, metadata: seq<Claim>, depth: nat)
    requires depth < |path|
  {
    SdOf(metadata, path[..depth + 1]) == Some(Never)
  }

  /** Here the walk says missing, whatever it says elsewhere. */
  ghost predicate Loses(path: ClaimPath, metadata: seq<Claim>, m: Disclosures, depth: nat, t: Tree) {
    depth < |path| &&
    match path[depth]
    case None => !IsArray(t)
    case Some(_) => FindsNone(t, path[depth], m) && (IsArray(t) || !Concealing(t, m) || IsNever(path, metadata, depth))
  }

  /** Here the walk finds nothing but a digest that may hide the claim. */
  ghost predicate Withholds(path: ClaimPath, metadata: seq<Claim>, m: Disclosures, depth: nat, t: Tree) {
    depth < |path| && FindsNone(t, path[depth], m) && Concealing(t, m) && (IsArray(t) <==> path[depth].None?)
    && (path[depth].Some? ==> !IsNever(path, metadata, depth))
  }

  ghost function Losing(path: ClaimPath, metadata: seq<Claim>, m: Disclosures): Judgement {
    (depth: nat, t: Tree) => Loses(path, metadata, m, depth, t)
  }

  ghost function Stopping(path: ClaimPath, metadata: seq<Claim>, m: Disclosures): Judgement {
    (depth: nat, t: Tree) => Loses(path, metadata, m, depth, t) || Withholds(path, metadata, m, depth, t)
  }

  /** Some revealed slot that fits the segment has a value with the property. */
  ghost predicate SomeChild(t: Tree, segment: Option<string>, depth: nat, m: Disclosures, w: Judge) {
    exists i ::
        0 <= i < |Slots(t)| && Fits(segment, Slots(t)[i].seg) && Revealed(Slots(t)[i], m)
        && w(depth, Emit(Slots(t)[i].child))
  }

  lemma SomeFound(t: Tree, segment: Option<string>, depth: nat, m: Disclosures, w: Judge)
    requires Sound(t) && Agrees(t, m)
    ensures var present := ChildEntries(Emit(t), segment, m).present;
            && (SomeChild(t, segment, depth, m, w) <==> exists v :: v in present && w(depth, v))
            && (FindsNone(t, segment, m) <==> present == [])
  {
    EntriesOfSegment(t, segment, m);
    var present := ChildEntries(Emit(t), segment, m).present;
    assert FindsRevealed(ChildEntries(Emit(t), segment, m), Slots(t), segment, m);
    if present != [] {
      assert present[0] in present;
    }
  }

  ghost predicate TellsMissing(w: Judge, path: ClaimPath, metadata: seq<Claim>, m: Disclosures) {
    forall depth: nat, v {:trigger Walk(path, metadata, v, depth, m)} ::
      depth <= |path| ==> (w(depth, v) <==> Walk(path, metadata, v, depth, m) == Missing)
  }

  ghost predicate TellsUnmet(w: Judge, path: ClaimPath, metadata: seq<Claim>, m: Disclosures) {
    forall depth: nat, v {:trigger Walk(path, metadata, v, depth, m)} ::
      depth <= |path| ==> (w(depth, v) <==> Walk(path, metadata, v, depth, m) != Present)
  }

  lemma WorstIsMissing(path: ClaimPath, metadata: seq<Claim>, nodes: seq<Json>, depth: nat, m: Disclosures, w: Judge)
    requires depth <= |path| && TellsMissing(w, path, metadata, m)
    ensures Worst(WalkAll(path, metadata, nodes, depth, m)) == Missing <==> exists v :: v in nodes && w(depth, v)
  {
    var all := WalkAll(path, metadata, nodes, depth, m);
    forall k | 0 <= k < |all| ensures nodes[k] in nodes && all[k] == Walk(path, metadata, nodes[k], depth, m) {}
    if v :| v in nodes && w(depth, v) {
      var k :| 0 <= k < |nodes| && nodes[k] == v;
      assert all[k] == Missing;
    }
  }

  lemma WorstIsUnmet(path: ClaimPath, metadata: seq<Claim>, nodes: seq<Json>, depth: nat, m: Disclosures, w: Judge)
    requires depth <= |path| && TellsUnmet(w, path, metadata, m)
    ensures Worst(WalkAll(path, metadata, nodes, depth, m)) != Present <==> exists v :: v in nodes && w(depth, v)
  {
    var all := WalkAll(path, metadata, nodes, depth, m);
    forall k | 0 <= k < |all| ensures nodes[k] in nodes && all[k] == Walk(path, metadata, nodes[k], depth, m) {}
    if v :| v in nodes && w(depth, v) {
      var k :| 0 <= k < |nodes| && nodes[k] == v;
      assert all[k] != Present;
    }
  }

  /** One step of the walk, in terms of what `childEntries` finds: what makes it say missing. */
  lemma MissingAtNode(path: ClaimPath, metadata: seq<Claim>, node: Json, depth: nat, m: Disclosures, w: Judge)
    requires depth < |path| && TellsMissing(w, path, metadata, m)
    ensures var e := ChildEntries(node, path[depth], m);
            w(depth, node) <==>
              || (exists v :: v in e.present && w(depth + 1, v))
              || (if path[depth].None? then !node.Arr?
                  else e.present == [] && (!e.hidden || IsNever(path, metadata, depth)))
  {
    WorstIsMissing(path, metadata, ChildEntries(node, path[depth], m).present, depth + 1, m, w);
    assert w(depth, node) <==> Walk(path, metadata, node, depth, m) == Missing;
  }

  /** The same for anything but present. */
  lemma UnmetAtNode(path: ClaimPath, metadata: seq<Claim>, node: Json, depth: nat, m: Disclosures, w: Judge)
    requires depth < |path| && TellsUnmet(w, path, metadata, m)
    ensures var e := ChildEntries(node, path[depth], m);
            w(depth, node) <==>
              || (exists v :: v in e.present && w(depth + 1, v))
              || (if path[depth].None? then !node.Arr? || (e.present == [] && e.hidden) else e.present == [])
  {
    WorstIsUnmet(path, metadata, ChildEntries(node, path[depth], m).present, depth + 1, m, w);
    assert w(depth, node) <==> Walk(path, metadata, node, depth, m) != Present;
  }

  /** One step of the walk, in terms of the slots: what makes it say missing. */
  lemma MissingStep(path: ClaimPath, metadata: seq<Claim>, t: Tree, depth: nat, m: Disclosures, w: Judge)
    requires depth < |path| && Sound(t) && Agrees(t, m) && TellsMissing(w, path, metadata, m)
    ensures w(depth, Emit(t)) <==> Losing(path, metadata, m)(depth, t) || SomeChild(t, path[depth], depth + 1, m, w)
  {
    EntriesOfSegment(t, path[depth], m);
    SomeFound(t, path[depth], depth + 1, m, w);
    MissingAtNode(path, metadata, Emit(t), depth, m, w);
  }

  /** One step of the walk, in terms of the slots: what makes it say anything but present. */
  lemma UnmetStep(path: ClaimPath, metadata: seq<Claim>, t: Tree, depth: nat, m: Disclosures, w: Judge)
    requires depth < |path| && Sound(t) && Agrees(t, m) && TellsUnmet(w, path, metadata, m)
    ensures w(depth, Emit(t)) <==> Stopping(path, metadata, m)(depth, t) || SomeChild(t, path[depth], depth + 1, m, w)
  {
    EntriesOfSegment(t, path[depth], m);
    SomeFound(t, path[depth], depth + 1, m, w);
    UnmetAtNode(path, metadata, Emit(t), depth, m, w);
  }

  /**
   * A judgement on a tree that holds if it stops here or if it holds of a child, and of nothing at the end of the path.
   */
  ghost predicate Spreads(path: ClaimPath, m: Disclosures, bad: Judgement, stops: Judgement) {
    && (forall t {:trigger bad(|path|, t)} :: !bad(|path|, t))
    && (forall depth: nat, t {:trigger stops(depth, t)} :: depth < |path| && Sound(t) && Agrees(t, m) ==>
          (bad(depth, t) <==> stops(depth, t) || SomeBelow(path, depth, t, m, bad)))
  }

  lemma {:induction false} SpreadingReaches(path: ClaimPath, depth: nat, t: Tree, m: Disclosures, bad: Judgement,
                                            stops: Judgement)
    requires depth <= |path| && Sound(t) && Agrees(t, m) && Spreads(path, m, bad, stops)
    ensures bad(depth, t) <==> Reaches(path, depth, t, m, stops)
    decreases |path| - depth
  {
    if depth == |path| {
      NoWayLeft(path, depth, t, m, stops);
    } else {
      SlotsBelow(t, m);
      forall i | 0 <= i < |Slots(t)|
        ensures bad(depth + 1, Slots(t)[i].child) <==> Reaching(path, m, stops)(depth + 1, Slots(t)[i].child)
      {
        SpreadingReaches(path, depth + 1, Slots(t)[i].child, m, bad, stops);
      }
      SpreadingStep(path, depth, t, m, bad, stops);
    }
  }

  lemma SpreadingStep(path: ClaimPath, depth: nat, t: Tree, m: Disclosures, bad: Judgement, stops: Judgement)
    requires depth < |path| && Sound(t) && Agrees(t, m) && Spreads(path, m, bad, stops)
    requires forall i :: 0 <= i < |Slots(t)| ==>
               (bad(depth + 1, Slots(t)[i].child) <==> Reaching(path, m, stops)(depth + 1, Slots(t)[i].child))
    ensures bad(depth, t) <==> Reaches(path, depth, t, m, stops)
  {
    SameBelow(path, depth, t, m, bad, Reaching(path, m, stops));
    ReachesStep(path, depth, t, m, stops);
    assert stops(depth, t) || !stops(depth, t);
  }

  lemma SameBelow(path: ClaimPath, depth: nat, t: Tree, m: Disclosures, p: Judgement, q: Judgement)
    requires depth < |path| && forall i :: 0 <= i < |Slots(t)| ==>
               (p(depth + 1, Slots(t)[i].child) <==> q(depth + 1, Slots(t)[i].child))
    ensures SomeBelow(path, depth, t, m, p) <==> SomeBelow(path, depth, t, m, q)
  {
  }

  lemma NoWayLeft(path: ClaimPath, depth: nat, t: Tree, m: Disclosures, p: Judgement)
    requires depth == |path|
    ensures !Reaches(path, depth, t, m, p)
  {
  }

  /** The judgement on a tree is the verdict on what it stands for. */
  ghost predicate Judges(bad: Judgement, w: Judge) {
    forall depth: nat, t {:trigger bad(depth, t)} :: bad(depth, t) <==> w(depth, Emit(t))
  }

  lemma MissingSpreads(path: ClaimPath, metadata: seq<Claim>, m: Disclosures, w: Judge, bad: Judgement)
    requires TellsMissing(w, path, metadata, m) && Judges(bad, w)
    ensures Spreads(path, m, bad, Losing(path, metadata, m))
  {
    forall t ensures !bad(|path|, t) {
      assert Walk(path, metadata, Emit(t), |path|, m) == Present;
    }
    forall depth: nat, t | depth < |path| && Sound(t) && Agrees(t, m)
      ensures bad(depth, t) <==> Losing(path, metadata, m)(depth, t) || SomeBelow(path, depth, t, m, bad)
    {
      MissingStep(path, metadata, t, depth, m, w);
      BelowIsChild(path, depth, t, m, w, bad);
    }
  }

  lemma BelowIsChild(path: ClaimPath, depth: nat, t: Tree, m: Disclosures, w: Judge, bad: Judgement)
    requires depth < |path| && Judges(bad, w)
    ensures SomeBelow(path, depth, t, m, bad) <==> SomeChild(t, path[depth], depth + 1, m, w)
  {
    forall i | 0 <= i < |Slots(t)|
      ensures bad(depth + 1, Slots(t)[i].child) <==> w(depth + 1, Emit(Slots(t)[i].child)) {}
  }

  lemma UnmetSpreads(path: ClaimPath, metadata: seq<Claim>, m: Disclosures, w: Judge, bad: Judgement)
    requires TellsUnmet(w, path, metadata, m) && Judges(bad, w)
    ensures Spreads(path, m, bad, Stopping(path, metadata, m))
  {
    forall t ensures !bad(|path|, t) {
      assert Walk(path, metadata, Emit(t), |path|, m) == Present;
    }
    forall depth: nat, t | depth < |path| && Sound(t) && Agrees(t, m)
      ensures bad(depth, t) <==> Stopping(path, metadata, m)(depth, t) || SomeBelow(path, depth, t, m, bad)
    {
      UnmetStep(path, metadata, t, depth, m, w);
      BelowIsChild(path, depth, t, m, w, bad);
    }
  }

  /** The walk says missing exactly if it loses the claim somewhere, and not present exactly if it stops somewhere. */
  lemma WalkStops(path: ClaimPath, metadata: seq<Claim>, t: Tree, m: Disclosures)
    requires Sound(t) && Agrees(t, m)
    ensures Walk(path, metadata, Emit(t), 0, m) == Missing <==> Reaches(path, 0, t, m, Losing(path, metadata, m))
    ensures Walk(path, metadata, Emit(t), 0, m) != Present <==> Reaches(path, 0, t, m, Stopping(path, metadata, m))
  {
    var missed := (depth: nat, v: Json) => depth <= |path| && Walk(path, metadata, v, depth, m) == Missing;
    var unmet := (depth: nat, v: Json) => depth <= |path| && Walk(path, metadata, v, depth, m) != Present;
    var lost := (depth: nat, u: Tree) => missed(depth, Emit(u));
    var stopped := (depth: nat, u: Tree) => unmet(depth, Emit(u));
    MissingSpreads(path, metadata, m, missed, lost);
    UnmetSpreads(path, metadata, m, unmet, stopped);
    SpreadingReaches(path, 0, t, m, lost, Losing(path, metadata, m));
    SpreadingReaches(path, 0, t, m, stopped, Stopping(path, metadata, m));
  }
}
