/** The main results on `unpackObj` after `pack`: on which choices of disclosures it succeeds, and what it returns. */
module UnpackTheorems {
  import opened Basics
  import opened Json
  import opened JsonValues
  import opened Packing
  import opened PackLedger
  import opened Embedding
  import opened DigestLedger
  import opened Collecting
  import opened Presenting
  import opened Disclosing
  import opened Unpacking
  import opened RoundTrip

  // ---------- digests that are met, in terms of paths ----------

  /** All hidden proper prefixes of the hidden path are disclosed. */
  ghost predicate Reached(t: Tree, path: Path, m: Disclosures)
    decreases |path|
  {
    HiddenAt(t, path) &&
    (|path| == 1 || (var s := SlotAt(Slots(t), path[0]).value; Kept(s, m) && Reached(s.child, path[1..], m)))
  }

  lemma {:induction false} SlotOfMet(x: string, slots: seq<Slot>, m: Disclosures, i: nat)
    requires i < |slots|
    ensures MetSlot(x, slots[i], m) <= MetSlots(x, slots, m)
  {
    if i < |slots| - 1 {
      SlotOfMet(x, slots[..|slots| - 1], m, i);
    }
  }

  lemma {:induction false} ReachedIsMet(t: Tree, path: Path, m: Disclosures)
    requires Reached(t, path, m)
    ensures Met(DigestAt(t, path), t, m) >= 1
    decreases |path|
  {
    var i := DigestIsCounted(t, path);
    if |path| > 1 {
      ReachedIsMet(t.slots[i].child, path[1..], m);
    }
    SlotOfMet(DigestAt(t, path), t.slots, m, i);
  }

  lemma {:induction false} MetAtSlot(x: string, slots: seq<Slot>, m: Disclosures) returns (i: nat)
    requires MetSlots(x, slots, m) >= 1
    ensures i < |slots| && MetSlot(x, slots[i], m) >= 1
  {
    i := |slots| - 1;
    if MetSlot(x, slots[i], m) == 0 {
      i := MetAtSlot(x, slots[..i], m);
    }
  }

  lemma {:induction false} MetIsReached(x: string, t: Tree, m: Disclosures) returns (path: Path)
    requires Sound(t) && Agrees(t, m) && x in m && Met(x, t, m) >= 1
    ensures Reached(t, path, m) && DigestAt(t, path) == x
    decreases t, 1
  {
    if exists k :: 0 <= k < |t.decoys| && t.decoys[k] == x {
      assert false;
    }
    TimesOfMember(x, t.decoys);
    var i := MetAtSlot(x, t.slots, m);
    var s := t.slots[i];
    assert SlotAgrees(s, m) && SlotSound(s, t.isArray, i);
    FindsSlot(t.slots, i);
    if s.mark.Hidden? && s.mark.digest == x {
      path := [s.seg];
    } else {
      var rest := MetBelow(x, s, m);
      path := [s.seg] + rest;
      assert path[1..] == rest;
    }
  }

  lemma {:induction false} MetBelow(x: string, s: Slot, m: Disclosures) returns (path: Path)
    requires Sound(s.child) && Agrees(s.child, m) && x in m && Met(x, s.child, m) >= 1
    ensures Reached(s.child, path, m) && DigestAt(s.child, path) == x
    decreases s, 0
  {
    path := MetIsReached(x, s.child, m);
  }

  // ---------- what blocks unpacking, in terms of paths ----------

  lemma {:induction false} BlockedAtPath(t: Tree, m: Disclosures) returns (path: Path)
    requires Sound(t) && Blocked(t, m)
    ensures HiddenAt(t, path) && DigestAt(t, path) in m && path[|path| - 1] == Key("")
    decreases t, 1
  {
    var i :| 0 <= i < |t.slots| && BlockedSlot(t.slots[i], t.isArray, m);
    var s := t.slots[i];
    assert SlotSound(s, t.isArray, i);
    FindsSlot(t.slots, i);
    if s.mark.Hidden? && !t.isArray && s.seg == Key("") {
      path := [s.seg];
    } else {
      var rest := BlockedBelow(s, m);
      path := [s.seg] + rest;
      PathBelow(t, s, rest, m);
    }
  }

  lemma PathBelow(t: Tree, s: Slot, rest: Path, m: Disclosures)
    requires t.Node? && SlotAt(t.slots, s.seg) == Some(s) && HiddenAt(s.child, rest) && DigestAt(s.child, rest) in m
    ensures var path := [s.seg] + rest;
            HiddenAt(t, path) && DigestAt(t, path) in m && path[|path| - 1] == rest[|rest| - 1]
  {
    assert ([s.seg] + rest)[1..] == rest;
  }

  lemma {:induction false} BlockedBelow(s: Slot, m: Disclosures) returns (path: Path)
    requires Sound(s.child) && Blocked(s.child, m)
    ensures HiddenAt(s.child, path) && DigestAt(s.child, path) in m && path[|path| - 1] == Key("")
    decreases s, 0
  {
    path := BlockedAtPath(s.child, m);
  }

  lemma {:induction false} ReachedIsRevealed(t: Tree, path: Path, m: Disclosures)
    requires Sound(t) && !Blocked(t, m) && Reached(t, path, m) && DigestAt(t, path) in m
    ensures PrefixesRevealed(t, path, m)
    decreases |path|
  {
    var i := DigestIsCounted(t, path);
    var s := t.slots[i];
    assert SlotSound(s, t.isArray, i) && !BlockedSlot(s, t.isArray, m);
    if |path| == 1 {
      OneSegmentRevealed(t, path, m);
    } else {
      ReachedIsRevealed(s.child, path[1..], m);
      PrefixesOfTail(t, path, m);
    }
  }

  lemma {:induction false} RevealedIsReached(t: Tree, path: Path, m: Disclosures)
    requires HiddenAt(t, path) && PrefixesRevealed(t, path, m)
    ensures Reached(t, path, m)
    decreases |path|
  {
    if |path| > 1 {
      PrefixesOfTail(t, path, m);
      RevealedIsReached(SlotAt(Slots(t), path[0]).value.child, path[1..], m);
    }
  }

  // ---------- any choice of disclosures ----------

  /** With every disclosed claim, everything that hides it is disclosed too, and none of these has the empty name. */
  ghost predicate Closed(t: Tree, m: Disclosures) {
    forall path :: HiddenAt(t, path) && DigestAt(t, path) in m ==> PrefixesRevealed(t, path, m)
  }

  lemma WholePrefix(t: Tree, path: Path, m: Disclosures)
    requires HiddenAt(t, path) && PrefixesRevealed(t, path, m)
    ensures path[|path| - 1] != Key("")
  {
    assert path[..|path|] == path;
  }

  lemma ClosedUnblocks(claims: Json, frame: Option<Frame>, env: Env, m: Disclosures)
    requires Packable(claims, frame, env) && Chosen(m, Pack(claims, frame, env, START).value.disclosures, env)
    requires Closed(Pack(claims, frame, env, START).value.tree, m)
    ensures var t := Pack(claims, frame, env, START).value.tree;
            !Blocked(t, m) && forall x :: x in m ==> Met(x, t, m) >= 1
  {
    var p := Pack(claims, frame, env, START).value;
    PackFacts(claims, frame, env);
    if Blocked(p.tree, m) {
      var path := BlockedAtPath(p.tree, m);
      WholePrefix(p.tree, path, m);
    }
    forall x | x in m ensures Met(x, p.tree, m) >= 1 {
      var k :| 0 <= k < |p.disclosures| && env.digest(p.disclosures[k]) == x;
      TotalHas(p.disclosures, p.disclosures[k]);
      var path := CountedIsAtPath(p.tree, p.disclosures[k]);
      DisclosureIsCounted(p.tree, path, env);
      RevealedIsReached(p.tree, path, m);
      ReachedIsMet(p.tree, path, m);
    }
  }

  lemma MetIsClosed(claims: Json, frame: Option<Frame>, env: Env, m: Disclosures)
    requires Packable(claims, frame, env) && Chosen(m, Pack(claims, frame, env, START).value.disclosures, env)
    requires var t := Pack(claims, frame, env, START).value.tree;
             !Blocked(t, m) && forall x :: x in m ==> Met(x, t, m) >= 1
    ensures Closed(Pack(claims, frame, env, START).value.tree, m)
  {
    var t := Pack(claims, frame, env, START).value.tree;
    PackFacts(claims, frame, env);
    ChosenAgrees(claims, frame, env, m);
    PackHasNoDigestTwice(claims, frame, env);
    forall path | HiddenAt(t, path) && DigestAt(t, path) in m ensures PrefixesRevealed(t, path, m) {
      var reached := MetIsReached(DigestAt(t, path), t, m);
      DigestsDiffer(t, path, reached);
      ReachedIsRevealed(t, path, m);
    }
  }

  lemma SeenIsMet(t: Tree, m: Disclosures, seen: set<string>)
    requires forall x :: In(x, seen) == In(x, {}) + Met(x, t, m)
    ensures m.Keys <= seen <==> forall x :: x in m ==> Met(x, t, m) >= 1
  {
    forall x ensures x in seen <==> Met(x, t, m) >= 1 {
      assert In(x, seen) == In(x, {}) + Met(x, t, m);
    }
  }

  /**
   * For every choice of the issued disclosures, unpacking the packed payload succeeds if and only if the choice
   * contains, with each disclosure, those of the claims around it, and none of them has the empty name. It then
   * returns, up to the order of object members, the claims without those that were not disclosed.
   */
  lemma UnpackAfterPack(claims: Json, frame: Option<Frame>, env: Env, m: Disclosures)
    requires Packable(claims, frame, env) && Chosen(m, Pack(claims, frame, env, START).value.disclosures, env)
    ensures var t := Pack(claims, frame, env, START).value.tree;
            var r := Unpack(Emit(t), m);
            && (r.Ok? <==> Closed(t, m))
            && (r.Ok? ==> Sem(r.value) == Sem(Prune(t, m)))
  {
    var t := Pack(claims, frame, env, START).value.tree;
    PackFacts(claims, frame, env);
    ChosenAgrees(claims, frame, env, m);
    PackHasNoDigestTwice(claims, frame, env);
    assert Fresh(t, {}) by {
      forall x ensures Count(t, DigestIs(x)) + In(x, {}) <= 1 { assert Count(t, DigestIs(x)) <= 1; }
    }
    TreeUnpacks(t, m, true, {});
    var r := UnpackNode(Emit(t), m, true, {});
    if r.Ok? { SeenIsMet(t, m, r.value.seen); }
    if Closed(t, m) {
      ClosedUnblocks(claims, frame, env, m);
    }
    if Unpack(Emit(t), m).Ok? {
      MetIsClosed(claims, frame, env, m);
    }
  }

  // ---------- every disclosure ----------

  lemma {:induction false} LayerKeptItems(slots: seq<Slot>, items: seq<Json>, m: Disclosures)
    requires |slots| == |items| && forall i :: 0 <= i < |slots| ==>
               Kept(slots[i], m) && PruneSlot(slots[i], m) == items[i]
    ensures PruneItems(slots, m) == items
  {
    if slots != [] {
      var n := |slots| - 1;
      LayerKeptItems(slots[..n], items[..n], m);
      assert items == items[..n] + [items[n]];
    }
  }

  lemma {:induction false} LayerKeptMembers(slots: seq<Slot>, members: seq<Member>, m: Disclosures)
    requires |slots| == |members|
    requires forall i :: 0 <= i < |slots| ==>
               Kept(slots[i], m) && slots[i].seg == Key(members[i].key) && PruneSlot(slots[i], m) == members[i].value
    ensures PruneMembers(slots, m) == members
  {
    if slots != [] {
      var n := |slots| - 1;
      LayerKeptMembers(slots[..n], members[..n], m);
      assert members == members[..n] + [members[n]];
    }
  }

  ghost predicate AllDisclosed(t: Tree, m: Disclosures) {
    forall path :: HiddenAt(t, path) ==> DigestAt(t, path) in m
  }

  lemma {:induction false} NothingPruned(t: Tree, j: Json, frame: Option<Frame>, m: Disclosures)
    requires Layout(t, j, frame) && Sound(t) && AllDisclosed(t, m)
    ensures Prune(t, m) == j
    decreases t, 1
  {
    if t.Node? {
      forall i | 0 <= i < |t.slots|
        ensures Kept(t.slots[i], m) && t.slots[i].seg == Cells(j)[i].seg
                && PruneSlot(t.slots[i], m) == Cells(j)[i].value
      {
        var s := t.slots[i];
        assert SlotLayout(s, Cells(j)[i], frame.value) && SlotSound(s, t.isArray, i);
        FindsSlot(t.slots, i);
        if s.mark.Hidden? { assert HiddenAt(t, [s.seg]); }
        forall path | HiddenAt(s.child, path) ensures DigestAt(s.child, path) in m {
          assert ([s.seg] + path)[1..] == path;
          assert HiddenAt(t, [s.seg] + path);
        }
        SlotNotPruned(s, Cells(j)[i], frame.value, m);
      }
      if j.Arr? { LayerKeptItems(t.slots, j.items, m); } else { LayerKeptMembers(t.slots, j.members, m); }
    }
  }

  lemma {:induction false} SlotNotPruned(s: Slot, c: Cell, f: Frame, m: Disclosures)
    requires SlotLayout(s, c, f) && Sound(s.child) && AllDisclosed(s.child, m)
    ensures PruneSlot(s, m) == c.value
    decreases s, 0
  {
    NothingPruned(s.child, c.value, SubFrameAt(f.children, c.seg), m);
  }

  /** The hidden paths of the tree are those the frame lists. */
  ghost predicate HidesListed(t: Tree, claims: Json, frame: Option<Frame>) {
    forall path :: HiddenAt(t, path) <==> path != [] && At(claims, path).Some? && Listed(frame, path)
  }

  lemma ClosedListsNoEmptyName(t: Tree, claims: Json, frame: Option<Frame>, m: Disclosures)
    requires HidesListed(t, claims, frame) && AllDisclosed(t, m) && Closed(t, m)
    ensures NoEmptyNameListed(claims, frame)
  {
    forall path | path != [] && At(claims, path).Some? && Listed(frame, path) ensures path[|path| - 1] != Key("") {
      assert HiddenAt(t, path);
      WholePrefix(t, path, m);
    }
  }

  /** Every hidden path is disclosed and does not end in the empty name. */
  ghost predicate AllNamed(t: Tree, m: Disclosures) {
    forall q :: HiddenAt(t, q) ==> DigestAt(t, q) in m && q[|q| - 1] != Key("")
  }

  lemma NamedIsClosed(t: Tree, m: Disclosures)
    requires AllNamed(t, m)
    ensures Closed(t, m)
  {
    forall path | HiddenAt(t, path) ensures PrefixesRevealed(t, path, m) {
      forall n | 0 < n <= |path| && HiddenAt(t, path[..n])
        ensures DigestAt(t, path[..n]) in m && path[n - 1] != Key("") {
        assert path[..n][|path[..n]| - 1] == path[n - 1];
      }
    }
  }

  lemma NoEmptyNameIsClosed(t: Tree, claims: Json, frame: Option<Frame>, m: Disclosures)
    requires HidesListed(t, claims, frame) && AllDisclosed(t, m) && NoEmptyNameListed(claims, frame)
    ensures Closed(t, m)
  {
    assert AllNamed(t, m);
    NamedIsClosed(t, m);
  }

  lemma EveryoneIsClosed(claims: Json, frame: Option<Frame>, env: Env, m: Disclosures)
    requires Packable(claims, frame, env) && EveryoneChosen(m, Pack(claims, frame, env, START).value.disclosures, env)
    ensures Closed(Pack(claims, frame, env, START).value.tree, m) <==> NoEmptyNameListed(claims, frame)
    ensures AllDisclosed(Pack(claims, frame, env, START).value.tree, m)
  {
    var t := Pack(claims, frame, env, START).value.tree;
    forall path
      ensures HiddenAt(t, path) <==> path != [] && At(claims, path).Some? && Listed(frame, path)
      ensures HiddenAt(t, path) ==> DigestAt(t, path) in m
    {
      ListedPathIsIssued(claims, frame, env, path);
      if HiddenAt(t, path) { HiddenIsChosen(claims, frame, env, m, path); }
    }
    if Closed(t, m) { ClosedListsNoEmptyName(t, claims, frame, m); }
    if NoEmptyNameListed(claims, frame) { NoEmptyNameIsClosed(t, claims, frame, m); }
  }

  /**
   * The round trip: with all disclosures, unpacking the packed payload gives the claims back, up to the order of object
   * members, if and only if the frame lists no claim with the empty name; otherwise it throws.
   */
  lemma PackRoundTrip(claims: Json, frame: Option<Frame>, env: Env, m: Disclosures)
    requires Packable(claims, frame, env) && EveryoneChosen(m, Pack(claims, frame, env, START).value.disclosures, env)
    ensures var r := Unpack(Emit(Pack(claims, frame, env, START).value.tree), m);
            && (r.Ok? <==> NoEmptyNameListed(claims, frame))
            && (r.Ok? ==> Sem(r.value) == Sem(claims))
  {
    UnpackAfterPack(claims, frame, env, m);
    EveryoneIsClosed(claims, frame, env, m);
    PackFacts(claims, frame, env);
    NothingPruned(Pack(claims, frame, env, START).value.tree, claims, frame, m);
  }

  /**
   * The failure at its smallest: one member with the empty name, selectively disclosable, and its disclosure at hand.
   */
  lemma EmptyNameIsRejected(env: Env, m: Disclosures)
    requires var claims, frame := Obj([Member("", Num(1))]), Some(Frame([Key("")], 0, []));
             Packable(claims, frame, env) && EveryoneChosen(m, Pack(claims, frame, env, START).value.disclosures, env)
    ensures var claims, frame := Obj([Member("", Num(1))]), Some(Frame([Key("")], 0, []));
            Unpack(Emit(Pack(claims, frame, env, START).value.tree), m).Err?
  {
    var claims, frame := Obj([Member("", Num(1))]), Some(Frame([Key("")], 0, []));
    PackRoundTrip(claims, frame, env, m);
    var path := [Key("")];
    assert Cells(claims)[0] == Cell(Key(""), Num(1));
    assert Find(Cells(claims), Key("")).Some?;
    assert At(Num(1), path[1..]) == Some(Num(1));
    assert At(claims, path).Some? && Listed(frame, path);
  }
}
