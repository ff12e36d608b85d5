/** The verdicts on mandatory claims for payloads that `pack` made. */
module Verdicts {
  import opened Basics
  import opened Json
  import opened Packing
  import opened PackLedger
  import opened Embedding
  import opened DigestLedger
  import opened Collecting
  import opened Presenting
  import opened Disclosing
  import opened Mandatory
  import opened Presence
  import opened PackedEntries
  import opened WalkEnds

  // ---------- the same in terms of the claims and the frame ----------

  ghost function FrameAt(frame: Option<Frame>, q: Path): Option<Frame>
    decreases |q|
  {
    if q == [] || frame.None? then frame else FrameAt(SubFrameAt(frame.value.children, q[0]), q[1..])
  }

  lemma {:induction false} SubtreeLayout(t: Tree, j: Json, frame: Option<Frame>, q: Path)
    requires Layout(t, j, frame) && At(j, q).Some?
    ensures Layout(Subtree(t, q), At(j, q).value, FrameAt(frame, q))
    decreases |q|
  {
    if q != [] {
      SlotOfChild(t, j, frame, q[0]);
      var s := SlotAt(Slots(t), q[0]).value;
      var below := if frame.Some? then SubFrameAt(frame.value.children, q[0]) else None;
      SubtreeLayout(s.child, Child(j, q[0]).value, below, q[1..]);
      NoFrameBelow(q[1..]);
    }
  }

  lemma NoFrameBelow(q: Path)
    ensures FrameAt(None, q) == None
  {
  }

  /** Below the tree at `q`, paths are hidden, with the same digests, as in the whole tree. */
  lemma {:induction false} HiddenInSubtree(t: Tree, q: Path, seg: Seg)
    requires q == [] || SlotsTo(t, q)
    ensures HiddenAt(t, q + [seg]) <==> HiddenAt(Subtree(t, q), [seg])
    ensures HiddenAt(t, q + [seg]) ==> DigestAt(t, q + [seg]) == DigestAt(Subtree(t, q), [seg])
    decreases |q|
  {
    var all := q + [seg];
    if q == [] {
      assert all == [seg];
    } else {
      var s := SlotAt(Slots(t), q[0]).value;
      assert all[0] == q[0] && all[1..] == q[1..] + [seg];
      HiddenInSubtree(s.child, q[1..], seg);
    }
  }

  /** Every slot along the path exists. */
  ghost predicate SlotsTo(t: Tree, q: Path)
    decreases |q|
  {
    q == [] || match SlotAt(Slots(t), q[0]) case None => false case Some(s) => SlotsTo(s.child, q[1..])
  }

  lemma {:induction false} ShowsOneMore(t: Tree, q: Path, seg: Seg, m: Disclosures)
    requires ShowsTo(t, q, m)
    ensures SlotsTo(t, q)
    ensures Shows(t, q + [seg], m) <==> Shows(Subtree(t, q), [seg], m)
    decreases |q|
  {
    var all := q + [seg];
    if q == [] {
      assert all == [seg];
    } else {
      var s := SlotAt(Slots(t), q[0]).value;
      assert all[0] == q[0] && all[1..] == q[1..] + [seg];
      ShowsOneMore(s.child, q[1..], seg, m);
    }
  }

  // ---------- all disclosures ----------

  function AllOf(ds: seq<Disclosure>, env: Env): Disclosures {
    if ds == [] then map[] else AllOf(ds[..|ds| - 1], env)[env.digest(ds[|ds| - 1]) := Wire(ds[|ds| - 1])]
  }

  lemma {:induction false} AllIsChosen(ds: seq<Disclosure>, env: Env)
    ensures EveryoneChosen(AllOf(ds, env), ds, env)
  {
    if ds != [] {
      var n := |ds| - 1;
      AllIsChosen(ds[..n], env);
      forall x | x in AllOf(ds, env)
        ensures exists k :: 0 <= k < |ds| && env.digest(ds[k]) == x && AllOf(ds, env)[x] == Wire(ds[k]) {
        if x == env.digest(ds[n]) {
          assert AllOf(ds, env)[x] == Wire(ds[n]);
        } else {
          var k :| 0 <= k < n && env.digest(ds[..n][k]) == x && AllOf(ds[..n], env)[x] == Wire(ds[..n][k]);
          assert ds[..n][k] == ds[k];
        }
      }
      forall k | 0 <= k < |ds| ensures env.digest(ds[k]) in AllOf(ds, env) {
        assert k < n ==> ds[..n][k] == ds[k];
      }
    }
  }

  /** No two issued disclosures have the same digest. */
  lemma DigestsOnce(claims: Json, frame: Option<Frame>, env: Env, k: nat, l: nat)
    requires Packable(claims, frame, env)
    requires var ds := Pack(claims, frame, env, START).value.disclosures;
             k < |ds| && l < |ds| && env.digest(ds[k]) == env.digest(ds[l])
    ensures k == l
  {
    var ds := Pack(claims, frame, env, START).value.disclosures;
    Ledger(claims, frame, env);
    TotalTwice(env.digest(ds[k]), ds, env, k, l);
  }

  /** Every choice of disclosures is a part of all of them. */
  lemma AllExtendsChosen(claims: Json, frame: Option<Frame>, env: Env, m: Disclosures)
    requires Packable(claims, frame, env) && Chosen(m, Pack(claims, frame, env, START).value.disclosures, env)
    ensures Extends(m, AllOf(Pack(claims, frame, env, START).value.disclosures, env))
  {
    var ds := Pack(claims, frame, env, START).value.disclosures;
    var all := AllOf(ds, env);
    AllIsChosen(ds, env);
    forall x | x in m ensures x in all && all[x] == m[x] {
      var k :| 0 <= k < |ds| && env.digest(ds[k]) == x && m[x] == Wire(ds[k]);
      var l :| 0 <= l < |ds| && env.digest(ds[l]) == x && all[x] == Wire(ds[l]);
      DigestsOnce(claims, frame, env, k, l);
    }
  }

  // ---------- the verdicts ----------

  /** The path, if every name on it is a member of the claims, can be disclosed to the verifier. */
  ghost predicate Disclosable(claims: Json, frame: Option<Frame>, path: Path) {
    && At(claims, path).Some?
    && forall n :: 0 < n <= |path| && Listed(frame, path[..n]) ==> path[n - 1] != Key("")
  }

  /** The claim at `q` exists and the disclosures of its listed prefixes are revealed. */
  ghost predicate IsShown(claims: Json, t: Tree, q: Path, m: Disclosures) {
    At(claims, q).Some? && PrefixesRevealed(t, q, m)
  }

  ghost predicate Unrevealed(t: Tree, path: Path, m: Disclosures) {
    HiddenAt(t, path) && DigestAt(t, path) !in m
  }

  /** At `q` the frame asks for decoys, or lists a child whose disclosure is not revealed. */
  ghost predicate Conceals(frame: Option<Frame>, t: Tree, q: Path, m: Disclosures) {
    (FrameAt(frame, q).Some? && FrameAt(frame, q).value.decoys > 0) || exists seg :: Unrevealed(t, q + [seg], m)
  }

  /** `q` fits the first segments of the claim path, though not all of them, and is shown. */
  ghost predicate LeadsTo(path: ClaimPath, claims: Json, t: Tree, q: Path, m: Disclosures) {
    |q| < |path| && (forall i :: 0 <= i < |q| ==> Fits(path[i], q[i])) && IsShown(claims, t, q, m)
  }

  /** No child of `q` that fits the next segment is shown. */
  ghost predicate EndsAt(path: ClaimPath, claims: Json, t: Tree, q: Path, m: Disclosures)
    requires |q| < |path|
  {
    forall seg :: Fits(path[|q|], seg) ==> !IsShown(claims, t, q + [seg], m)
  }

  /** At `q` the claim is missing: no array to go through, or no member and nothing that may hide it. */
  ghost predicate LosesAt(path: ClaimPath, metadata: seq<Claim>, claims: Json, frame: Option<Frame>, t: Tree, q: Path,
                          m: Disclosures) {
    LeadsTo(path, claims, t, q, m) &&
    var isArray := At(claims, q).value.Arr?;
    match path[|q|]
    case None => !isArray
    case Some(_) =>
      EndsAt(path, claims, t, q, m) && (isArray || !Conceals(frame, t, q, m) || IsNever(path, metadata, |q|))
  }

  /** At `q` nothing is shown, but some digest may hide the claim. */
  ghost predicate WithholdsAt(path: ClaimPath, metadata: seq<Claim>, claims: Json, frame: Option<Frame>, t: Tree,
                              q: Path, m: Disclosures) {
    && LeadsTo(path, claims, t, q, m) && EndsAt(path, claims, t, q, m) && Conceals(frame, t, q, m)
    && (At(claims, q).value.Arr? <==> path[|q|].None?)
    && (path[|q|].Some? ==> !IsNever(path, metadata, |q|))
  }

  lemma ShowsToIsShown(claims: Json, frame: Option<Frame>, t: Tree, q: Path, m: Disclosures)
    requires Layout(t, claims, frame)
    ensures ShowsTo(t, q, m) <==> IsShown(claims, t, q, m)
  {
    ShownIsPresent(t, claims, frame, q, m);
  }

  lemma OneSegment(u: Tree, seg: Seg, m: Disclosures)
    ensures var s := SlotAt(Slots(u), seg);
            && (Shows(u, [seg], m) <==> s.Some? && Revealed(s.value, m))
            && (Unrevealed(u, [seg], m) <==> s.Some? && s.value.mark.Hidden? && s.value.mark.digest !in m)
  {
  }

  /** What holds of a slot holds of the slot at its segment. */
  lemma SomeSlot(slots: seq<Slot>, p: Slot -> bool)
    requires forall i, j :: 0 <= i < j < |slots| ==> slots[i].seg != slots[j].seg
    ensures (exists i :: 0 <= i < |slots| && p(slots[i])) <==>
              exists seg :: SlotAt(slots, seg).Some? && p(SlotAt(slots, seg).value)
  {
    if i :| 0 <= i < |slots| && p(slots[i]) {
      SlotIsAt(slots, i);
      assert SlotAt(slots, slots[i].seg).Some?;
    }
    if seg :| SlotAt(slots, seg).Some? && p(SlotAt(slots, seg).value) {
      var i :| 0 <= i < |slots| && slots[i] == SlotAt(slots, seg).value;
    }
  }

  lemma FindsNoneShown(u: Tree, segment: Option<string>, m: Disclosures)
    requires Sound(u) && Agrees(u, m)
    ensures FindsNone(u, segment, m) <==> forall seg :: Fits(segment, seg) ==> !Shows(u, [seg], m)
  {
    SlotsBelow(u, m);
    var found := (s: Slot) => Fits(segment, s.seg) && Revealed(s, m);
    SomeSlot(Slots(u), found);
    assert FindsNone(u, segment, m) <==> !exists i :: 0 <= i < |Slots(u)| && found(Slots(u)[i]);
    forall seg
      ensures Fits(segment, seg) && Shows(u, [seg], m) <==>
                SlotAt(Slots(u), seg).Some? && found(SlotAt(Slots(u), seg).value) {
      OneSegment(u, seg, m);
    }
  }

  lemma ConcealingLayer(u: Tree, j: Json, f: Option<Frame>, m: Disclosures)
    requires Layout(u, j, f) && Sound(u) && Agrees(u, m)
    ensures Concealing(u, m) <==> (f.Some? && f.value.decoys > 0) || exists seg :: Unrevealed(u, [seg], m)
  {
    SlotsBelow(u, m);
    var unrevealed := (s: Slot) => s.mark.Hidden? && s.mark.digest !in m;
    SomeSlot(Slots(u), unrevealed);
    assert HasUnrevealed(Slots(u), m) <==> exists i :: 0 <= i < |Slots(u)| && unrevealed(Slots(u)[i]);
    forall seg
      ensures Unrevealed(u, [seg], m) <==> SlotAt(Slots(u), seg).Some? && unrevealed(SlotAt(Slots(u), seg).value) {
      OneSegment(u, seg, m);
    }
    if u.Raw? {
      NothingUnrevealed(Slots(u), m);
    }
  }

  lemma SegmentsBelow(claims: Json, frame: Option<Frame>, t: Tree, q: Path, m: Disclosures, seg: Seg)
    requires Layout(t, claims, frame) && ShowsTo(t, q, m)
    ensures Shows(Subtree(t, q), [seg], m) <==> IsShown(claims, t, q + [seg], m)
    ensures Unrevealed(Subtree(t, q), [seg], m) <==> Unrevealed(t, q + [seg], m)
  {
    ShowsOneMore(t, q, seg, m);
    HiddenInSubtree(t, q, seg);
    ShownIsPresent(t, claims, frame, q + [seg], m);
  }

  /** The walk ends in the subtree at `q` as it does at `q` in the claims. */
  lemma EndOfSubtree(path: ClaimPath, metadata: seq<Claim>, claims: Json, frame: Option<Frame>, t: Tree, q: Path,
                     m: Disclosures)
    requires Layout(t, claims, frame) && LeadsTo(path, claims, t, q, m)
    requires Sound(Subtree(t, q)) && Agrees(Subtree(t, q), m)
    ensures Loses(path, metadata, m, |q|, Subtree(t, q)) <==> LosesAt(path, metadata, claims, frame, t, q, m)
    ensures Withholds(path, metadata, m, |q|, Subtree(t, q)) <==> WithholdsAt(path, metadata, claims, frame, t, q, m)
  {
    var u := Subtree(t, q);
    ShowsToIsShown(claims, frame, t, q, m);
    SubtreeLayout(t, claims, frame, q);
    ConcealingLayer(u, At(claims, q).value, FrameAt(frame, q), m);
    FindsNoneShown(u, path[|q|], m);
    forall seg
      ensures Shows(u, [seg], m) <==> IsShown(claims, t, q + [seg], m)
      ensures Unrevealed(u, [seg], m) <==> Unrevealed(t, q + [seg], m)
    {
      SegmentsBelow(claims, frame, t, q, m, seg);
    }
    assert FindsNone(u, path[|q|], m) <==> EndsAt(path, claims, t, q, m);
    assert Concealing(u, m) <==> Conceals(frame, t, q, m);
  }

  lemma {:induction false} SubtreeSound(t: Tree, q: Path, m: Disclosures)
    requires Sound(t) && Agrees(t, m)
    ensures Sound(Subtree(t, q)) && Agrees(Subtree(t, q), m)
    decreases |q|
  {
    if q != [] {
      SlotsBelow(t, m);
      var s := SlotAt(Slots(t), q[0]);
      if s.Some? {
        SubtreeSound(s.value.child, q[1..], m);
      }
    }
  }

  /**
   * The verdict on any mandatory claim of a packed payload, with or without null segments, under any choice of the
   * disclosures: it is missing if and only if some shown way along the claim path ends where nothing can hide the rest,
   * and it is present if and only if no shown way ends, there or where a digest may hide the rest; otherwise it is
   * undisclosed.
   */
  lemma ClaimVerdict(claims: Json, frame: Option<Frame>, env: Env, m: Disclosures, claim: Claim, metadata: seq<Claim>)
    requires Packable(claims, frame, env) && Chosen(m, Pack(claims, frame, env, START).value.disclosures, env)
    ensures var t := Pack(claims, frame, env, START).value.tree;
            var status := StatusOf(claim, metadata, Emit(t), m);
            && (status == Missing <==> exists q :: LosesAt(claim.path, metadata, claims, frame, t, q, m))
            && (status == Present <==> forall q :: !LosesAt(claim.path, metadata, claims, frame, t, q, m)
                                                   && !WithholdsAt(claim.path, metadata, claims, frame, t, q, m))
  {
    var t := Pack(claims, frame, env, START).value.tree;
    var path := claim.path;
    PackFacts(claims, frame, env);
    ChosenAgrees(claims, frame, env, m);
    WalkStops(path, metadata, t, m);
    forall q
      ensures Ends(path, 0, t, q, m, Losing(path, metadata, m)) <==> LosesAt(path, metadata, claims, frame, t, q, m)
      ensures Ends(path, 0, t, q, m, Stopping(path, metadata, m)) <==>
              LosesAt(path, metadata, claims, frame, t, q, m) || WithholdsAt(path, metadata, claims, frame, t, q, m)
    {
      EndsInClaims(path, metadata, claims, frame, t, q, m);
    }
  }

  lemma EndsInClaims(path: ClaimPath, metadata: seq<Claim>, claims: Json, frame: Option<Frame>, t: Tree, q: Path,
                     m: Disclosures)
    requires Layout(t, claims, frame) && Sound(t) && Agrees(t, m)
    ensures Ends(path, 0, t, q, m, Losing(path, metadata, m)) <==> LosesAt(path, metadata, claims, frame, t, q, m)
    ensures Ends(path, 0, t, q, m, Stopping(path, metadata, m)) <==>
            LosesAt(path, metadata, claims, frame, t, q, m) || WithholdsAt(path, metadata, claims, frame, t, q, m)
  {
    ShowsToIsShown(claims, frame, t, q, m);
    EndsIsWayDown(path, 0, t, q, m, Losing(path, metadata, m), |q|);
    EndsIsWayDown(path, 0, t, q, m, Stopping(path, metadata, m), |q|);
    assert WayDown(path, 0, t, q, m) <==> LeadsTo(path, claims, t, q, m);
    if LeadsTo(path, claims, t, q, m) {
      SubtreeSound(t, q, m);
      EndOfSubtree(path, metadata, claims, frame, t, q, m);
    }
  }

  /** On a packed payload, a null-free mandatory claim is present exactly if the claims have it and it is revealed. */
  lemma PresentVerdict(claims: Json, frame: Option<Frame>, env: Env, m: Disclosures, claim: Claim, metadata: seq<Claim>)
    requires Packable(claims, frame, env) && Chosen(m, Pack(claims, frame, env, START).value.disclosures, env)
    requires NullFree(claim.path) && claim.path != []
    ensures var p := Pack(claims, frame, env, START).value;
            var path := KeysFrom(claim.path, 0);
            StatusOf(claim, metadata, Emit(p.tree), m) == Present <==>
                At(claims, path).Some? && PrefixesRevealed(p.tree, path, m)
  {
    var p := Pack(claims, frame, env, START).value;
    PackFacts(claims, frame, env);
    ChosenAgrees(claims, frame, env, m);
    WalkOfPacked(claim.path, metadata, p.tree, 0, m);
    ShownIsPresent(p.tree, claims, frame, KeysFrom(claim.path, 0), m);
  }

  /**
   * The verdict missing is never wrong about the holder's claims: if no prefix of a null-free mandatory claim is
   * declared `never`, it is reported missing, under whatever subset of the disclosures, only if no disclosure could
   * show it.
   */
  lemma MissingVerdict(claims: Json, frame: Option<Frame>, env: Env, m: Disclosures, claim: Claim, metadata: seq<Claim>)
    requires Packable(claims, frame, env) && Chosen(m, Pack(claims, frame, env, START).value.disclosures, env)
    requires NullFree(claim.path) && claim.path != [] && NoNever(claim.path, metadata)
    requires StatusOf(claim, metadata, Emit(Pack(claims, frame, env, START).value.tree), m) == Missing
    ensures !Disclosable(claims, frame, KeysFrom(claim.path, 0))
  {
    var p := Pack(claims, frame, env, START).value;
    var all := AllOf(p.disclosures, env);
    var path := KeysFrom(claim.path, 0);
    AllIsChosen(p.disclosures, env);
    AllExtendsChosen(claims, frame, env, m);
    MissingIsFinal(claim, metadata, Emit(p.tree), m, all);
    PresentVerdict(claims, frame, env, all, claim, metadata);
    if Disclosable(claims, frame, path) {
      forall n | 0 < n <= |path| && HiddenAt(p.tree, path[..n])
        ensures DigestAt(p.tree, path[..n]) in all && path[n - 1] != Key("") {
        HiddenIsChosen(claims, frame, env, all, path[..n]);
        ListedPathIsIssued(claims, frame, env, path[..n]);
      }
      assert PrefixesRevealed(p.tree, path, all);
    }
  }

  /** Present stays present on packed payloads, when more of the disclosures are revealed. */
  lemma PresentVerdictStays(claims: Json, frame: Option<Frame>, env: Env, m: Disclosures, more: Disclosures,
                            claim: Claim,
                            metadata: seq<Claim>)
    requires Packable(claims, frame, env) && Extends(m, more)
             && Chosen(more, Pack(claims, frame, env, START).value.disclosures, env)
    requires NullFree(claim.path) && claim.path != []
    requires StatusOf(claim, metadata, Emit(Pack(claims, frame, env, START).value.tree), m) == Present
    ensures StatusOf(claim, metadata, Emit(Pack(claims, frame, env, START).value.tree), more) == Present
  {
    PresentVerdict(claims, frame, env, m, claim, metadata);
    PresentVerdict(claims, frame, env, more, claim, metadata);
  }
}
