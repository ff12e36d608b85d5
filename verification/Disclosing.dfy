/** Selective disclosure: a subset of the disclosures of a run of `pack` reveals exactly the claims it should. */
module Disclosing {
  import opened Basics
  import opened Json
  import opened Packing
  import opened PackLedger
  import opened Embedding
  import opened DigestLedger
  import opened Collecting
  import opened Presenting

  // ---------- the claims and the frame decide what is hidden ----------

  /** The frame lists the path in the `_sd` of its parent. */
  predicate Listed(frame: Option<Frame>, path: Path)
    decreases |path|
  {
    path != [] && frame.Some? &&
    if |path| == 1 then path[0] in frame.value.sd else Listed(SubFrameAt(frame.value.children, path[0]), path[1..])
  }

  /** The digest embedded for a hidden path. */
  ghost function DigestAt(t: Tree, path: Path): string
    requires HiddenAt(t, path)
    decreases |path|
  {
    var s := SlotAt(Slots(t), path[0]).value;
    if |path| == 1 then s.mark.digest else DigestAt(s.child, path[1..])
  }

  /** The disclosure issued for a hidden path. */
  ghost function DisclosureAt(t: Tree, path: Path): Disclosure
    requires HiddenAt(t, path)
    decreases |path|
  {
    var s := SlotAt(Slots(t), path[0]).value;
    if |path| == 1 then SlotDisclosure(s) else DisclosureAt(s.child, path[1..])
  }

  /** Every hidden prefix of the path is revealed, and none of them ends in the empty name. */
  ghost predicate PrefixesRevealed(t: Tree, path: Path, m: Disclosures) {
    forall n :: 0 < n <= |path| && HiddenAt(t, path[..n]) ==> DigestAt(t, path[..n]) in m && path[n - 1] != Key("")
  }

  lemma {:induction false} SlotOfCell(slots: seq<Slot>, cells: seq<Cell>, seg: Seg)
    requires |slots| == |cells| && forall i :: 0 <= i < |slots| ==> slots[i].seg == cells[i].seg
    ensures SlotAt(slots, seg).Some? <==> Find(cells, seg).Some?
    ensures SlotAt(slots, seg).Some? ==>
              exists i ::
                  0 <= i < |slots| && slots[i] == SlotAt(slots, seg).value
                  && cells[i] == Cell(seg, Find(cells, seg).value)
  {
    if slots != [] {
      var n := |slots| - 1;
      if slots[n].seg == seg {
        assert slots[n] == SlotAt(slots, seg).value && cells[n] == Cell(seg, Find(cells, seg).value);
      } else {
        SlotOfCell(slots[..n], cells[..n], seg);
        if SlotAt(slots, seg).Some? {
          var i :| 0 <= i < n && slots[..n][i] == SlotAt(slots, seg).value
              && cells[..n][i] == Cell(seg, Find(cells, seg).value);
          assert slots[i] == SlotAt(slots, seg).value && cells[i] == Cell(seg, Find(cells, seg).value);
        }
      }
    }
  }

  /** The slot at a segment lays out the child at that segment. */
  lemma SlotOfChild(t: Tree, j: Json, frame: Option<Frame>, seg: Seg)
    requires Layout(t, j, frame)
    ensures SlotAt(Slots(t), seg).Some? <==> Child(j, seg).Some?
    ensures var s := SlotAt(Slots(t), seg);
            s.Some? ==>
              && s.value.seg == seg
              && (s.value.mark.Hidden? <==> frame.Some? && seg in frame.value.sd)
              && Layout(s.value.child, Child(j, seg).value,
                        if frame.Some? then SubFrameAt(frame.value.children, seg) else None)
  {
    var slots := Slots(t);
    forall i | 0 <= i < |slots| ensures slots[i].seg == Cells(j)[i].seg {
      if frame.Some? { assert SlotLayout(t.slots[i], Cells(j)[i], frame.value); }
    }
    SlotOfCell(slots, Cells(j), seg);
    if SlotAt(slots, seg).Some? {
      var i :| 0 <= i < |slots| && slots[i] == SlotAt(slots, seg).value
          && Cells(j)[i] == Cell(seg, Find(Cells(j), seg).value);
      if frame.Some? { assert SlotLayout(t.slots[i], Cells(j)[i], frame.value); }
    }
  }

  lemma {:induction false} HiddenIsListed(t: Tree, j: Json, frame: Option<Frame>, path: Path)
    requires Layout(t, j, frame)
    ensures HiddenAt(t, path) <==> path != [] && At(j, path).Some? && Listed(frame, path)
    decreases |path|
  {
    if path != [] {
      SlotOfChild(t, j, frame, path[0]);
      var s := SlotAt(Slots(t), path[0]);
      if s.Some? {
        var sub := if frame.Some? then SubFrameAt(frame.value.children, path[0]) else None;
        if |path| == 1 {
          assert At(Child(j, path[0]).value, path[1..]).Some?;
        } else {
          HiddenIsListed(s.value.child, Child(j, path[0]).value, sub, path[1..]);
        }
      }
    }
  }

  lemma PrefixesOfTail(t: Tree, path: Path, m: Disclosures)
    requires |path| > 1 && SlotAt(Slots(t), path[0]).Some?
    ensures var s := SlotAt(Slots(t), path[0]).value;
            PrefixesRevealed(t, path, m) <==> Revealed(s, m) && PrefixesRevealed(s.child, path[1..], m)
  {
    var s := SlotAt(Slots(t), path[0]).value;
    assert path[..1] == [path[0]];
    assert HiddenAt(t, path[..1]) <==> s.mark.Hidden?;
    forall n | 1 < n <= |path|
      ensures path[..n][1..] == path[1..][..n - 1]
      ensures HiddenAt(t, path[..n]) <==> HiddenAt(s.child, path[1..][..n - 1])
      ensures HiddenAt(t, path[..n]) ==> DigestAt(t, path[..n]) == DigestAt(s.child, path[1..][..n - 1])
    {
      assert path[..n][1..] == path[1..][..n - 1];
    }
    if PrefixesRevealed(t, path, m) {
      forall n | 0 < n <= |path[1..]| && HiddenAt(s.child, path[1..][..n])
        ensures DigestAt(s.child, path[1..][..n]) in m && path[1..][n - 1] != Key("")
      {
        assert HiddenAt(t, path[..n + 1]);
      }
    }
    if Revealed(s, m) && PrefixesRevealed(s.child, path[1..], m) {
      forall n | 0 < n <= |path| && HiddenAt(t, path[..n])
        ensures DigestAt(t, path[..n]) in m && path[n - 1] != Key("")
      {
        if n > 1 {
          assert HiddenAt(s.child, path[1..][..n - 1]);
          assert path[1..][n - 2] == path[n - 1];
        }
      }
    }
  }

  lemma OneSegmentRevealed(t: Tree, path: Path, m: Disclosures)
    requires |path| == 1 && SlotAt(Slots(t), path[0]).Some?
    ensures PrefixesRevealed(t, path, m) <==> Revealed(SlotAt(Slots(t), path[0]).value, m)
  {
    assert path[..1] == path;
  }

  lemma {:induction false} ShownIsPresent(t: Tree, j: Json, frame: Option<Frame>, path: Path, m: Disclosures)
    requires Layout(t, j, frame)
    ensures Shows(t, path, m) <==> path != [] && At(j, path).Some? && PrefixesRevealed(t, path, m)
    decreases |path|
  {
    if path != [] {
      SlotOfChild(t, j, frame, path[0]);
      var s := SlotAt(Slots(t), path[0]);
      if s.Some? && |path| == 1 {
        OneSegmentRevealed(t, path, m);
        assert At(Child(j, path[0]).value, path[1..]).Some?;
      } else if s.Some? {
        var sub := if frame.Some? then SubFrameAt(frame.value.children, path[0]) else None;
        ShownIsPresent(s.value.child, Child(j, path[0]).value, sub, path[1..], m);
        PrefixesOfTail(t, path, m);
      }
    }
  }

  // ---------- one disclosure for each hidden path ----------

  ghost function Only(d: Disclosure): Disclosure -> nat {
    (e: Disclosure) => if e == d then 1 else 0
  }

  /** How often the digest `x` occurs at or below one slot. */
  ghost function SlotDigests(x: string, s: Slot): nat {
    Count(s.child, DigestIs(x)) + (if s.mark.Hidden? then Is(x, s.mark.digest) else 0)
  }

  /** How often the digest `x` occurs at or below a layer of slots. */
  ghost function LayerDigestsOf(x: string, slots: seq<Slot>): nat {
    if slots == [] then 0 else LayerDigestsOf(x, slots[..|slots| - 1]) + SlotDigests(x, slots[|slots| - 1])
  }

  lemma {:induction false} LayerDigestsSum(x: string, slots: seq<Slot>)
    ensures LayerDigestsOf(x, slots) == CountChildren(slots, DigestIs(x)) + Times(x, Digests(slots))
  {
    if slots != [] {
      var n := |slots| - 1;
      LayerDigestsSum(x, slots[..n]);
      assert CountChild(slots[n], DigestIs(x)) == Count(slots[n].child, DigestIs(x));
      if slots[n].mark.Hidden? {
        TimesOfAppend(x, Digests(slots[..n]), slots[n].mark.digest);
      } else {
        assert Digests(slots) == Digests(slots[..n]);
      }
    }
  }

  lemma LayerDigestsBound(x: string, t: Tree)
    requires t.Node?
    ensures LayerDigestsOf(x, t.slots) <= Count(t, DigestIs(x))
  {
    LayerDigestsSum(x, t.slots);
  }

  lemma {:induction false} SlotsSumUp(x: string, slots: seq<Slot>, i: nat, j: nat)
    requires i < |slots| && j < |slots|
    ensures if i == j then SlotDigests(x, slots[i]) <= LayerDigestsOf(x, slots)
            else SlotDigests(x, slots[i]) + SlotDigests(x, slots[j]) <= LayerDigestsOf(x, slots)
  {
    var n := |slots| - 1;
    if i < n && j < n {
      SlotsSumUp(x, slots[..n], i, j);
    } else if i < n {
      SlotsSumUp(x, slots[..n], i, i);
    } else if j < n {
      SlotsSumUp(x, slots[..n], j, j);
    }
  }

  lemma {:induction false} RawHidesNothing(v: Json, path: Path)
    ensures !HiddenAt(Raw(v), path)
  {
    HiddenIsListed(Raw(v), v, None, path);
  }

  /** A digest is counted at every hidden path that has it. */
  lemma {:induction false} DigestIsCounted(t: Tree, path: Path) returns (i: nat)
    requires HiddenAt(t, path)
    ensures t.Node? && i < |t.slots| && SlotAt(t.slots, path[0]) == Some(t.slots[i])
    ensures var x := DigestAt(t, path);
            SlotDigests(x, t.slots[i]) >= 1 && LayerDigestsOf(x, t.slots) >= 1 && Count(t, DigestIs(x)) >= 1
    decreases |path|
  {
    if t.Raw? {
      RawHidesNothing(t.value, path);
    }
    var s := SlotAt(t.slots, path[0]).value;
    i :| 0 <= i < |t.slots| && t.slots[i] == s;
    if |path| > 1 {
      var _ := DigestIsCounted(s.child, path[1..]);
    }
    SlotsSumUp(DigestAt(t, path), t.slots, i, i);
    LayerDigestsBound(DigestAt(t, path), t);
  }

  /** A digest that is a slot's own does not also occur below it, if no digest occurs twice. */
  lemma OwnDigestNotBelow(t: Tree, s: Slot, i: nat, rest: Path)
    requires t.Node? && i < |t.slots| && s == t.slots[i] && s.mark.Hidden? && HiddenAt(s.child, rest)
    requires LayerDigestsOf(s.mark.digest, t.slots) <= 1
    ensures DigestAt(s.child, rest) != s.mark.digest
  {
    var _ := DigestIsCounted(s.child, rest);
    SlotsSumUp(s.mark.digest, t.slots, i, i);
  }

  ghost predicate NoDigestTwice(t: Tree) {
    forall x :: Count(t, DigestIs(x)) <= 1
  }

  lemma NoDigestTwiceBelow(t: Tree, i: nat)
    requires t.Node? && i < |t.slots| && NoDigestTwice(t)
    ensures NoDigestTwice(t.slots[i].child)
  {
    forall y ensures Count(t.slots[i].child, DigestIs(y)) <= 1 {
      SlotsSumUp(y, t.slots, i, i);
      LayerDigestsBound(y, t);
      assert Count(t, DigestIs(y)) <= 1;
    }
  }

  /** Two hidden paths with the same digest run through the same slot. */
  lemma SameSlot(t: Tree, path: Path, other: Path) returns (i: nat)
    requires HiddenAt(t, path) && HiddenAt(t, other) && DigestAt(t, path) == DigestAt(t, other) && NoDigestTwice(t)
    ensures t.Node? && i < |t.slots| && path[0] == other[0] && SlotAt(t.slots, path[0]) == Some(t.slots[i])
  {
    var x := DigestAt(t, path);
    i := DigestIsCounted(t, path);
    var j := DigestIsCounted(t, other);
    LayerDigestsBound(x, t);
    assert Count(t, DigestIs(x)) <= 1;
    SlotsSumUp(x, t.slots, i, j);
  }

  /** The digest of a slot differs from those hidden below it. */
  lemma OwnDiffersBelow(t: Tree, path: Path, other: Path, i: nat)
    requires HiddenAt(t, path) && HiddenAt(t, other) && NoDigestTwice(t) && |path| == 1 && |other| > 1
             && path[0] == other[0]
    requires t.Node? && i < |t.slots| && SlotAt(t.slots, path[0]) == Some(t.slots[i])
    ensures DigestAt(t, path) != DigestAt(t, other)
  {
    var s := t.slots[i];
    LayerDigestsBound(s.mark.digest, t);
    assert Count(t, DigestIs(s.mark.digest)) <= 1;
    OwnDigestNotBelow(t, s, i, other[1..]);
  }

  /** If no digest occurs twice, different hidden paths have different digests. */
  lemma {:induction false} DigestsDiffer(t: Tree, path: Path, other: Path)
    requires HiddenAt(t, path) && HiddenAt(t, other) && NoDigestTwice(t)
    requires DigestAt(t, path) == DigestAt(t, other)
    ensures path == other
    decreases |path|
  {
    var i := SameSlot(t, path, other);
    assert path == [path[0]] + path[1..] && other == [other[0]] + other[1..];
    if |path| == 1 && |other| > 1 {
      OwnDiffersBelow(t, path, other, i);
    } else if |path| > 1 && |other| == 1 {
      OwnDiffersBelow(t, other, path, i);
    } else if |path| > 1 {
      NoDigestTwiceBelow(t, i);
      DigestsDiffer(t.slots[i].child, path[1..], other[1..]);
    }
  }

  lemma {:induction false} LayerHas(slots: seq<Slot>, d: Disclosure, i: nat)
    requires i < |slots|
    ensures Count(slots[i].child, EveryDisclosure(Only(d)))
              + (if slots[i].mark.Hidden? then Only(d)(SlotDisclosure(slots[i])) else 0)
            <= CountChildren(slots, EveryDisclosure(Only(d))) + LayerTotal(slots, Only(d))
  {
    if i < |slots| - 1 {
      LayerHas(slots[..|slots| - 1], d, i);
    }
  }

  /** The disclosure at a hidden path is among those of the tree, and its digest is embedded there. */
  lemma {:induction false} DisclosureIsCounted(t: Tree, path: Path, env: Env)
    requires HiddenAt(t, path) && Signed(t, env)
    ensures Count(t, EveryDisclosure(Only(DisclosureAt(t, path)))) >= 1
    ensures DigestAt(t, path) == env.digest(DisclosureAt(t, path))
    ensures DisclosureAt(t, path).key == SegName(path[|path| - 1])
    decreases |path|
  {
    var i := DigestIsCounted(t, path);
    assert SlotSigned(t.slots[i], env);
    LayerHas(t.slots, DisclosureAt(t, path), i);
    if |path| > 1 {
      DisclosureIsCounted(t.slots[i].child, path[1..], env);
    }
  }

  /** Conversely, a disclosure of the tree belongs to some hidden path. */
  lemma {:induction false} CountedIsAtPath(t: Tree, d: Disclosure) returns (path: Path)
    requires Sound(t) && Count(t, EveryDisclosure(Only(d))) >= 1
    ensures HiddenAt(t, path) && DisclosureAt(t, path) == d
    decreases t, 1
  {
    var i;
    i, path := CountedIsAtSlot(t.slots, t.isArray, d);
    FindsSlot(t.slots, i);
  }

  lemma {:induction false} FindsSlot(slots: seq<Slot>, i: nat)
    requires i < |slots| && forall i, j :: 0 <= i < j < |slots| ==> slots[i].seg != slots[j].seg
    ensures SlotAt(slots, slots[i].seg) == Some(slots[i])
  {
  }

  lemma {:induction false} CountedIsAtSlot(slots: seq<Slot>, isArray: bool, d: Disclosure) returns (i: nat, path: Path)
    requires forall i :: 0 <= i < |slots| ==> SlotSound(slots[i], isArray, i)
    requires CountChildren(slots, EveryDisclosure(Only(d))) + LayerTotal(slots, Only(d)) >= 1
    ensures i < |slots| && path != [] && path[0] == slots[i].seg
    ensures if |path| == 1 then slots[i].mark.Hidden? && SlotDisclosure(slots[i]) == d
            else HiddenAt(slots[i].child, path[1..]) && DisclosureAt(slots[i].child, path[1..]) == d
    decreases slots, 0
  {
    var n := |slots| - 1;
    var s := slots[n];
    if s.mark.Hidden? && SlotDisclosure(s) == d {
      i, path := n, [s.seg];
    } else if Count(s.child, EveryDisclosure(Only(d))) >= 1 {
      var rest := CountedBelowSlot(s, d);
      i, path := n, [s.seg] + rest;
      assert path[1..] == rest;
    } else {
      i, path := CountedIsAtSlot(slots[..n], isArray, d);
    }
  }

  lemma {:induction false} CountedBelowSlot(s: Slot, d: Disclosure) returns (path: Path)
    requires Sound(s.child) && Count(s.child, EveryDisclosure(Only(d))) >= 1
    ensures HiddenAt(s.child, path) && DisclosureAt(s.child, path) == d
    decreases s, 0
  {
    path := CountedIsAtPath(s.child, d);
  }

  lemma {:induction false} TotalHas(ds: seq<Disclosure>, d: Disclosure)
    ensures Total(ds, Only(d)) >= 1 <==> IsIssued(d, ds)
  {
    if ds != [] {
      var n := |ds| - 1;
      TotalHas(ds[..n], d);
      assert IsIssued(d, ds) <==> ds[n] == d || IsIssued(d, ds[..n]) by {
        if IsIssued(d, ds[..n]) {
          var k :| 0 <= k < n && ds[..n][k] == d;
          assert ds[k] == d;
        }
        if IsIssued(d, ds) {
          var k :| 0 <= k < |ds| && ds[k] == d;
          assert k < n ==> ds[..n][k] == d;
        }
      }
    }
  }

  ghost predicate IsIssued(d: Disclosure, ds: seq<Disclosure>) {
    exists k :: 0 <= k < |ds| && ds[k] == d
  }

  lemma ListedPathIsIssued(claims: Json, frame: Option<Frame>, env: Env, path: Path)
    requires Packable(claims, frame, env)
    ensures var p := Pack(claims, frame, env, START).value;
            && (HiddenAt(p.tree, path) <==> path != [] && At(claims, path).Some? && Listed(frame, path))
            && (HiddenAt(p.tree, path) ==>
                  var d := DisclosureAt(p.tree, path);
                  IsIssued(d, p.disclosures) && d.key == SegName(path[|path| - 1])
                  && env.digest(d) == DigestAt(p.tree, path))
  {
    var p := Pack(claims, frame, env, START).value;
    PackFacts(claims, frame, env);
    HiddenIsListed(p.tree, claims, frame, path);
    if HiddenAt(p.tree, path) {
      DisclosureIsCounted(p.tree, path, env);
      TotalHas(p.disclosures, DisclosureAt(p.tree, path));
    }
  }

  lemma PackHasNoDigestTwice(claims: Json, frame: Option<Frame>, env: Env)
    requires Packable(claims, frame, env)
    ensures NoDigestTwice(Pack(claims, frame, env, START).value.tree)
  {
    var p := Pack(claims, frame, env, START).value;
    PackFacts(claims, frame, env);
    forall x ensures Count(p.tree, DigestIs(x)) <= 1 {
      assert Gains(START, p.seen, x, Count(p.tree, DigestIs(x)), Count(p.tree, SaltIs(x)));
    }
  }

  /**
   * The disclosures of a run are exactly those at the paths of claims that the frame lists, one each: the disclosure
   * for a path is issued under the name of its last segment and its digest is the embedded one, no other path has the
   * same digest, and there is no further disclosure.
   */
  lemma OneDisclosurePerListedPath(claims: Json, frame: Option<Frame>, env: Env)
    requires Packable(claims, frame, env)
    ensures var p := Pack(claims, frame, env, START).value;
            && (forall path :: HiddenAt(p.tree, path) <==> path != [] && At(claims, path).Some? && Listed(frame, path))
            && (forall path :: HiddenAt(p.tree, path) ==>
                  var d := DisclosureAt(p.tree, path);
                  IsIssued(d, p.disclosures) && d.key == SegName(path[|path| - 1])
                  && env.digest(d) == DigestAt(p.tree, path))
            && (forall path, other :: HiddenAt(p.tree, path) && HiddenAt(p.tree, other) && path != other ==>
                  DigestAt(p.tree, path) != DigestAt(p.tree, other))
            && (forall d :: IsIssued(d, p.disclosures) ==>
                  exists path :: HiddenAt(p.tree, path) && DisclosureAt(p.tree, path) == d)
  {
    var p := Pack(claims, frame, env, START).value;
    forall path
      ensures HiddenAt(p.tree, path) <==> path != [] && At(claims, path).Some? && Listed(frame, path)
      ensures HiddenAt(p.tree, path) ==>
                var d := DisclosureAt(p.tree, path);
                IsIssued(d, p.disclosures) && d.key == SegName(path[|path| - 1])
                && env.digest(d) == DigestAt(p.tree, path)
    {
      ListedPathIsIssued(claims, frame, env, path);
    }
    forall path, other | HiddenAt(p.tree, path) && HiddenAt(p.tree, other) && path != other
      ensures DigestAt(p.tree, path) != DigestAt(p.tree, other)
    {
      PackHasNoDigestTwice(claims, frame, env);
      if DigestAt(p.tree, path) == DigestAt(p.tree, other) {
        DigestsDiffer(p.tree, path, other);
      }
    }
    forall d | IsIssued(d, p.disclosures)
      ensures exists path :: HiddenAt(p.tree, path) && DisclosureAt(p.tree, path) == d {
      PackFacts(claims, frame, env);
      TotalHas(p.disclosures, d);
      var path := CountedIsAtPath(p.tree, d);
    }
  }

  // ---------- revealing some of the disclosures ----------

  /** Some of the issued disclosures, as read back, keyed by their digests. */
  ghost predicate Chosen(m: Disclosures, ds: seq<Disclosure>, env: Env) {
    forall x :: x in m ==> exists k :: 0 <= k < |ds| && env.digest(ds[k]) == x && m[x] == Wire(ds[k])
  }

  /** What every slot of the tree says of `m` if the tree has no digest twice. */
  ghost predicate Consistent(t: Tree, m: Disclosures, env: Env) {
    && (forall x :: x in m ==> Count(t, DecoyIs(x)) == 0)
    && (forall d :: Count(t, EveryDisclosure(Only(d))) > 0 && env.digest(d) in m ==> m[env.digest(d)] == Wire(d))
  }

  lemma {:induction false} ConsistentAgrees(t: Tree, m: Disclosures, env: Env)
    requires Signed(t, env) && Consistent(t, m, env)
    ensures Agrees(t, m)
    decreases t, 1
  {
    if t.Node? {
      forall i | 0 <= i < |t.decoys| ensures t.decoys[i] !in m {
        TimesIsCount(t.decoys[i], t.decoys);
      }
      forall i | 0 <= i < |t.slots| ensures SlotAgrees(t.slots[i], m) {
        assert SlotSigned(t.slots[i], env);
        forall x | x in m ensures Count(t.slots[i].child, DecoyIs(x)) == 0 { DecoysBelow(t.slots, x, i); }
        forall d
          ensures Count(t.slots[i].child, EveryDisclosure(Only(d))) > 0 && env.digest(d) in m ==>
                    m[env.digest(d)] == Wire(d)
                 ensures t.slots[i].mark.Hidden? && d == SlotDisclosure(t.slots[i]) && env.digest(d) in m ==>
                           m[env.digest(d)] == Wire(d) {
          LayerHas(t.slots, d, i);
        }
        SlotConsistentAgrees(t.slots[i], m, env);
      }
    }
  }

  lemma {:induction false} DecoysBelow(slots: seq<Slot>, x: string, i: nat)
    requires i < |slots|
    ensures Count(slots[i].child, DecoyIs(x)) <= CountChildren(slots, DecoyIs(x))
  {
    if i < |slots| - 1 {
      DecoysBelow(slots[..|slots| - 1], x, i);
    }
  }

  lemma {:induction false} SlotConsistentAgrees(s: Slot, m: Disclosures, env: Env)
    requires SlotSigned(s, env) && Consistent(s.child, m, env)
    requires s.mark.Hidden? && env.digest(SlotDisclosure(s)) in m ==>
               m[env.digest(SlotDisclosure(s))] == Wire(SlotDisclosure(s))
    ensures SlotAgrees(s, m)
    decreases s, 0
  {
    ConsistentAgrees(s.child, m, env);
  }

  lemma {:induction false} TotalTwice(x: string, ds: seq<Disclosure>, env: Env, i: nat, j: nat)
    requires i < |ds| && j < |ds| && env.digest(ds[i]) == env.digest(ds[j]) == x
    ensures Total(ds, HasDigest(x, env)) >= if i == j then 1 else 2
  {
    var n := |ds| - 1;
    if i < n && j < n {
      TotalTwice(x, ds[..n], env, i, j);
    } else if i < n {
      TotalTwice(x, ds[..n], env, i, i);
    } else if j < n {
      TotalTwice(x, ds[..n], env, j, j);
    }
  }

  lemma ChosenAgrees(claims: Json, frame: Option<Frame>, env: Env, m: Disclosures)
    requires Packable(claims, frame, env) && Chosen(m, Pack(claims, frame, env, START).value.disclosures, env)
    ensures Agrees(Pack(claims, frame, env, START).value.tree, m)
  {
    var p := Pack(claims, frame, env, START).value;
    PackFacts(claims, frame, env);
    Ledger(claims, frame, env);
    forall x | x in m ensures Count(p.tree, DecoyIs(x)) == 0 {
      var k :| 0 <= k < |p.disclosures| && env.digest(p.disclosures[k]) == x;
      TotalTwice(x, p.disclosures, env, k, k);
    }
    forall d | Count(p.tree, EveryDisclosure(Only(d))) > 0 && env.digest(d) in m ensures m[env.digest(d)] == Wire(d) {
      var x := env.digest(d);
      TotalHas(p.disclosures, d);
      var i :| 0 <= i < |p.disclosures| && p.disclosures[i] == d;
      var k :| 0 <= k < |p.disclosures| && env.digest(p.disclosures[k]) == x && m[x] == Wire(p.disclosures[k]);
      TotalTwice(x, p.disclosures, env, i, k);
    }
    ConsistentAgrees(p.tree, m, env);
  }

  // ---------- what the readers collect ----------

  ghost function One(): Disclosure -> nat { (d: Disclosure) => 1 }

  lemma {:induction false} TotalOfOne(ds: seq<Disclosure>)
    ensures Total(ds, One()) == |ds|
  {
    if ds != [] {
      TotalOfOne(ds[..|ds| - 1]);
    }
  }

  lemma {:induction false} HiddenCount(t: Tree)
    ensures HiddenIn(t) == Count(t, EveryDisclosure(One()))
    decreases t, 1
  {
    if t.Node? {
      LayerHiddenCount(t.slots);
      HiddenCountBelow(t.slots);
    }
  }

  lemma {:induction false} LayerHiddenCount(slots: seq<Slot>)
    ensures |Digests(slots)| == LayerTotal(slots, One())
  {
    if slots != [] {
      LayerHiddenCount(slots[..|slots| - 1]);
    }
  }

  lemma {:induction false} HiddenCountBelow(slots: seq<Slot>)
    ensures CountChildren(slots, NumberHidden()) == CountChildren(slots, EveryDisclosure(One()))
    decreases slots, 0
  {
    if slots != [] {
      HiddenCountBelow(slots[..|slots| - 1]);
      SlotHiddenCount(slots[|slots| - 1]);
    }
  }

  lemma {:induction false} SlotHiddenCount(s: Slot)
    ensures CountChild(s, NumberHidden()) == CountChild(s, EveryDisclosure(One()))
    decreases s, 0
  {
    HiddenCount(s.child);
  }

  /**
   * Whatever subset of the disclosures is revealed, the collected claims are, each exactly once, the paths of the
   * original claims all of whose listed prefixes (the path itself included) have a revealed disclosure, and a claim is
   * marked as selectively disclosable if and only if the frame lists its path. Following one disclosure inside another
   * never goes deeper than the number of disclosures.
   */
  lemma CollectsRevealedClaims(claims: Json, frame: Option<Frame>, env: Env, m: Disclosures, fuel: nat, c: PresentClaim)
    requires Packable(claims, frame, env)
    requires var p := Pack(claims, frame, env, START).value;
             Chosen(m, p.disclosures, env) && |p.disclosures| <= fuel
    ensures var p := Pack(claims, frame, env, START).value;
            Occ(c, Collect(Emit(p.tree), [], m, fuel)) ==
            if && c.path != [] && At(claims, c.path).Some? && PrefixesRevealed(p.tree, c.path, m)
               && (c.isSd <==> Listed(frame, c.path))
            then 1 else 0
  {
    var p := Pack(claims, frame, env, START).value;
    PackFacts(claims, frame, env);
    ChosenAgrees(claims, frame, env, m);
    HiddenCount(p.tree);
    TotalOfOne(p.disclosures);
    Shown(c, p.tree, [], m, fuel);
    assert c.path[0..] == c.path;
    ShownIsPresent(p.tree, claims, frame, c.path, m);
    HiddenIsListed(p.tree, claims, frame, c.path);
  }

  ghost predicate EveryoneChosen(m: Disclosures, ds: seq<Disclosure>, env: Env) {
    Chosen(m, ds, env) && forall k :: 0 <= k < |ds| ==> env.digest(ds[k]) in m
  }

  lemma HiddenIsChosen(claims: Json, frame: Option<Frame>, env: Env, m: Disclosures, path: Path)
    requires Packable(claims, frame, env) && EveryoneChosen(m, Pack(claims, frame, env, START).value.disclosures, env)
    requires HiddenAt(Pack(claims, frame, env, START).value.tree, path)
    ensures DigestAt(Pack(claims, frame, env, START).value.tree, path) in m
  {
    var p := Pack(claims, frame, env, START).value;
    ListedPathIsIssued(claims, frame, env, path);
    var k :| 0 <= k < |p.disclosures| && p.disclosures[k] == DisclosureAt(p.tree, path);
  }

  /** No claim listed by the frame has the empty name. */
  ghost predicate NoEmptyNameListed(claims: Json, frame: Option<Frame>) {
    forall path :: path != [] && At(claims, path).Some? && Listed(frame, path) ==> path[|path| - 1] != Key("")
  }

  /** Every path of the claims is collected, once and with the right mark. */
  ghost predicate CollectsEverything(claims: Json, frame: Option<Frame>, collected: seq<PresentClaim>) {
    forall path :: path != [] && At(claims, path).Some? ==> Occ(PresentClaim(path, Listed(frame, path)), collected) == 1
  }

  lemma CollectedIfRevealed(claims: Json, frame: Option<Frame>, env: Env, m: Disclosures, fuel: nat, path: Path)
    requires Packable(claims, frame, env) && path != [] && At(claims, path).Some?
    requires var p := Pack(claims, frame, env, START).value;
             EveryoneChosen(m, p.disclosures, env) && |p.disclosures| <= fuel
    ensures Occ(PresentClaim(path, Listed(frame, path)),
                Collect(Emit(Pack(claims, frame, env, START).value.tree), [], m, fuel)) == 1
            <==> NamedPrefixes(claims, frame, path)
  {
    var p := Pack(claims, frame, env, START).value;
    CollectsRevealedClaims(claims, frame, env, m, fuel, PresentClaim(path, Listed(frame, path)));
    forall n | 0 < n <= |path|
      ensures HiddenAt(p.tree, path[..n]) <==> Listed(frame, path[..n]) && At(claims, path[..n]).Some?
      ensures HiddenAt(p.tree, path[..n]) ==> DigestAt(p.tree, path[..n]) in m
    {
      ListedPathIsIssued(claims, frame, env, path[..n]);
      if HiddenAt(p.tree, path[..n]) {
        HiddenIsChosen(claims, frame, env, m, path[..n]);
      }
    }
  }

  /**
   * With every disclosure revealed, the claims come back complete if and only if no listed claim has the empty name.
   */
  lemma AllRevealed(claims: Json, frame: Option<Frame>, env: Env, m: Disclosures, fuel: nat)
    requires Packable(claims, frame, env)
    requires var p := Pack(claims, frame, env, START).value;
             EveryoneChosen(m, p.disclosures, env) && |p.disclosures| <= fuel
    ensures CollectsEverything(claims, frame, Collect(Emit(Pack(claims, frame, env, START).value.tree), [], m, fuel))
            <==> NoEmptyNameListed(claims, frame)
  {
    var collected := Collect(Emit(Pack(claims, frame, env, START).value.tree), [], m, fuel);
    forall path | path != [] && At(claims, path).Some?
      ensures Occ(PresentClaim(path, Listed(frame, path)), collected) == 1 <==> NamedPrefixes(claims, frame, path)
    {
      CollectedIfRevealed(claims, frame, env, m, fuel, path);
    }
    EverythingIsNamed(claims, frame, collected);
  }

  lemma EverythingIsNamed(claims: Json, frame: Option<Frame>, collected: seq<PresentClaim>)
    requires forall path :: path != [] && At(claims, path).Some? ==>
               (Occ(PresentClaim(path, Listed(frame, path)), collected) == 1 <==> NamedPrefixes(claims, frame, path))
    ensures CollectsEverything(claims, frame, collected) <==> NoEmptyNameListed(claims, frame)
  {
    if CollectsEverything(claims, frame, collected) {
      forall path | path != [] && At(claims, path).Some? && Listed(frame, path) ensures path[|path| - 1] != Key("") {
        assert NamedPrefixes(claims, frame, path);
        assert path[..|path|] == path;
      }
    }
    if NoEmptyNameListed(claims, frame) {
      forall path | path != [] && At(claims, path).Some?
        ensures Occ(PresentClaim(path, Listed(frame, path)), collected) == 1 {
        forall n | 0 < n <= |path| && Listed(frame, path[..n]) && At(claims, path[..n]).Some?
          ensures path[n - 1] != Key("") {
          assert path[..n][|path[..n]| - 1] == path[n - 1];
        }
      }
    }
  }

  /** No listed prefix of the path ends in the empty name. */
  ghost predicate NamedPrefixes(claims: Json, frame: Option<Frame>, path: Path) {
    forall n :: 0 < n <= |path| && Listed(frame, path[..n]) && At(claims, path[..n]).Some? ==> path[n - 1] != Key("")
  }
}
