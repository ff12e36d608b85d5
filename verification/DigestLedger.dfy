/** The ledger of digests: each is embedded exactly once, and disclosures refer only to earlier ones. */
module DigestLedger {
  import opened Basics
  import opened Json
  import opened Sorting
  import opened Packing
  import opened PackLedger
  import opened Embedding

  /** How often the digest `x` is embedded in a JSON value. */
  ghost function Embedded(x: string, j: Json): nat
    decreases j, 1
  {
    match j
    case Arr(items) => EmbeddedItems(x, items)
    case Obj(members) => EmbeddedMembers(x, members) + Times(x, DigestList(j))
    case _ => 0
  }

  ghost function EmbeddedItems(x: string, items: seq<Json>): nat
    decreases items, 0
  {
    if items == [] then 0
    else EmbeddedItems(x, items[..|items| - 1]) + EmbeddedItem(x, items[|items| - 1])
  }

  ghost function EmbeddedItem(x: string, item: Json): nat
    decreases item, 2
  {
    match PlaceholderDigest(item)
    case Some(d) => Is(x, d)
    case None => Embedded(x, item)
  }

  ghost function EmbeddedMembers(x: string, members: seq<Member>): nat
    decreases members, 0
  {
    if members == [] then 0
    else EmbeddedMembers(x, members[..|members| - 1]) + EmbeddedMember(x, members[|members| - 1])
  }

  ghost function EmbeddedMember(x: string, m: Member): nat
    decreases m, 0
  {
    if m.key == SD_DIGEST then 0 else Embedded(x, m.value)
  }

  lemma {:induction false} CleanEmbedsNothing(x: string, j: Json)
    requires Clean(j)
    ensures Embedded(x, j) == 0
    decreases j, 1
  {
    assert forall i :: 0 <= i < |Cells(j)| ==> Clean(Cells(j)[i].value);
    match j
    case Arr(items) =>
      forall i | 0 <= i < |items| ensures Clean(items[i]) { assert Clean(Cells(j)[i].value); }
      CleanItems(x, items);
    case Obj(members) =>
      forall i | 0 <= i < |members| ensures Clean(members[i].value) { assert Clean(Cells(j)[i].value); }
      CleanMembers(x, members);
    case _ =>
  }

  lemma {:induction false} CleanItems(x: string, items: seq<Json>)
    requires forall i :: 0 <= i < |items| ==> Clean(items[i])
    ensures EmbeddedItems(x, items) == 0
    decreases items, 0
  {
    if items != [] {
      var n := |items| - 1;
      CleanItems(x, items[..n]);
      CleanEmbedsNothing(x, items[n]);
    }
  }

  lemma {:induction false} CleanMembers(x: string, members: seq<Member>)
    requires forall i :: 0 <= i < |members| ==> Clean(members[i].value)
    ensures EmbeddedMembers(x, members) == 0
    decreases members, 0
  {
    if members != [] {
      CleanMembers(x, members[..|members| - 1]);
      CleanMember(x, members[|members| - 1]);
    }
  }

  lemma {:induction false} CleanMember(x: string, m: Member)
    requires Clean(m.value)
    ensures EmbeddedMember(x, m) == 0
    decreases m, 0
  {
    CleanEmbedsNothing(x, m.value);
  }

  ghost function InValue(x: string): Disclosure -> nat { (d: Disclosure) => Embedded(x, d.value) }
  ghost function HasDigest(x: string, env: Env): Disclosure -> nat { (d: Disclosure) => Is(x, env.digest(d)) }

  ghost function HasSalt(x: string): Disclosure -> nat { (d: Disclosure) => Is(x, d.salt) }

  // ---------- conservation ----------

  /** The payload of a tree and the values of its hidden slots embed exactly the digests of the tree. */
  lemma {:induction false} Conservation(x: string, t: Tree)
    requires Sound(t)
    ensures Embedded(x, Emit(t)) + Count(t, EveryDisclosure(InValue(x))) == Count(t, DigestIs(x))
    decreases t, 1
  {
    match t
    case Raw(v) => CleanEmbedsNothing(x, v);
    case Node(true, slots, decoys) =>
      ItemsConserve(x, slots);
      ItemsOfConcat(x, EmitItems(slots), Placeholders(decoys));
      PlaceholdersEmbed(x, decoys);
    case Node(false, slots, decoys) =>
      MembersConserve(x, slots);
      EmittedDigestList(slots, decoys);
      SortSorts(Digests(slots) + decoys);
      TimesIsCount(x, Sort(Digests(slots) + decoys));
      TimesIsCount(x, Digests(slots) + decoys);
      TimesOfConcat(x, Digests(slots), decoys);
      MembersOfSd(x, EmitMembers(slots), Digests(slots), decoys);
  }

  lemma MembersOfSd(x: string, members: seq<Member>, digests: seq<string>, decoys: seq<string>)
    ensures EmbeddedMembers(x, members + SdMember(digests, decoys)) == EmbeddedMembers(x, members)
  {
    if SdMember(digests, decoys) == [] {
      assert members + SdMember(digests, decoys) == members;
    } else {
      var all := members + SdMember(digests, decoys);
      assert all[..|all| - 1] == members;
    }
  }

  lemma {:induction false} ItemsOfConcat(x: string, a: seq<Json>, b: seq<Json>)
    ensures EmbeddedItems(x, a + b) == EmbeddedItems(x, a) + EmbeddedItems(x, b)
  {
    if b == [] {
      assert a + b == a;
    } else {
      assert (a + b)[..|a + b| - 1] == a + b[..|b| - 1];
      ItemsOfConcat(x, a, b[..|b| - 1]);
    }
  }

  lemma {:induction false} PlaceholdersEmbed(x: string, digests: seq<string>)
    ensures EmbeddedItems(x, Placeholders(digests)) == Times(x, digests)
  {
    if digests != [] {
      var n := |digests| - 1;
      PlaceholdersEmbed(x, digests[..n]);
      assert Placeholders(digests)[..n] == Placeholders(digests[..n]);
    }
  }

  lemma {:induction false} SlotConserves(x: string, s: Slot)
    requires Sound(s.child)
    ensures Embedded(x, Emit(s.child)) + CountChild(s, EveryDisclosure(InValue(x))) == CountChild(s, DigestIs(x))
    decreases s, 0
  {
    Conservation(x, s.child);
  }

  lemma LastItem(x: string, slots: seq<Slot>)
    requires slots != [] && Sound(slots[|slots| - 1].child)
    ensures var n := |slots| - 1;
            var s := slots[n];
            && EmbeddedItems(x, EmitItems(slots)) == EmbeddedItems(x, EmitItems(slots[..n])) +
                 (if s.mark.Hidden? then Is(x, s.mark.digest) else Embedded(x, Emit(s.child)))
            && Times(x, Digests(slots)) == Times(x, Digests(slots[..n]))
                 + (if s.mark.Hidden? then Is(x, s.mark.digest) else 0)
            && LayerTotal(slots, InValue(x))
                 == LayerTotal(slots[..n], InValue(x)) + (if s.mark.Hidden? then Embedded(x, Emit(s.child)) else 0)
  {
    var n := |slots| - 1;
    EmitIsNoPlaceholder(slots[n].child);
    assert EmitItems(slots)[..n] == EmitItems(slots[..n]);
    if slots[n].mark.Hidden? {
      TimesOfAppend(x, Digests(slots[..n]), slots[n].mark.digest);
    } else {
      assert Digests(slots) == Digests(slots[..n]);
    }
  }

  lemma {:induction false} ItemsConserve(x: string, slots: seq<Slot>)
    requires forall i :: 0 <= i < |slots| ==> SlotSound(slots[i], true, i)
    ensures EmbeddedItems(x, EmitItems(slots)) + CountChildren(slots, EveryDisclosure(InValue(x)))
              + LayerTotal(slots, InValue(x))
            == CountChildren(slots, DigestIs(x)) + Times(x, Digests(slots))
    decreases slots, 0
  {
    if slots != [] {
      ItemsConserve(x, slots[..|slots| - 1]);
      SlotConserves(x, slots[|slots| - 1]);
      LastItem(x, slots);
    }
  }

  lemma LastMember(x: string, slots: seq<Slot>)
    requires slots != [] && SlotSound(slots[|slots| - 1], false, |slots| - 1)
    ensures var n := |slots| - 1;
            var s := slots[n];
            && EmbeddedMembers(x, EmitMembers(slots)) == EmbeddedMembers(x, EmitMembers(slots[..n])) +
                 (if s.mark.Hidden? then 0 else Embedded(x, Emit(s.child)))
            && LayerTotal(slots, InValue(x))
                 == LayerTotal(slots[..n], InValue(x)) + (if s.mark.Hidden? then Embedded(x, Emit(s.child)) else 0)
  {
    var n := |slots| - 1;
    var all := EmitMembers(slots);
    if slots[n].mark.Open? {
      assert all[..|all| - 1] == EmitMembers(slots[..n]);
    } else {
      assert all == EmitMembers(slots[..n]);
    }
  }

  lemma {:induction false} MembersConserve(x: string, slots: seq<Slot>)
    requires forall i :: 0 <= i < |slots| ==> SlotSound(slots[i], false, i)
    ensures EmbeddedMembers(x, EmitMembers(slots)) + CountChildren(slots, EveryDisclosure(InValue(x)))
              + LayerTotal(slots, InValue(x))
            == CountChildren(slots, DigestIs(x))
    decreases slots, 0
  {
    if slots != [] {
      MembersConserve(x, slots[..|slots| - 1]);
      SlotConserves(x, slots[|slots| - 1]);
      LastMember(x, slots);
    }
  }

  // ---------- the digests of a tree are those of its disclosures and its decoys ----------

  lemma {:induction false} LayerDigests(x: string, slots: seq<Slot>, env: Env)
    requires forall i :: 0 <= i < |slots| ==> SlotSigned(slots[i], env)
    ensures Times(x, Digests(slots)) == LayerTotal(slots, HasDigest(x, env))
  {
    if slots != [] {
      var n := |slots| - 1;
      LayerDigests(x, slots[..n], env);
      if slots[n].mark.Hidden? {
        TimesOfAppend(x, Digests(slots[..n]), slots[n].mark.digest);
      } else {
        assert Digests(slots) == Digests(slots[..n]);
      }
    }
  }

  lemma {:induction false} DigestsSplit(x: string, t: Tree, env: Env)
    requires Signed(t, env)
    ensures Count(t, DigestIs(x)) == Count(t, EveryDisclosure(HasDigest(x, env))) + Count(t, DecoyIs(x))
    decreases t, 1
  {
    if t.Node? {
      LayerDigests(x, t.slots, env);
      ChildDigestsSplit(x, t.slots, env);
    }
  }

  lemma {:induction false} ChildDigestsSplit(x: string, slots: seq<Slot>, env: Env)
    requires forall i :: 0 <= i < |slots| ==> SlotSigned(slots[i], env)
    ensures CountChildren(slots, DigestIs(x)) ==
            CountChildren(slots, EveryDisclosure(HasDigest(x, env))) + CountChildren(slots, DecoyIs(x))
    decreases slots, 0
  {
    if slots != [] {
      ChildDigestsSplit(x, slots[..|slots| - 1], env);
      SlotDigestsSplit(x, slots[|slots| - 1], env);
    }
  }

  lemma {:induction false} SlotDigestsSplit(x: string, s: Slot, env: Env)
    requires SlotSigned(s, env)
    ensures CountChild(s, DigestIs(x)) == CountChild(s, EveryDisclosure(HasDigest(x, env))) + CountChild(s, DecoyIs(x))
    decreases s, 0
  {
    DigestsSplit(x, s.child, env);
  }

  // ---------- the number of decoys ----------

  /** The decoys a frame asks for, over all its layers. */
  function DecoysAsked(frame: Frame): nat
    decreases frame, 1
  {
    frame.decoys + DecoysAskedBelow(frame.children)
  }

  function DecoysAskedBelow(children: seq<SubFrame>): nat
    decreases children, 0
  {
    if children == [] then 0
    else DecoysAskedBelow(children[..|children| - 1]) + DecoysAskedAt(children[|children| - 1])
  }

  function DecoysAskedAt(c: SubFrame): nat
    decreases c, 0
  {
    DecoysAsked(c.frame)
  }

  lemma {:induction false} PackDecoys(claims: Json, frame: Frame, env: Env, seen: Seen)
    requires WellFormed(claims, frame) && PackTree(claims, frame, env, seen).Ok?
    ensures Count(PackTree(claims, frame, env, seen).value.tree, NumberOfDecoys()) == DecoysAsked(frame)
    decreases frame, 1
  {
    var nested := PackChildren(claims, frame.children, env, seen).value;
    ChildrenDecoys(claims, frame.children, env, seen);
    SealCounts(Cells(claims), frame.sd, nested.trees, env, nested.seen, NumberOfDecoys());
    PackLayout(claims, frame, env, seen);
  }

  lemma {:induction false} ChildrenDecoys(claims: Json, children: seq<SubFrame>, env: Env, seen: Seen)
    requires ChildrenWellFormed(claims, children) && DistinctSubFrames(children) && DistinctSegs(Cells(claims))
    requires PackChildren(claims, children, env, seen).Ok?
    ensures CellsSum(Cells(claims), PackChildren(claims, children, env, seen).value.trees, NumberOfDecoys())
              == DecoysAskedBelow(children)
    decreases children, 0
  {
    var h := NumberOfDecoys();
    if children == [] {
      EmptySum(Cells(claims), h);
    } else {
      var n := |children| - 1;
      ChildrenDecoys(claims, children[..n], env, seen);
      var before := PackChildren(claims, children[..n], env, seen).value;
      ChildDecoys(claims, children[n], env, before.seen);
      ChildAdds(claims, children, env, seen, h);
      assert DecoysAskedBelow(children) == DecoysAskedBelow(children[..n]) + DecoysAskedAt(children[n]);
    }
  }

  lemma {:induction false} ChildDecoys(claims: Json, c: SubFrame, env: Env, seen: Seen)
    requires ChildWellFormed(claims, c) && PackChild(claims, c, env, seen).Ok?
    ensures Count(PackChild(claims, c, env, seen).value.tree, NumberOfDecoys()) == DecoysAskedAt(c)
    decreases c, 0
  {
    PackDecoys(Child(claims, c.seg).value, c.frame, env, seen);
  }

  // ---------- disclosures embed only digests of earlier disclosures, or decoys ----------

  /** Whatever is embedded in the value of a disclosure is a decoy of `t` or the digest of an earlier disclosure. */
  ghost predicate Backward(ds: seq<Disclosure>, env: Env, decoy: string -> bool) {
    forall i, x :: 0 <= i < |ds| && Embedded(x, ds[i].value) > 0 ==>
      decoy(x) || exists k :: 0 <= k < i && env.digest(ds[k]) == x
  }

  lemma BackwardConcat(a: seq<Disclosure>, b: seq<Disclosure>, env: Env, decoy: string -> bool)
    requires Backward(a, env, decoy) && Backward(b, env, decoy)
    ensures Backward(a + b, env, decoy)
  {
    var ds := a + b;
    forall i, x | 0 <= i < |ds| && Embedded(x, ds[i].value) > 0 && !decoy(x)
      ensures exists k :: 0 <= k < i && env.digest(ds[k]) == x
    {
      if i < |a| {
        var k :| 0 <= k < i && env.digest(a[k]) == x;
        assert env.digest(ds[k]) == x;
      } else {
        var k :| 0 <= k < i - |a| && env.digest(b[k]) == x;
        assert env.digest(ds[|a| + k]) == x;
      }
    }
  }

  lemma {:induction false} TotalFinds(x: string, ds: seq<Disclosure>, env: Env)
    requires Total(ds, HasDigest(x, env)) > 0
    ensures exists k :: 0 <= k < |ds| && env.digest(ds[k]) == x
  {
    var n := |ds| - 1;
    if env.digest(ds[n]) != x {
      TotalFinds(x, ds[..n], env);
      var k :| 0 <= k < n && env.digest(ds[..n][k]) == x;
      assert env.digest(ds[k]) == x;
    }
  }

  lemma {:induction false} SumCovers(cells: seq<Cell>, trees: map<Seg, Tree>, h: Layer, m: nat)
    requires m < |cells|
    ensures Count(TreeOf(cells[m], trees), h) <= CellsSum(cells, trees, h)
  {
    if m < |cells| - 1 {
      SumCovers(cells[..|cells| - 1], trees, h, m);
    }
  }

  lemma {:induction false} SealedValues(cells: seq<Cell>, sd: seq<Seg>, trees: map<Seg, Tree>, env: Env, seen: Seen,
                                        i: nat) returns (m: nat)
    requires Seal(cells, sd, trees, env, seen).Ok? && i < |Seal(cells, sd, trees, env, seen).value.disclosures|
    ensures m < |cells| && Seal(cells, sd, trees, env, seen).value.disclosures[i].value == Emit(TreeOf(cells[m], trees))
  {
    var n := |cells| - 1;
    var before := Seal(cells[..n], sd, trees, env, seen).value;
    if i < |before.disclosures| {
      m := SealedValues(cells[..n], sd, trees, env, seen, i);
    } else {
      m := n;
    }
  }

  /** The trees of the children are sound and signed. */
  lemma ChildTreesSound(claims: Json, frame: Frame, env: Env, seen: Seen, m: nat)
    requires WellFormed(claims, frame) && Clean(claims) && Proper(claims)
    requires PackChildren(claims, frame.children, env, seen).Ok? && m < |Cells(claims)|
    ensures var t := TreeOf(Cells(claims)[m], PackChildren(claims, frame.children, env, seen).value.trees);
            Sound(t) && Signed(t, env)
  {
    var cell := Cells(claims)[m];
    var t := TreeOf(cell, PackChildren(claims, frame.children, env, seen).value.trees);
    ChildrenLayout(claims, frame.children, env, seen);
    ChildrenSigned(claims, frame.children, env, seen);
    FindAt(Cells(claims), m);
    assert Layout(t, cell.value, SubFrameAt(frame.children, cell.seg));
    LayoutSound(t, cell.value, SubFrameAt(frame.children, cell.seg));
  }

  /** What the value of a disclosure of this layer embeds was packed before it, in some child. */
  lemma OuterRefersInward(claims: Json, frame: Frame, env: Env, seen: Seen, i: nat, x: string)
    requires WellFormed(claims, frame) && Clean(claims) && Proper(claims)
             && PackChildren(claims, frame.children, env, seen).Ok?
    requires var nested := PackChildren(claims, frame.children, env, seen).value;
             var sealed := Seal(Cells(claims), frame.sd, nested.trees, env, nested.seen);
             && sealed.Ok? && i < |sealed.value.disclosures| && Embedded(x, sealed.value.disclosures[i].value) > 0
             && CellsSum(Cells(claims), nested.trees, DecoyIs(x)) == 0
    ensures var inner := PackChildren(claims, frame.children, env, seen).value.disclosures;
            exists k :: 0 <= k < |inner| && env.digest(inner[k]) == x
  {
    var cells := Cells(claims);
    var nested := PackChildren(claims, frame.children, env, seen).value;
    var m := SealedValues(cells, frame.sd, nested.trees, env, nested.seen, i);
    var t := TreeOf(cells[m], nested.trees);
    ChildTreesSound(claims, frame, env, seen, m);
    Conservation(x, t);
    DigestsSplit(x, t, env);
    SumCovers(cells, nested.trees, DecoyIs(x), m);
    SumCovers(cells, nested.trees, EveryDisclosure(HasDigest(x, env)), m);
    ChildrenGather(claims, frame.children, env, seen, HasDigest(x, env));
    TotalFinds(x, nested.disclosures, env);
  }

  lemma BackwardAppend(inner: seq<Disclosure>, outer: seq<Disclosure>, env: Env, decoy: string -> bool)
    requires Backward(inner, env, decoy)
    requires forall i, x :: 0 <= i < |outer| && Embedded(x, outer[i].value) > 0 && !decoy(x) ==>
               exists k :: 0 <= k < |inner| && env.digest(inner[k]) == x
    ensures Backward(inner + outer, env, decoy)
  {
    var ds := inner + outer;
    forall i, x | 0 <= i < |ds| && Embedded(x, ds[i].value) > 0 && !decoy(x)
      ensures exists k :: 0 <= k < i && env.digest(ds[k]) == x
    {
      if i < |inner| {
        var k :| 0 <= k < i && env.digest(inner[k]) == x;
        assert env.digest(ds[k]) == x;
      } else {
        assert ds[i] == outer[i - |inner|];
        var k :| 0 <= k < |inner| && env.digest(inner[k]) == x;
        assert env.digest(ds[k]) == x;
      }
    }
  }

  lemma {:induction false} PackBackward(claims: Json, frame: Frame, env: Env, seen: Seen, decoy: string -> bool)
    requires WellFormed(claims, frame) && Clean(claims) && Proper(claims) && PackTree(claims, frame, env, seen).Ok?
    requires forall x :: Count(PackTree(claims, frame, env, seen).value.tree, DecoyIs(x)) > 0 ==> decoy(x)
    ensures Backward(PackTree(claims, frame, env, seen).value.disclosures, env, decoy)
    decreases frame, 1
  {
    var cells := Cells(claims);
    var nested := PackChildren(claims, frame.children, env, seen).value;
    var outer := Seal(cells, frame.sd, nested.trees, env, nested.seen).value.disclosures;
    forall x ensures CellsSum(cells, nested.trees, DecoyIs(x)) > 0 ==> decoy(x) {
      SealCounts(cells, frame.sd, nested.trees, env, nested.seen, DecoyIs(x));
    }
    ChildrenBackward(claims, frame.children, env, seen, decoy);
    forall i, x | 0 <= i < |outer| && Embedded(x, outer[i].value) > 0 && !decoy(x)
      ensures exists k :: 0 <= k < |nested.disclosures| && env.digest(nested.disclosures[k]) == x
    {
      OuterRefersInward(claims, frame, env, seen, i, x);
    }
    BackwardAppend(nested.disclosures, outer, env, decoy);
  }

  lemma {:induction false} ChildrenBackward(claims: Json, children: seq<SubFrame>, env: Env, seen: Seen,
                                            decoy: string -> bool)
    requires ChildrenWellFormed(claims, children) && DistinctSubFrames(children) && DistinctSegs(Cells(claims))
    requires Clean(claims) && Proper(claims) && PackChildren(claims, children, env, seen).Ok?
    requires forall x ::
               CellsSum(Cells(claims), PackChildren(claims, children, env, seen).value.trees, DecoyIs(x)) > 0 ==>
                 decoy(x)
    ensures Backward(PackChildren(claims, children, env, seen).value.disclosures, env, decoy)
    decreases children, 0
  {
    if children != [] {
      var n := |children| - 1;
      var before := PackChildren(claims, children[..n], env, seen).value;
      var p := PackChild(claims, children[n], env, before.seen).value;
      forall x ensures CellsSum(Cells(claims), before.trees, DecoyIs(x)) > 0 ==> decoy(x)
               ensures Count(p.tree, DecoyIs(x)) > 0 ==> decoy(x) {
        ChildAdds(claims, children, env, seen, DecoyIs(x));
      }
      ChildrenBackward(claims, children[..n], env, seen, decoy);
      ChildBackward(claims, children[n], env, before.seen, decoy);
      BackwardConcat(before.disclosures, p.disclosures, env, decoy);
    }
  }

  lemma {:induction false} ChildBackward(claims: Json, c: SubFrame, env: Env, seen: Seen, decoy: string -> bool)
    requires ChildWellFormed(claims, c) && Clean(claims) && Proper(claims) && PackChild(claims, c, env, seen).Ok?
    requires forall x :: Count(PackChild(claims, c, env, seen).value.tree, DecoyIs(x)) > 0 ==> decoy(x)
    ensures Backward(PackChild(claims, c, env, seen).value.disclosures, env, decoy)
    decreases c, 0
  {
    var i :| 0 <= i < |Cells(claims)| && Cells(claims)[i] == Cell(c.seg, Child(claims, c.seg).value);
    PackBackward(Child(claims, c.seg).value, c.frame, env, seen, decoy);
  }

  // ---------- the ledger ----------

  ghost predicate Packable(claims: Json, frame: Option<Frame>, env: Env) {
    && Clean(claims) && Proper(claims)
    && (frame.Some? ==> WellFormed(claims, frame.value))
    && Pack(claims, frame, env, START).Ok?
  }

  /** The four facts about the run, under a frame or without one. */
  lemma PackFacts(claims: Json, frame: Option<Frame>, env: Env)
    requires Packable(claims, frame, env)
    ensures var p := Pack(claims, frame, env, START).value;
            && Layout(p.tree, claims, frame) && Sound(p.tree) && Signed(p.tree, env)
            && (forall g :: Total(p.disclosures, g) == Count(p.tree, EveryDisclosure(g)))
            && (forall x :: Gains(START, p.seen, x, Count(p.tree, DigestIs(x)), Count(p.tree, SaltIs(x))))
  {
    var p := Pack(claims, frame, env, START).value;
    if frame.Some? {
      PackLayout(claims, frame.value, env, START);
      PackSigned(claims, frame.value, env, START);
      forall g ensures Total(p.disclosures, g) == Count(p.tree, EveryDisclosure(g)) {
        PackGathers(claims, frame.value, env, START, g);
      }
      forall x ensures Gains(START, p.seen, x, Count(p.tree, DigestIs(x)), Count(p.tree, SaltIs(x))) {
        PackGains(claims, frame.value, env, START, x);
      }
    }
    LayoutSound(p.tree, claims, frame);
  }

  /**
   * After a run of `pack` that did not throw, for every string `x`:
   * the payload and the disclosure values embed `x` as often as it is the digest of a disclosure or a decoy digest,
   * and that is at most once; no two disclosures share a salt; the decoys are as many as the frame asks for; and
   * disclosures refer backwards only.
   */
  lemma Ledger(claims: Json, frame: Option<Frame>, env: Env)
    requires Packable(claims, frame, env)
    ensures var p := Pack(claims, frame, env, START).value;
            && (forall x :: Embedded(x, Emit(p.tree)) + Total(p.disclosures, InValue(x))
                            == Total(p.disclosures, HasDigest(x, env)) + Count(p.tree, DecoyIs(x)) <= 1)
            && (forall x :: Total(p.disclosures, HasSalt(x)) <= 1)
            && Count(p.tree, NumberOfDecoys()) == (if frame.None? then 0 else DecoysAsked(frame.value))
            && Backward(p.disclosures, env, x => Count(p.tree, DecoyIs(x)) > 0)
  {
    var p := Pack(claims, frame, env, START).value;
    PackFacts(claims, frame, env);
    forall x
      ensures Embedded(x, Emit(p.tree)) + Total(p.disclosures, InValue(x))
              == Total(p.disclosures, HasDigest(x, env)) + Count(p.tree, DecoyIs(x)) <= 1
      ensures Total(p.disclosures, HasSalt(x)) <= 1
    {
      Conservation(x, p.tree);
      DigestsSplit(x, p.tree, env);
      SaltsAreThoseOfDisclosures(x, p.tree);
    }
    if frame.Some? {
      PackDecoys(claims, frame.value, env, START);
      PackBackward(claims, frame.value, env, START, x => Count(p.tree, DecoyIs(x)) > 0);
    }
  }

  lemma {:induction false} SaltsAreThoseOfDisclosures(x: string, t: Tree)
    ensures Count(t, SaltIs(x)) == Count(t, EveryDisclosure(HasSalt(x)))
    decreases t, 1
  {
    if t.Node? {
      LayerSalts(x, t.slots);
      ChildSalts(x, t.slots);
    }
  }

  lemma {:induction false} LayerSalts(x: string, slots: seq<Slot>)
    ensures Times(x, Salts(slots)) == LayerTotal(slots, HasSalt(x))
  {
    if slots != [] {
      var n := |slots| - 1;
      LayerSalts(x, slots[..n]);
      if slots[n].mark.Hidden? {
        TimesOfAppend(x, Salts(slots[..n]), slots[n].mark.salt);
      } else {
        assert Salts(slots) == Salts(slots[..n]);
      }
    }
  }

  lemma {:induction false} ChildSalts(x: string, slots: seq<Slot>)
    ensures CountChildren(slots, SaltIs(x)) == CountChildren(slots, EveryDisclosure(HasSalt(x)))
    decreases slots, 0
  {
    if slots != [] {
      ChildSalts(x, slots[..|slots| - 1]);
      SlotSalts(x, slots[|slots| - 1]);
    }
  }

  lemma {:induction false} SlotSalts(x: string, s: Slot)
    ensures CountChild(s, SaltIs(x)) == CountChild(s, EveryDisclosure(HasSalt(x)))
    decreases s, 0
  {
    SaltsAreThoseOfDisclosures(x, s.child);
  }
}
