/** What every successful `pack` leaves behind: the layout of its result and the ledger of its digests. */
module PackLedger {
  import opened Basics
  import opened Json
  import opened Packing

  // ---------- the layout: a tree follows the claims and the frame ----------

  ghost predicate Layout(t: Tree, j: Json, frame: Option<Frame>)
    decreases t, 1
  {
    match frame
    case None => t == Raw(j)
    case Some(f) =>
      && (j.Arr? || j.Obj?)
      && t.Node? && t.isArray == j.Arr? && |t.decoys| == f.decoys
      && SlotsLayout(t.slots, Cells(j), f)
  }

  ghost predicate SlotsLayout(slots: seq<Slot>, cells: seq<Cell>, f: Frame)
    decreases slots, 0
  {
    |slots| == |cells| && forall i :: 0 <= i < |slots| ==> SlotLayout(slots[i], cells[i], f)
  }

  ghost predicate SlotLayout(s: Slot, c: Cell, f: Frame)
    decreases s, 0
  {
    && s.seg == c.seg
    && (s.mark.Hidden? <==> c.seg in f.sd)
    && Layout(s.child, c.value, SubFrameAt(f.children, c.seg))
  }

  lemma {:induction false} PackLayout(claims: Json, frame: Frame, env: Env, seen: Seen)
    requires WellFormed(claims, frame) && PackTree(claims, frame, env, seen).Ok?
    ensures Layout(PackTree(claims, frame, env, seen).value.tree, claims, Some(frame))
    decreases frame, 1
  {
    var nested := PackChildren(claims, frame.children, env, seen).value;
    var sealed := Seal(Cells(claims), frame.sd, nested.trees, env, nested.seen).value;
    ChildrenLayout(claims, frame.children, env, seen);
    forall i | 0 <= i < |Cells(claims)|
      ensures Layout(TreeOf(Cells(claims)[i], nested.trees), Cells(claims)[i].value,
                     SubFrameAt(frame.children, Cells(claims)[i].seg))
    {
      FindAt(Cells(claims), i);
    }
    SealLayout(Cells(claims), frame, nested.trees, env, nested.seen);
    DecoyCount(frame.decoys, env, sealed.seen);
  }

  lemma {:induction false} DecoyCount(n: nat, env: Env, seen: Seen)
    requires DrawDecoys(n, env, seen).Ok?
    ensures |DrawDecoys(n, env, seen).value.digests| == n
  {
    if n > 0 {
      DecoyCount(n - 1, env, seen);
    }
  }

  lemma {:induction false} ChildrenLayout(claims: Json, children: seq<SubFrame>, env: Env, seen: Seen)
    requires ChildrenWellFormed(claims, children) && PackChildren(claims, children, env, seen).Ok?
    ensures var trees := PackChildren(claims, children, env, seen).value.trees;
            forall seg :: match SubFrameAt(children, seg)
                          case None => seg !in trees
                          case Some(f) => seg in trees && Child(claims, seg).Some? &&
                                          Layout(trees[seg], Child(claims, seg).value, Some(f))
    decreases children, 0
  {
    if children != [] {
      var n := |children| - 1;
      ChildrenLayout(claims, children[..n], env, seen);
      var before := PackChildren(claims, children[..n], env, seen).value;
      ChildLayout(claims, children[n], env, before.seen);
    }
  }

  lemma {:induction false} ChildLayout(claims: Json, c: SubFrame, env: Env, seen: Seen)
    requires ChildWellFormed(claims, c) && PackChild(claims, c, env, seen).Ok?
    ensures Layout(PackChild(claims, c, env, seen).value.tree, Child(claims, c.seg).value, Some(c.frame))
    decreases c, 0
  {
    PackLayout(Child(claims, c.seg).value, c.frame, env, seen);
  }

  lemma {:induction false} SealLayout(cells: seq<Cell>, f: Frame, trees: map<Seg, Tree>, env: Env, seen: Seen)
    requires Seal(cells, f.sd, trees, env, seen).Ok?
    requires forall i :: 0 <= i < |cells| ==>
               Layout(TreeOf(cells[i], trees), cells[i].value, SubFrameAt(f.children, cells[i].seg))
    ensures SlotsLayout(Seal(cells, f.sd, trees, env, seen).value.slots, cells, f)
  {
    if cells != [] {
      var n := |cells| - 1;
      SealLayout(cells[..n], f, trees, env, seen);
    }
  }

  lemma {:induction false} NothingSealed(cells: seq<Cell>, sd: seq<Seg>, env: Env, seen: Seen)
    requires forall i :: 0 <= i < |cells| ==> cells[i].seg !in sd
    ensures var r := Seal(cells, sd, map[], env, seen);
            r.Ok? && r.value.disclosures == [] && r.value.seen == seen && |r.value.slots| == |cells| &&
            forall i :: 0 <= i < |cells| ==> r.value.slots[i] == Slot(cells[i].seg, Open, Raw(cells[i].value))
  {
    if cells != [] {
      NothingSealed(cells[..|cells| - 1], sd, env, seen);
    }
  }

  /** In an array, names select nothing, even when they look like positions (`["0"]`): every element stays open. */
  lemma NamesHideNoElement(items: seq<Json>, sd: seq<Seg>, env: Env)
    requires forall i :: 0 <= i < |sd| ==> sd[i].Key?
    ensures var frame := Frame(sd, 0, []);
            && WellFormed(Arr(items), frame)
            && var r := Pack(Arr(items), Some(frame), env, START);
               r.Ok? && r.value.disclosures == [] && r.value.tree.Node? && |r.value.tree.slots| == |items| &&
               forall i :: 0 <= i < |items| ==> r.value.tree.slots[i] == Slot(Index(i), Open, Raw(items[i]))
  {
    var claims, frame := Arr(items), Frame(sd, 0, []);
    NothingSealed(Cells(claims), sd, env, START);
    assert PackChildren(claims, frame.children, env, START) == Ok(Nested(map[], [], START));
    var sealed := Seal(Cells(claims), sd, map[], env, START).value;
    assert DrawDecoys(0, env, START) == Ok(Drawn([], START));
    assert PackTree(claims, frame, env, START) == Ok(Packed(Node(true, sealed.slots, []), [] + [], START));
  }

  // ---------- every embedded digest is that of its disclosure ----------

  ghost predicate Signed(t: Tree, env: Env)
    decreases t, 1
  {
    t.Node? ==> forall i :: 0 <= i < |t.slots| ==> SlotSigned(t.slots[i], env)
  }

  ghost predicate SlotSigned(s: Slot, env: Env)
    decreases s, 0
  {
    (s.mark.Hidden? ==> s.mark.digest == env.digest(SlotDisclosure(s))) && Signed(s.child, env)
  }

  lemma {:induction false} PackSigned(claims: Json, frame: Frame, env: Env, seen: Seen)
    requires WellFormed(claims, frame) && PackTree(claims, frame, env, seen).Ok?
    ensures Signed(PackTree(claims, frame, env, seen).value.tree, env)
    decreases frame, 1
  {
    var nested := PackChildren(claims, frame.children, env, seen).value;
    ChildrenSigned(claims, frame.children, env, seen);
    SealSigned(Cells(claims), frame.sd, nested.trees, env, nested.seen);
  }

  lemma {:induction false} ChildrenSigned(claims: Json, children: seq<SubFrame>, env: Env, seen: Seen)
    requires ChildrenWellFormed(claims, children) && PackChildren(claims, children, env, seen).Ok?
    ensures var trees := PackChildren(claims, children, env, seen).value.trees;
            forall seg :: seg in trees ==> Signed(trees[seg], env)
    decreases children, 0
  {
    if children != [] {
      var n := |children| - 1;
      ChildrenSigned(claims, children[..n], env, seen);
      ChildSigned(claims, children[n], env, PackChildren(claims, children[..n], env, seen).value.seen);
    }
  }

  lemma {:induction false} ChildSigned(claims: Json, c: SubFrame, env: Env, seen: Seen)
    requires ChildWellFormed(claims, c) && PackChild(claims, c, env, seen).Ok?
    ensures Signed(PackChild(claims, c, env, seen).value.tree, env)
    decreases c, 0
  {
    PackSigned(Child(claims, c.seg).value, c.frame, env, seen);
  }

  lemma {:induction false} SealSigned(cells: seq<Cell>, sd: seq<Seg>, trees: map<Seg, Tree>, env: Env, seen: Seen)
    requires Seal(cells, sd, trees, env, seen).Ok?
    requires forall seg :: seg in trees ==> Signed(trees[seg], env)
    ensures var slots := Seal(cells, sd, trees, env, seen).value.slots;
            forall i :: 0 <= i < |slots| ==> SlotSigned(slots[i], env)
  {
    if cells != [] {
      SealSigned(cells[..|cells| - 1], sd, trees, env, seen);
    }
  }

  // ---------- sums over the layers of a tree ----------

  /** A number read off one layer of a tree: its slots and its decoys. */
  type Layer = (seq<Slot>, seq<string>) -> nat

  ghost function Count(t: Tree, h: Layer): nat
    decreases t, 1
  {
    match t
    case Raw(_) => 0
    case Node(_, slots, decoys) => CountChildren(slots, h) + h(slots, decoys)
  }

  ghost function CountChildren(slots: seq<Slot>, h: Layer): nat
    decreases slots, 0
  {
    if slots == [] then 0 else CountChildren(slots[..|slots| - 1], h) + CountChild(slots[|slots| - 1], h)
  }

  ghost function CountChild(s: Slot, h: Layer): nat
    decreases s, 0
  {
    Count(s.child, h)
  }

  function Is(x: string, y: string): nat {
    if x == y then 1 else 0
  }

  /** How often `x` stands in `s`. */
  function Times(x: string, s: seq<string>): nat {
    if s == [] then 0 else Times(x, s[..|s| - 1]) + Is(x, s[|s| - 1])
  }

  lemma TimesOfAppend(x: string, s: seq<string>, y: string)
    ensures Times(x, s + [y]) == Times(x, s) + Is(x, y)
  {
    assert (s + [y])[..|s|] == s;
  }

  lemma {:induction false} TimesOfConcat(x: string, a: seq<string>, b: seq<string>)
    ensures Times(x, a + b) == Times(x, a) + Times(x, b)
  {
    if b == [] {
      assert a + b == a;
    } else {
      assert (a + b)[..|a + b| - 1] == a + b[..|b| - 1];
      TimesOfConcat(x, a, b[..|b| - 1]);
    }
  }

  lemma {:induction false} TimesIsCount(x: string, s: seq<string>)
    ensures Times(x, s) == multiset(s)[x]
  {
    if s != [] {
      TimesIsCount(x, s[..|s| - 1]);
      assert s == s[..|s| - 1] + [s[|s| - 1]];
    }
  }

  function Salts(slots: seq<Slot>): seq<string> {
    if slots == [] then []
    else
      var s := slots[|slots| - 1];
      Salts(slots[..|slots| - 1]) + (if s.mark.Hidden? then [s.mark.salt] else [])
  }

  /** The sum of `g` over the disclosures of one layer. */
  ghost function LayerTotal(slots: seq<Slot>, g: Disclosure -> nat): nat {
    if slots == [] then 0
    else
      var s := slots[|slots| - 1];
      LayerTotal(slots[..|slots| - 1], g) + (if s.mark.Hidden? then g(SlotDisclosure(s)) else 0)
  }

  ghost function DigestIs(x: string): Layer { (slots, decoys) => Times(x, Digests(slots)) + Times(x, decoys) }
  ghost function DecoyIs(x: string): Layer { (slots, decoys) => Times(x, decoys) }
  ghost function SaltIs(x: string): Layer { (slots, decoys) => Times(x, Salts(slots)) }
  ghost function NumberOfDecoys(): Layer { (slots, decoys) => |decoys| }
  ghost function EveryDisclosure(g: Disclosure -> nat): Layer { (slots, decoys) => LayerTotal(slots, g) }

  ghost function Total(ds: seq<Disclosure>, g: Disclosure -> nat): nat {
    if ds == [] then 0 else Total(ds[..|ds| - 1], g) + g(ds[|ds| - 1])
  }

  lemma {:induction false} TotalOfConcat(a: seq<Disclosure>, b: seq<Disclosure>, g: Disclosure -> nat)
    ensures Total(a + b, g) == Total(a, g) + Total(b, g)
  {
    if b == [] {
      assert a + b == a;
    } else {
      var n := |b| - 1;
      assert (a + b)[..|a + b| - 1] == a + b[..n];
      TotalOfConcat(a, b[..n], g);
    }
  }

  /** The sum over the trees packed for some of the cells. */
  ghost function CellsSum(cells: seq<Cell>, trees: map<Seg, Tree>, h: Layer): nat {
    if cells == [] then 0
    else CellsSum(cells[..|cells| - 1], trees, h) + Count(TreeOf(cells[|cells| - 1], trees), h)
  }

  lemma {:induction false} SumWithout(cells: seq<Cell>, trees: map<Seg, Tree>, seg: Seg, t: Tree, h: Layer)
    requires forall i :: 0 <= i < |cells| ==> cells[i].seg != seg
    ensures CellsSum(cells, trees[seg := t], h) == CellsSum(cells, trees, h)
  {
    if cells != [] {
      SumWithout(cells[..|cells| - 1], trees, seg, t, h);
    }
  }

  /** Packing one more child adds its sum, wherever among the claims it stands. */
  lemma {:induction false} SumInsert(cells: seq<Cell>, trees: map<Seg, Tree>, seg: Seg, t: Tree, h: Layer)
    requires DistinctSegs(cells) && seg !in trees
    requires exists i :: 0 <= i < |cells| && cells[i].seg == seg
    ensures CellsSum(cells, trees[seg := t], h) == CellsSum(cells, trees, h) + Count(t, h)
  {
    var n := |cells| - 1;
    if cells[n].seg == seg {
      SumWithout(cells[..n], trees, seg, t, h);
    } else {
      var i :| 0 <= i < |cells| && cells[i].seg == seg;
      assert cells[..n][i].seg == seg;
      SumInsert(cells[..n], trees, seg, t, h);
    }
  }

  lemma {:induction false} EmptySum(cells: seq<Cell>, h: Layer)
    ensures CellsSum(cells, map[], h) == 0
  {
    if cells != [] {
      EmptySum(cells[..|cells| - 1], h);
    }
  }

  /** The last child frame adds exactly its own tree to any sum over the cells. */
  lemma ChildAdds(claims: Json, children: seq<SubFrame>, env: Env, seen: Seen, h: Layer)
    requires ChildrenWellFormed(claims, children) && DistinctSubFrames(children) && children != []
    requires DistinctSegs(Cells(claims)) && PackChildren(claims, children, env, seen).Ok?
    ensures var n := |children| - 1;
            var before := PackChildren(claims, children[..n], env, seen).value;
            var p := PackChild(claims, children[n], env, before.seen).value;
            CellsSum(Cells(claims), PackChildren(claims, children, env, seen).value.trees, h)
            == CellsSum(Cells(claims), before.trees, h) + Count(p.tree, h)
  {
    var n := |children| - 1;
    var before := PackChildren(claims, children[..n], env, seen).value;
    var p := PackChild(claims, children[n], env, before.seen).value;
    ChildrenLayout(claims, children[..n], env, seen);
    assert children[n].seg !in before.trees;
    assert ChildWellFormed(claims, children[n]);
    SumInsert(Cells(claims), before.trees, children[n].seg, p.tree, h);
  }

  lemma SealAppends(cells: seq<Cell>, sd: seq<Seg>, trees: map<Seg, Tree>, env: Env, seen: Seen)
    requires cells != [] && Seal(cells, sd, trees, env, seen).Ok?
    ensures var n := |cells| - 1;
            var before := Seal(cells[..n], sd, trees, env, seen).value;
            var after := Seal(cells, sd, trees, env, seen).value;
            && |after.slots| == |before.slots| + 1 && after.slots[..|before.slots|] == before.slots
            && after.slots[|before.slots|].child == TreeOf(cells[n], trees)
            && (cells[n].seg in sd ==>
                  |after.disclosures| == |before.disclosures| + 1
                  && after.disclosures[..|before.disclosures|] == before.disclosures)
  {
  }

  /** The slots sealed for the cells hold the trees of the cells. */
  lemma {:induction false} SealCounts(cells: seq<Cell>, sd: seq<Seg>, trees: map<Seg, Tree>, env: Env, seen: Seen,
                                      h: Layer)
    requires Seal(cells, sd, trees, env, seen).Ok?
    ensures CountChildren(Seal(cells, sd, trees, env, seen).value.slots, h) == CellsSum(cells, trees, h)
  {
    if cells != [] {
      SealCounts(cells[..|cells| - 1], sd, trees, env, seen, h);
      SealAppends(cells, sd, trees, env, seen);
    }
  }

  // ---------- the list of disclosures holds exactly those of the tree ----------

  lemma {:induction false} PackGathers(claims: Json, frame: Frame, env: Env, seen: Seen, g: Disclosure -> nat)
    requires WellFormed(claims, frame) && PackTree(claims, frame, env, seen).Ok?
    ensures var p := PackTree(claims, frame, env, seen).value;
            Total(p.disclosures, g) == Count(p.tree, EveryDisclosure(g))
    decreases frame, 1
  {
    var nested := PackChildren(claims, frame.children, env, seen).value;
    var sealed := Seal(Cells(claims), frame.sd, nested.trees, env, nested.seen).value;
    ChildrenGather(claims, frame.children, env, seen, g);
    SealCounts(Cells(claims), frame.sd, nested.trees, env, nested.seen, EveryDisclosure(g));
    SealGathers(Cells(claims), frame.sd, nested.trees, env, nested.seen, g);
    TotalOfConcat(nested.disclosures, sealed.disclosures, g);
  }

  lemma {:induction false} ChildrenGather(claims: Json, children: seq<SubFrame>, env: Env, seen: Seen,
                                          g: Disclosure -> nat)
    requires ChildrenWellFormed(claims, children) && DistinctSubFrames(children) && DistinctSegs(Cells(claims))
    requires PackChildren(claims, children, env, seen).Ok?
    ensures var nested := PackChildren(claims, children, env, seen).value;
            Total(nested.disclosures, g) == CellsSum(Cells(claims), nested.trees, EveryDisclosure(g))
    decreases children, 0
  {
    var h := EveryDisclosure(g);
    if children == [] {
      EmptySum(Cells(claims), h);
    } else {
      var n := |children| - 1;
      ChildrenGather(claims, children[..n], env, seen, g);
      var before := PackChildren(claims, children[..n], env, seen).value;
      ChildGathers(claims, children[n], env, before.seen, g);
      TotalOfConcat(before.disclosures, PackChild(claims, children[n], env, before.seen).value.disclosures, g);
      ChildAdds(claims, children, env, seen, h);
    }
  }

  lemma {:induction false} ChildGathers(claims: Json, c: SubFrame, env: Env, seen: Seen, g: Disclosure -> nat)
    requires ChildWellFormed(claims, c) && PackChild(claims, c, env, seen).Ok?
    ensures var p := PackChild(claims, c, env, seen).value;
            Total(p.disclosures, g) == Count(p.tree, EveryDisclosure(g))
    decreases c, 0
  {
    PackGathers(Child(claims, c.seg).value, c.frame, env, seen, g);
  }

  lemma {:induction false} SealGathers(cells: seq<Cell>, sd: seq<Seg>, trees: map<Seg, Tree>, env: Env, seen: Seen,
                                       g: Disclosure -> nat)
    requires Seal(cells, sd, trees, env, seen).Ok?
    ensures var sealed := Seal(cells, sd, trees, env, seen).value;
            LayerTotal(sealed.slots, g) == Total(sealed.disclosures, g)
  {
    if cells != [] {
      SealGathers(cells[..|cells| - 1], sd, trees, env, seen, g);
      SealAppends(cells, sd, trees, env, seen);
    }
  }

  // ---------- the sets of salts and digests grow by what the tree holds ----------

  function In(x: string, s: set<string>): nat {
    if x in s then 1 else 0
  }

  /** From `a` to `b`, the digests gain `x` exactly `digests` times, and the salts `salts` times. */
  ghost predicate Gains(a: Seen, b: Seen, x: string, digests: nat, salts: nat) {
    In(x, b.digests) == In(x, a.digests) + digests && In(x, b.salts) == In(x, a.salts) + salts
  }

  lemma {:induction false} PackGains(claims: Json, frame: Frame, env: Env, seen: Seen, x: string)
    requires WellFormed(claims, frame) && PackTree(claims, frame, env, seen).Ok?
    ensures var p := PackTree(claims, frame, env, seen).value;
            Gains(seen, p.seen, x, Count(p.tree, DigestIs(x)), Count(p.tree, SaltIs(x)))
    decreases frame, 1
  {
    var nested := PackChildren(claims, frame.children, env, seen).value;
    var sealed := Seal(Cells(claims), frame.sd, nested.trees, env, nested.seen).value;
    ChildrenGain(claims, frame.children, env, seen, x);
    SealGains(Cells(claims), frame.sd, nested.trees, env, nested.seen, x);
    SealCounts(Cells(claims), frame.sd, nested.trees, env, nested.seen, DigestIs(x));
    SealCounts(Cells(claims), frame.sd, nested.trees, env, nested.seen, SaltIs(x));
    DecoysGain(frame.decoys, env, sealed.seen, x);
  }

  lemma {:induction false} ChildrenGain(claims: Json, children: seq<SubFrame>, env: Env, seen: Seen, x: string)
    requires ChildrenWellFormed(claims, children) && DistinctSubFrames(children) && DistinctSegs(Cells(claims))
    requires PackChildren(claims, children, env, seen).Ok?
    ensures var nested := PackChildren(claims, children, env, seen).value;
            Gains(seen, nested.seen, x, CellsSum(Cells(claims), nested.trees, DigestIs(x)),
                  CellsSum(Cells(claims), nested.trees, SaltIs(x)))
    decreases children, 0
  {
    if children == [] {
      EmptySum(Cells(claims), DigestIs(x));
      EmptySum(Cells(claims), SaltIs(x));
    } else {
      var n := |children| - 1;
      ChildrenGain(claims, children[..n], env, seen, x);
      ChildGains(claims, children[n], env, PackChildren(claims, children[..n], env, seen).value.seen, x);
      ChildAdds(claims, children, env, seen, DigestIs(x));
      ChildAdds(claims, children, env, seen, SaltIs(x));
    }
  }

  lemma {:induction false} ChildGains(claims: Json, c: SubFrame, env: Env, seen: Seen, x: string)
    requires ChildWellFormed(claims, c) && PackChild(claims, c, env, seen).Ok?
    ensures var p := PackChild(claims, c, env, seen).value;
            Gains(seen, p.seen, x, Count(p.tree, DigestIs(x)), Count(p.tree, SaltIs(x)))
    decreases c, 0
  {
    PackGains(Child(claims, c.seg).value, c.frame, env, seen, x);
  }

  lemma SealOneGains(cell: Cell, sd: seq<Seg>, trees: map<Seg, Tree>, env: Env, before: Sealed, x: string)
    returns (digests: nat, salts: nat)
    requires SealOne(cell, sd, trees, env, before).Ok?
    ensures var after := SealOne(cell, sd, trees, env, before).value;
            && Gains(before.seen, after.seen, x, digests, salts)
            && Times(x, Digests(after.slots)) == Times(x, Digests(before.slots)) + digests
            && Times(x, Salts(after.slots)) == Times(x, Salts(before.slots)) + salts
  {
    var after := SealOne(cell, sd, trees, env, before).value;
    assert after.slots[..|after.slots| - 1] == before.slots;
    var mark := after.slots[|before.slots|].mark;
    digests := if mark.Hidden? then Is(x, mark.digest) else 0;
    salts := if mark.Hidden? then Is(x, mark.salt) else 0;
    if mark.Hidden? {
      TimesOfAppend(x, Digests(before.slots), mark.digest);
      TimesOfAppend(x, Salts(before.slots), mark.salt);
    } else {
      assert Digests(after.slots) == Digests(before.slots) && Salts(after.slots) == Salts(before.slots);
    }
  }

  lemma {:induction false} SealGains(cells: seq<Cell>, sd: seq<Seg>, trees: map<Seg, Tree>, env: Env, seen: Seen,
                                     x: string)
    requires Seal(cells, sd, trees, env, seen).Ok?
    ensures var sealed := Seal(cells, sd, trees, env, seen).value;
            Gains(seen, sealed.seen, x, Times(x, Digests(sealed.slots)), Times(x, Salts(sealed.slots)))
  {
    if cells != [] {
      var n := |cells| - 1;
      SealGains(cells[..n], sd, trees, env, seen, x);
      var _, _ := SealOneGains(cells[n], sd, trees, env, Seal(cells[..n], sd, trees, env, seen).value, x);
    }
  }

  lemma {:induction false} DecoysGain(n: nat, env: Env, seen: Seen, x: string)
    requires DrawDecoys(n, env, seen).Ok?
    ensures var d := DrawDecoys(n, env, seen).value;
            Gains(seen, d.seen, x, Times(x, d.digests), 0)
  {
    if n > 0 {
      DecoysGain(n - 1, env, seen, x);
    }
  }
}
