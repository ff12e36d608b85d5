/** What the readers see of a packed payload: exactly the claims whose hidden ancestors are all revealed. */
module Presenting {
  import opened Basics
  import opened Json
  import opened Sorting
  import opened Packing
  import opened PackLedger
  import opened Embedding
  import opened Collecting

  // ---------- which paths of a tree are shown ----------

  /** The slots of a tree; the children of claims without a frame are all open. */
  ghost function Slots(t: Tree): seq<Slot> {
    match t
    case Node(_, slots, _) => slots
    case Raw(v) => OpenSlots(Cells(v))
  }

  ghost function OpenSlots(cells: seq<Cell>): seq<Slot> {
    seq(|cells|, i requires 0 <= i < |cells| => Slot(cells[i].seg, Open, Raw(cells[i].value)))
  }

  ghost function SlotAt(slots: seq<Slot>, seg: Seg): (r: Option<Slot>)
    ensures r.Some? ==> exists i :: 0 <= i < |slots| && slots[i] == r.value && r.value.seg == seg
    ensures r.None? <==> forall i :: 0 <= i < |slots| ==> slots[i].seg != seg
  {
    if slots == [] then None
    else if slots[|slots| - 1].seg == seg then Some(slots[|slots| - 1])
    else SlotAt(slots[..|slots| - 1], seg)
  }

  /** A hidden slot is read back if its digest was revealed, unless it is a member with the empty name. */
  ghost predicate Revealed(s: Slot, m: Disclosures) {
    s.mark.Hidden? ==> s.mark.digest in m && s.seg != Key("")
  }

  /** Every slot along the path exists, and the hidden ones are revealed. */
  ghost predicate Shows(t: Tree, path: Path, m: Disclosures)
    decreases |path|
  {
    path != [] &&
    match SlotAt(Slots(t), path[0])
    case None => false
    case Some(s) => Revealed(s, m) && (|path| == 1 || Shows(s.child, path[1..], m))
  }

  ghost predicate HiddenAt(t: Tree, path: Path)
    decreases |path|
  {
    path != [] &&
    match SlotAt(Slots(t), path[0])
    case None => false
    case Some(s) => if |path| == 1 then s.mark.Hidden? else HiddenAt(s.child, path[1..])
  }

  /** The revealed disclosures are, as read back, those of the tree; no decoy is among them. */
  ghost predicate Agrees(t: Tree, m: Disclosures)
    decreases t, 1
  {
    t.Node? ==>
      && (forall i :: 0 <= i < |t.decoys| ==> t.decoys[i] !in m)
      && forall i :: 0 <= i < |t.slots| ==> SlotAgrees(t.slots[i], m)
  }

  ghost predicate SlotAgrees(s: Slot, m: Disclosures)
    decreases s, 0
  {
    && (s.mark.Hidden? && s.mark.digest in m ==> m[s.mark.digest] == Wire(SlotDisclosure(s)))
    && Agrees(s.child, m)
  }

  ghost function NumberHidden(): Layer { (slots, decoys) => |Digests(slots)| }

  ghost function HiddenIn(t: Tree): nat {
    Count(t, NumberHidden())
  }

  // ---------- counting claims ----------

  ghost function Occ(c: PresentClaim, s: seq<PresentClaim>): nat {
    if s == [] then 0 else Occ(c, s[..|s| - 1]) + (if s[|s| - 1] == c then 1 else 0)
  }

  lemma {:induction false} OccOfConcat(c: PresentClaim, a: seq<PresentClaim>, b: seq<PresentClaim>)
    ensures Occ(c, a + b) == Occ(c, a) + Occ(c, b)
  {
    if b == [] {
      assert a + b == a;
    } else {
      assert (a + b)[..|a + b| - 1] == a + b[..|b| - 1];
      OccOfConcat(c, a, b[..|b| - 1]);
    }
  }

  lemma OccOfCons(c: PresentClaim, x: PresentClaim, s: seq<PresentClaim>)
    ensures Occ(c, [x] + s) == (if x == c then 1 else 0) + Occ(c, s)
  {
    OccOfConcat(c, [x], s);
    assert [x][..0] == [];
  }

  /** What one slot contributes. */
  ghost function SlotClaims(s: Slot, path: Path, m: Disclosures, fuel: nat): seq<PresentClaim> {
    var here := path + [s.seg];
    if s.mark.Open? then [PresentClaim(here, false)] + Collect(Emit(s.child), here, m, fuel)
    else if Revealed(s, m) then Follow(SlotDisclosure(s), here, m, fuel)
    else []
  }

  ghost function SlotsSum(c: PresentClaim, slots: seq<Slot>, path: Path, m: Disclosures, fuel: nat): nat {
    if slots == [] then 0
    else SlotsSum(c, slots[..|slots| - 1], path, m, fuel) + Occ(c, SlotClaims(slots[|slots| - 1], path, m, fuel))
  }

  // ---------- one layer ----------

  lemma {:induction false} ItemsOfSlots(c: PresentClaim, slots: seq<Slot>, path: Path, m: Disclosures, fuel: nat)
    requires forall i :: 0 <= i < |slots| ==> SlotSound(slots[i], true, i) && SlotAgrees(slots[i], m)
    ensures Occ(c, CollectItems(EmitItems(slots), path, m, fuel)) == SlotsSum(c, slots, path, m, fuel)
  {
    if slots != [] {
      var n := |slots| - 1;
      ItemsOfSlots(c, slots[..n], path, m, fuel);
      assert EmitItems(slots)[..n] == EmitItems(slots[..n]);
      assert CollectItem(EmitItems(slots)[n], path + [Index(n)], m, fuel) == SlotClaims(slots[n], path, m, fuel) by {
        EmitIsNoPlaceholder(slots[n].child);
      }
      OccOfConcat(c, CollectItems(EmitItems(slots[..n]), path, m, fuel), SlotClaims(slots[n], path, m, fuel));
    }
  }

  lemma {:induction false} DecoyItemsUnseen(items: seq<Json>, decoys: seq<string>, path: Path, m: Disclosures,
                                            fuel: nat)
    requires forall i :: 0 <= i < |decoys| ==> decoys[i] !in m
    ensures CollectItems(items + Placeholders(decoys), path, m, fuel) == CollectItems(items, path, m, fuel)
  {
    if decoys == [] {
      assert items + Placeholders(decoys) == items;
    } else {
      var n := |decoys| - 1;
      DecoyItemsUnseen(items, decoys[..n], path, m, fuel);
      var all := items + Placeholders(decoys);
      assert all[..|all| - 1] == items + Placeholders(decoys[..n]);
      assert PlaceholderDigest(all[|all| - 1]) == Some(decoys[n]);
    }
  }

  lemma LastSlotClaims(c: PresentClaim, slots: seq<Slot>, path: Path, m: Disclosures, fuel: nat)
    requires slots != [] && SlotSound(slots[|slots| - 1], false, |slots| - 1) && SlotAgrees(slots[|slots| - 1], m)
    ensures var front := slots[..|slots| - 1];
            var own := Occ(c, SlotClaims(slots[|slots| - 1], path, m, fuel));
            var openOwn := if slots[|slots| - 1].mark.Open? then own else 0;
            && Occ(c, CollectMembers(EmitMembers(slots), path, m, fuel))
                 == Occ(c, CollectMembers(EmitMembers(front), path, m, fuel)) + openOwn
            && Occ(c, CollectDigests(Digests(slots), path, m, fuel))
                 == Occ(c, CollectDigests(Digests(front), path, m, fuel)) + (own - openOwn)
  {
    var front, s := slots[..|slots| - 1], slots[|slots| - 1];
    var all, ds := EmitMembers(slots), Digests(slots);
    if s.mark.Open? {
      assert all[..|all| - 1] == EmitMembers(front) && ds == Digests(front);
      assert all[|all| - 1] == Member(s.seg.name, Emit(s.child)) && s.seg == Key(s.seg.name);
      assert CollectMember(all[|all| - 1], path, m, fuel) == SlotClaims(s, path, m, fuel);
      OccOfConcat(c, CollectMembers(EmitMembers(front), path, m, fuel), SlotClaims(s, path, m, fuel));
    } else {
      assert all == EmitMembers(front) && ds[..|ds| - 1] == Digests(front);
      assert CollectDigest(s.mark.digest, path, m, fuel) == SlotClaims(s, path, m, fuel);
      OccOfConcat(c, CollectDigests(Digests(front), path, m, fuel), SlotClaims(s, path, m, fuel));
    }
  }

  lemma {:induction false} MembersOfSlots(c: PresentClaim, slots: seq<Slot>, path: Path, m: Disclosures, fuel: nat)
    requires forall i :: 0 <= i < |slots| ==> SlotSound(slots[i], false, i) && SlotAgrees(slots[i], m)
    ensures Occ(c, CollectMembers(EmitMembers(slots), path, m, fuel))
              + Occ(c, CollectDigests(Digests(slots), path, m, fuel))
            == SlotsSum(c, slots, path, m, fuel)
  {
    if slots != [] {
      MembersOfSlots(c, slots[..|slots| - 1], path, m, fuel);
      LastSlotClaims(c, slots, path, m, fuel);
    }
  }

  lemma SdMemberUnseen(members: seq<Member>, digests: seq<string>, decoys: seq<string>, path: Path, m: Disclosures,
                       fuel: nat)
    ensures CollectMembers(members + SdMember(digests, decoys), path, m, fuel) == CollectMembers(members, path, m, fuel)
  {
    if SdMember(digests, decoys) == [] {
      assert members + SdMember(digests, decoys) == members;
    } else {
      var all := members + SdMember(digests, decoys);
      assert all[..|all| - 1] == members;
    }
  }

  lemma {:induction false} InsertedDigest(c: PresentClaim, x: string, s: seq<string>, path: Path, m: Disclosures,
                                          fuel: nat)
    ensures Occ(c, CollectDigests(Insert(x, s), path, m, fuel)) ==
            Occ(c, CollectDigests(s, path, m, fuel)) + Occ(c, CollectDigest(x, path, m, fuel))
  {
    var r := Insert(x, s);
    var last := r[|r| - 1];
    OccOfConcat(c, CollectDigests(r[..|r| - 1], path, m, fuel), CollectDigest(last, path, m, fuel));
    if s == [] {
      OccOfConcat(c, [], CollectDigest(x, path, m, fuel));
    } else if Leq(s[|s| - 1], x) {
      assert r[..|r| - 1] == s;
    } else {
      var n := |s| - 1;
      assert r[..|r| - 1] == Insert(x, s[..n]);
      InsertedDigest(c, x, s[..n], path, m, fuel);
      OccOfConcat(c, CollectDigests(s[..n], path, m, fuel), CollectDigest(s[n], path, m, fuel));
    }
  }

  lemma {:induction false} SortedDigests(c: PresentClaim, s: seq<string>, path: Path, m: Disclosures, fuel: nat)
    ensures Occ(c, CollectDigests(Sort(s), path, m, fuel)) == Occ(c, CollectDigests(s, path, m, fuel))
  {
    if s != [] {
      var n := |s| - 1;
      SortedDigests(c, s[..n], path, m, fuel);
      InsertedDigest(c, s[n], Sort(s[..n]), path, m, fuel);
      OccOfConcat(c, CollectDigests(s[..n], path, m, fuel), CollectDigest(s[n], path, m, fuel));
    }
  }

  lemma {:induction false} DecoyDigestsUnseen(digests: seq<string>, decoys: seq<string>, path: Path, m: Disclosures,
                                              fuel: nat)
    requires forall i :: 0 <= i < |decoys| ==> decoys[i] !in m
    ensures CollectDigests(digests + decoys, path, m, fuel) == CollectDigests(digests, path, m, fuel)
  {
    if decoys == [] {
      assert digests + decoys == digests;
    } else {
      var all := digests + decoys;
      DecoyDigestsUnseen(digests, decoys[..|decoys| - 1], path, m, fuel);
      assert all[..|all| - 1] == digests + decoys[..|decoys| - 1];
    }
  }

  lemma MemberLayerClaims(c: PresentClaim, slots: seq<Slot>, decoys: seq<string>, path: Path, m: Disclosures, fuel: nat)
    requires forall i :: 0 <= i < |slots| ==> SlotSound(slots[i], false, i) && SlotAgrees(slots[i], m)
    requires forall i :: 0 <= i < |decoys| ==> decoys[i] !in m
    ensures Occ(c, Collect(Emit(Node(false, slots, decoys)), path, m, fuel)) == SlotsSum(c, slots, path, m, fuel)
  {
    var ds := Digests(slots);
    MembersOfSlots(c, slots, path, m, fuel);
    SdMemberUnseen(EmitMembers(slots), ds, decoys, path, m, fuel);
    EmittedDigestList(slots, decoys);
    SortedDigests(c, ds + decoys, path, m, fuel);
    DecoyDigestsUnseen(ds, decoys, path, m, fuel);
    OccOfConcat(c, CollectMembers(EmitMembers(slots), path, m, fuel), CollectDigests(Sort(ds + decoys), path, m, fuel));
  }

  /** The claims of a layer are those of its slots, each as often. */
  lemma LayerClaims(c: PresentClaim, t: Tree, path: Path, m: Disclosures, fuel: nat)
    requires t.Node? && Sound(t) && Agrees(t, m)
    ensures Occ(c, Collect(Emit(t), path, m, fuel)) == SlotsSum(c, t.slots, path, m, fuel)
  {
    if t.isArray {
      ItemsOfSlots(c, t.slots, path, m, fuel);
      DecoyItemsUnseen(EmitItems(t.slots), t.decoys, path, m, fuel);
    } else {
      MemberLayerClaims(c, t.slots, t.decoys, path, m, fuel);
    }
  }

  // ---------- claims without a frame are a layer of open slots ----------

  ghost function Expand(v: Json): Tree {
    Node(v.Arr?, OpenSlots(Cells(v)), [])
  }

  lemma {:induction false} OpenItems(v: Json, n: nat)
    requires v.Arr? && n <= |v.items|
    ensures EmitItems(OpenSlots(Cells(v))[..n]) == v.items[..n]
  {
    if n > 0 {
      OpenItems(v, n - 1);
      var slots := OpenSlots(Cells(v))[..n];
      assert slots[..n - 1] == OpenSlots(Cells(v))[..n - 1];
      assert slots[n - 1] == Slot(Index(n - 1), Open, Raw(v.items[n - 1]));
      assert Content(slots[n - 1]) == v.items[n - 1];
      assert v.items[..n] == v.items[..n - 1] + [v.items[n - 1]];
    }
  }

  lemma {:induction false} OpenMembers(v: Json, n: nat)
    requires v.Obj? && n <= |v.members|
    ensures EmitMembers(OpenSlots(Cells(v))[..n]) == v.members[..n]
  {
    if n > 0 {
      OpenMembers(v, n - 1);
      var slots := OpenSlots(Cells(v))[..n];
      assert slots[..n - 1] == OpenSlots(Cells(v))[..n - 1];
      assert slots[n - 1] == Slot(Key(v.members[n - 1].key), Open, Raw(v.members[n - 1].value));
      assert Content(slots[n - 1]) == v.members[n - 1].value;
      assert v.members[..n] == v.members[..n - 1] + [v.members[n - 1]];
    }
  }

  lemma {:induction false} NothingHidden(slots: seq<Slot>)
    requires forall i :: 0 <= i < |slots| ==> slots[i].mark.Open? && slots[i].child.Raw?
    ensures Digests(slots) == [] && CountChildren(slots, NumberHidden()) == 0
  {
    if slots != [] {
      NothingHidden(slots[..|slots| - 1]);
      assert Count(slots[|slots| - 1].child, NumberHidden()) == 0;
    }
  }

  lemma ExpandEmits(v: Json)
    requires v.Arr? || v.Obj?
    ensures Emit(Expand(v)) == v
  {
    var slots := OpenSlots(Cells(v));
    NothingHidden(slots);
    assert slots[..|slots|] == slots;
    if v.Arr? {
      OpenItems(v, |v.items|);
      assert v.items + Placeholders([]) == v.items[..|v.items|];
    } else {
      OpenMembers(v, |v.members|);
      assert v.members + SdMember([], []) == v.members[..|v.members|];
    }
  }

  lemma ExpandIsLayer(v: Json, m: Disclosures)
    requires Clean(v) && Proper(v) && (v.Arr? || v.Obj?)
    ensures var t := Expand(v);
            Emit(t) == v && Sound(t) && Agrees(t, m) && HiddenIn(t) == 0
  {
    var t := Expand(v);
    ExpandEmits(v);
    NothingHidden(t.slots);
    forall i | 0 <= i < |t.slots| ensures SlotSound(t.slots[i], t.isArray, i) && SlotAgrees(t.slots[i], m) {
      assert Clean(Cells(v)[i].value) && Proper(Cells(v)[i].value);
    }
  }

  // ---------- the whole tree ----------

  /** How often a claim is expected below `path`: once if the tree shows it with the right mark, else never. */
  ghost function Expected(c: PresentClaim, t: Tree, path: Path, m: Disclosures): nat {
    if |path| < |c.path| && c.path[..|path|] == path
       && Shows(t, c.path[|path|..], m) && c.isSd == HiddenAt(t, c.path[|path|..])
    then 1 else 0
  }

  ghost function ExpectedSlot(c: PresentClaim, s: Slot, path: Path, m: Disclosures): nat {
    if !(|path| < |c.path| && c.path[..|path| + 1] == path + [s.seg] && Revealed(s, m)) then 0
    else if |c.path| == |path| + 1 then if c.isSd == s.mark.Hidden? then 1 else 0
    else Expected(c, s.child, path + [s.seg], m)
  }

  lemma {:induction false} HiddenBelow(slots: seq<Slot>, i: nat)
    requires i < |slots|
    ensures HiddenIn(slots[i].child) + (if slots[i].mark.Hidden? then 1 else 0) <= CountChildren(slots, NumberHidden())
              + |Digests(slots)|
  {
    if i < |slots| - 1 {
      HiddenBelow(slots[..|slots| - 1], i);
    }
  }

  /** Every claim's path begins with `path`, and goes further by `extra` segments at least. */
  ghost predicate Under(claims: seq<PresentClaim>, path: Path, extra: nat) {
    forall i :: 0 <= i < |claims| ==> |path| + extra <= |claims[i].path| && claims[i].path[..|path|] == path
  }

  lemma UnderParent(claims: seq<PresentClaim>, path: Path, seg: Seg, extra: nat)
    requires Under(claims, path + [seg], extra)
    ensures Under(claims, path, 1)
  {
    forall i | 0 <= i < |claims| ensures claims[i].path[..|path|] == path {
      assert claims[i].path[..|path|] == (claims[i].path[..|path| + 1])[..|path|];
    }
  }

  lemma {:induction false} OccUnder(c: PresentClaim, s: seq<PresentClaim>, path: Path)
    requires Under(s, path, 1) && |c.path| <= |path|
    ensures Occ(c, s) == 0
  {
    if s != [] {
      OccUnder(c, s[..|s| - 1], path);
    }
  }

  /** Nothing is collected at or above the path where the collecting starts. */
  lemma {:induction false} Below(node: Json, path: Path, m: Disclosures, fuel: nat)
    ensures Under(Collect(node, path, m, fuel), path, 1)
    decreases fuel, 1, node, 2
  {
    match node
    case Arr(items) => ItemsBelow(items, path, m, fuel);
    case Obj(members) => MembersBelow(members, path, m, fuel); DigestsBelow(DigestList(node), path, m, fuel);
    case _ =>
  }

  lemma {:induction false} FollowBelow(d: Disclosure, path: Path, m: Disclosures, fuel: nat)
    ensures Under(Follow(d, path, m, fuel), path, 0)
    decreases fuel, 0, 0
  {
    if fuel > 0 {
      var below := Collect(d.value, path, m, fuel - 1);
      Below(d.value, path, m, fuel - 1);
      assert Follow(d, path, m, fuel) == [PresentClaim(path, true)] + below;
    } else {
      assert Follow(d, path, m, fuel) == [PresentClaim(path, true)];
    }
  }

  lemma {:induction false} ItemBelow(item: Json, path: Path, m: Disclosures, fuel: nat)
    ensures Under(CollectItem(item, path, m, fuel), path, 0)
    decreases fuel, 1, item, 3
  {
    match PlaceholderDigest(item)
    case Some(d) => if d in m { FollowBelow(m[d], path, m, fuel); }
    case None => Below(item, path, m, fuel);
  }

  lemma {:induction false} ItemsBelow(items: seq<Json>, path: Path, m: Disclosures, fuel: nat)
    ensures Under(CollectItems(items, path, m, fuel), path, 1)
    decreases fuel, 1, items, 1
  {
    if items != [] {
      var n := |items| - 1;
      ItemsBelow(items[..n], path, m, fuel);
      ItemBelow(items[n], path + [Index(n)], m, fuel);
      UnderParent(CollectItem(items[n], path + [Index(n)], m, fuel), path, Index(n), 0);
    }
  }

  lemma {:induction false} MembersBelow(members: seq<Member>, path: Path, m: Disclosures, fuel: nat)
    ensures Under(CollectMembers(members, path, m, fuel), path, 1)
    decreases fuel, 1, members, 1
  {
    if members != [] {
      MembersBelow(members[..|members| - 1], path, m, fuel);
      MemberBelow(members[|members| - 1], path, m, fuel);
    }
  }

  lemma {:induction false} MemberBelow(x: Member, path: Path, m: Disclosures, fuel: nat)
    ensures Under(CollectMember(x, path, m, fuel), path, 1)
    decreases fuel, 1, x, 1
  {
    var below := Collect(x.value, path + [Key(x.key)], m, fuel);
    Below(x.value, path + [Key(x.key)], m, fuel);
    UnderParent(below, path, Key(x.key), 1);
  }

  lemma {:induction false} DigestsBelow(digests: seq<string>, path: Path, m: Disclosures, fuel: nat)
    ensures Under(CollectDigests(digests, path, m, fuel), path, 1)
    decreases fuel, 0, 2, |digests|
  {
    if digests != [] {
      var d := digests[|digests| - 1];
      DigestsBelow(digests[..|digests| - 1], path, m, fuel);
      if d in m && m[d].key.Some? {
        FollowBelow(m[d], path + [Key(m[d].key.value)], m, fuel);
        UnderParent(CollectDigest(d, path, m, fuel), path, Key(m[d].key.value), 0);
      }
    }
  }

  /** A slot contributes the claims expected of it, once its child is known to. */
  lemma SlotShown(c: PresentClaim, s: Slot, path: Path, m: Disclosures, fuel: nat)
    requires s.mark.Hidden? ==> fuel > 0
    requires Occ(c, Collect(Emit(s.child), path + [s.seg], m, if s.mark.Hidden? then fuel - 1 else fuel))
             == Expected(c, s.child, path + [s.seg], m)
    ensures Occ(c, SlotClaims(s, path, m, fuel)) == ExpectedSlot(c, s, path, m)
  {
    var here := path + [s.seg];
    if Revealed(s, m) {
      OccOfCons(c, PresentClaim(here, s.mark.Hidden?),
                Collect(Emit(s.child), here, m, if s.mark.Hidden? then fuel - 1 else fuel));
      if |c.path| == |here| && c.path[..|here|] == here {
        assert c.path == here;
      }
    }
  }

  lemma {:induction false} NoSlotExpected(c: PresentClaim, slots: seq<Slot>, path: Path, m: Disclosures)
    requires |path| < |c.path| ==> forall i :: 0 <= i < |slots| ==> slots[i].seg != c.path[|path|]
    ensures forall i :: 0 <= i < |slots| ==> ExpectedSlot(c, slots[i], path, m) == 0
  {
    forall i | 0 <= i < |slots| ensures ExpectedSlot(c, slots[i], path, m) == 0 {
      assert (path + [slots[i].seg])[|path|] == slots[i].seg;
    }
  }

  ghost function ExpectedSum(c: PresentClaim, slots: seq<Slot>, path: Path, m: Disclosures): nat {
    if slots == [] then 0
    else ExpectedSum(c, slots[..|slots| - 1], path, m) + ExpectedSlot(c, slots[|slots| - 1], path, m)
  }

  lemma {:induction false} ZeroSum(c: PresentClaim, slots: seq<Slot>, path: Path, m: Disclosures)
    requires forall i :: 0 <= i < |slots| ==> ExpectedSlot(c, slots[i], path, m) == 0
    ensures ExpectedSum(c, slots, path, m) == 0
  {
    if slots != [] {
      ZeroSum(c, slots[..|slots| - 1], path, m);
    }
  }

  /** Only the slot on the path of a claim can be expected to contribute it. */
  lemma {:induction false} OneSlotExpected(c: PresentClaim, slots: seq<Slot>, path: Path, m: Disclosures)
    requires forall i, j :: 0 <= i < j < |slots| ==> slots[i].seg != slots[j].seg
    ensures ExpectedSum(c, slots, path, m) ==
            if |path| < |c.path| && SlotAt(slots, c.path[|path|]).Some?
            then ExpectedSlot(c, SlotAt(slots, c.path[|path|]).value, path, m) else 0
  {
    if slots != [] {
      var n := |slots| - 1;
      if |path| < |c.path| && slots[n].seg == c.path[|path|] {
        NoSlotExpected(c, slots[..n], path, m);
        ZeroSum(c, slots[..n], path, m);
      } else {
        NoSlotExpected(c, [slots[n]], path, m);
        assert [slots[n]][0] == slots[n];
        OneSlotExpected(c, slots[..n], path, m);
      }
    } else {
      assert |path| < |c.path| ==> SlotAt(slots, c.path[|path|]).None?;
    }
  }

  lemma ExpectedBySlot(c: PresentClaim, t: Tree, path: Path, m: Disclosures)
    requires |path| < |c.path|
    ensures Expected(c, t, path, m) ==
            match SlotAt(Slots(t), c.path[|path|])
            case None => 0
            case Some(s) => ExpectedSlot(c, s, path, m)
  {
    var rest := c.path[|path|..];
    assert rest[0] == c.path[|path|];
    match SlotAt(Slots(t), rest[0]) {
      case None =>
      case Some(s) =>
        var here := path + [s.seg];
        assert rest[1..] == c.path[|here|..];
        assert c.path[..|here|] == c.path[..|path|] + [s.seg];
        assert c.path[..|path|] == path <==> c.path[..|here|] == here by {
          if c.path[..|here|] == here { assert c.path[..|path|] == here[..|path|]; }
        }
    }
  }

  /**
   * In the claims collected from a packed payload, each path shown by the tree occurs exactly once, marked as
   * selectively disclosable exactly if the tree hides it, and nothing else occurs.
   */
  lemma {:induction false} Shown(c: PresentClaim, t: Tree, path: Path, m: Disclosures, fuel: nat)
    requires Sound(t) && Agrees(t, m) && HiddenIn(t) <= fuel
    ensures Occ(c, Collect(Emit(t), path, m, fuel)) == Expected(c, t, path, m)
    decreases |c.path| - |path|, 2
  {
    if |c.path| <= |path| {
      Below(Emit(t), path, m, fuel);
      OccUnder(c, Collect(Emit(t), path, m, fuel), path);
    } else {
      match t {
        case Node(_, _, _) => LayerShown(c, t, path, m, fuel);
        case Raw(v) =>
          if v.Arr? || v.Obj? {
            ExpandIsLayer(v, m);
            LayerShown(c, Expand(v), path, m, fuel);
            ExpectedBySlot(c, Expand(v), path, m);
          } else {
            assert SlotAt(Slots(t), c.path[|path|]).None?;
          }
          ExpectedBySlot(c, t, path, m);
      }
    }
  }

  lemma {:induction false} LayerShown(c: PresentClaim, t: Tree, path: Path, m: Disclosures, fuel: nat)
    requires t.Node? && Sound(t) && Agrees(t, m) && HiddenIn(t) <= fuel && |path| < |c.path|
    ensures Occ(c, Collect(Emit(t), path, m, fuel)) == Expected(c, t, path, m)
    decreases |c.path| - |path|, 1
  {
    LayerClaims(c, t, path, m, fuel);
    forall i | 0 <= i < |t.slots| ensures SlotSound(t.slots[i], t.isArray, i) && SlotAgrees(t.slots[i], m)
                                  ensures HiddenIn(t.slots[i].child)
                                            + (if t.slots[i].mark.Hidden? then 1 else 0) <= fuel {
      HiddenBelow(t.slots, i);
    }
    SlotsShown(c, t.slots, path, m, fuel);
    OneSlotExpected(c, t.slots, path, m);
    ExpectedBySlot(c, t, path, m);
  }

  lemma {:induction false} SlotsShown(c: PresentClaim, slots: seq<Slot>, path: Path, m: Disclosures, fuel: nat)
    requires |path| < |c.path|
    requires forall i :: 0 <= i < |slots| ==> Sound(slots[i].child) && Agrees(slots[i].child, m)
    requires forall i :: 0 <= i < |slots| ==>
               HiddenIn(slots[i].child) + (if slots[i].mark.Hidden? then 1 else 0) <= fuel
    ensures SlotsSum(c, slots, path, m, fuel) == ExpectedSum(c, slots, path, m)
    decreases |c.path| - |path|, 0, |slots|
  {
    if slots != [] {
      var s := slots[|slots| - 1];
      SlotsShown(c, slots[..|slots| - 1], path, m, fuel);
      Shown(c, s.child, path + [s.seg], m, if s.mark.Hidden? then fuel - 1 else fuel);
      SlotShown(c, s, path, m, fuel);
    }
  }
}
