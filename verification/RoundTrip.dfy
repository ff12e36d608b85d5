/** `unpackObj` undoes `pack`: on exactly which choices of disclosures it succeeds, and what it then returns. */
module RoundTrip {
  import opened Basics
  import opened Json
  import opened JsonValues
  import opened Sorting
  import opened Packing
  import opened PackLedger
  import opened Embedding
  import opened Collecting
  import opened Presenting
  import opened Disclosing
  import opened Unpacking
  import opened PackedEntries

  // ---------- what a choice of disclosures leaves of the claims ----------

  predicate Kept(s: Slot, m: Disclosures) {
    s.mark.Open? || s.mark.digest in m
  }

  function Prune(t: Tree, m: Disclosures): Json
    decreases t, 1
  {
    match t
    case Raw(v) => v
    case Node(true, slots, _) => Arr(PruneItems(slots, m))
    case Node(false, slots, _) => Obj(PruneMembers(slots, m))
  }

  function PruneSlot(s: Slot, m: Disclosures): Json
    decreases s, 0
  {
    Prune(s.child, m)
  }

  function PruneItems(slots: seq<Slot>, m: Disclosures): seq<Json>
    decreases slots, 0
  {
    if slots == [] then []
    else
      var s := slots[|slots| - 1];
      PruneItems(slots[..|slots| - 1], m) + (if Kept(s, m) then [PruneSlot(s, m)] else [])
  }

  function PruneMembers(slots: seq<Slot>, m: Disclosures): seq<Member>
    decreases slots, 0
  {
    if slots == [] then []
    else
      var s := slots[|slots| - 1];
      PruneMembers(slots[..|slots| - 1], m)
      + (if Kept(s, m) then [Member(SegName(s.seg).GetOr(""), PruneSlot(s, m))] else [])
  }

  /** A disclosed member with the empty name is reached: its disclosure reads back as that of an array element. */
  ghost predicate Blocked(t: Tree, m: Disclosures)
    decreases t, 1
  {
    t.Node? && exists i :: 0 <= i < |t.slots| && BlockedSlot(t.slots[i], t.isArray, m)
  }

  ghost predicate BlockedSlot(s: Slot, isArray: bool, m: Disclosures)
    decreases s, 0
  {
    Kept(s, m) && ((s.mark.Hidden? && !isArray && s.seg == Key("")) || Blocked(s.child, m))
  }

  /** How often the digest `x` is met when the payload is unpacked. */
  ghost function Met(x: string, t: Tree, m: Disclosures): nat
    decreases t, 1
  {
    match t
    case Raw(_) => 0
    case Node(_, slots, decoys) => MetSlots(x, slots, m) + Times(x, decoys)
  }

  ghost function MetSlots(x: string, slots: seq<Slot>, m: Disclosures): nat
    decreases slots, 0
  {
    if slots == [] then 0 else MetSlots(x, slots[..|slots| - 1], m) + MetSlot(x, slots[|slots| - 1], m)
  }

  ghost function MetSlot(x: string, s: Slot, m: Disclosures): nat
    decreases s, 0
  {
    (if s.mark.Hidden? then Is(x, s.mark.digest) else 0) + (if Kept(s, m) then Met(x, s.child, m) else 0)
  }

  lemma {:induction false} MetBound(x: string, t: Tree, m: Disclosures)
    ensures Met(x, t, m) <= Count(t, DigestIs(x))
    decreases t, 1
  {
    if t.Node? {
      MetSlotsBound(x, t.slots, m);
      LayerDigestsSum(x, t.slots);
    }
  }

  lemma {:induction false} MetSlotsBound(x: string, slots: seq<Slot>, m: Disclosures)
    ensures MetSlots(x, slots, m) <= LayerDigestsOf(x, slots)
    decreases slots, 0
  {
    if slots != [] {
      MetSlotsBound(x, slots[..|slots| - 1], m);
      MetSlotBound(x, slots[|slots| - 1], m);
    }
  }

  lemma {:induction false} MetSlotBound(x: string, s: Slot, m: Disclosures)
    ensures MetSlot(x, s, m) <= SlotDigests(x, s)
    decreases s, 0
  {
    MetBound(x, s.child, m);
  }

  /** None of the digests of the tree was met before, and none occurs twice. */
  ghost predicate Fresh(t: Tree, seen: set<string>) {
    forall x :: Count(t, DigestIs(x)) + In(x, seen) <= 1
  }

  /** The outcome of unpacking a tree. */
  ghost predicate Unpacks(t: Tree, m: Disclosures, seen: set<string>, r: Outcome<Unpacked, UnpackError>) {
    if Blocked(t, m) then r.Err?
    else r.Ok? && Sem(r.value.value) == Sem(Prune(t, m)) && forall x ::
         In(x, r.value.seen) == In(x, seen) + Met(x, t, m)
  }

  // ---------- claims without a frame ----------

  lemma {:induction false} CleanUnpacks(v: Json, m: Disclosures, top: bool, seen: set<string>)
    requires Clean(v)
    ensures UnpackNode(v, m, top, seen) == Ok(Unpacked(v, seen)) && PlaceholderDigest(v).None?
    ensures v.Obj? ==> Child(v, Key(SD_LIST_KEY)).None?
    decreases v, 1
  {
    match v
    case Arr(items) =>
      forall i | 0 <= i < |items| ensures Clean(items[i]) { assert Clean(Cells(v)[i].value); }
      CleanItemsUnpack(items, m, seen);
    case Obj(members) =>
      forall i | 0 <= i < |members|
        ensures Clean(members[i].value) && !IsReserved(members[i].key) { assert Clean(Cells(v)[i].value); }
      CleanMembersUnpack(members, m, top, seen);
      assert Child(v, Key(SD_DIGEST)).None? && Child(v, Key(SD_LIST_KEY)).None?;
      assert members + [] == members;
    case _ =>
  }

  lemma {:induction false} CleanItemsUnpack(items: seq<Json>, m: Disclosures, seen: set<string>)
    requires forall i :: 0 <= i < |items| ==> Clean(items[i])
    ensures UnpackItems(items, m, seen) == Ok(UnpackedList(items, seen))
    decreases items, 0
  {
    if items != [] {
      var n := |items| - 1;
      CleanItemsUnpack(items[..n], m, seen);
      CleanUnpacks(items[n], m, false, seen);
      assert items == items[..n] + [items[n]];
    }
  }

  lemma {:induction false} CleanMembersUnpack(members: seq<Member>, m: Disclosures, top: bool, seen: set<string>)
    requires forall i :: 0 <= i < |members| ==> Clean(members[i].value) && !IsReserved(members[i].key)
    ensures UnpackMembers(members, m, top, seen) == Ok(UnpackedMembers(members, seen)) && WithoutSd(members) == members
    decreases members, 0
  {
    if members != [] {
      var n := |members| - 1;
      assert members == members[..n] + [members[n]];
      CleanMembersUnpack(members[..n], m, top, seen);
      CleanMemberUnpacks(members[n], m, top, seen);
    }
  }

  lemma {:induction false} CleanMemberUnpacks(x: Member, m: Disclosures, top: bool, seen: set<string>)
    requires Clean(x.value) && !IsReserved(x.key)
    ensures UnpackMember(x, m, top, seen) == Ok(UnpackedMembers([x], seen))
    decreases x, 0
  {
    CleanUnpacks(x.value, m, top && x.key == "", seen);
  }

  // ---------- arrays ----------

  lemma NoListKey(t: Tree)
    requires Sound(t) && Emit(t).Obj?
    ensures Child(Emit(t), Key(SD_LIST_KEY)).None?
  {
    match t
    case Raw(v) => CleanUnpacks(v, map[], false, {});
    case Node(isArray, slots, decoys) =>
      var members := EmitMembers(slots) + SdMember(Digests(slots), decoys);
      assert Emit(t) == Obj(members);
      EmittedMembers(slots);
      NoSuchMember(members, SD_LIST_KEY);
  }

  /** The outcome of unpacking a layer of array slots. */
  ghost predicate ListUnpacks(slots: seq<Slot>, m: Disclosures, seen: set<string>,
                              r: Outcome<UnpackedList, UnpackError>) {
    if AnyBlocked(slots, true, m) then r.Err?
    else r.Ok? && SemItems(r.value.items) == SemItems(PruneItems(slots, m)) &&
         forall x :: In(x, r.value.seen) == In(x, seen) + MetSlots(x, slots, m)
  }

  ghost predicate AnyBlocked(slots: seq<Slot>, isArray: bool, m: Disclosures) {
    exists i :: 0 <= i < |slots| && BlockedSlot(slots[i], isArray, m)
  }

  lemma AnyBlockedStep(slots: seq<Slot>, isArray: bool, m: Disclosures)
    requires slots != []
    ensures AnyBlocked(slots, isArray, m) <==>
            AnyBlocked(slots[..|slots| - 1], isArray, m) || BlockedSlot(slots[|slots| - 1], isArray, m)
  {
    var front := slots[..|slots| - 1];
    if AnyBlocked(front, isArray, m) {
      var i :| 0 <= i < |front| && BlockedSlot(front[i], isArray, m);
      assert BlockedSlot(slots[i], isArray, m);
    }
    if AnyBlocked(slots, isArray, m) && !BlockedSlot(slots[|slots| - 1], isArray, m) {
      var i :| 0 <= i < |slots| && BlockedSlot(slots[i], isArray, m);
      assert BlockedSlot(front[i], isArray, m);
    }
  }

  ghost predicate SlotReady(s: Slot, m: Disclosures) {
    && Sound(s.child) && Agrees(s.child, m)
    && (s.mark.Hidden? && s.mark.digest in m ==> m[s.mark.digest] == Wire(SlotDisclosure(s)))
  }

  ghost predicate SlotFresh(s: Slot, seen: set<string>) {
    forall x :: SlotDigests(x, s) + In(x, seen) <= 1
  }

  lemma MeetFresh(s: Slot, seen: set<string>)
    requires SlotFresh(s, seen) && s.mark.Hidden?
    ensures Meet(s.mark.digest, seen) == Ok(seen + {s.mark.digest}) && Fresh(s.child, seen + {s.mark.digest})
    ensures forall x :: In(x, seen + {s.mark.digest}) == In(x, seen) + Is(x, s.mark.digest)
  {
    assert SlotDigests(s.mark.digest, s) + In(s.mark.digest, seen) <= 1;
    forall x ensures Count(s.child, DigestIs(x)) + In(x, seen + {s.mark.digest}) <= 1 {
      assert SlotDigests(x, s) + In(x, seen) <= 1;
    }
  }

  lemma OpenFresh(s: Slot, seen: set<string>)
    requires SlotFresh(s, seen)
    ensures Fresh(s.child, seen)
  {
    forall x ensures Count(s.child, DigestIs(x)) + In(x, seen) <= 1 {
      assert SlotDigests(x, s) + In(x, seen) <= 1;
    }
  }

  lemma {:induction false} ItemUnpacks(s: Slot, m: Disclosures, seen: set<string>)
    requires SlotReady(s, m) && SlotFresh(s, seen) && s.seg.Index?
    ensures var r := UnpackItem(if s.mark.Hidden? then Placeholder(s.mark.digest) else Emit(s.child), m, seen);
            if BlockedSlot(s, true, m) then r.Err?
            else r.Ok? && |r.value.items| == (if Kept(s, m) then 1 else 0)
                 && (Kept(s, m) ==> Sem(r.value.items[0]) == Sem(PruneSlot(s, m)))
                 && forall x :: In(x, r.value.seen) == In(x, seen) + MetSlot(x, s, m)
    decreases s, 0
  {
    if s.mark.Hidden? {
      var item := Placeholder(s.mark.digest);
      assert Child(item, Key(SD_LIST_KEY)) == Some(Str(s.mark.digest))
             && PlaceholderDigest(item) == Some(s.mark.digest);
      MeetFresh(s, seen);
      if s.mark.digest in m {
        TreeUnpacks(s.child, m, false, seen + {s.mark.digest});
      }
    } else {
      if Emit(s.child).Obj? { NoListKey(s.child); }
      OpenFresh(s, seen);
      TreeUnpacks(s.child, m, false, seen);
    }
  }

  ghost predicate SlotsReady(slots: seq<Slot>, isArray: bool, m: Disclosures) {
    && (forall i :: 0 <= i < |slots| ==> SlotReady(slots[i], m))
    && if isArray then forall i :: 0 <= i < |slots| ==> slots[i].seg.Index? else NamedSlots(slots)
  }

  ghost predicate SlotsFresh(slots: seq<Slot>, seen: set<string>) {
    forall x :: LayerDigestsOf(x, slots) + In(x, seen) <= 1
  }

  lemma LastFresh(slots: seq<Slot>, m: Disclosures, seen: set<string>, after: set<string>)
    requires slots != [] && SlotsFresh(slots, seen)
    requires forall x :: In(x, after) == In(x, seen) + MetSlots(x, slots[..|slots| - 1], m)
    ensures SlotFresh(slots[|slots| - 1], after)
  {
    var n := |slots| - 1;
    forall x ensures SlotDigests(x, slots[n]) + In(x, after) <= 1 {
      assert LayerDigestsOf(x, slots) + In(x, seen) <= 1;
      MetSlotsBound(x, slots[..n], m);
    }
  }

  lemma FrontFresh(slots: seq<Slot>, seen: set<string>)
    requires slots != [] && SlotsFresh(slots, seen)
    ensures SlotsFresh(slots[..|slots| - 1], seen)
  {
    forall x ensures LayerDigestsOf(x, slots[..|slots| - 1]) + In(x, seen) <= 1 {
      assert LayerDigestsOf(x, slots) + In(x, seen) <= 1;
    }
  }

  lemma {:induction false} ItemsUnpack(slots: seq<Slot>, m: Disclosures, seen: set<string>)
    requires SlotsReady(slots, true, m) && SlotsFresh(slots, seen)
    ensures ListUnpacks(slots, m, seen, UnpackItems(EmitItems(slots), m, seen))
    decreases slots, 0
  {
    if slots != [] {
      var n := |slots| - 1;
      var items := EmitItems(slots);
      assert items[..n] == EmitItems(slots[..n]);
      FrontFresh(slots, seen);
      AnyBlockedStep(slots, true, m);
      ItemsUnpack(slots[..n], m, seen);
      var before := UnpackItems(items[..n], m, seen);
      if before.Ok? {
        LastFresh(slots, m, seen, before.value.seen);
        ItemUnpacks(slots[n], m, before.value.seen);
        LastItemSem(slots, m, seen, before.value);
      }
    }
  }

  lemma LastItemSem(slots: seq<Slot>, m: Disclosures, seen: set<string>, before: UnpackedList)
    requires slots != [] && SemItems(before.items) == SemItems(PruneItems(slots[..|slots| - 1], m))
    ensures forall v :: Sem(v) == Sem(PruneSlot(slots[|slots| - 1], m)) && Kept(slots[|slots| - 1], m) ==>
              SemItems(before.items + [v]) == SemItems(PruneItems(slots, m))
    ensures !Kept(slots[|slots| - 1], m) ==> SemItems(before.items + []) == SemItems(PruneItems(slots, m))
  {
    assert before.items + [] == before.items;
    var pruned := PruneItems(slots, m);
    if Kept(slots[|slots| - 1], m) {
      assert pruned[..|pruned| - 1] == PruneItems(slots[..|slots| - 1], m);
      forall v | Sem(v) == Sem(PruneSlot(slots[|slots| - 1], m))
        ensures SemItems(before.items + [v]) == SemItems(pruned) {
        assert (before.items + [v])[..|before.items|] == before.items;
      }
    } else {
      assert pruned == PruneItems(slots[..|slots| - 1], m);
    }
  }

  lemma LastPlaceholder(items: seq<Json>, decoys: seq<string>)
    requires decoys != []
    ensures var all, n := items + Placeholders(decoys), |decoys| - 1;
            all != [] && all[..|all| - 1] == items + Placeholders(decoys[..n])
            && all[|all| - 1] == Placeholder(decoys[n])
  {
    var n := |decoys| - 1;
    assert Placeholders(decoys) == Placeholders(decoys[..n]) + [Placeholder(decoys[n])];
  }

  /** Decoy elements are met and dropped. */
  lemma {:induction false} DecoyItemsUnpack(items: seq<Json>, decoys: seq<string>, m: Disclosures, seen: set<string>)
    requires UnpackItems(items, m, seen).Ok? && forall i :: 0 <= i < |decoys| ==> decoys[i] !in m
    requires forall x :: In(x, UnpackItems(items, m, seen).value.seen) + Times(x, decoys) <= 1
    ensures var before, r := UnpackItems(items, m, seen), UnpackItems(items + Placeholders(decoys), m, seen);
            && r.Ok? && r.value.items == before.value.items
            && forall x :: In(x, r.value.seen) == In(x, before.value.seen) + Times(x, decoys)
  {
    var before := UnpackItems(items, m, seen).value;
    if decoys == [] {
      assert items + Placeholders(decoys) == items;
    } else {
      var n := |decoys| - 1;
      forall x ensures In(x, before.seen) + Times(x, decoys[..n]) <= 1 {
        assert In(x, before.seen) + Times(x, decoys) <= 1;
      }
      DecoyItemsUnpack(items, decoys[..n], m, seen);
      LastPlaceholder(items, decoys);
      DecoyItemUnpacks(decoys[n], m, UnpackItems(items + Placeholders(decoys[..n]), m, seen).value.seen, decoys,
                       before.seen);
      assert before.items + [] == before.items;
    }
  }

  lemma UnknownItemUnpacks(digest: string, m: Disclosures, seen: set<string>)
    requires digest !in m && digest !in seen
    ensures UnpackItem(Placeholder(digest), m, seen) == Ok(UnpackedList([], seen + {digest}))
  {
    assert Child(Placeholder(digest), Key(SD_LIST_KEY)) == Some(Str(digest))
           && PlaceholderDigest(Placeholder(digest)) == Some(digest);
  }

  lemma DecoyItemUnpacks(decoy: string, m: Disclosures, seen: set<string>, decoys: seq<string>, start: set<string>)
    requires decoys != [] && decoys[|decoys| - 1] == decoy && decoy !in m
    requires forall x :: In(x, seen) == In(x, start) + Times(x, decoys[..|decoys| - 1])
    requires forall x :: In(x, start) + Times(x, decoys) <= 1
    ensures UnpackItem(Placeholder(decoy), m, seen) == Ok(UnpackedList([], seen + {decoy}))
    ensures forall x :: In(x, seen + {decoy}) == In(x, start) + Times(x, decoys)
  {
    assert decoy !in seen by { assert In(decoy, start) + Times(decoy, decoys) <= 1; }
    UnknownItemUnpacks(decoy, m, seen);
  }

  lemma LayerFresh(t: Tree, seen: set<string>)
    requires t.Node? && Fresh(t, seen)
    ensures SlotsFresh(t.slots, seen)
    ensures forall x :: LayerDigestsOf(x, t.slots) + Times(x, t.decoys) + In(x, seen) <= 1
  {
    forall x ensures LayerDigestsOf(x, t.slots) + Times(x, t.decoys) + In(x, seen) <= 1 {
      LayerDigestsSum(x, t.slots);
      assert Count(t, DigestIs(x)) + In(x, seen) <= 1;
    }
  }

  lemma {:induction false} ArrayUnpacks(slots: seq<Slot>, decoys: seq<string>, m: Disclosures, top: bool,
                                        seen: set<string>)
    requires var t := Node(true, slots, decoys);
             SlotsReady(slots, true, m) && Fresh(t, seen) && forall i :: 0 <= i < |decoys| ==> decoys[i] !in m
    ensures var t := Node(true, slots, decoys);
            Unpacks(t, m, seen, UnpackNode(Emit(t), m, top, seen))
    decreases slots, 1
  {
    var t := Node(true, slots, decoys);
    LayerFresh(t, seen);
    ItemsUnpack(slots, m, seen);
    var items := EmitItems(slots);
    var before := UnpackItems(items, m, seen);
    if before.Err? {
      ItemsFail(items, Placeholders(decoys), m, seen);
    } else {
      forall x ensures In(x, before.value.seen) + Times(x, decoys) <= 1 {
        MetSlotsBound(x, slots, m);
      }
      DecoyItemsUnpack(items, decoys, m, seen);
    }
  }

  lemma {:induction false} ItemsFail(a: seq<Json>, b: seq<Json>, m: Disclosures, seen: set<string>)
    requires UnpackItems(a, m, seen).Err?
    ensures UnpackItems(a + b, m, seen).Err?
  {
    if b == [] {
      assert a + b == a;
    } else {
      assert (a + b)[..|a + b| - 1] == a + b[..|b| - 1];
      ItemsFail(a, b[..|b| - 1], m, seen);
    }
  }

  // ---------- objects: the open members ----------

  /** The fields are the kept slots for which `which` holds, with their pruned values. */
  ghost predicate Fields(f: map<string, Val>, slots: seq<Slot>, m: Disclosures, which: Slot -> bool) {
    forall k :: match SlotAt(slots, Key(k))
                case None => k !in f
                case Some(s) => if which(s) then k in f && f[k] == Sem(PruneSlot(s, m)) else k !in f
  }

  ghost function OpenOnes(): Slot -> bool { (s: Slot) => s.mark.Open? }
  ghost function KeptOnes(m: Disclosures): Slot -> bool { (s: Slot) => Kept(s, m) }

  lemma FieldsUnique(f: map<string, Val>, g: map<string, Val>, slots: seq<Slot>, m: Disclosures, which: Slot -> bool)
    requires Fields(f, slots, m, which) && Fields(g, slots, m, which)
    ensures f == g
  {
    forall k ensures k in f <==> k in g
             ensures k in f ==> f[k] == g[k]
    {
      match SlotAt(slots, Key(k)) case None => case Some(s) =>
    }
  }

  lemma FieldsExtend(f: map<string, Val>, slots: seq<Slot>, m: Disclosures, which: Slot -> bool)
    requires slots != [] && NamedSlots(slots) && Fields(f, slots[..|slots| - 1], m, which)
    ensures var s := slots[|slots| - 1];
            Fields(if which(s) then f[s.seg.name := Sem(PruneSlot(s, m))] else f, slots, m, which)
  {
    var s := slots[|slots| - 1];
    var g := if which(s) then f[s.seg.name := Sem(PruneSlot(s, m))] else f;
    forall k ensures match SlotAt(slots, Key(k))
                     case None => k !in g
                     case Some(r) => if which(r) then k in g && g[k] == Sem(PruneSlot(r, m)) else k !in g
    {
      LastNamed(slots, k);
    }
  }

  lemma SemOfAppend(members: seq<Member>, x: Member)
    ensures SemMembers(members + [x]) == SemMembers(members)[x.key := Sem(x.value)]
  {
    assert (members + [x])[..|members|] == members;
  }

  lemma {:induction false} PrunedFields(slots: seq<Slot>, m: Disclosures)
    requires NamedSlots(slots)
    ensures Fields(SemMembers(PruneMembers(slots, m)), slots, m, KeptOnes(m))
    decreases slots
  {
    if slots != [] {
      var n := |slots| - 1;
      PrunedFields(slots[..n], m);
      FieldsExtend(SemMembers(PruneMembers(slots[..n], m)), slots, m, KeptOnes(m));
      if Kept(slots[n], m) {
        SemOfAppend(PruneMembers(slots[..n], m), Member(slots[n].seg.name, PruneSlot(slots[n], m)));
      } else {
        assert PruneMembers(slots, m) == PruneMembers(slots[..n], m);
      }
    }
  }

  /** How often `x` is met in the open slots, and how often it occurs there at all. */
  ghost function OpenMet(x: string, slots: seq<Slot>, m: Disclosures): nat {
    if slots == [] then 0
    else OpenMet(x, slots[..|slots| - 1], m)
         + (if slots[|slots| - 1].mark.Open? then Met(x, slots[|slots| - 1].child, m) else 0)
  }

  ghost function OpenDigests(x: string, slots: seq<Slot>): nat {
    if slots == [] then 0
    else OpenDigests(x, slots[..|slots| - 1])
         + (if slots[|slots| - 1].mark.Open? then Count(slots[|slots| - 1].child, DigestIs(x)) else 0)
  }

  lemma {:induction false} OpenMetBound(x: string, slots: seq<Slot>, m: Disclosures)
    ensures OpenMet(x, slots, m) <= OpenDigests(x, slots)
  {
    if slots != [] {
      OpenMetBound(x, slots[..|slots| - 1], m);
      MetBound(x, slots[|slots| - 1].child, m);
    }
  }

  ghost predicate OpenBlocked(slots: seq<Slot>, m: Disclosures) {
    slots != [] && (OpenBlocked(slots[..|slots| - 1], m)
                    || (slots[|slots| - 1].mark.Open? && Blocked(slots[|slots| - 1].child, m)))
  }

  ghost predicate OpenFreshIn(slots: seq<Slot>, seen: set<string>) {
    forall x :: OpenDigests(x, slots) + In(x, seen) <= 1
  }

  /** The outcome of unpacking the open members of a layer. */
  ghost predicate MembersUnpacked(slots: seq<Slot>, m: Disclosures, seen: set<string>,
                                  r: Outcome<UnpackedMembers, UnpackError>) {
    if OpenBlocked(slots, m) then r.Err?
    else r.Ok? && Fields(SemMembers(r.value.members), slots, m, OpenOnes())
         && WithoutSd(r.value.members) == r.value.members &&
         forall x :: In(x, r.value.seen) == In(x, seen) + OpenMet(x, slots, m)
  }

  lemma LastOpenFresh(slots: seq<Slot>, m: Disclosures, seen: set<string>, after: set<string>)
    requires slots != [] && slots[|slots| - 1].mark.Open? && OpenFreshIn(slots, seen)
    requires forall x :: In(x, after) == In(x, seen) + OpenMet(x, slots[..|slots| - 1], m)
    ensures Fresh(slots[|slots| - 1].child, after)
  {
    forall x ensures Count(slots[|slots| - 1].child, DigestIs(x)) + In(x, after) <= 1 {
      assert OpenDigests(x, slots) + In(x, seen) <= 1;
      OpenMetBound(x, slots[..|slots| - 1], m);
    }
  }

  lemma FrontOpenFresh(slots: seq<Slot>, seen: set<string>)
    requires slots != [] && OpenFreshIn(slots, seen)
    ensures OpenFreshIn(slots[..|slots| - 1], seen)
  {
    forall x ensures OpenDigests(x, slots[..|slots| - 1]) + In(x, seen) <= 1 {
      assert OpenDigests(x, slots) + In(x, seen) <= 1;
    }
  }

  lemma {:induction false} MembersUnpack(slots: seq<Slot>, m: Disclosures, top: bool, seen: set<string>)
    requires SlotsReady(slots, false, m) && OpenFreshIn(slots, seen)
    ensures MembersUnpacked(slots, m, seen, UnpackMembers(EmitMembers(slots), m, top, seen))
    decreases slots, 0
  {
    if slots != [] {
      var n := |slots| - 1;
      FrontOpenFresh(slots, seen);
      MembersUnpack(slots[..n], m, top, seen);
      var before := UnpackMembers(EmitMembers(slots[..n]), m, top, seen);
      if slots[n].mark.Hidden? {
        assert EmitMembers(slots) == EmitMembers(slots[..n]);
        if before.Ok? { FieldsExtend(SemMembers(before.value.members), slots, m, OpenOnes()); }
      } else {
        LastMemberUnpacks(slots, m, top, seen);
      }
    }
  }

  lemma {:induction false} LastMemberUnpacks(slots: seq<Slot>, m: Disclosures, top: bool, seen: set<string>)
    requires slots != [] && SlotsReady(slots, false, m) && OpenFreshIn(slots, seen) && slots[|slots| - 1].mark.Open?
    requires MembersUnpacked(slots[..|slots| - 1], m, seen,
                             UnpackMembers(EmitMembers(slots[..|slots| - 1]), m, top, seen))
    ensures MembersUnpacked(slots, m, seen, UnpackMembers(EmitMembers(slots), m, top, seen))
    decreases slots, 0, 0
  {
    var n := |slots| - 1;
    var s := slots[n];
    var all := EmitMembers(slots);
    assert all[..|all| - 1] == EmitMembers(slots[..n]) && all[|all| - 1] == Member(s.seg.name, Content(s));
    var before := UnpackMembers(EmitMembers(slots[..n]), m, top, seen);
    if before.Ok? {
      LastOpenFresh(slots, m, seen, before.value.seen);
      SlotUnpacks(s, m, top && s.seg.name == "", before.value.seen);
      var r := UnpackNode(Emit(s.child), m, top && s.seg.name == "", before.value.seen);
      if r.Ok? {
        var x := Member(s.seg.name, r.value.value);
        FieldsExtend(SemMembers(before.value.members), slots, m, OpenOnes());
        SemOfAppend(before.value.members, x);
        assert (before.value.members + [x])[..|before.value.members|] == before.value.members;
      }
    }
  }

  lemma {:induction false} SlotUnpacks(s: Slot, m: Disclosures, top: bool, seen: set<string>)
    requires SlotReady(s, m) && Fresh(s.child, seen)
    ensures Unpacks(s.child, m, seen, UnpackNode(Emit(s.child), m, top, seen))
    decreases s, 1
  {
    TreeUnpacks(s.child, m, top, seen);
  }

  // ---------- objects: the disclosed members ----------

  /** The hidden slot with this digest. */
  ghost function SlotBy(slots: seq<Slot>, d: string): (r: Option<Slot>)
    ensures r.Some? ==> r.value.mark.Hidden? && r.value.mark.digest == d && exists i ::
              0 <= i < |slots| && slots[i] == r.value
  {
    if slots == [] then None
    else
      var s := slots[|slots| - 1];
      if s.mark.Hidden? && s.mark.digest == d then Some(s) else SlotBy(slots[..|slots| - 1], d)
  }

  ghost function SumOf(f: string -> nat, digests: seq<string>): nat {
    if digests == [] then 0 else SumOf(f, digests[..|digests| - 1]) + f(digests[|digests| - 1])
  }

  /** How often `x` is met at a digest of the layer, and how often it occurs there at all. */
  ghost function DigestMet(slots: seq<Slot>, m: Disclosures, x: string): string -> nat {
    d => Is(x, d) + match SlotBy(slots, d) case None => 0 case Some(s) => if d in m then Met(x, s.child, m) else 0
  }

  ghost function DigestAll(slots: seq<Slot>, x: string): string -> nat {
    d => Is(x, d) + match SlotBy(slots, d) case None => 0 case Some(s) => Count(s.child, DigestIs(x))
  }

  lemma {:induction false} DigestMetBound(slots: seq<Slot>, m: Disclosures, x: string, digests: seq<string>)
    ensures SumOf(DigestMet(slots, m, x), digests) <= SumOf(DigestAll(slots, x), digests)
  {
    if digests != [] {
      var d := digests[|digests| - 1];
      DigestMetBound(slots, m, x, digests[..|digests| - 1]);
      if SlotBy(slots, d).Some? { MetBound(x, SlotBy(slots, d).value.child, m); }
    }
  }

  ghost predicate DigestBlocks(slots: seq<Slot>, m: Disclosures, d: string) {
    d in m && match SlotBy(slots, d) case None => false case Some(s) => s.seg == Key("") || Blocked(s.child, m)
  }

  ghost predicate DigestsBlock(slots: seq<Slot>, m: Disclosures, digests: seq<string>) {
    digests != [] && (DigestsBlock(slots, m, digests[..|digests| - 1])
                      || DigestBlocks(slots, m, digests[|digests| - 1]))
  }

  ghost function DisclosedOnes(m: Disclosures, digests: seq<string>): Slot -> bool {
    (s: Slot) => s.mark.Hidden? && s.mark.digest in m && s.mark.digest in digests
  }

  ghost predicate DigestsFresh(slots: seq<Slot>, digests: seq<string>, seen: set<string>) {
    forall x :: SumOf(DigestAll(slots, x), digests) + In(x, seen) <= 1
  }

  /** The outcome of resolving some digests of a layer. */
  ghost predicate DigestsUnpacked(slots: seq<Slot>, digests: seq<string>, m: Disclosures, seen: set<string>,
                                  r: Outcome<UnpackedMembers, UnpackError>) {
    if DigestsBlock(slots, m, digests) then r.Err?
    else r.Ok? && Fields(SemMembers(r.value.members), slots, m, DisclosedOnes(m, digests)) &&
         forall x :: In(x, r.value.seen) == In(x, seen) + SumOf(DigestMet(slots, m, x), digests)
  }

  lemma {:induction false} TimesBelowSum(slots: seq<Slot>, digests: seq<string>, x: string)
    ensures Times(x, digests) <= SumOf(DigestAll(slots, x), digests)
  {
    if digests != [] {
      TimesBelowSum(slots, digests[..|digests| - 1], x);
    }
  }

  lemma {:induction false} TimesOfMember(x: string, s: seq<string>)
    ensures x in s <==> Times(x, s) > 0
  {
    TimesIsCount(x, s);
  }

  /** The last digest is new, so is everything below its slot. */
  lemma LastDigestFresh(slots: seq<Slot>, digests: seq<string>, m: Disclosures, seen: set<string>, after: set<string>)
    requires digests != [] && DigestsFresh(slots, digests, seen)
    requires forall x :: In(x, after) == In(x, seen) + SumOf(DigestMet(slots, m, x), digests[..|digests| - 1])
    ensures var d := digests[|digests| - 1];
            && d !in after && d !in digests[..|digests| - 1]
            && (SlotBy(slots, d).Some? ==> Fresh(SlotBy(slots, d).value.child, after + {d}))
            && (forall x :: In(x, after + {d}) == In(x, after) + Is(x, d))
  {
    var n := |digests| - 1;
    var d := digests[n];
    assert SumOf(DigestAll(slots, d), digests) + In(d, seen) <= 1;
    DigestMetBound(slots, m, d, digests[..n]);
    TimesBelowSum(slots, digests[..n], d);
    TimesOfMember(d, digests[..n]);
    assert d !in after;
    if SlotBy(slots, d).Some? {
      var child := SlotBy(slots, d).value.child;
      forall x ensures Count(child, DigestIs(x)) + In(x, after + {d}) <= 1 {
        assert SumOf(DigestAll(slots, x), digests) + In(x, seen) <= 1;
        DigestMetBound(slots, m, x, digests[..n]);
      }
    }
  }

  lemma FrontDigestsFresh(slots: seq<Slot>, digests: seq<string>, seen: set<string>)
    requires digests != [] && DigestsFresh(slots, digests, seen)
    ensures DigestsFresh(slots, digests[..|digests| - 1], seen)
  {
    forall x ensures SumOf(DigestAll(slots, x), digests[..|digests| - 1]) + In(x, seen) <= 1 {
      assert SumOf(DigestAll(slots, x), digests) + In(x, seen) <= 1;
    }
  }

  lemma FieldsAlike(f: map<string, Val>, slots: seq<Slot>, m: Disclosures, which: Slot -> bool, other: Slot -> bool)
    requires Fields(f, slots, m, which)
    requires forall i :: 0 <= i < |slots| ==> which(slots[i]) == other(slots[i])
    ensures Fields(f, slots, m, other)
  {
    forall k ensures match SlotAt(slots, Key(k))
                     case None => k !in f
                     case Some(s) => if other(s) then k in f && f[k] == Sem(PruneSlot(s, m)) else k !in f
    {
      match SlotAt(slots, Key(k)) case None => case Some(s) =>
    }
  }

  /** A revealed slot is the only one with its digest: another would have disclosed another name. */
  lemma OneSlotBy(slots: seq<Slot>, m: Disclosures, d: string, i: nat)
    requires NamedSlots(slots) && OwnAgree(slots, m) && d in m && SlotBy(slots, d).Some?
             && SlotBy(slots, d).value.seg != Key("")
    requires i < |slots| && slots[i].mark.Hidden? && slots[i].mark.digest == d
    ensures slots[i] == SlotBy(slots, d).value
  {
    var s := SlotBy(slots, d).value;
    var k :| 0 <= k < |slots| && slots[k] == s;
    assert m[d] == Wire(SlotDisclosure(slots[i])) == Wire(SlotDisclosure(slots[k]));
    assert Wire(SlotDisclosure(slots[k])).key == Some(s.seg.name);
    assert slots[i].seg == s.seg;
  }

  lemma FieldsDisclose(f: map<string, Val>, slots: seq<Slot>, m: Disclosures, digests: seq<string>, v: Val)
    requires digests != [] && NamedSlots(slots) && OwnAgree(slots, m)
    requires Fields(f, slots, m, DisclosedOnes(m, digests[..|digests| - 1]))
    requires var d := digests[|digests| - 1];
             d in m && SlotBy(slots, d).Some? && SlotBy(slots, d).value.seg != Key("")
             && v == Sem(PruneSlot(SlotBy(slots, d).value, m))
    ensures Fields(f[SlotBy(slots, digests[|digests| - 1]).value.seg.name := v], slots, m, DisclosedOnes(m, digests))
  {
    var n := |digests| - 1;
    var d := digests[n];
    var s := SlotBy(slots, d).value;
    var i :| 0 <= i < |slots| && slots[i] == s;
    var g := f[s.seg.name := v];
    forall k ensures match SlotAt(slots, Key(k))
                     case None => k !in g
                     case Some(r) =>
                       if DisclosedOnes(m, digests)(r) then k in g && g[k] == Sem(PruneSlot(r, m)) else k !in g
    {
      match SlotAt(slots, Key(k))
      case None =>
      case Some(r) =>
        var j :| 0 <= j < |slots| && slots[j] == r;
        if j != i {
          assert slots[j].seg != slots[i].seg;
          if r.mark.Hidden? && r.mark.digest == d { OneSlotBy(slots, m, d, j); }
        }
        assert r.mark.Hidden? ==> (r.mark.digest in digests <==> r.mark.digest == d || r.mark.digest in digests[..n]);
    }
  }

  lemma FieldsUndisclosed(f: map<string, Val>, slots: seq<Slot>, m: Disclosures, digests: seq<string>)
    requires digests != [] && digests[|digests| - 1] !in m
             && Fields(f, slots, m, DisclosedOnes(m, digests[..|digests| - 1]))
    ensures Fields(f, slots, m, DisclosedOnes(m, digests))
  {
    forall i | 0 <= i < |slots|
      ensures DisclosedOnes(m, digests[..|digests| - 1])(slots[i]) == DisclosedOnes(m, digests)(slots[i])
    {
      var s := slots[i];
      assert s.mark.Hidden? && s.mark.digest in m ==>
               (s.mark.digest in digests <==> s.mark.digest in digests[..|digests| - 1]);
    }
    FieldsAlike(f, slots, m, DisclosedOnes(m, digests[..|digests| - 1]), DisclosedOnes(m, digests));
  }

  /** What the digests of a layer need: every disclosed one belongs to a slot. */
  ghost predicate DigestsKnown(slots: seq<Slot>, digests: seq<string>, m: Disclosures) {
    forall i :: 0 <= i < |digests| && digests[i] in m ==> SlotBy(slots, digests[i]).Some?
  }

  lemma {:induction false} DigestsUnpack(slots: seq<Slot>, digests: seq<string>, payload: seq<Member>, m: Disclosures,
                                         top: bool, seen: set<string>)
    requires SlotsReady(slots, false, m) && DigestsKnown(slots, digests, m) && DigestsFresh(slots, digests, seen)
    requires Fields(SemMembers(payload), slots, m, OpenOnes())
    ensures DigestsUnpacked(slots, digests, m, seen, UnpackDigests(digests, payload, m, top, seen))
    decreases slots, 1, |digests|
  {
    if digests != [] {
      var n := |digests| - 1;
      FrontDigestsFresh(slots, digests, seen);
      DigestsUnpack(slots, digests[..n], payload, m, top, seen);
      var before := UnpackDigests(digests[..n], payload, m, top, seen);
      if before.Ok? {
        LastDigestFresh(slots, digests, m, seen, before.value.seen);
        LastDigestUnpacks(slots, digests, payload, m, top, seen, before.value);
      }
    }
  }

  lemma {:induction false} LastDigestUnpacks(slots: seq<Slot>, digests: seq<string>, payload: seq<Member>,
                                             m: Disclosures, top: bool, seen: set<string>,
                                             before: UnpackedMembers)
    requires SlotsReady(slots, false, m) && digests != [] && Fields(SemMembers(payload), slots, m, OpenOnes())
    requires var n := |digests| - 1;
             && DigestsUnpacked(slots, digests[..n], m, seen, Ok(before)) && !DigestsBlock(slots, m, digests[..n])
             && digests[n] !in before.seen && digests[n] !in digests[..n]
             && (digests[n] in m ==>
                   SlotBy(slots, digests[n]).Some?
                   && Fresh(SlotBy(slots, digests[n]).value.child, before.seen + {digests[n]}))
             && forall x :: In(x, before.seen + {digests[n]}) == In(x, before.seen) + Is(x, digests[n])
    ensures DigestsUnpacked(slots, digests, m, seen,
                            UnpackDigest(digests[|digests| - 1], payload, before.members, m, top, before.seen))
    decreases slots, 0
  {
    var d := digests[|digests| - 1];
    if d !in m {
      FieldsUndisclosed(SemMembers(before.members), slots, m, digests);
    } else {
      var s := SlotBy(slots, d).value;
      var i :| 0 <= i < |slots| && slots[i] == s;
      assert SlotReady(slots[i], m);
      if s.seg == Key("") {
        assert m[d].key == None;
      } else {
        var free := top && s.seg.name == "";
        NameIsFree(slots, digests, payload, before.members, m, i);
        SlotUnpacks(s, m, free, before.seen + {d});
        DigestAdds(d, s.seg.name, payload, before.members, m, top, before.seen);
        SlotIsDisclosed(slots, digests, m, seen, before, UnpackNode(Emit(s.child), m, free, before.seen + {d}));
      }
    }
  }

  /** A digest with a disclosure whose name is free is met, and adds its unpacked value. */
  lemma DigestAdds(d: string, name: string, payload: seq<Member>, claims: seq<Member>, m: Disclosures, top: bool,
                   seen: set<string>)
    requires d !in seen && d in m && m[d].key == Some(name) && !HasKey(payload, name) && !HasKey(claims, name)
    ensures var r := UnpackNode(m[d].value, m, top && name == "", seen + {d});
            UnpackDigest(d, payload, claims, m, top, seen) ==
            if r.Err? then Err(r.error) else Ok(UnpackedMembers(claims + [Member(name, r.value.value)], r.value.seen))
  {
  }

  /** The outcome after the last digest, which discloses `s`, given how the value of `s` unpacks. */
  lemma SlotIsDisclosed(slots: seq<Slot>, digests: seq<string>, m: Disclosures, seen: set<string>,
                        before: UnpackedMembers,
                        r: Outcome<Unpacked, UnpackError>)
    requires digests != [] && NamedSlots(slots) && OwnAgree(slots, m)
    requires var n := |digests| - 1;
             && DigestsUnpacked(slots, digests[..n], m, seen, Ok(before)) && !DigestsBlock(slots, m, digests[..n])
             && digests[n] in m && SlotBy(slots, digests[n]).Some? && SlotBy(slots, digests[n]).value.seg.Key?
             && SlotBy(slots, digests[n]).value.seg != Key("")
             && Unpacks(SlotBy(slots, digests[n]).value.child, m, before.seen + {digests[n]}, r)
             && forall x :: In(x, before.seen + {digests[n]}) == In(x, before.seen) + Is(x, digests[n])
    ensures var s := SlotBy(slots, digests[|digests| - 1]).value;
            DigestsUnpacked(slots, digests, m, seen,
                            if r.Err? then Err(r.error)
                            else Ok(UnpackedMembers(before.members + [Member(s.seg.name, r.value.value)],
                                                    r.value.seen)))
  {
    var d := digests[|digests| - 1];
    var s := SlotBy(slots, d).value;
    if r.Ok? {
      FieldsDisclose(SemMembers(before.members), slots, m, digests, Sem(r.value.value));
      SemOfAppend(before.members, Member(s.seg.name, r.value.value));
    }
  }

  /** The name of a slot disclosed now is neither an open member nor disclosed before. */
  lemma NameIsFree(slots: seq<Slot>, digests: seq<string>, payload: seq<Member>, claims: seq<Member>, m: Disclosures,
                   i: nat)
    requires NamedSlots(slots) && digests != [] && i < |slots| && slots[i].mark.Hidden?
             && slots[i].mark.digest == digests[|digests| - 1]
    requires digests[|digests| - 1] !in digests[..|digests| - 1]
    requires Fields(SemMembers(payload), slots, m, OpenOnes())
    requires Fields(SemMembers(claims), slots, m, DisclosedOnes(m, digests[..|digests| - 1]))
    ensures !HasKey(payload, slots[i].seg.name) && !HasKey(claims, slots[i].seg.name)
  {
    var name := slots[i].seg.name;
    FindsSlot(slots, i);
    SemHasKey(payload, name);
    SemHasKey(claims, name);
  }

  // ---------- objects: both together ----------

  lemma {:induction false} SumOfConcat(f: string -> nat, a: seq<string>, b: seq<string>)
    ensures SumOf(f, a + b) == SumOf(f, a) + SumOf(f, b)
  {
    if b == [] {
      assert a + b == a;
    } else {
      assert (a + b)[..|a + b| - 1] == a + b[..|b| - 1];
      SumOfConcat(f, a, b[..|b| - 1]);
    }
  }

  lemma {:induction false} SumOfInsert(f: string -> nat, x: string, s: seq<string>)
    ensures SumOf(f, Insert(x, s)) == SumOf(f, s) + f(x)
  {
    var r := Insert(x, s);
    if s == [] {
      assert r[..0] == [];
    } else if Leq(s[|s| - 1], x) {
      assert r[..|r| - 1] == s;
    } else {
      assert r[..|r| - 1] == Insert(x, s[..|s| - 1]);
      SumOfInsert(f, x, s[..|s| - 1]);
    }
  }

  lemma {:induction false} SumOfSort(f: string -> nat, s: seq<string>)
    ensures SumOf(f, Sort(s)) == SumOf(f, s)
  {
    if s != [] {
      SumOfSort(f, s[..|s| - 1]);
      SumOfInsert(f, s[|s| - 1], Sort(s[..|s| - 1]));
    }
  }

  ghost predicate SlotsByDigest(part: seq<Slot>, slots: seq<Slot>) {
    forall i :: 0 <= i < |part| && part[i].mark.Hidden? ==> SlotBy(slots, part[i].mark.digest) == Some(part[i])
  }

  /** The sum over the digests of a layer, with the open slots, is the sum over the slots. */
  lemma {:induction false} AllSplit(x: string, part: seq<Slot>, slots: seq<Slot>)
    requires SlotsByDigest(part, slots)
    ensures OpenDigests(x, part) + SumOf(DigestAll(slots, x), Digests(part)) == LayerDigestsOf(x, part)
  {
    if part != [] {
      var n := |part| - 1;
      var ds := Digests(part);
      AllSplit(x, part[..n], slots);
      if part[n].mark.Hidden? {
        assert ds[..|ds| - 1] == Digests(part[..n]) && ds[|ds| - 1] == part[n].mark.digest;
      } else {
        assert ds == Digests(part[..n]);
      }
    }
  }

  lemma {:induction false} MetSplit(x: string, part: seq<Slot>, slots: seq<Slot>, m: Disclosures)
    requires SlotsByDigest(part, slots)
    ensures OpenMet(x, part, m) + SumOf(DigestMet(slots, m, x), Digests(part)) == MetSlots(x, part, m)
  {
    if part != [] {
      var n := |part| - 1;
      var ds := Digests(part);
      MetSplit(x, part[..n], slots, m);
      if part[n].mark.Hidden? {
        assert ds[..|ds| - 1] == Digests(part[..n]) && ds[|ds| - 1] == part[n].mark.digest;
      } else {
        assert ds == Digests(part[..n]);
      }
    }
  }

  lemma {:induction false} SlotByFinds(slots: seq<Slot>, i: nat)
    requires i < |slots| && slots[i].mark.Hidden?
    requires LayerDigestsOf(slots[i].mark.digest, slots) <= 1
    ensures SlotBy(slots, slots[i].mark.digest) == Some(slots[i])
  {
    var d := slots[i].mark.digest;
    var n := |slots| - 1;
    if i < n {
      SlotsSumUp(d, slots, i, n);
      SlotByFinds(slots[..n], i);
    }
  }

  lemma {:induction false} NoSlotByDecoy(slots: seq<Slot>, d: string)
    requires LayerDigestsOf(d, slots) == 0
    ensures SlotBy(slots, d).None?
  {
    if slots != [] {
      NoSlotByDecoy(slots[..|slots| - 1], d);
    }
  }

  lemma {:induction false} DecoySums(slots: seq<Slot>, decoys: seq<string>, m: Disclosures, x: string)
    requires forall i :: 0 <= i < |decoys| ==> SlotBy(slots, decoys[i]).None?
    ensures SumOf(DigestAll(slots, x), decoys) == Times(x, decoys) == SumOf(DigestMet(slots, m, x), decoys)
  {
    if decoys != [] {
      DecoySums(slots, decoys[..|decoys| - 1], m, x);
    }
  }

  ghost predicate LayerDistinct(slots: seq<Slot>, decoys: seq<string>) {
    forall x :: LayerDigestsOf(x, slots) + Times(x, decoys) <= 1
  }

  lemma LayerSums(slots: seq<Slot>, decoys: seq<string>, m: Disclosures, x: string)
    requires LayerDistinct(slots, decoys)
    ensures var sorted := Sort(Digests(slots) + decoys);
            && OpenDigests(x, slots) + SumOf(DigestAll(slots, x), sorted) == LayerDigestsOf(x, slots) + Times(x, decoys)
            && OpenMet(x, slots, m) + SumOf(DigestMet(slots, m, x), sorted) == MetSlots(x, slots, m) + Times(x, decoys)
  {
    forall i | 0 <= i < |slots| && slots[i].mark.Hidden? ensures SlotBy(slots, slots[i].mark.digest) == Some(slots[i]) {
      assert LayerDigestsOf(slots[i].mark.digest, slots) + Times(slots[i].mark.digest, decoys) <= 1;
      SlotByFinds(slots, i);
    }
    forall i | 0 <= i < |decoys| ensures SlotBy(slots, decoys[i]).None? {
      assert LayerDigestsOf(decoys[i], slots) + Times(decoys[i], decoys) <= 1;
      TimesOfMember(decoys[i], decoys);
      NoSlotByDecoy(slots, decoys[i]);
    }
    AllSplit(x, slots, slots);
    MetSplit(x, slots, slots, m);
    DecoySums(slots, decoys, m, x);
    SumOfSort(DigestAll(slots, x), Digests(slots) + decoys);
    SumOfSort(DigestMet(slots, m, x), Digests(slots) + decoys);
    SumOfConcat(DigestAll(slots, x), Digests(slots), decoys);
    SumOfConcat(DigestMet(slots, m, x), Digests(slots), decoys);
  }

  lemma {:induction false} DigestsHaveSlots(slots: seq<Slot>, d: string)
    ensures d in Digests(slots) <==> SlotBy(slots, d).Some?
  {
    if slots != [] {
      DigestsHaveSlots(slots[..|slots| - 1], d);
    }
  }

  lemma {:induction false} BlockingDigest(slots: seq<Slot>, m: Disclosures, digests: seq<string>)
    ensures DigestsBlock(slots, m, digests) <==> exists d :: d in digests && DigestBlocks(slots, m, d)
  {
    if digests != [] {
      var n := |digests| - 1;
      BlockingDigest(slots, m, digests[..n]);
      assert forall d :: d in digests <==> d in digests[..n] || d == digests[n];
    }
  }

  lemma {:induction false} OpenBlockedSlot(slots: seq<Slot>, m: Disclosures)
    ensures OpenBlocked(slots, m) <==> exists i :: 0 <= i < |slots| && slots[i].mark.Open? && Blocked(slots[i].child, m)
  {
    if slots != [] {
      var n := |slots| - 1;
      OpenBlockedSlot(slots[..n], m);
      assert forall i :: 0 <= i < n ==> slots[..n][i] == slots[i];
    }
  }

  /** A layer of members is blocked at an open slot or at one of its digests. */
  lemma LayerBlocked(slots: seq<Slot>, decoys: seq<string>, m: Disclosures)
    requires LayerDistinct(slots, decoys)
    ensures AnyBlocked(slots, false, m) <==>
              OpenBlocked(slots, m) || DigestsBlock(slots, m, Sort(Digests(slots) + decoys))
  {
    var ds := Digests(slots) + decoys;
    SortSorts(ds);
    OpenBlockedSlot(slots, m);
    BlockingDigest(slots, m, Sort(ds));
    if AnyBlocked(slots, false, m) {
      var i :| 0 <= i < |slots| && BlockedSlot(slots[i], false, m);
      if slots[i].mark.Hidden? {
        var d := slots[i].mark.digest;
        assert LayerDigestsOf(d, slots) + Times(d, decoys) <= 1;
        SlotByFinds(slots, i);
        DigestsHaveSlots(slots, d);
        assert d in multiset(Sort(ds));
        assert DigestBlocks(slots, m, d);
      }
    }
    if OpenBlocked(slots, m) {
      var i :| 0 <= i < |slots| && slots[i].mark.Open? && Blocked(slots[i].child, m);
      assert BlockedSlot(slots[i], false, m);
    }
    if DigestsBlock(slots, m, Sort(ds)) {
      var d :| d in Sort(ds) && DigestBlocks(slots, m, d);
      var s := SlotBy(slots, d).value;
      var i :| 0 <= i < |slots| && slots[i] == s;
      assert BlockedSlot(slots[i], false, m);
    }
  }

  // ---------- objects: the whole layer ----------

  lemma {:induction false} SemOfConcat(a: seq<Member>, b: seq<Member>)
    ensures SemMembers(a + b) == SemMembers(a) + SemMembers(b)
  {
    if b == [] {
      assert a + b == a;
    } else {
      assert (a + b)[..|a + b| - 1] == a + b[..|b| - 1];
      SemOfConcat(a, b[..|b| - 1]);
    }
  }

  /** The `_sd` member is neither unpacked nor returned. */
  lemma MembersWithSd(members: seq<Member>, digests: seq<string>, decoys: seq<string>, m: Disclosures, top: bool,
                      seen: set<string>)
    ensures var before := UnpackMembers(members, m, top, seen);
            var r := UnpackMembers(members + SdMember(digests, decoys), m, top, seen);
            if before.Err? then r.Err?
            else r == Ok(UnpackedMembers(before.value.members + SdMember(digests, decoys), before.value.seen)) &&
                 WithoutSd(before.value.members + SdMember(digests, decoys)) == WithoutSd(before.value.members)
  {
    var before := UnpackMembers(members, m, top, seen);
    if SdMember(digests, decoys) == [] {
      assert members + SdMember(digests, decoys) == members;
      assert before.Ok? ==> before.value.members + SdMember(digests, decoys) == before.value.members;
    } else {
      var all := members + SdMember(digests, decoys);
      assert all[..|all| - 1] == members;
      if before.Ok? {
        var own := before.value.members + SdMember(digests, decoys);
        assert own[..|own| - 1] == before.value.members;
      }
    }
  }

  lemma SdIsValid(slots: seq<Slot>, decoys: seq<string>)
    requires NamedSlots(slots) && forall i :: 0 <= i < |slots| ==> Sound(slots[i].child)
    ensures !SdInvalid(Emit(Node(false, slots, decoys)))
  {
    forall i | 0 <= i < |slots| ensures SlotSound(slots[i], false, i) {}
    EmittedSd(slots, decoys);
  }

  lemma LayerKnown(slots: seq<Slot>, decoys: seq<string>, m: Disclosures)
    requires forall i :: 0 <= i < |decoys| ==> decoys[i] !in m
    ensures DigestsKnown(slots, Sort(Digests(slots) + decoys), m)
  {
    var ds := Digests(slots) + decoys;
    SortSorts(ds);
    var sorted := Sort(ds);
    forall i | 0 <= i < |sorted| && sorted[i] in m ensures SlotBy(slots, sorted[i]).Some? {
      assert sorted[i] in multiset(ds);
      assert sorted[i] in Digests(slots);
      DigestsHaveSlots(slots, sorted[i]);
    }
  }

  /** Open members and disclosed members together are the kept ones. */
  lemma JoinFields(f: map<string, Val>, g: map<string, Val>, slots: seq<Slot>, decoys: seq<string>, m: Disclosures)
    requires LayerDistinct(slots, decoys)
    requires Fields(f, slots, m, OpenOnes()) && Fields(g, slots, m, DisclosedOnes(m, Sort(Digests(slots) + decoys)))
    ensures Fields(f + g, slots, m, KeptOnes(m))
  {
    var ds := Digests(slots) + decoys;
    SortSorts(ds);
    forall k ensures match SlotAt(slots, Key(k))
                     case None => k !in f + g
                     case Some(s) =>
                       if KeptOnes(m)(s) then k in f + g && (f + g)[k] == Sem(PruneSlot(s, m)) else k !in f + g
    {
      match SlotAt(slots, Key(k))
      case None =>
      case Some(s) =>
        if s.mark.Hidden? {
          var i :| 0 <= i < |slots| && slots[i] == s;
          var d := s.mark.digest;
          assert LayerDigestsOf(d, slots) + Times(d, decoys) <= 1;
          SlotByFinds(slots, i);
          DigestsHaveSlots(slots, d);
          assert d in multiset(ds) && d in multiset(Sort(ds));
        }
    }
  }

  /** None of the digests of an object is met before its layer, nor twice within it. */
  lemma RecordFresh(slots: seq<Slot>, decoys: seq<string>, m: Disclosures, seen: set<string>)
    requires Fresh(Node(false, slots, decoys), seen)
    ensures LayerDistinct(slots, decoys) && OpenFreshIn(slots, seen)
    ensures forall own: set<string> :: (forall x :: In(x, own) == In(x, seen) + OpenMet(x, slots, m)) ==>
              DigestsFresh(slots, Sort(Digests(slots) + decoys), own)
  {
    LayerFresh(Node(false, slots, decoys), seen);
    assert LayerDistinct(slots, decoys) by {
      forall x ensures LayerDigestsOf(x, slots) + Times(x, decoys) <= 1 {
        assert LayerDigestsOf(x, slots) + Times(x, decoys) + In(x, seen) <= 1;
      }
    }
    var sorted := Sort(Digests(slots) + decoys);
    forall x ensures OpenDigests(x, slots) + In(x, seen) <= 1
             ensures SumOf(DigestAll(slots, x), sorted) + In(x, seen) + OpenMet(x, slots, m) <= 1 {
      LayerSums(slots, decoys, m, x);
      assert LayerDigestsOf(x, slots) + Times(x, decoys) + In(x, seen) <= 1;
      OpenMetBound(x, slots, m);
    }
    forall own: set<string> | forall x :: In(x, own) == In(x, seen) + OpenMet(x, slots, m)
      ensures DigestsFresh(slots, sorted, own)
    {
      forall x ensures SumOf(DigestAll(slots, x), sorted) + In(x, own) <= 1 {
        assert SumOf(DigestAll(slots, x), sorted) + In(x, seen) + OpenMet(x, slots, m) <= 1;
      }
    }
  }

  lemma {:induction false} RecordUnpacks(slots: seq<Slot>, decoys: seq<string>, m: Disclosures, top: bool,
                                         seen: set<string>)
    requires SlotsReady(slots, false, m) && Fresh(Node(false, slots, decoys), seen) && forall i ::
               0 <= i < |decoys| ==> decoys[i] !in m
    ensures var t := Node(false, slots, decoys);
            Unpacks(t, m, seen, UnpackNode(Emit(t), m, top, seen))
    decreases slots, 2
  {
    var t := Node(false, slots, decoys);
    var ds := Digests(slots) + decoys;
    RecordFresh(slots, decoys, m, seen);
    MembersUnpack(slots, m, top, seen);
    MembersWithSd(EmitMembers(slots), Digests(slots), decoys, m, top, seen);
    SdIsValid(slots, decoys);
    LayerBlocked(slots, decoys, m);
    assert Blocked(t, m) == AnyBlocked(slots, false, m);
    var own := UnpackMembers(EmitMembers(slots), m, top, seen);
    if own.Ok? {
      LayerKnown(slots, decoys, m);
      DigestsUnpack(slots, Sort(ds), own.value.members, m, top, own.value.seen);
      forall i | 0 <= i < |slots| ensures SlotSound(slots[i], false, i) {}
      EmittedDigestList(slots, decoys);
      var claims := UnpackDigests(Sort(ds), own.value.members, m, top, own.value.seen);
      assert UnpackNode(Emit(t), m, top, seen) ==
             if claims.Err? then Err(claims.error)
                else Ok(Unpacked(Obj(own.value.members + claims.value.members), claims.value.seen));
      if claims.Ok? { RecordJoins(slots, decoys, m, seen, own.value, claims.value); }
    }
  }

  lemma RecordJoins(slots: seq<Slot>, decoys: seq<string>, m: Disclosures, seen: set<string>, own: UnpackedMembers,
                    claims: UnpackedMembers)
    requires NamedSlots(slots) && LayerDistinct(slots, decoys) && !OpenBlocked(slots, m)
    requires MembersUnpacked(slots, m, seen, Ok(own))
    requires var sorted := Sort(Digests(slots) + decoys);
             !DigestsBlock(slots, m, sorted) && DigestsUnpacked(slots, sorted, m, own.seen, Ok(claims))
    ensures var t := Node(false, slots, decoys);
            Unpacks(t, m, seen, Ok(Unpacked(Obj(own.members + claims.members), claims.seen)))
  {
    var t := Node(false, slots, decoys);
    LayerBlocked(slots, decoys, m);
    assert Blocked(t, m) == AnyBlocked(slots, false, m);
    RecordFields(slots, decoys, m, own.members, claims.members);
    forall x ensures In(x, claims.seen) == In(x, seen) + Met(x, t, m) {
      LayerSums(slots, decoys, m, x);
    }
  }

  lemma RecordFields(slots: seq<Slot>, decoys: seq<string>, m: Disclosures, own: seq<Member>, claims: seq<Member>)
    requires NamedSlots(slots) && LayerDistinct(slots, decoys)
    requires Fields(SemMembers(own), slots, m, OpenOnes())
    requires Fields(SemMembers(claims), slots, m, DisclosedOnes(m, Sort(Digests(slots) + decoys)))
    ensures Sem(Obj(own + claims)) == Sem(Prune(Node(false, slots, decoys), m))
  {
    SemOfConcat(own, claims);
    JoinFields(SemMembers(own), SemMembers(claims), slots, decoys, m);
    PrunedFields(slots, m);
    FieldsUnique(SemMembers(own + claims), SemMembers(PruneMembers(slots, m)), slots, m, KeptOnes(m));
  }

  /** Unpacking what `pack` emitted, for any choice of its disclosures and with none of its digests met before. */
  lemma {:induction false} TreeUnpacks(t: Tree, m: Disclosures, top: bool, seen: set<string>)
    requires Sound(t) && Agrees(t, m) && Fresh(t, seen)
    ensures Unpacks(t, m, seen, UnpackNode(Emit(t), m, top, seen))
    decreases t, 1
  {
    match t
    case Raw(v) => CleanUnpacks(v, m, top, seen);
    case Node(isArray, slots, decoys) =>
      forall i | 0 <= i < |slots| ensures SlotReady(slots[i], m) && SlotSound(slots[i], isArray, i) {
        assert SlotSound(slots[i], isArray, i) && SlotAgrees(slots[i], m);
      }
      if isArray { ArrayUnpacks(slots, decoys, m, top, seen); } else { RecordUnpacks(slots, decoys, m, top, seen); }
  }
}
