/**
 * `childEntries` on the payloads that `pack` makes: the revealed slots that fit a segment, and whether any is
 * concealed.
 */
module PackedEntries {
  import opened Basics
  import opened Json
  import opened Sorting
  import opened Packing
  import opened Embedding
  import opened Collecting
  import opened Presenting
  import opened Mandatory

  // ---------- childEntries on a packed layer ----------

  /** The value of a revealed slot with this name, if there is one. */
  ghost function ShownValue(slots: seq<Slot>, name: string, m: Disclosures): seq<Json> {
    match SlotAt(slots, Key(name))
    case None => []
    case Some(s) => if Revealed(s, m) then [Emit(s.child)] else []
  }

  /** The slots of an object: different names, none of them reserved. */
  ghost predicate NamedSlots(slots: seq<Slot>) {
    && (forall i :: 0 <= i < |slots| ==> slots[i].seg.Key? && !IsReserved(slots[i].seg.name))
    && (forall i, j :: 0 <= i < j < |slots| ==> slots[i].seg != slots[j].seg)
  }

  ghost predicate OwnAgree(slots: seq<Slot>, m: Disclosures) {
    forall i :: 0 <= i < |slots| && slots[i].mark.Hidden? && slots[i].mark.digest in m ==>
      m[slots[i].mark.digest] == Wire(SlotDisclosure(slots[i]))
  }

  lemma {:induction false} OwnOfLayer(slots: seq<Slot>, name: string)
    requires NamedSlots(slots)
    ensures var s := SlotAt(slots, Key(name));
            Child(Obj(EmitMembers(slots)), Key(name)) ==
              if s.Some? && s.value.mark.Open? then Some(Emit(s.value.child)) else None
  {
    if slots == [] {
      assert Cells(Obj(EmitMembers(slots))) == [];
    } else {
      var n := |slots| - 1;
      var s := slots[n];
      OwnOfLayer(slots[..n], name);
      LastNamed(slots, name);
      if s.mark.Open? {
        assert EmitMembers(slots) == EmitMembers(slots[..n]) + [Member(s.seg.name, Content(s))];
        ChildOfAppend(EmitMembers(slots[..n]), Member(s.seg.name, Content(s)), name);
      } else {
        assert EmitMembers(slots) == EmitMembers(slots[..n]);
      }
    }
  }

  /** If the last slot has the name, no earlier one has. */
  lemma LastNamed(slots: seq<Slot>, name: string)
    requires slots != [] && NamedSlots(slots)
    ensures var n := |slots| - 1;
            if slots[n].seg == Key(name) then SlotAt(slots, Key(name)) == Some(slots[n])
               && SlotAt(slots[..n], Key(name)).None?
            else SlotAt(slots, Key(name)) == SlotAt(slots[..n], Key(name))
  {
  }

  ghost function NamedOne(d: string, name: string, m: Disclosures): seq<Json> {
    if d in m && m[d].key == Some(name) then [m[d].value] else []
  }

  ghost function NamedStrings(digests: seq<string>, name: string, m: Disclosures): seq<Json> {
    if digests == [] then []
    else NamedStrings(digests[..|digests| - 1], name, m) + NamedOne(digests[|digests| - 1], name, m)
  }

  lemma {:induction false} NamedOfStrings(digests: seq<string>, name: string, m: Disclosures)
    ensures Named(Strings(digests), name, m) == NamedStrings(digests, name, m)
  {
    if digests != [] {
      var n := |digests| - 1;
      assert Strings(digests)[..n] == Strings(digests[..n]);
      NamedOfStrings(digests[..n], name, m);
    }
  }

  lemma {:induction false} NamedOfInsert(x: string, s: seq<string>, name: string, m: Disclosures)
    ensures multiset(NamedStrings(Insert(x, s), name, m))
              == multiset(NamedStrings(s, name, m)) + multiset(NamedOne(x, name, m))
  {
    var r := Insert(x, s);
    if s == [] {
      assert r[..0] == [];
    } else if Leq(s[|s| - 1], x) {
      assert r[..|r| - 1] == s;
    } else {
      assert r[..|r| - 1] == Insert(x, s[..|s| - 1]);
      NamedOfInsert(x, s[..|s| - 1], name, m);
    }
  }

  lemma {:induction false} NamedOfSort(s: seq<string>, name: string, m: Disclosures)
    ensures multiset(NamedStrings(Sort(s), name, m)) == multiset(NamedStrings(s, name, m))
  {
    if s != [] {
      var n := |s| - 1;
      NamedOfSort(s[..n], name, m);
      NamedOfInsert(s[n], Sort(s[..n]), name, m);
    }
  }

  lemma {:induction false} DecoysUnnamed(digests: seq<string>, decoys: seq<string>, name: string, m: Disclosures)
    requires forall i :: 0 <= i < |decoys| ==> decoys[i] !in m
    ensures NamedStrings(digests + decoys, name, m) == NamedStrings(digests, name, m)
  {
    if decoys == [] {
      assert digests + decoys == digests;
    } else {
      var n := |decoys| - 1;
      var all := digests + decoys;
      DecoysUnnamed(digests, decoys[..n], name, m);
      assert all[..|all| - 1] == digests + decoys[..n];
    }
  }

  lemma {:induction false} NamedOfLayer(slots: seq<Slot>, name: string, m: Disclosures)
    requires NamedSlots(slots) && OwnAgree(slots, m)
    ensures var s := SlotAt(slots, Key(name));
            NamedStrings(Digests(slots), name, m) == if s.Some? && s.value.mark.Hidden? then ShownValue(slots, name, m)
            else []
  {
    if slots != [] {
      var n := |slots| - 1;
      NamedOfLayer(slots[..n], name, m);
      LastNamed(slots, name);
      LastSlotNamed(slots, name, m);
    }
  }

  lemma LastSlotNamed(slots: seq<Slot>, name: string, m: Disclosures)
    requires slots != [] && NamedSlots(slots) && OwnAgree(slots, m)
    ensures var s := slots[|slots| - 1];
            NamedStrings(Digests(slots), name, m) == NamedStrings(Digests(slots[..|slots| - 1]), name, m) +
              if s.mark.Hidden? && s.seg == Key(name) && Revealed(s, m) then [Emit(s.child)] else []
  {
    var n := |slots| - 1;
    var s := slots[n];
    var ds := Digests(slots);
    if s.mark.Hidden? {
      assert ds[..|ds| - 1] == Digests(slots[..n]) && ds[|ds| - 1] == s.mark.digest;
      assert NamedOne(s.mark.digest, name, m) == if s.seg == Key(name) && Revealed(s, m) then [Emit(s.child)] else [];
    } else {
      assert ds == Digests(slots[..n]);
    }
  }

  lemma SmallPermutation(a: seq<Json>, b: seq<Json>)
    requires multiset(a) == multiset(b) && |b| <= 1
    ensures a == b
  {
    assert |multiset(a)| == |a| && |multiset(b)| == |b|;
    if |b| == 1 {
      assert b[0] in multiset(a);
    }
  }

  /** The children that the walk finds under a name are the one revealed slot of that name, or nothing. */
  lemma EntriesOfLayer(t: Tree, name: string, m: Disclosures)
    requires t.Node? && Sound(t) && Agrees(t, m)
    ensures ChildEntries(Emit(t), Some(name), m).present == if t.isArray then [] else ShownValue(t.slots, name, m)
  {
    if !t.isArray {
      var slots := t.slots;
      forall i | 0 <= i < |slots| ensures SlotSound(slots[i], false, i) && SlotAgrees(slots[i], m) {}
      SdItemsOfLayer(slots, t.decoys);
      NamedInSd(slots, t.decoys, name, m);
      EntriesOfMembers(slots, t.decoys, name);
    }
  }

  lemma SdItemsOfLayer(slots: seq<Slot>, decoys: seq<string>)
    requires forall i :: 0 <= i < |slots| ==> SlotSound(slots[i], false, i)
    ensures SdItems(Emit(Node(false, slots, decoys))) == Strings(Sort(Digests(slots) + decoys))
  {
    EmittedSd(slots, decoys);
  }

  lemma NamedInSd(slots: seq<Slot>, decoys: seq<string>, name: string, m: Disclosures)
    requires NamedSlots(slots) && OwnAgree(slots, m)
    requires forall i :: 0 <= i < |decoys| ==> decoys[i] !in m
    ensures var s := SlotAt(slots, Key(name));
            Named(Strings(Sort(Digests(slots) + decoys)), name, m)
            == if s.Some? && s.value.mark.Hidden? then ShownValue(slots, name, m) else []
  {
    var ds := Digests(slots) + decoys;
    NamedOfLayer(slots, name, m);
    DecoysUnnamed(Digests(slots), decoys, name, m);
    NamedOfSort(ds, name, m);
    SmallPermutation(NamedStrings(Sort(ds), name, m), NamedStrings(ds, name, m));
    NamedOfStrings(Sort(ds), name, m);
  }

  lemma EntriesOfMembers(slots: seq<Slot>, decoys: seq<string>, name: string)
    requires NamedSlots(slots)
    ensures var s := SlotAt(slots, Key(name));
            Own(Obj(EmitMembers(slots) + SdMember(Digests(slots), decoys)), name)
            == if s.Some? && s.value.mark.Open? then [Emit(s.value.child)] else []
  {
    if name == SD_DIGEST {
      forall i | 0 <= i < |slots| ensures slots[i].seg != Key(name) {}
    } else {
      OwnOfLayer(slots, name);
      OwnBesideSd(EmitMembers(slots), Digests(slots), decoys, name);
    }
  }

  lemma OwnBesideSd(members: seq<Member>, digests: seq<string>, decoys: seq<string>, name: string)
    requires name != SD_DIGEST
    ensures Child(Obj(members + SdMember(digests, decoys)), Key(name)) == Child(Obj(members), Key(name))
  {
    if SdMember(digests, decoys) == [] {
      assert members + SdMember(digests, decoys) == members;
    } else {
      ChildOfAppend(members, Member(SD_DIGEST, Arr(Strings(Sort(digests + decoys)))), name);
    }
  }

  /** The children found under a name, for any tree. */
  lemma EntriesOfTree(t: Tree, name: string, m: Disclosures)
    requires Sound(t) && Agrees(t, m)
    ensures ChildEntries(Emit(t), Some(name), m).present == ShownValue(Slots(t), name, m)
    ensures var s := SlotAt(Slots(t), Key(name));
            s.Some? ==> Sound(s.value.child) && Agrees(s.value.child, m)
  {
    var u := if t.Raw? && (t.value.Arr? || t.value.Obj?) then Expand(t.value) else t;
    if u.Node? {
      if t.Raw? { ExpandIsLayer(t.value, m); }
      EntriesOfLayer(u, name, m);
      forall i | 0 <= i < |u.slots| ensures SlotSound(u.slots[i], u.isArray, i) && SlotAgrees(u.slots[i], m) {}
    }
  }

  // ---------- the elements of a packed array ----------

  ghost predicate Fits(segment: Option<string>, seg: Seg) {
    match segment case None => seg.Index? case Some(name) => seg == Key(name)
  }

  ghost predicate IsArray(t: Tree) {
    match t case Raw(v) => v.Arr? case Node(isArray, _, _) => isArray
  }

  ghost predicate HasUnrevealed(slots: seq<Slot>, m: Disclosures) {
    exists i :: 0 <= i < |slots| && slots[i].mark.Hidden? && slots[i].mark.digest !in m
  }

  /** The layer embeds a digest without a revealed disclosure: that of a slot, or a decoy. */
  ghost predicate Concealing(t: Tree, m: Disclosures) {
    t.Node? && (t.decoys != [] || HasUnrevealed(t.slots, m))
  }

  ghost function RevealedValues(slots: seq<Slot>, m: Disclosures): seq<Json> {
    if slots == [] then []
    else RevealedValues(slots[..|slots| - 1], m) + if Revealed(slots[|slots| - 1], m)
         then [Emit(slots[|slots| - 1].child)] else []
  }

  lemma ElementOfSlot(s: Slot, n: nat, m: Disclosures)
    requires OwnAgree([s], m) && SlotSound(s, true, n)
    ensures var item := if s.mark.Hidden? then Placeholder(s.mark.digest) else Content(s);
            PlaceholderDigest(item) == (if s.mark.Hidden? then Some(s.mark.digest) else None)
    ensures s.mark.Hidden? && s.mark.digest in m ==> m[s.mark.digest].value == Emit(s.child)
  {
    EmitIsNoPlaceholder(s.child);
    assert [s][0] == s;
  }

  lemma {:induction false} ElementsOfSlots(slots: seq<Slot>, m: Disclosures)
    requires OwnAgree(slots, m) && forall i :: 0 <= i < |slots| ==> SlotSound(slots[i], true, i)
    ensures Elements(EmitItems(slots), m) == RevealedValues(slots, m)
    ensures HidesElement(EmitItems(slots), m) <==> HasUnrevealed(slots, m)
  {
    if slots != [] {
      var n := |slots| - 1;
      ElementsOfSlots(slots[..n], m);
      assert EmitItems(slots)[..n] == EmitItems(slots[..n]);
      ElementOfSlot(slots[n], n, m);
      HidesOneMore(EmitItems(slots), m);
      UnrevealedOneMore(slots, m);
    }
  }

  lemma HidesOneMore(items: seq<Json>, m: Disclosures)
    requires items != []
    ensures var last := PlaceholderDigest(items[|items| - 1]);
            HidesElement(items, m) <==> HidesElement(items[..|items| - 1], m) || (last.Some? && last.value !in m)
  {
    var n := |items| - 1;
    if HidesElement(items[..n], m) {
      var i :| 0 <= i < n && PlaceholderDigest(items[..n][i]).Some? && PlaceholderDigest(items[..n][i]).value !in m;
      assert items[i] == items[..n][i];
    }
    if HidesElement(items, m) {
      var i :| 0 <= i <= n && PlaceholderDigest(items[i]).Some? && PlaceholderDigest(items[i]).value !in m;
      assert i < n ==> items[i] == items[..n][i];
    }
  }

  lemma UnrevealedOneMore(slots: seq<Slot>, m: Disclosures)
    requires slots != []
    ensures var last := slots[|slots| - 1];
            HasUnrevealed(slots, m) <==>
                HasUnrevealed(slots[..|slots| - 1], m) || (last.mark.Hidden? && last.mark.digest !in m)
  {
    var n := |slots| - 1;
    if HasUnrevealed(slots[..n], m) {
      var i :| 0 <= i < n && slots[..n][i].mark.Hidden? && slots[..n][i].mark.digest !in m;
      assert slots[i] == slots[..n][i];
    }
    if HasUnrevealed(slots, m) {
      var i :| 0 <= i <= n && slots[i].mark.Hidden? && slots[i].mark.digest !in m;
      assert i < n ==> slots[i] == slots[..n][i];
    }
  }

  lemma {:induction false} DecoyElements(items: seq<Json>, decoys: seq<string>, m: Disclosures)
    requires forall i :: 0 <= i < |decoys| ==> decoys[i] !in m
    ensures Elements(items + Placeholders(decoys), m) == Elements(items, m)
    ensures HidesElement(items + Placeholders(decoys), m) <==> HidesElement(items, m) || decoys != []
  {
    var all := items + Placeholders(decoys);
    if decoys == [] {
      assert all == items;
    } else {
      var n := |decoys| - 1;
      DecoyElements(items, decoys[..n], m);
      assert all[..|all| - 1] == items + Placeholders(decoys[..n]);
      assert PlaceholderDigest(all[|all| - 1]) == Some(decoys[n]);
      HidesOneMore(all, m);
    }
  }

  lemma {:induction false} RevealedIsValue(slots: seq<Slot>, m: Disclosures, i: nat)
    requires i < |slots| && Revealed(slots[i], m)
    ensures Emit(slots[i].child) in RevealedValues(slots, m)
  {
    if i < |slots| - 1 {
      RevealedIsValue(slots[..|slots| - 1], m, i);
    }
  }

  lemma {:induction false} ValueIsRevealed(slots: seq<Slot>, m: Disclosures, v: Json) returns (i: nat)
    requires v in RevealedValues(slots, m)
    ensures i < |slots| && Revealed(slots[i], m) && v == Emit(slots[i].child)
  {
    var n := |slots| - 1;
    if v in RevealedValues(slots[..n], m) {
      i := ValueIsRevealed(slots[..n], m, v);
    } else {
      i := n;
    }
  }

  // ---------- what is concealed in a packed object ----------

  lemma {:induction false} DigestsHave(slots: seq<Slot>, m: Disclosures)
    ensures (exists d :: d in Digests(slots) && d !in m) <==> HasUnrevealed(slots, m)
  {
    if slots != [] {
      var n := |slots| - 1;
      DigestsHave(slots[..n], m);
      UnrevealedOneMore(slots, m);
      assert slots[n].mark.Hidden? ==> Digests(slots) == Digests(slots[..n]) + [slots[n].mark.digest];
      assert slots[n].mark.Open? ==> Digests(slots) == Digests(slots[..n]);
    }
  }

  lemma HidesString(digests: seq<string>, m: Disclosures)
    ensures HidesMember(Strings(digests), m) <==> exists d :: d in digests && d !in m
  {
    if HidesMember(Strings(digests), m) {
      var i :| 0 <= i < |digests| && !(Strings(digests)[i].Str? && Strings(digests)[i].s in m);
      assert digests[i] in digests;
    }
    if d :| d in digests && d !in m {
      var i :| 0 <= i < |digests| && digests[i] == d;
      assert Strings(digests)[i] == Str(d);
    }
  }

  lemma SortKeepsAll(s: seq<string>)
    ensures forall d :: d in Sort(s) <==> d in s
  {
    SortSorts(s);
    forall d ensures d in Sort(s) <==> d in s {
      assert d in multiset(Sort(s)) <==> d in multiset(s);
    }
  }

  lemma HiddenInObject(slots: seq<Slot>, decoys: seq<string>, m: Disclosures)
    requires forall i :: 0 <= i < |slots| ==> SlotSound(slots[i], false, i)
    requires forall i :: 0 <= i < |decoys| ==> decoys[i] !in m
    ensures HidesMember(SdItems(Emit(Node(false, slots, decoys))), m) <==> HasUnrevealed(slots, m) || decoys != []
  {
    var ds := Digests(slots) + decoys;
    SdItemsOfLayer(slots, decoys);
    HidesString(Sort(ds), m);
    SortKeepsAll(ds);
    DigestsHave(slots, m);
    if decoys != [] {
      assert decoys[0] in ds;
    }
  }

  // ---------- childEntries on any packed value ----------

  /** For a layer: a segment finds the values of the revealed slots that fit it. */
  ghost predicate FindsRevealed(e: Entries, slots: seq<Slot>, segment: Option<string>, m: Disclosures) {
    && (forall i :: 0 <= i < |slots| && Fits(segment, slots[i].seg) && Revealed(slots[i], m) ==>
          Emit(slots[i].child) in e.present)
    && (forall v :: v in e.present ==>
          exists i ::
              0 <= i < |slots| && Fits(segment, slots[i].seg) && Revealed(slots[i], m) && v == Emit(slots[i].child))
  }

  lemma ElementsOfLayer(t: Tree, m: Disclosures)
    requires t.Node? && t.isArray && Sound(t) && Agrees(t, m)
    ensures var e := ChildEntries(Emit(t), None, m);
            FindsRevealed(e, t.slots, None, m) && (e.hidden <==> Concealing(t, m))
  {
    forall i | 0 <= i < |t.slots| ensures SlotSound(t.slots[i], true, i) && SlotAgrees(t.slots[i], m) {}
    ElementsOfSlots(t.slots, m);
    DecoyElements(EmitItems(t.slots), t.decoys, m);
    var e := ChildEntries(Emit(t), None, m);
    assert e.present == RevealedValues(t.slots, m);
    forall i | 0 <= i < |t.slots| && Revealed(t.slots[i], m) ensures Emit(t.slots[i].child) in e.present {
      RevealedIsValue(t.slots, m, i);
    }
    forall v | v in e.present
      ensures exists i ::
                0 <= i < |t.slots| && Fits(None, t.slots[i].seg) && Revealed(t.slots[i], m)
                && v == Emit(t.slots[i].child)
    {
      var i := ValueIsRevealed(t.slots, m, v);
      assert SlotSound(t.slots[i], true, i);
    }
  }

  lemma ShownFinds(e: Entries, slots: seq<Slot>, name: string, m: Disclosures)
    requires forall i, j :: 0 <= i < j < |slots| ==> slots[i].seg != slots[j].seg
    requires e.present == ShownValue(slots, name, m)
    ensures FindsRevealed(e, slots, Some(name), m)
  {
    var s := SlotAt(slots, Key(name));
    forall i | 0 <= i < |slots| && slots[i].seg == Key(name) ensures s == Some(slots[i]) {}
  }

  lemma NamedOfObject(t: Tree, name: string, m: Disclosures)
    requires t.Node? && !t.isArray && Sound(t) && Agrees(t, m)
    ensures var e := ChildEntries(Emit(t), Some(name), m);
            FindsRevealed(e, t.slots, Some(name), m) && (e.hidden <==> Concealing(t, m))
  {
    EntriesOfLayer(t, name, m);
    ShownFinds(ChildEntries(Emit(t), Some(name), m), t.slots, name, m);
    assert t == Node(false, t.slots, t.decoys);
    HiddenInObject(t.slots, t.decoys, m);
  }

  /** What the reader is told of a tree with these slots. */
  ghost predicate Reads(t: Tree, slots: seq<Slot>, segment: Option<string>, m: Disclosures) {
    var e := ChildEntries(Emit(t), segment, m);
    && FindsRevealed(e, slots, segment, m)
    && (e.hidden <==> Concealing(t, m) && (IsArray(t) <==> segment.None?))
    && (Emit(t).Arr? <==> IsArray(t))
  }

  /**
   * The reader finds the revealed slots that fit the segment, and is told of hidden ones exactly where the layer
   * conceals any.
   */
  lemma EntriesOfSegment(t: Tree, segment: Option<string>, m: Disclosures)
    requires Sound(t) && Agrees(t, m)
    ensures Reads(t, Slots(t), segment, m)
  {
    if t.Node? {
      LayerOfSegment(t, segment, m);
    } else if t.value.Arr? || t.value.Obj? {
      ExpandIsLayer(t.value, m);
      LayerOfSegment(Expand(t.value), segment, m);
      NothingUnrevealed(Slots(t), m);
    }
  }

  lemma NothingUnrevealed(slots: seq<Slot>, m: Disclosures)
    requires forall i :: 0 <= i < |slots| ==> slots[i].mark.Open?
    ensures !HasUnrevealed(slots, m)
  {
  }

  lemma LayerOfSegment(t: Tree, segment: Option<string>, m: Disclosures)
    requires t.Node? && Sound(t) && Agrees(t, m)
    ensures Reads(t, t.slots, segment, m)
  {
    match segment
    case None =>
      if t.isArray {
        ElementsOfLayer(t, m);
      } else {
        forall i | 0 <= i < |t.slots| ensures t.slots[i].seg.Key? { assert SlotSound(t.slots[i], false, i); }
      }
    case Some(name) =>
      if t.isArray {
        forall i | 0 <= i < |t.slots| ensures t.slots[i].seg.Index? { assert SlotSound(t.slots[i], true, i); }
      } else {
        NamedOfObject(t, name, m);
      }
  }

  lemma SlotsBelow(t: Tree, m: Disclosures)
    requires Sound(t) && Agrees(t, m)
    ensures forall i :: 0 <= i < |Slots(t)| ==> Sound(Slots(t)[i].child) && Agrees(Slots(t)[i].child, m)
    ensures forall i, j :: 0 <= i < j < |Slots(t)| ==> Slots(t)[i].seg != Slots(t)[j].seg
  {
    if t.Node? {
      forall i | 0 <= i < |t.slots| ensures SlotSound(t.slots[i], t.isArray, i) && SlotAgrees(t.slots[i], m) {}
    }
  }
}
