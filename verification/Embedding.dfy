/** How the readers recognise digests in a payload, and what they find in one that `pack` made. */
module Embedding {
  import opened Basics
  import opened Json
  import opened Sorting
  import opened Packing
  import opened PackLedger

  /** An array element is a digest if it is an object whose only member is a string named `...`. */
  function PlaceholderDigest(j: Json): Option<string> {
    if j.Obj? && |j.members| == 1 && j.members[0].key == SD_LIST_KEY && j.members[0].value.Str?
    then Some(j.members[0].value.s)
    else None
  }

  function StringsOf(items: seq<Json>): seq<string> {
    if items == [] then []
    else
      var last := items[|items| - 1];
      StringsOf(items[..|items| - 1]) + (if last.Str? then [last.s] else [])
  }

  /** The strings of the `_sd` array of an object. */
  function DigestList(j: Json): seq<string> {
    match Child(j, Key(SD_DIGEST))
    case Some(Arr(items)) => StringsOf(items)
    case _ => []
  }

  lemma {:induction false} StringsOfStrings(s: seq<string>)
    ensures StringsOf(Strings(s)) == s
  {
    if s != [] {
      var n := |s| - 1;
      assert Strings(s)[..n] == Strings(s[..n]);
      StringsOfStrings(s[..n]);
    }
  }

  // ---------- trees over claims without reserved names ----------

  ghost predicate Sound(t: Tree)
    decreases t, 1
  {
    match t
    case Raw(v) => Clean(v) && Proper(v)
    case Node(isArray, slots, _) =>
      && (forall i, j :: 0 <= i < j < |slots| ==> slots[i].seg != slots[j].seg)
      && forall i :: 0 <= i < |slots| ==> SlotSound(slots[i], isArray, i)
  }

  ghost predicate SlotSound(s: Slot, isArray: bool, i: nat)
    decreases s, 0
  {
    && (if isArray then s.seg == Index(i) else s.seg.Key? && !IsReserved(s.seg.name))
    && Sound(s.child)
  }

  lemma {:induction false} LayoutSound(t: Tree, j: Json, frame: Option<Frame>)
    requires Layout(t, j, frame) && Clean(j) && Proper(j)
    ensures Sound(t)
    decreases t, 1
  {
    if frame.Some? {
      forall i, k | 0 <= i < k < |t.slots| ensures t.slots[i].seg != t.slots[k].seg {
        assert SlotLayout(t.slots[i], Cells(j)[i], frame.value) && SlotLayout(t.slots[k], Cells(j)[k], frame.value);
      }
      forall i | 0 <= i < |t.slots| ensures SlotSound(t.slots[i], t.isArray, i) {
        SlotLayoutSound(t.slots[i], j, i, frame.value);
      }
    }
  }

  lemma {:induction false} SlotLayoutSound(s: Slot, j: Json, i: nat, f: Frame)
    requires i < |Cells(j)| && SlotLayout(s, Cells(j)[i], f) && Clean(j) && Proper(j)
    ensures SlotSound(s, j.Arr?, i)
    decreases s, 0
  {
    LayoutSound(s.child, Cells(j)[i].value, SubFrameAt(f.children, s.seg));
  }

  // ---------- what the emitted payload shows ----------

  lemma {:induction false} EmittedMembers(slots: seq<Slot>)
    requires forall i :: 0 <= i < |slots| ==> SlotSound(slots[i], false, i)
    ensures forall i :: 0 <= i < |EmitMembers(slots)| ==> !IsReserved(EmitMembers(slots)[i].key)
  {
    if slots != [] {
      EmittedMembers(slots[..|slots| - 1]);
    }
  }

  /** Nothing that was not hidden looks like a hidden array element. */
  lemma EmitIsNoPlaceholder(t: Tree)
    requires Sound(t)
    ensures PlaceholderDigest(Emit(t)).None?
  {
    match t
    case Raw(v) => assert v.Obj? && |v.members| == 1 ==> Cells(v)[0].seg == Key(v.members[0].key);
    case Node(isArray, slots, _) => if !isArray { EmittedMembers(slots); }
  }

  lemma NoSuchMember(members: seq<Member>, name: string)
    requires forall i :: 0 <= i < |members| ==> members[i].key != name
    ensures Child(Obj(members), Key(name)).None?
  {
  }

  lemma CellsOfAppend(members: seq<Member>, x: Member)
    ensures Cells(Obj(members + [x])) == Cells(Obj(members)) + [Cell(Key(x.key), x.value)]
  {
  }

  lemma ChildOfAppend(members: seq<Member>, x: Member, name: string)
    ensures Child(Obj(members + [x]), Key(name)) == if x.key == name then Some(x.value)
            else Child(Obj(members), Key(name))
  {
    CellsOfAppend(members, x);
    var cells := Cells(Obj(members + [x]));
    assert cells[..|cells| - 1] == Cells(Obj(members));
  }

  /** The `_sd` member holds the sorted digests of the layer; there is none without digests. */
  lemma EmittedSd(slots: seq<Slot>, decoys: seq<string>)
    requires forall i :: 0 <= i < |slots| ==> SlotSound(slots[i], false, i)
    ensures var ds := Digests(slots) + decoys;
            Child(Emit(Node(false, slots, decoys)), Key(SD_DIGEST)) == if ds == [] then None
            else Some(Arr(Strings(Sort(ds))))
  {
    EmittedMembers(slots);
    SdBeside(EmitMembers(slots), Digests(slots), decoys);
  }

  lemma SdBeside(members: seq<Member>, digests: seq<string>, decoys: seq<string>)
    requires forall i :: 0 <= i < |members| ==> members[i].key != SD_DIGEST
    ensures Child(Obj(members + SdMember(digests, decoys)), Key(SD_DIGEST)) ==
            if digests + decoys == [] then None else Some(Arr(Strings(Sort(digests + decoys))))
  {
    if digests == [] && decoys == [] {
      assert members + SdMember(digests, decoys) == members;
      NoSuchMember(members, SD_DIGEST);
    } else {
      ChildOfAppend(members, Member(SD_DIGEST, Arr(Strings(Sort(digests + decoys)))), SD_DIGEST);
    }
  }

  /** The reader finds the sorted digests of the layer. */
  lemma EmittedDigestList(slots: seq<Slot>, decoys: seq<string>)
    requires forall i :: 0 <= i < |slots| ==> SlotSound(slots[i], false, i)
    ensures DigestList(Emit(Node(false, slots, decoys))) == Sort(Digests(slots) + decoys)
  {
    EmittedSd(slots, decoys);
    StringsOfStrings(Sort(Digests(slots) + decoys));
  }
}
