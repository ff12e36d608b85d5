/** `collectPresentClaims` itself: a recursive visit that pushes into one array. */
module Collector {
  import opened Basics
  import opened Json
  import opened Sorting
  import opened Packing
  import opened Embedding
  import opened Collecting
  import opened Presenting

  // ---------- when the visit ends ----------

  /** The visit of `node` follows at most `fuel` disclosures one inside the other, and so it ends. */
  ghost predicate Grounded(node: Json, m: Disclosures, fuel: nat)
    decreases fuel, 1, node, 1
  {
    match node
    case Arr(items) => forall i :: 0 <= i < |items| ==> GroundedItem(items[i], m, fuel)
    case Obj(members) =>
      && (forall i :: 0 <= i < |members| ==> GroundedMember(members[i], m, fuel))
      && GroundedDigests(DigestList(node), m, fuel)
    case _ => true
  }

  ghost predicate GroundedItem(item: Json, m: Disclosures, fuel: nat)
    decreases fuel, 1, item, 2
  {
    match PlaceholderDigest(item)
    case Some(d) => d in m ==> fuel > 0 && Grounded(m[d].value, m, fuel - 1)
    case None => Grounded(item, m, fuel)
  }

  ghost predicate GroundedMember(x: Member, m: Disclosures, fuel: nat)
    decreases fuel, 1, x, 1
  {
    x.key != SD_DIGEST ==> Grounded(x.value, m, fuel)
  }

  ghost predicate GroundedDigests(digests: seq<string>, m: Disclosures, fuel: nat)
    decreases fuel, 0
  {
    forall i :: 0 <= i < |digests| && digests[i] in m && m[digests[i]].key.Some? ==>
      fuel > 0 && Grounded(m[digests[i]].value, m, fuel - 1)
  }

  /** More fuel than needed changes nothing. */
  lemma {:induction false} GroundedCollectsAlike(node: Json, path: Path, m: Disclosures, fuel: nat, more: nat)
    requires Grounded(node, m, fuel) && fuel <= more
    ensures Grounded(node, m, more) && Collect(node, path, m, more) == Collect(node, path, m, fuel)
    decreases fuel, 1, node, 2
  {
    match node
    case Arr(items) => ItemsAlike(items, path, m, fuel, more);
    case Obj(members) => MembersAlike(members, path, m, fuel, more);
      DigestsAlike(DigestList(node), path, m, fuel, more);
    case _ =>
  }

  lemma {:induction false} FollowAlike(d: Disclosure, path: Path, m: Disclosures, fuel: nat, more: nat)
    requires 0 < fuel <= more && Grounded(d.value, m, fuel - 1)
    ensures Grounded(d.value, m, more - 1) && Follow(d, path, m, more) == Follow(d, path, m, fuel)
    decreases fuel, 0, 0
  {
    GroundedCollectsAlike(d.value, path, m, fuel - 1, more - 1);
  }

  lemma {:induction false} ItemAlike(item: Json, path: Path, m: Disclosures, fuel: nat, more: nat)
    requires fuel <= more && GroundedItem(item, m, fuel)
    ensures GroundedItem(item, m, more) && CollectItem(item, path, m, more) == CollectItem(item, path, m, fuel)
    decreases fuel, 1, item, 3
  {
    match PlaceholderDigest(item)
    case Some(d) => if d in m { FollowAlike(m[d], path, m, fuel, more); }
    case None => GroundedCollectsAlike(item, path, m, fuel, more);
  }

  lemma {:induction false} ItemsAlike(items: seq<Json>, path: Path, m: Disclosures, fuel: nat, more: nat)
    requires fuel <= more && forall i :: 0 <= i < |items| ==> GroundedItem(items[i], m, fuel)
    ensures forall i :: 0 <= i < |items| ==> GroundedItem(items[i], m, more)
    ensures CollectItems(items, path, m, more) == CollectItems(items, path, m, fuel)
    decreases fuel, 1, items, 1
  {
    if items != [] {
      var n := |items| - 1;
      ItemsAlike(items[..n], path, m, fuel, more);
      forall i | 0 <= i < n ensures GroundedItem(items[i], m, more) { assert items[i] == items[..n][i]; }
      ItemAlike(items[n], path + [Index(n)], m, fuel, more);
    }
  }

  lemma {:induction false} MembersAlike(members: seq<Member>, path: Path, m: Disclosures, fuel: nat, more: nat)
    requires fuel <= more && forall i :: 0 <= i < |members| ==> GroundedMember(members[i], m, fuel)
    ensures forall i :: 0 <= i < |members| ==> GroundedMember(members[i], m, more)
    ensures CollectMembers(members, path, m, more) == CollectMembers(members, path, m, fuel)
    decreases fuel, 1, members, 1
  {
    if members != [] {
      var n := |members| - 1;
      MembersAlike(members[..n], path, m, fuel, more);
      forall i | 0 <= i < n ensures GroundedMember(members[i], m, more) { assert members[i] == members[..n][i]; }
      MemberAlike(members[n], path, m, fuel, more);
    }
  }

  lemma {:induction false} MemberAlike(x: Member, path: Path, m: Disclosures, fuel: nat, more: nat)
    requires fuel <= more && GroundedMember(x, m, fuel)
    ensures GroundedMember(x, m, more) && CollectMember(x, path, m, more) == CollectMember(x, path, m, fuel)
    decreases fuel, 1, x, 1
  {
    if x.key != SD_DIGEST {
      GroundedCollectsAlike(x.value, path + [Key(x.key)], m, fuel, more);
    }
  }

  lemma {:induction false} DigestsAlike(digests: seq<string>, path: Path, m: Disclosures, fuel: nat, more: nat)
    requires fuel <= more && GroundedDigests(digests, m, fuel)
    ensures GroundedDigests(digests, m, more)
            && CollectDigests(digests, path, m, more) == CollectDigests(digests, path, m, fuel)
    decreases fuel, 0, |digests| + 1
  {
    if digests != [] {
      var n := |digests| - 1;
      var d := digests[n];
      DigestsAlike(digests[..n], path, m, fuel, more);
      if d in m && m[d].key.Some? {
        FollowAlike(m[d], path + [Key(m[d].key.value)], m, fuel, more);
      }
      forall i | 0 <= i < |digests| && digests[i] in m && m[digests[i]].key.Some?
        ensures more > 0 && Grounded(m[digests[i]].value, m, more - 1)
      {
        if i < n { assert digests[..n][i] == digests[i]; }
      }
    }
  }

  // ---------- payloads that `pack` made ----------

  lemma {:induction false} CleanIsGrounded(v: Json, m: Disclosures, fuel: nat)
    requires Clean(v)
    ensures Grounded(v, m, fuel) && PlaceholderDigest(v).None?
    decreases v, 1
  {
    match v
    case Arr(items) =>
      forall i | 0 <= i < |items| ensures GroundedItem(items[i], m, fuel) {
        assert Clean(Cells(v)[i].value);
        CleanIsGrounded(items[i], m, fuel);
      }
    case Obj(members) =>
      forall i | 0 <= i < |members| ensures GroundedMember(members[i], m, fuel) && !IsReserved(members[i].key) {
        assert Clean(Cells(v)[i].value);
        CleanMemberIsGrounded(members[i], m, fuel);
      }
      assert Child(v, Key(SD_DIGEST)).None?;
    case _ =>
  }

  lemma {:induction false} CleanMemberIsGrounded(x: Member, m: Disclosures, fuel: nat)
    requires Clean(x.value)
    ensures GroundedMember(x, m, fuel)
    decreases x, 0
  {
    CleanIsGrounded(x.value, m, fuel);
  }

  /** What is needed of the child of a slot, open or hidden. */
  ghost predicate SlotGrounded(s: Slot, m: Disclosures, fuel: nat) {
    if s.mark.Open? then Grounded(Emit(s.child), m, fuel)
    else s.mark.digest in m ==> fuel > 0 && Grounded(Emit(s.child), m, fuel - 1)
  }

  lemma {:induction false} ItemsGrounded(slots: seq<Slot>, m: Disclosures, fuel: nat)
    requires forall i :: 0 <= i < |slots| ==>
               SlotSound(slots[i], true, i) && SlotAgrees(slots[i], m) && SlotGrounded(slots[i], m, fuel)
    ensures forall i :: 0 <= i < |slots| ==> GroundedItem(EmitItems(slots)[i], m, fuel)
  {
    if slots != [] {
      var n := |slots| - 1;
      ItemsGrounded(slots[..n], m, fuel);
      ItemGrounded(slots[n], n, m, fuel);
      assert EmitItems(slots) == EmitItems(slots[..n]) + [EmittedItem(slots[n])];
    }
  }

  ghost function EmittedItem(s: Slot): Json {
    if s.mark.Hidden? then Placeholder(s.mark.digest) else Content(s)
  }

  lemma ItemGrounded(s: Slot, n: nat, m: Disclosures, fuel: nat)
    requires SlotSound(s, true, n) && SlotAgrees(s, m) && SlotGrounded(s, m, fuel)
    ensures GroundedItem(EmittedItem(s), m, fuel)
  {
    EmitIsNoPlaceholder(s.child);
  }

  lemma {:induction false} MembersGrounded(slots: seq<Slot>, m: Disclosures, fuel: nat)
    requires forall i :: 0 <= i < |slots| ==> SlotGrounded(slots[i], m, fuel)
    ensures forall i :: 0 <= i < |EmitMembers(slots)| ==> GroundedMember(EmitMembers(slots)[i], m, fuel)
  {
    if slots != [] {
      var n := |slots| - 1;
      MembersGrounded(slots[..n], m, fuel);
      assert Content(slots[n]) == Emit(slots[n].child);
    }
  }

  lemma {:induction false} DigestsGrounded(slots: seq<Slot>, m: Disclosures, fuel: nat, d: string)
    requires forall i :: 0 <= i < |slots| ==> SlotGrounded(slots[i], m, fuel) && SlotAgrees(slots[i], m)
    requires d in Digests(slots) && d in m
    ensures fuel > 0 && Grounded(m[d].value, m, fuel - 1)
  {
    var n := |slots| - 1;
    if d in Digests(slots[..n]) {
      DigestsGrounded(slots[..n], m, fuel, d);
    }
  }

  /** The visit of a packed payload ends, whatever is revealed. */
  lemma {:induction false} PackedIsGrounded(t: Tree, m: Disclosures, fuel: nat)
    requires Sound(t) && Agrees(t, m) && HiddenIn(t) <= fuel
    ensures Grounded(Emit(t), m, fuel)
    decreases t, 1
  {
    match t
    case Raw(v) => CleanIsGrounded(v, m, fuel);
    case Node(isArray, slots, decoys) =>
      forall i | 0 <= i < |slots| ensures SlotGrounded(slots[i], m, fuel) {
        HiddenBelow(slots, i);
        SlotIsGrounded(slots[i], m, fuel);
      }
      if isArray {
        ItemsGrounded(slots, m, fuel);
        ArrayGrounded(slots, decoys, m, fuel);
      } else {
        RecordGrounded(slots, decoys, m, fuel);
      }
  }

  lemma {:induction false} SlotIsGrounded(s: Slot, m: Disclosures, fuel: nat)
    requires Sound(s.child) && Agrees(s.child, m) && HiddenIn(s.child) + (if s.mark.Hidden? then 1 else 0) <= fuel
    ensures SlotGrounded(s, m, fuel)
    decreases s, 0
  {
    PackedIsGrounded(s.child, m, if s.mark.Hidden? then fuel - 1 else fuel);
  }

  lemma ArrayGrounded(slots: seq<Slot>, decoys: seq<string>, m: Disclosures, fuel: nat)
    requires forall i :: 0 <= i < |slots| ==> GroundedItem(EmitItems(slots)[i], m, fuel)
    requires forall i :: 0 <= i < |decoys| ==> decoys[i] !in m
    ensures Grounded(Emit(Node(true, slots, decoys)), m, fuel)
  {
    var items := EmitItems(slots) + Placeholders(decoys);
    forall i | 0 <= i < |items| ensures GroundedItem(items[i], m, fuel) {
      if i >= |slots| {
        assert PlaceholderDigest(items[i]) == Some(decoys[i - |slots|]);
      }
    }
  }

  lemma LayerDigestsGrounded(slots: seq<Slot>, decoys: seq<string>, m: Disclosures, fuel: nat)
    requires forall i :: 0 <= i < |slots| ==> SlotGrounded(slots[i], m, fuel) && SlotAgrees(slots[i], m)
    requires forall i :: 0 <= i < |decoys| ==> decoys[i] !in m
    ensures GroundedDigests(Sort(Digests(slots) + decoys), m, fuel)
  {
    var ds := Digests(slots) + decoys;
    var sorted := Sort(ds);
    SortSorts(ds);
    forall i | 0 <= i < |sorted| && sorted[i] in m ensures fuel > 0 && Grounded(m[sorted[i]].value, m, fuel - 1) {
      assert sorted[i] in multiset(ds);
      DigestsGrounded(slots, m, fuel, sorted[i]);
    }
  }

  lemma RecordGrounded(slots: seq<Slot>, decoys: seq<string>, m: Disclosures, fuel: nat)
    requires forall i :: 0 <= i < |slots| ==>
               SlotSound(slots[i], false, i) && SlotAgrees(slots[i], m) && SlotGrounded(slots[i], m, fuel)
    requires forall i :: 0 <= i < |decoys| ==> decoys[i] !in m
    ensures Grounded(Emit(Node(false, slots, decoys)), m, fuel)
  {
    MembersGrounded(slots, m, fuel);
    EmittedDigestList(slots, decoys);
    LayerDigestsGrounded(slots, decoys, m, fuel);
    var members := EmitMembers(slots) + SdMember(Digests(slots), decoys);
    assert Emit(Node(false, slots, decoys)) == Obj(members);
    forall i | 0 <= i < |members| ensures GroundedMember(members[i], m, fuel) {
      if i >= |EmitMembers(slots)| {
        assert members[i].key == SD_DIGEST;
      }
    }
  }

  // ---------- the visit ----------

  class ClaimCollector {
    var claims: seq<PresentClaim>

    constructor ()
      ensures claims == []
    {
      claims := [];
    }

    method Visit(node: Json, path: Path, m: Disclosures, ghost fuel: nat)
      requires Grounded(node, m, fuel)
      modifies this
      ensures claims == old(claims) + Collect(node, path, m, fuel)
      decreases fuel, 1, node, 2
    {
      match node
      case Arr(items) =>
        VisitArray(items, path, m, fuel);
      case Obj(members) =>
        VisitRecord(members, path, m, fuel);
        VisitDigests(DigestList(node), path, m, fuel);
        Associates(old(claims), CollectMembers(members, path, m, fuel),
                   CollectDigests(DigestList(node), path, m, fuel));
      case _ =>
    }

    method VisitArray(items: seq<Json>, path: Path, m: Disclosures, ghost fuel: nat)
      requires forall i :: 0 <= i < |items| ==> GroundedItem(items[i], m, fuel)
      modifies this
      ensures claims == old(claims) + CollectItems(items, path, m, fuel)
      decreases fuel, 1, items, 4
    {
      for index := 0 to |items|
        invariant claims == old(claims) + CollectItems(items[..index], path, m, fuel)
      {
        assert items[..index + 1][..index] == items[..index];
        VisitElement(items[index], path + [Index(index)], m, fuel);
      }
      assert items[..|items|] == items;
    }

    method VisitRecord(members: seq<Member>, path: Path, m: Disclosures, ghost fuel: nat)
      requires forall i :: 0 <= i < |members| ==> GroundedMember(members[i], m, fuel)
      modifies this
      ensures claims == old(claims) + CollectMembers(members, path, m, fuel)
      decreases fuel, 1, members, 4
    {
      for i := 0 to |members|
        invariant claims == old(claims) + CollectMembers(members[..i], path, m, fuel)
      {
        assert members[..i + 1][..i] == members[..i];
        VisitMember(members[i], path, m, fuel);
      }
      assert members[..|members|] == members;
    }

    method VisitElement(element: Json, here: Path, m: Disclosures, ghost fuel: nat)
      requires GroundedItem(element, m, fuel)
      modifies this
      ensures claims == old(claims) + CollectItem(element, here, m, fuel)
      decreases fuel, 1, element, 3
    {
      match PlaceholderDigest(element)
      case Some(digest) =>
        if digest in m {
          claims := claims + [PresentClaim(here, true)];
          Visit(m[digest].value, here, m, fuel - 1);
        }
      case None =>
        claims := claims + [PresentClaim(here, false)];
        Visit(element, here, m, fuel);
    }

    method VisitMember(x: Member, path: Path, m: Disclosures, ghost fuel: nat)
      requires GroundedMember(x, m, fuel)
      modifies this
      ensures claims == old(claims) + CollectMember(x, path, m, fuel)
      decreases fuel, 1, x, 1
    {
      if !Skipped(x.key, path) {
        claims := claims + [PresentClaim(path + [Key(x.key)], false)];
        Visit(x.value, path + [Key(x.key)], m, fuel);
      }
    }

    method VisitDigests(digests: seq<string>, path: Path, m: Disclosures, ghost fuel: nat)
      requires GroundedDigests(digests, m, fuel)
      modifies this
      ensures claims == old(claims) + CollectDigests(digests, path, m, fuel)
      decreases fuel, 0, 1
    {
      for i := 0 to |digests|
        invariant claims == old(claims) + CollectDigests(digests[..i], path, m, fuel)
      {
        assert digests[..i + 1][..i] == digests[..i];
        VisitDigest(digests[i], path, m, fuel);
      }
      assert digests[..|digests|] == digests;
    }

    method VisitDigest(digest: string, path: Path, m: Disclosures, ghost fuel: nat)
      requires digest in m && m[digest].key.Some? ==> fuel > 0 && Grounded(m[digest].value, m, fuel - 1)
      modifies this
      ensures claims == old(claims) + CollectDigest(digest, path, m, fuel)
      decreases fuel, 0, 0
    {
      if digest in m && m[digest].key.Some? {
        var here := path + [Key(m[digest].key.value)];
        claims := claims + [PresentClaim(here, true)];
        Visit(m[digest].value, here, m, fuel - 1);
      }
    }
  }

  method CollectPresentClaims(payload: Json, disclosures: Disclosures, ghost fuel: nat)
    returns (claims: seq<PresentClaim>)
    requires Grounded(payload, disclosures, fuel)
    ensures claims == Collect(payload, [], disclosures, fuel)
  {
    var collector := new ClaimCollector();
    collector.Visit(payload, [], disclosures, fuel);
    claims := collector.claims;
  }
}
