/**
 * `unpackObjInternal` and `unpackArray` as they run, adding to one set of seen digests and throwing at the first error.
 */
module Unpacker {
  import opened Basics
  import opened Json
  import opened Embedding
  import opened Collecting
  import opened Unpacking

  /** A failure at some element is the failure of the whole list. */
  lemma {:induction false} ItemsFailEarly(items: seq<Json>, k: nat, m: Disclosures, seen: set<string>, e: UnpackError)
    requires k <= |items| && UnpackItems(items[..k], m, seen) == Err(e)
    ensures UnpackItems(items, m, seen) == Err(e)
  {
    if k == |items| {
      assert items[..k] == items;
    } else {
      var front := items[..|items| - 1];
      assert front[..k] == items[..k];
      ItemsFailEarly(front, k, m, seen, e);
    }
  }

  lemma {:induction false} MembersFailEarly(members: seq<Member>, k: nat, m: Disclosures, top: bool, seen: set<string>,
                                            e: UnpackError)
    requires k <= |members| && UnpackMembers(members[..k], m, top, seen) == Err(e)
    ensures UnpackMembers(members, m, top, seen) == Err(e)
  {
    if k == |members| {
      assert members[..k] == members;
    } else {
      var front := members[..|members| - 1];
      assert front[..k] == members[..k];
      MembersFailEarly(front, k, m, top, seen, e);
    }
  }

  lemma {:induction false} DigestsFailEarly(digests: seq<string>, k: nat, payload: seq<Member>, m: Disclosures,
                                            top: bool, seen: set<string>,
                                            e: UnpackError)
    requires k <= |digests| && UnpackDigests(digests[..k], payload, m, top, seen) == Err(e)
    ensures UnpackDigests(digests, payload, m, top, seen) == Err(e)
  {
    if k == |digests| {
      assert digests[..k] == digests;
    } else {
      var front := digests[..|digests| - 1];
      assert front[..k] == digests[..k];
      DigestsFailEarly(front, k, payload, m, top, seen, e);
    }
  }

  /** The result and the set a call leaves are those of the specification, or the same error is thrown. */
  ghost predicate GivesNode(spec: Outcome<Unpacked, UnpackError>, r: Outcome<Json, UnpackError>, seen: set<string>) {
    match spec case Err(e) => r == Err(e) case Ok(u) => r == Ok(u.value) && seen == u.seen
  }

  ghost predicate GivesList(spec: Outcome<UnpackedList, UnpackError>, r: Outcome<seq<Json>, UnpackError>,
                            seen: set<string>) {
    match spec case Err(e) => r == Err(e) case Ok(u) => r == Ok(u.items) && seen == u.seen
  }

  ghost predicate GivesMembers(spec: Outcome<UnpackedMembers, UnpackError>, r: Outcome<seq<Member>, UnpackError>,
                               seen: set<string>) {
    match spec case Err(e) => r == Err(e) case Ok(u) => r == Ok(u.members) && seen == u.seen
  }

  class DigestTracker {
    var seenDigests: set<string>

    constructor ()
      ensures seenDigests == {}
    {
      seenDigests := {};
    }

    method UnpackObjInternal(node: Json, m: Disclosures, top: bool) returns (r: Outcome<Json, UnpackError>)
      modifies this
      ensures GivesNode(UnpackNode(node, m, top, old(seenDigests)), r, seenDigests)
      decreases m.Keys - seenDigests, 1, node, 2
    {
      match node
      case Arr(items) =>
        var list := UnpackArray(items, m);
        r := if list.Err? then Err(list.error) else Ok(Arr(list.value));
      case Obj(members) =>
        var own := UnpackOwn(members, m, top);
        if own.Err? { return Err(own.error); }
        if SdInvalid(node) { return Err(InvalidSd); }
        var payload := WithoutSd(own.value);
        var claims := UnpackSd(DigestList(node), payload, m, top);
        r := if claims.Err? then Err(claims.error) else Ok(Obj(payload + claims.value));
      case _ =>
        r := Ok(node);
    }

    method UnpackArray(items: seq<Json>, m: Disclosures) returns (r: Outcome<seq<Json>, UnpackError>)
      modifies this
      ensures GivesList(UnpackItems(items, m, old(seenDigests)), r, seenDigests)
      decreases m.Keys - seenDigests, 1, items, 4
    {
      var unpackedArray := [];
      for idx := 0 to |items|
        invariant UnpackItems(items[..idx], m, old(seenDigests)) == Ok(UnpackedList(unpackedArray, seenDigests))
      {
        assert items[..idx + 1][..idx] == items[..idx];
        var item := UnpackElement(items[idx], m);
        if item.Err? {
          ItemsFailEarly(items, idx + 1, m, old(seenDigests), item.error);
          return Err(item.error);
        }
        unpackedArray := unpackedArray + item.value;
      }
      assert items[..|items|] == items;
      r := Ok(unpackedArray);
    }

    method UnpackElement(item: Json, m: Disclosures) returns (r: Outcome<seq<Json>, UnpackError>)
      modifies this
      ensures GivesList(UnpackItem(item, m, old(seenDigests)), r, seenDigests)
      decreases m.Keys - seenDigests, 1, item, 3
    {
      if item.Obj? && Child(item, Key(SD_LIST_KEY)).Some? {
        var hash := PlaceholderDigest(item);
        if hash.None? { return Err(InvalidPlaceholder); }
        if hash.value in seenDigests { return Err(RepeatedDigest); }
        seenDigests := seenDigests + {hash.value};
        if hash.value !in m { return Ok([]); }
        if m[hash.value].key.Some? { return Err(MemberDisclosureInArray); }
        var value := UnpackObjInternal(m[hash.value].value, m, false);
        r := if value.Err? then Err(value.error) else Ok([value.value]);
      } else {
        var value := UnpackObjInternal(item, m, false);
        r := if value.Err? then Err(value.error) else Ok([value.value]);
      }
    }

    method UnpackOwn(members: seq<Member>, m: Disclosures, top: bool) returns (r: Outcome<seq<Member>, UnpackError>)
      modifies this
      ensures GivesMembers(UnpackMembers(members, m, top, old(seenDigests)), r, seenDigests)
      decreases m.Keys - seenDigests, 1, members, 4
    {
      var record := [];
      for i := 0 to |members|
        invariant UnpackMembers(members[..i], m, top, old(seenDigests)) == Ok(UnpackedMembers(record, seenDigests))
      {
        assert members[..i + 1][..i] == members[..i];
        var x := UnpackOwnMember(members[i], m, top);
        if x.Err? {
          MembersFailEarly(members, i + 1, m, top, old(seenDigests), x.error);
          return Err(x.error);
        }
        record := record + x.value;
      }
      assert members[..|members|] == members;
      r := Ok(record);
    }

    method UnpackOwnMember(x: Member, m: Disclosures, top: bool) returns (r: Outcome<seq<Member>, UnpackError>)
      modifies this
      ensures GivesMembers(UnpackMember(x, m, top, old(seenDigests)), r, seenDigests)
      decreases m.Keys - seenDigests, 1, x, 1
    {
      if !top && x.key == SD_ALG { return Err(NestedSdAlg); }
      if x.key == SD_DIGEST || x.key == SD_LIST_KEY { return Ok([x]); }
      var value := UnpackObjInternal(x.value, m, top && x.key == "");
      r := if value.Err? then Err(value.error) else Ok([Member(x.key, value.value)]);
    }

    method UnpackSd(digests: seq<string>, payload: seq<Member>, m: Disclosures, top: bool)
      returns (r: Outcome<seq<Member>, UnpackError>)
      modifies this
      ensures GivesMembers(UnpackDigests(digests, payload, m, top, old(seenDigests)), r, seenDigests)
      decreases m.Keys - seenDigests, 0, 1
    {
      var claims := [];
      for i := 0 to |digests|
        invariant UnpackDigests(digests[..i], payload, m, top, old(seenDigests))
                    == Ok(UnpackedMembers(claims, seenDigests))
      {
        assert digests[..i + 1][..i] == digests[..i];
        var added := UnpackSdDigest(digests[i], payload, claims, m, top);
        if added.Err? {
          DigestsFailEarly(digests, i + 1, payload, m, top, old(seenDigests), added.error);
          return Err(added.error);
        }
        claims := added.value;
      }
      assert digests[..|digests|] == digests;
      r := Ok(claims);
    }

    method UnpackSdDigest(hash: string, payload: seq<Member>, claims: seq<Member>, m: Disclosures, top: bool)
      returns (r: Outcome<seq<Member>, UnpackError>)
      modifies this
      ensures GivesMembers(UnpackDigest(hash, payload, claims, m, top, old(seenDigests)), r, seenDigests)
      decreases m.Keys - seenDigests, 0, 0
    {
      if hash in seenDigests { return Err(RepeatedDigest); }
      seenDigests := seenDigests + {hash};
      if hash !in m { return Ok(claims); }
      var disclosed := m[hash];
      if disclosed.key.None? { return Err(ElementDisclosureInObject); }
      var name := disclosed.key.value;
      if HasKey(payload, name) || HasKey(claims, name) { return Err(NameConflict); }
      var value := UnpackObjInternal(disclosed.value, m, top && name == "");
      r := if value.Err? then Err(value.error) else Ok(claims + [Member(name, value.value)]);
    }
  }

  /** The unpacked payload, or the error thrown. */
  method UnpackObj(payload: Json, m: Disclosures) returns (r: Outcome<Json, UnpackError>)
    ensures r == Unpack(payload, m)
  {
    var tracker := new DigestTracker();
    r := tracker.UnpackObjInternal(payload, m, true);
    if r.Ok? && !(m.Keys <= tracker.seenDigests) {
      r := Err(Unreferenced);
    }
  }
}
