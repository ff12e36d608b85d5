/**
 * `unpackObj`: resolves the digests of a payload against the disclosures, rejecting what RFC 9901 section 7.1 forbids.
 */
module Unpacking {
  import opened Basics
  import opened Json
  import opened Embedding
  import opened Collecting

  datatype UnpackError =
    | InvalidPlaceholder
    | RepeatedDigest
    | MemberDisclosureInArray
    | ElementDisclosureInObject
    | NestedSdAlg
    | InvalidSd
    | NameConflict
    | Unreferenced

  /** A JSON value together with the digests met so far. */
  datatype Unpacked = Unpacked(value: Json, seen: set<string>)
  datatype UnpackedList = UnpackedList(items: seq<Json>, seen: set<string>)
  datatype UnpackedMembers = UnpackedMembers(members: seq<Member>, seen: set<string>)

  function Meet(digest: string, seen: set<string>): Outcome<set<string>, UnpackError> {
    if digest in seen then Err(RepeatedDigest) else Ok(seen + {digest})
  }

  function WithoutSd(members: seq<Member>): seq<Member> {
    if members == [] then []
    else
      var last := members[|members| - 1];
      WithoutSd(members[..|members| - 1]) + (if last.key == SD_DIGEST then [] else [last])
  }

  /**
   * Unpack one node. `top` says that the path so far is the empty string, where `_sd_alg` is allowed. A digest is
   * followed only when it is met for the first time, so the recursion ends on every input.
   */
  function UnpackNode(node: Json, m: Disclosures, top: bool, seen: set<string>): (r: Outcome<Unpacked, UnpackError>)
    ensures r.Ok? ==> seen <= r.value.seen
    decreases m.Keys - seen, 1, node, 2
  {
    match node
    case Arr(items) =>
      var list :- UnpackItems(items, m, seen);
      Ok(Unpacked(Arr(list.items), list.seen))
    case Obj(members) =>
      var own :- UnpackMembers(members, m, top, seen);
      if SdInvalid(node) then Err(InvalidSd)
      else
        var payload := WithoutSd(own.members);
        var claims :- UnpackDigests(DigestList(node), payload, m, top, own.seen);
        Ok(Unpacked(Obj(payload + claims.members), claims.seen))
    case _ => Ok(Unpacked(node, seen))
  }

  /** An `_sd` member that is not an array of strings. */
  predicate SdInvalid(node: Json) {
    match Child(node, Key(SD_DIGEST))
    case None => false
    case Some(Arr(items)) => exists i :: 0 <= i < |items| && !items[i].Str?
    case Some(_) => true
  }

  function UnpackItems(items: seq<Json>, m: Disclosures, seen: set<string>): (r: Outcome<UnpackedList, UnpackError>)
    ensures r.Ok? ==> seen <= r.value.seen
    decreases m.Keys - seen, 1, items, 1
  {
    if items == [] then Ok(UnpackedList([], seen))
    else
      var before :- UnpackItems(items[..|items| - 1], m, seen);
      var last :- UnpackItem(items[|items| - 1], m, before.seen);
      Ok(UnpackedList(before.items + last.items, last.seen))
  }

  /** An array element gives one element, or none if its disclosure is not there. */
  function UnpackItem(item: Json, m: Disclosures, seen: set<string>): (r: Outcome<UnpackedList, UnpackError>)
    ensures r.Ok? ==> seen <= r.value.seen
    decreases m.Keys - seen, 1, item, 3
  {
    if item.Obj? && Child(item, Key(SD_LIST_KEY)).Some? then
      match PlaceholderDigest(item)
      case None => Err(InvalidPlaceholder)
      case Some(digest) =>
        var met :- Meet(digest, seen);
        if digest !in m then Ok(UnpackedList([], met))
        else if m[digest].key.Some? then Err(MemberDisclosureInArray)
        else
          var value :- UnpackNode(m[digest].value, m, false, met);
          Ok(UnpackedList([value.value], value.seen))
    else
      var value :- UnpackNode(item, m, false, seen);
      Ok(UnpackedList([value.value], value.seen))
  }

  function UnpackMembers(members: seq<Member>, m: Disclosures, top: bool,
                         seen: set<string>): (r: Outcome<UnpackedMembers, UnpackError>)
    ensures r.Ok? ==> seen <= r.value.seen
    decreases m.Keys - seen, 1, members, 1
  {
    if members == [] then Ok(UnpackedMembers([], seen))
    else
      var before :- UnpackMembers(members[..|members| - 1], m, top, seen);
      var last :- UnpackMember(members[|members| - 1], m, top, before.seen);
      Ok(UnpackedMembers(before.members + last.members, last.seen))
  }

  function UnpackMember(x: Member, m: Disclosures, top: bool,
                        seen: set<string>): (r: Outcome<UnpackedMembers, UnpackError>)
    ensures r.Ok? ==> seen <= r.value.seen
    decreases m.Keys - seen, 1, x, 1
  {
    if !top && x.key == SD_ALG then Err(NestedSdAlg)
    else if x.key == SD_DIGEST || x.key == SD_LIST_KEY then Ok(UnpackedMembers([x], seen))
    else
      var value :- UnpackNode(x.value, m, top && x.key == "", seen);
      Ok(UnpackedMembers([Member(x.key, value.value)], value.seen))
  }

  function UnpackDigests(digests: seq<string>, payload: seq<Member>, m: Disclosures, top: bool, seen: set<string>):
    (r: Outcome<UnpackedMembers, UnpackError>)
    ensures r.Ok? ==> seen <= r.value.seen
    decreases m.Keys - seen, 0, |digests|
  {
    if digests == [] then Ok(UnpackedMembers([], seen))
    else
      var before :- UnpackDigests(digests[..|digests| - 1], payload, m, top, seen);
      UnpackDigest(digests[|digests| - 1], payload, before.members, m, top, before.seen)
  }

  /** One digest of an `_sd` array adds a member to the claims, or nothing if its disclosure is not there. */
  function UnpackDigest(digest: string, payload: seq<Member>, claims: seq<Member>, m: Disclosures, top: bool,
                        seen: set<string>):
    (r: Outcome<UnpackedMembers, UnpackError>)
    ensures r.Ok? ==> seen <= r.value.seen
    decreases m.Keys - seen, 0, 0
  {
    var met :- Meet(digest, seen);
    if digest !in m then Ok(UnpackedMembers(claims, met))
    else
      match m[digest].key
      case None => Err(ElementDisclosureInObject)
      case Some(name) =>
        if HasKey(payload, name) || HasKey(claims, name) then Err(NameConflict)
        else
          var value :- UnpackNode(m[digest].value, m, top && name == "", met);
          Ok(UnpackedMembers(claims + [Member(name, value.value)], value.seen))
  }

  /** `unpackObj`: the whole payload, and no disclosure left over. */
  function Unpack(payload: Json, m: Disclosures): Outcome<Json, UnpackError> {
    var r :- UnpackNode(payload, m, true, {});
    if m.Keys <= r.seen then Ok(r.value) else Err(Unreferenced)
  }
}
