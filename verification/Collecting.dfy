/** `collectPresentClaims`: the claim paths of a packed payload under the revealed disclosures. */
module Collecting {
  import opened Json
  import opened Packing
  import opened Embedding

  /** The disclosures a reader was given, keyed by digest. */
  type Disclosures = map<string, Disclosure>

  datatype PresentClaim = PresentClaim(path: Path, isSd: bool)

  predicate Skipped(name: string, path: Path) {
    name == SD_DIGEST || (path == [] && name == SD_ALG)
  }

  /** The claims below `node`, following at most `fuel` disclosures one inside the other. */
  function Collect(node: Json, path: Path, m: Disclosures, fuel: nat): seq<PresentClaim>
    decreases fuel, 1, node, 2
  {
    match node
    case Arr(items) => CollectItems(items, path, m, fuel)
    case Obj(members) => CollectMembers(members, path, m, fuel) + CollectDigests(DigestList(node), path, m, fuel)
    case _ => []
  }

  function Follow(d: Disclosure, path: Path, m: Disclosures, fuel: nat): seq<PresentClaim>
    decreases fuel, 0, 0
  {
    [PresentClaim(path, true)] + if fuel == 0 then [] else Collect(d.value, path, m, fuel - 1)
  }

  function CollectItems(items: seq<Json>, path: Path, m: Disclosures, fuel: nat): seq<PresentClaim>
    decreases fuel, 1, items, 1
  {
    if items == [] then []
    else
      var n := |items| - 1;
      CollectItems(items[..n], path, m, fuel) + CollectItem(items[n], path + [Index(n)], m, fuel)
  }

  function CollectItem(item: Json, path: Path, m: Disclosures, fuel: nat): seq<PresentClaim>
    decreases fuel, 1, item, 3
  {
    match PlaceholderDigest(item)
    case Some(d) => if d in m then Follow(m[d], path, m, fuel) else []
    case None => [PresentClaim(path, false)] + Collect(item, path, m, fuel)
  }

  function CollectMembers(members: seq<Member>, path: Path, m: Disclosures, fuel: nat): seq<PresentClaim>
    decreases fuel, 1, members, 1
  {
    if members == [] then []
    else
      var n := |members| - 1;
      CollectMembers(members[..n], path, m, fuel) + CollectMember(members[n], path, m, fuel)
  }

  function CollectMember(x: Member, path: Path, m: Disclosures, fuel: nat): seq<PresentClaim>
    decreases fuel, 1, x, 1
  {
    if Skipped(x.key, path) then []
    else [PresentClaim(path + [Key(x.key)], false)] + Collect(x.value, path + [Key(x.key)], m, fuel)
  }

  function CollectDigests(digests: seq<string>, path: Path, m: Disclosures, fuel: nat): seq<PresentClaim>
    decreases fuel, 0, 2, |digests|
  {
    if digests == [] then []
    else
      var n := |digests| - 1;
      CollectDigests(digests[..n], path, m, fuel) + CollectDigest(digests[n], path, m, fuel)
  }

  function CollectDigest(digest: string, path: Path, m: Disclosures, fuel: nat): seq<PresentClaim>
    decreases fuel, 0, 1
  {
    if digest in m && m[digest].key.Some? then Follow(m[digest], path + [Key(m[digest].key.value)], m, fuel) else []
  }
}
