/** What `pack` computes: the payload with embedded digests, and the flat list of disclosures. */
module Packing {
  import opened Basics
  import opened Json
  import opened Sorting

  /** A disclosure frame, or the frame nested under one segment of it. */
  datatype Frame = Frame(sd: seq<Seg>, decoys: nat, children: seq<SubFrame>)
  datatype SubFrame = SubFrame(seg: Seg, frame: Frame)

  function SubFrameAt(children: seq<SubFrame>, seg: Seg): (r: Option<Frame>)
    ensures r.Some? ==> exists i :: 0 <= i < |children| && children[i] == SubFrame(seg, r.value)
    ensures r.None? <==> forall i :: 0 <= i < |children| ==> children[i].seg != seg
  {
    if children == [] then None
    else if children[|children| - 1].seg == seg then
      assert children[|children| - 1] == SubFrame(seg, children[|children| - 1].frame);
      Some(children[|children| - 1].frame)
    else SubFrameAt(children[..|children| - 1], seg)
  }

  ghost predicate DistinctSubFrames(children: seq<SubFrame>) {
    forall i, j :: 0 <= i < j < |children| ==> children[i].seg != children[j].seg
  }

  /** Frames sit on arrays and objects only, nested ones on children that exist. */
  ghost predicate WellFormed(claims: Json, frame: Frame)
    decreases frame
  {
    && (claims.Arr? || claims.Obj?)
    && DistinctSegs(Cells(claims))
    && DistinctSubFrames(frame.children)
    && ChildrenWellFormed(claims, frame.children)
  }

  ghost predicate ChildrenWellFormed(claims: Json, children: seq<SubFrame>)
    decreases children
  {
    forall i :: 0 <= i < |children| ==> ChildWellFormed(claims, children[i])
  }

  ghost predicate ChildWellFormed(claims: Json, c: SubFrame)
    decreases c
  {
    Child(claims, c.seg).Some? && WellFormed(Child(claims, c.seg).value, c.frame)
  }

  /** A disclosure: `[salt, key, value]` for an object member, `[salt, value]` for an array element. */
  datatype Disclosure = Disclosure(salt: string, key: Option<string>, value: Json)

  /** What the holder's side reads back: the array written for an empty key has no key in it. */
  function Wire(d: Disclosure): Disclosure {
    if d.key == Some("") then d.(key := None) else d
  }

  /** The callbacks: what the salt generator returns at each call, and the two uses of the hasher. */
  datatype Env = Env(salt: nat -> Option<string>, digest: Disclosure -> string, decoy: Option<string> -> string)

  /** The calls made to the salt generator so far, and the two sets `pack` threads through its recursion. */
  datatype Seen = Seen(drawn: nat, salts: set<string>, digests: set<string>)

  datatype PackError = SaltNotString | DuplicateSalt | DuplicateDigest | ReservedName

  /** The claims with the salt and digest of each selectively disclosable child. */
  datatype Tree = Raw(value: Json) | Node(isArray: bool, slots: seq<Slot>, decoys: seq<string>)
  datatype Slot = Slot(seg: Seg, mark: Mark, child: Tree)
  datatype Mark = Open | Hidden(salt: string, digest: string)

  // ---------- the payload a tree stands for ----------

  function Placeholder(digest: string): Json {
    Obj([Member(SD_LIST_KEY, Str(digest))])
  }

  function Emit(t: Tree): Json
    decreases t, 1
  {
    match t
    case Raw(v) => v
    case Node(true, slots, decoys) => Arr(EmitItems(slots) + Placeholders(decoys))
    case Node(false, slots, decoys) => Obj(EmitMembers(slots) + SdMember(Digests(slots), decoys))
  }

  function Content(s: Slot): Json
    decreases s, 0
  {
    Emit(s.child)
  }

  function EmitItems(slots: seq<Slot>): (r: seq<Json>)
    ensures |r| == |slots|
    decreases slots, 0
  {
    if slots == [] then []
    else
      var s := slots[|slots| - 1];
      EmitItems(slots[..|slots| - 1]) + [if s.mark.Hidden? then Placeholder(s.mark.digest) else Content(s)]
  }

  function EmitMembers(slots: seq<Slot>): seq<Member>
    decreases slots, 0
  {
    if slots == [] then []
    else
      var s := slots[|slots| - 1];
      EmitMembers(slots[..|slots| - 1]) +
      (if s.mark.Hidden? then [] else [Member(SegName(s.seg).GetOr(""), Content(s))])
  }

  function Digests(slots: seq<Slot>): seq<string> {
    if slots == [] then []
    else
      var s := slots[|slots| - 1];
      Digests(slots[..|slots| - 1]) + (if s.mark.Hidden? then [s.mark.digest] else [])
  }

  function Placeholders(digests: seq<string>): seq<Json> {
    seq(|digests|, i requires 0 <= i < |digests| => Placeholder(digests[i]))
  }

  function Strings(s: seq<string>): seq<Json> {
    seq(|s|, i requires 0 <= i < |s| => Str(s[i]))
  }

  function SdMember(digests: seq<string>, decoys: seq<string>): seq<Member> {
    if digests == [] && decoys == [] then [] else [Member(SD_DIGEST, Arr(Strings(Sort(digests + decoys))))]
  }

  function SlotDisclosure(s: Slot): Disclosure
    requires s.mark.Hidden?
  {
    Disclosure(s.mark.salt, SegName(s.seg), Emit(s.child))
  }

  // ---------- the state `pack` threads ----------

  datatype Salted = Salted(salt: string, seen: Seen)

  function DrawSalt(env: Env, seen: Seen): Outcome<Salted, PackError> {
    match env.salt(seen.drawn)
    case None => Err(SaltNotString)
    case Some(salt) =>
      if salt in seen.salts then Err(DuplicateSalt)
      else Ok(Salted(salt, seen.(drawn := seen.drawn + 1, salts := seen.salts + {salt})))
  }

  function AddDigest(digest: string, seen: Seen): Outcome<Seen, PackError> {
    if digest in seen.digests then Err(DuplicateDigest) else Ok(seen.(digests := seen.digests + {digest}))
  }

  function MakeDisclosure(salt: string, key: Option<string>, value: Json): Outcome<Disclosure, PackError> {
    if key == Some(SD_DIGEST) || key == Some(SD_LIST_KEY) then Err(ReservedName) else Ok(Disclosure(salt, key, value))
  }

  datatype Drawn = Drawn(digests: seq<string>, seen: Seen)

  function DrawDecoys(n: nat, env: Env, seen: Seen): Outcome<Drawn, PackError> {
    if n == 0 then Ok(Drawn([], seen))
    else
      var before :- DrawDecoys(n - 1, env, seen);
      var digest := env.decoy(env.salt(before.seen.drawn));
      var after :- AddDigest(digest, before.seen.(drawn := before.seen.drawn + 1));
      Ok(Drawn(before.digests + [digest], after))
  }

  // ---------- pack ----------

  datatype Packed = Packed(tree: Tree, disclosures: seq<Disclosure>, seen: Seen)
  datatype Nested = Nested(trees: map<Seg, Tree>, disclosures: seq<Disclosure>, seen: Seen)
  datatype Sealed = Sealed(slots: seq<Slot>, disclosures: seq<Disclosure>, seen: Seen)

  function PackTree(claims: Json, frame: Frame, env: Env, seen: Seen): Outcome<Packed, PackError>
    requires WellFormed(claims, frame)
    decreases frame, 1
  {
    var nested :- PackChildren(claims, frame.children, env, seen);
    var sealed :- Seal(Cells(claims), frame.sd, nested.trees, env, nested.seen);
    var decoys :- DrawDecoys(frame.decoys, env, sealed.seen);
    Ok(Packed(Node(claims.Arr?, sealed.slots, decoys.digests), nested.disclosures + sealed.disclosures, decoys.seen))
  }

  function PackChildren(claims: Json, children: seq<SubFrame>, env: Env, seen: Seen): Outcome<Nested, PackError>
    requires ChildrenWellFormed(claims, children)
    decreases children, 0
  {
    if children == [] then Ok(Nested(map[], [], seen))
    else
      var c := children[|children| - 1];
      var before :- PackChildren(claims, children[..|children| - 1], env, seen);
      var p :- PackChild(claims, c, env, before.seen);
      Ok(Nested(before.trees[c.seg := p.tree], before.disclosures + p.disclosures, p.seen))
  }

  function PackChild(claims: Json, c: SubFrame, env: Env, seen: Seen): Outcome<Packed, PackError>
    requires ChildWellFormed(claims, c)
    decreases c, 0
  {
    PackTree(Child(claims, c.seg).value, c.frame, env, seen)
  }

  function TreeOf(cell: Cell, trees: map<Seg, Tree>): Tree {
    if cell.seg in trees then trees[cell.seg] else Raw(cell.value)
  }

  function Seal(cells: seq<Cell>, sd: seq<Seg>, trees: map<Seg, Tree>, env: Env, seen: Seen): Outcome<Sealed, PackError>
  {
    if cells == [] then Ok(Sealed([], [], seen))
    else
      var before :- Seal(cells[..|cells| - 1], sd, trees, env, seen);
      SealOne(cells[|cells| - 1], sd, trees, env, before)
  }

  function SealOne(cell: Cell, sd: seq<Seg>, trees: map<Seg, Tree>, env: Env,
                   before: Sealed): Outcome<Sealed, PackError> {
    var child := TreeOf(cell, trees);
    if cell.seg in sd then
      var salted :- DrawSalt(env, before.seen);
      var d :- MakeDisclosure(salted.salt, SegName(cell.seg), Emit(child));
      var after :- AddDigest(env.digest(d), salted.seen);
      Ok(Sealed(before.slots + [Slot(cell.seg, Hidden(salted.salt, env.digest(d)), child)], before.disclosures + [d],
                after))
    else Ok(before.(slots := before.slots + [Slot(cell.seg, Open, child)]))
  }

  /** `pack`: without a frame the claims stay as they are. */
  function Pack(claims: Json, frame: Option<Frame>, env: Env, seen: Seen): Outcome<Packed, PackError>
    requires frame.Some? ==> WellFormed(claims, frame.value)
  {
    match frame
    case None => Ok(Packed(Raw(claims), [], seen))
    case Some(f) => PackTree(claims, f, env, seen)
  }

  /** A run of `pack` starts with nothing seen. */
  const START := Seen(0, {}, {})
}
