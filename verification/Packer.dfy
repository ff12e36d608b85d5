/** `pack` itself: loops over the frame and the claims that share two sets across the recursion. */
module Packer {
  import opened Basics
  import opened Json
  import opened Packing

  datatype PackedClaims = PackedClaims(claims: Json, disclosures: seq<Disclosure>)

  lemma {:induction false} ChildrenFail(claims: Json, children: seq<SubFrame>, i: nat, env: Env, seen: Seen)
    requires ChildrenWellFormed(claims, children) && i <= |children|
    requires PackChildren(claims, children[..i], env, seen).Err?
    ensures PackChildren(claims, children, env, seen) == PackChildren(claims, children[..i], env, seen)
  {
    if i < |children| {
      assert children[..|children| - 1][..i] == children[..i];
      ChildrenFail(claims, children[..|children| - 1], i, env, seen);
    } else {
      assert children[..i] == children;
    }
  }

  lemma {:induction false} SealFails(cells: seq<Cell>, i: nat, sd: seq<Seg>, trees: map<Seg, Tree>, env: Env,
                                     seen: Seen)
    requires i <= |cells| && Seal(cells[..i], sd, trees, env, seen).Err?
    ensures Seal(cells, sd, trees, env, seen) == Seal(cells[..i], sd, trees, env, seen)
  {
    if i < |cells| {
      assert cells[..|cells| - 1][..i] == cells[..i];
      SealFails(cells[..|cells| - 1], i, sd, trees, env, seen);
    } else {
      assert cells[..i] == cells;
    }
  }

  lemma {:induction false} DecoysFail(n: nat, i: nat, env: Env, seen: Seen)
    requires i <= n && DrawDecoys(i, env, seen).Err?
    ensures DrawDecoys(n, env, seen) == DrawDecoys(i, env, seen)
  {
    if i < n {
      DecoysFail(n - 1, i, env, seen);
    }
  }

  lemma ChildrenStep(claims: Json, children: seq<SubFrame>, i: nat, env: Env, seen: Seen)
    requires ChildrenWellFormed(claims, children) && i < |children|
             && PackChildren(claims, children[..i], env, seen).Ok?
    ensures ChildWellFormed(claims, children[i])
    ensures var before := PackChildren(claims, children[..i], env, seen).value;
            PackChildren(claims, children[..i + 1], env, seen) ==
            match PackChild(claims, children[i], env, before.seen)
            case Err(e) => Err(e)
            case Ok(p) =>
              Ok(Nested(before.trees[children[i].seg := p.tree], before.disclosures + p.disclosures, p.seen))
  {
    assert children[..i + 1][..i] == children[..i] && children[..i + 1][i] == children[i];
  }

  lemma SealStep(cells: seq<Cell>, i: nat, sd: seq<Seg>, trees: map<Seg, Tree>, env: Env, seen: Seen)
    requires i < |cells| && Seal(cells[..i], sd, trees, env, seen).Ok?
    ensures Seal(cells[..i + 1], sd, trees, env, seen)
              == SealOne(cells[i], sd, trees, env, Seal(cells[..i], sd, trees, env, seen).value)
  {
    assert cells[..i + 1][..i] == cells[..i] && cells[..i + 1][i] == cells[i];
  }

  /** What the loop over the claims has built agrees with the slots sealed so far. */
  ghost predicate Builds(slots: seq<Slot>, isArray: bool, items: seq<Json>, members: seq<Member>, sd: seq<string>) {
    if isArray then items == EmitItems(slots) else members == EmitMembers(slots) && sd == Digests(slots)
  }

  lemma BuildsHidden(slots: seq<Slot>, s: Slot, isArray: bool, items: seq<Json>, members: seq<Member>, sd: seq<string>)
    requires Builds(slots, isArray, items, members, sd) && s.mark.Hidden?
    ensures Builds(slots + [s], isArray, items + [Placeholder(s.mark.digest)], members, sd + [s.mark.digest])
  {
    assert (slots + [s])[..|slots|] == slots;
  }

  lemma BuildsOpen(slots: seq<Slot>, s: Slot, isArray: bool, items: seq<Json>, members: seq<Member>, sd: seq<string>)
    requires Builds(slots, isArray, items, members, sd) && s.mark.Open?
    ensures Builds(slots + [s], isArray, items + [Emit(s.child)],
                   members + [Member(SegName(s.seg).GetOr(""), Emit(s.child))], sd)
  {
    assert (slots + [s])[..|slots|] == slots;
    assert Content(s) == Emit(s.child);
  }

  /** The emitted values of the trees packed so far, by segment. */
  ghost predicate EmitsAll(packed: map<Seg, Json>, trees: map<Seg, Tree>) {
    packed.Keys == trees.Keys && forall seg :: seg in packed ==> packed[seg] == Emit(trees[seg])
  }

  class PackRun {
    var drawn: nat
    var salts: set<string>
    var digests: set<string>

    ghost function State(): Seen
      reads this
    {
      Seen(drawn, salts, digests)
    }

    constructor ()
      ensures State() == START
    {
      drawn, salts, digests := 0, {}, {};
    }

    method CreateDisclosureSalt(env: Env) returns (r: Outcome<string, PackError>)
      modifies this
      ensures match DrawSalt(env, old(State()))
              case Ok(salted) => r == Ok(salted.salt) && State() == salted.seen
              case Err(e) => r == Err(e)
    {
      var salt := env.salt(drawn);
      drawn := drawn + 1;
      if salt.None? {
        return Err(SaltNotString);
      }
      if salt.value in salts {
        return Err(DuplicateSalt);
      }
      salts := salts + {salt.value};
      return Ok(salt.value);
    }

    method AddDisclosureDigest(digest: string) returns (r: Outcome<bool, PackError>)
      modifies this
      ensures match AddDigest(digest, old(State()))
              case Ok(seen) => r.Ok? && State() == seen
              case Err(e) => r == Err(e)
    {
      if digest in digests {
        return Err(DuplicateDigest);
      }
      digests := digests + {digest};
      return Ok(true);
    }

    /** One turn of the loop over the claims: a listed claim is salted, hashed and recorded. */
    method Disclose(cell: Cell, value: Json, env: Env, ghost sd: seq<Seg>, ghost trees: map<Seg, Tree>,
                    ghost before: Sealed)
      returns (r: Outcome<(Disclosure, string), PackError>)
      requires cell.seg in sd && value == Emit(TreeOf(cell, trees)) && before.seen == State()
      modifies this
      ensures match SealOne(cell, sd, trees, env, before)
              case Err(e) => r == Err(e)
              case Ok(s) =>
                && r.Ok?
                && s == Sealed(before.slots
                               + [Slot(cell.seg, Mark.Hidden(r.value.0.salt, r.value.1), TreeOf(cell, trees))],
                               before.disclosures + [r.value.0], State())
    {
      var salt := CreateDisclosureSalt(env);
      if salt.Err? {
        return Err(salt.error);
      }
      var d := MakeDisclosure(salt.value, SegName(cell.seg), value);
      if d.Err? {
        return Err(d.error);
      }
      var digest := env.digest(d.value);
      var added := AddDisclosureDigest(digest);
      if added.Err? {
        return Err(added.error);
      }
      return Ok((d.value, digest));
    }

    method CreateDecoys(n: nat, env: Env) returns (r: Outcome<seq<string>, PackError>)
      modifies this
      ensures match DrawDecoys(n, env, old(State()))
              case Ok(d) => r == Ok(d.digests) && State() == d.seen
              case Err(e) => r == Err(e)
    {
      var made: seq<string> := [];
      for j := 0 to n
        invariant DrawDecoys(j, env, old(State())) == Ok(Drawn(made, State()))
      {
        var digest := env.decoy(env.salt(drawn));
        drawn := drawn + 1;
        var added := AddDisclosureDigest(digest);
        if added.Err? {
          DecoysFail(n, j + 1, env, old(State()));
          return Err(added.error);
        }
        made := made + [digest];
      }
      return Ok(made);
    }

    method Pack(claims: Json, frame: Option<Frame>, env: Env) returns (r: Outcome<PackedClaims, PackError>)
      requires frame.Some? ==> WellFormed(claims, frame.value)
      modifies this
      ensures match Packing.Pack(claims, frame, env, old(State()))
              case Ok(p) => r == Ok(PackedClaims(Emit(p.tree), p.disclosures)) && State() == p.seen
              case Err(e) => r == Err(e)
    {
      if frame.None? {
        return Ok(PackedClaims(claims, []));
      }
      r := PackFramed(claims, frame.value, env);
    }

    method PackFramed(claims: Json, f: Frame, env: Env) returns (r: Outcome<PackedClaims, PackError>)
      requires WellFormed(claims, f)
      modifies this
      ensures match PackTree(claims, f, env, old(State()))
              case Ok(p) => r == Ok(PackedClaims(Emit(p.tree), p.disclosures)) && State() == p.seen
              case Err(e) => r == Err(e)
      decreases f, 1
    {
      var nested, trees := PackSubFrames(claims, f.children, env);
      if nested.Err? {
        return Err(nested.error);
      }
      r := PackLayer(claims, f, nested.value.0, nested.value.1, trees, env);
    }

    /** The first half of `pack`: the loop over the nested frames. */
    method PackSubFrames(claims: Json, children: seq<SubFrame>, env: Env)
      returns (r: Outcome<(map<Seg, Json>, seq<Disclosure>), PackError>, ghost trees: map<Seg, Tree>)
      requires ChildrenWellFormed(claims, children)
      modifies this
      ensures match PackChildren(claims, children, env, old(State()))
              case Ok(n) => r.Ok? && n == Nested(trees, r.value.1, State()) && EmitsAll(r.value.0, trees)
              case Err(e) => r == Err(e)
      decreases children, 0
    {
      var disclosures: seq<Disclosure> := [];
      var packed: map<Seg, Json> := map[];
      trees := map[];
      for i := 0 to |children|
        invariant PackChildren(claims, children[..i], env, old(State())) == Ok(Nested(trees, disclosures, State()))
        invariant EmitsAll(packed, trees)
      {
        var c := children[i];
        ChildrenStep(claims, children, i, env, old(State()));
        ghost var p := PackChild(claims, c, env, State());
        var inner := PackNested(claims, c, env);
        if inner.Err? {
          ChildrenFail(claims, children, i + 1, env, old(State()));
          return Err(inner.error), trees;
        }
        trees := trees[c.seg := p.value.tree];
        packed := packed[c.seg := inner.value.claims];
        disclosures := disclosures + inner.value.disclosures;
      }
      assert children[..|children|] == children;
      return Ok((packed, disclosures)), trees;
    }

    /** The recursive call for one nested frame. */
    method PackNested(claims: Json, c: SubFrame, env: Env) returns (r: Outcome<PackedClaims, PackError>)
      requires ChildWellFormed(claims, c)
      modifies this
      ensures match PackChild(claims, c, env, old(State()))
              case Ok(p) => r == Ok(PackedClaims(Emit(p.tree), p.disclosures)) && State() == p.seen
              case Err(e) => r == Err(e)
      decreases c, 0
    {
      r := PackFramed(Child(claims, c.seg).value, c.frame, env);
    }

    /** The second half of `pack`: the loop over the claims, then the decoys. */
    method PackLayer(claims: Json, f: Frame, packed: map<Seg, Json>, inner: seq<Disclosure>,
                     ghost trees: map<Seg, Tree>, env: Env)
      returns (r: Outcome<PackedClaims, PackError>)
      requires claims.Arr? || claims.Obj?
      requires EmitsAll(packed, trees)
      modifies this
      ensures match Seal(Cells(claims), f.sd, trees, env, old(State()))
              case Err(e) => r == Err(e)
              case Ok(sealed) =>
                match DrawDecoys(f.decoys, env, sealed.seen)
                case Err(e) => r == Err(e)
                case Ok(d) =>
                  && r == Ok(PackedClaims(Emit(Node(claims.Arr?, sealed.slots, d.digests)), inner + sealed.disclosures))
                  && State() == d.seen
    {
      var cells := Cells(claims);
      var items: seq<Json> := [];
      var members: seq<Member> := [];
      var sd: seq<string> := [];
      var outer: seq<Disclosure> := [];
      ghost var slots: seq<Slot> := [];
      for i := 0 to |cells|
        invariant Seal(cells[..i], f.sd, trees, env, old(State())) == Ok(Sealed(slots, outer, State()))
        invariant Builds(slots, claims.Arr?, items, members, sd)
      {
        var cell := cells[i];
        SealStep(cells, i, f.sd, trees, env, old(State()));
        var value := if cell.seg in packed then packed[cell.seg] else cell.value;
        if cell.seg in f.sd {
          var made := Disclose(cell, value, env, f.sd, trees, Sealed(slots, outer, State()));
          if made.Err? {
            SealFails(cells, i + 1, f.sd, trees, env, old(State()));
            return Err(made.error);
          }
          ghost var slot := Slot(cell.seg, Mark.Hidden(made.value.0.salt, made.value.1), TreeOf(cell, trees));
          BuildsHidden(slots, slot, claims.Arr?, items, members, sd);
          items := items + [Placeholder(made.value.1)];
          sd := sd + [made.value.1];
          outer := outer + [made.value.0];
          slots := slots + [slot];
        } else {
          ghost var slot := Slot(cell.seg, Open, TreeOf(cell, trees));
          BuildsOpen(slots, slot, claims.Arr?, items, members, sd);
          items := items + [value];
          members := members + [Member(SegName(cell.seg).GetOr(""), value)];
          slots := slots + [slot];
        }
      }
      assert cells[..|cells|] == cells;
      var decoys := CreateDecoys(f.decoys, env);
      if decoys.Err? {
        return Err(decoys.error);
      }
      if claims.Arr? {
        return Ok(PackedClaims(Arr(items + Placeholders(decoys.value)), inner + outer));
      }
      return Ok(PackedClaims(Obj(members + SdMember(sd, decoys.value)), inner + outer));
    }
  }
}
