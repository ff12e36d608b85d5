/** A null-free mandatory claim is reported present exactly if its path is among the collected claims. */
module Presence {
  import opened Basics
  import opened Json
  import opened Embedding
  import opened Collecting
  import opened Presenting
  import opened Collector
  import opened Mandatory

  ghost predicate Has(claims: seq<PresentClaim>, path: Path) {
    exists i :: 0 <= i < |claims| && claims[i].path == path
  }

  lemma HasConcat(a: seq<PresentClaim>, b: seq<PresentClaim>, path: Path)
    ensures Has(a + b, path) <==> Has(a, path) || Has(b, path)
  {
    if Has(a, path) {
      var i :| 0 <= i < |a| && a[i].path == path;
      assert (a + b)[i].path == path;
    }
    if Has(b, path) {
      var i :| 0 <= i < |b| && b[i].path == path;
      assert (a + b)[|a| + i].path == path;
    }
  }

  lemma NotUnder(claims: seq<PresentClaim>, here: Path, extra: nat, path: Path)
    requires Under(claims, here, extra)
    requires |path| < |here| + extra || path[..|here|] != here
    ensures !Has(claims, path)
  {
  }

  /** The path of a null-free claim, from a depth on. */
  function KeysFrom(path: ClaimPath, depth: nat): Path
    requires NullFree(path) && depth <= |path|
    decreases |path| - depth
  {
    if depth == |path| then [] else [Key(path[depth].value)] + KeysFrom(path, depth + 1)
  }

  /** The value under a name leads on to the path. */
  ghost predicate Leads(v: Json, here: Path, rest: Path, m: Disclosures, fuel: nat) {
    rest == [] || Has(Collect(v, here, m, fuel), here + rest)
  }

  /** A claim and what is below it. */
  lemma HereAndBelow(v: Json, here: Path, isSd: bool, rest: Path, m: Disclosures, fuel: nat)
    ensures Has([PresentClaim(here, isSd)] + Collect(v, here, m, fuel), here + rest) <==> Leads(v, here, rest, m, fuel)
  {
    var first := [PresentClaim(here, isSd)];
    HasConcat(first, Collect(v, here, m, fuel), here + rest);
    assert first[0].path == here;
    assert Has(first, here + rest) <==> rest == [] by {
      if rest == [] { assert here + rest == here && first[0].path == here + rest; }
    }
    Below(v, here, m, fuel);
  }

  lemma SegmentOf(here: Path, seg: Seg, rest: Path)
    ensures (here + [seg] + rest)[..|here| + 1] == here + [seg]
  {
  }

  lemma MemberLeads(x: Member, here: Path, name: string, rest: Path, m: Disclosures, fuel: nat)
    ensures Has(CollectMember(x, here, m, fuel), here + [Key(name)] + rest)
            <==> x.key == name && !Skipped(name, here) && Leads(x.value, here + [Key(name)], rest, m, fuel)
  {
    var own := here + [Key(x.key)];
    HereAndBelow(x.value, own, false, rest, m, fuel);
    if x.key != name && !Skipped(x.key, here) {
      Below(x.value, own, m, fuel);
      SegmentOf(here, Key(name), rest);
      assert own[|here|] != (here + [Key(name)])[|here|];
      assert Under(CollectMember(x, here, m, fuel), own, 0);
      NotUnder(CollectMember(x, here, m, fuel), own, 0, here + [Key(name)] + rest);
    }
  }

  /** Some of the values under a name lead on to the path. */
  ghost predicate AnyLeads(vs: seq<Json>, here: Path, rest: Path, m: Disclosures, fuel: nat) {
    vs != [] && (AnyLeads(vs[..|vs| - 1], here, rest, m, fuel) || Leads(vs[|vs| - 1], here, rest, m, fuel))
  }

  lemma {:induction false} AnyLeadsConcat(a: seq<Json>, b: seq<Json>, here: Path, rest: Path, m: Disclosures, fuel: nat)
    ensures AnyLeads(a + b, here, rest, m, fuel) <==>
              AnyLeads(a, here, rest, m, fuel) || AnyLeads(b, here, rest, m, fuel)
  {
    if b == [] {
      assert a + b == a;
    } else {
      assert (a + b)[..|a + b| - 1] == a + b[..|b| - 1];
      AnyLeadsConcat(a, b[..|b| - 1], here, rest, m, fuel);
    }
  }

  function ValuesNamed(members: seq<Member>, name: string): seq<Json> {
    if members == [] then []
    else
      var last := members[|members| - 1];
      ValuesNamed(members[..|members| - 1], name) + (if last.key == name then [last.value] else [])
  }

  lemma {:induction false} MembersLead(members: seq<Member>, here: Path, name: string, rest: Path, m: Disclosures,
                                       fuel: nat)
    ensures Has(CollectMembers(members, here, m, fuel), here + [Key(name)] + rest)
            <==> !Skipped(name, here) && AnyLeads(ValuesNamed(members, name), here + [Key(name)], rest, m, fuel)
  {
    if members != [] {
      var n := |members| - 1;
      MembersLead(members[..n], here, name, rest, m, fuel);
      MemberLeads(members[n], here, name, rest, m, fuel);
      HasConcat(CollectMembers(members[..n], here, m, fuel), CollectMember(members[n], here, m, fuel),
                here + [Key(name)] + rest);
      if members[n].key == name {
        assert ValuesNamed(members, name)[..|ValuesNamed(members, name)| - 1] == ValuesNamed(members[..n], name);
      } else {
        assert ValuesNamed(members, name) == ValuesNamed(members[..n], name);
      }
    }
  }

  lemma DigestLeads(d: string, here: Path, name: string, rest: Path, m: Disclosures, fuel: nat)
    requires GroundedDigests([d], m, fuel)
    ensures Has(CollectDigest(d, here, m, fuel), here + [Key(name)] + rest)
            <==> d in m && m[d].key == Some(name) && Leads(m[d].value, here + [Key(name)], rest, m, fuel)
  {
    if d in m && m[d].key.Some? {
      var own := here + [Key(m[d].key.value)];
      assert [d][0] == d;
      GroundedCollectsAlike(m[d].value, own, m, fuel - 1, fuel);
      HereAndBelow(m[d].value, own, true, rest, m, fuel);
      if m[d].key != Some(name) {
        FollowBelow(m[d], own, m, fuel);
        SegmentOf(here, Key(name), rest);
        assert own[|here|] != (here + [Key(name)])[|here|];
        NotUnder(CollectDigest(d, here, m, fuel), own, 0, here + [Key(name)] + rest);
      }
    }
  }

  lemma {:induction false} DigestsLead(items: seq<Json>, here: Path, name: string, rest: Path, m: Disclosures,
                                       fuel: nat)
    requires GroundedDigests(StringsOf(items), m, fuel)
    ensures Has(CollectDigests(StringsOf(items), here, m, fuel), here + [Key(name)] + rest)
            <==> AnyLeads(Named(items, name, m), here + [Key(name)], rest, m, fuel)
  {
    if items != [] {
      var n := |items| - 1;
      var last := items[n];
      var before, all := StringsOf(items[..n]), StringsOf(items);
      assert forall i :: 0 <= i < |before| ==> all[i] == before[i];
      DigestsLead(items[..n], here, name, rest, m, fuel);
      if last.Str? {
        assert all[|all| - 1] == last.s && all[..|all| - 1] == before;
        DigestLeads(last.s, here, name, rest, m, fuel);
        HasConcat(CollectDigests(before, here, m, fuel), CollectDigest(last.s, here, m, fuel),
                  here + [Key(name)] + rest);
      } else {
        assert all == before;
      }
      var named := Named(items, name, m);
      if last.Str? && last.s in m && m[last.s].key == Some(name) {
        assert named[..|named| - 1] == Named(items[..n], name, m);
      } else {
        assert named == Named(items[..n], name, m);
      }
    }
  }

  lemma {:induction false} NoneNamed(members: seq<Member>, name: string)
    requires forall i :: 0 <= i < |members| ==> members[i].key != name
    ensures ValuesNamed(members, name) == []
  {
    if members != [] {
      NoneNamed(members[..|members| - 1], name);
    }
  }

  lemma {:induction false} OneNamed(members: seq<Member>, name: string, i: nat)
    requires i < |members| && members[i].key == name && forall k :: 0 <= k < |members| && members[k].key == name ==>
               k == i
    ensures ValuesNamed(members, name) == [members[i].value]
  {
    var n := |members| - 1;
    if i == n {
      NoneNamed(members[..n], name);
    } else {
      assert forall k :: 0 <= k < n ==> members[..n][k] == members[k];
      OneNamed(members[..n], name, i);
    }
  }

  /** An object has at most one value under a name, the one `childEntries` takes. */
  lemma OwnIsNamed(node: Json, name: string)
    requires node.Obj? && Proper(node) && name != SD_DIGEST
    ensures ValuesNamed(node.members, name) == Own(node, name)
  {
    var cells := Cells(node);
    match Child(node, Key(name)) {
      case None =>
        forall i | 0 <= i < |cells| ensures node.members[i].key != name { assert cells[i].seg != Key(name); }
        NoneNamed(node.members, name);
      case Some(v) =>
        var i :| 0 <= i < |cells| && cells[i] == Cell(Key(name), v);
        forall k | 0 <= k < |cells| && node.members[k].key == name ensures k == i {
          assert cells[k].seg == Key(name);
        }
        OneNamed(node.members, name, i);
    }
  }

  /** The member of the payload itself that `collectPresentClaims` passes over, and `childEntries` does not. */
  ghost predicate PassedOver(node: Json, here: Path, name: string) {
    here == [] && name == SD_ALG && Child(node, Key(SD_ALG)).Some?
  }

  /** One step of the collected claims is one step of `childEntries`. */
  lemma EntriesLead(node: Json, here: Path, name: string, rest: Path, m: Disclosures, fuel: nat)
    requires Proper(node) && Grounded(node, m, fuel) && !PassedOver(node, here, name)
    ensures Has(Collect(node, here, m, fuel), here + [Key(name)] + rest)
            <==> AnyLeads(ChildEntries(node, Some(name), m).present, here + [Key(name)], rest, m, fuel)
  {
    match node
    case Obj(members) =>
      MembersLead(members, here, name, rest, m, fuel);
      if name != SD_DIGEST {
        OwnIsNamed(node, name);
      }
      DigestsLead(SdItems(node), here, name, rest, m, fuel);
      HasConcat(CollectMembers(members, here, m, fuel), CollectDigests(DigestList(node), here, m, fuel),
                here + [Key(name)] + rest);
      AnyLeadsConcat(Own(node, name), Named(SdItems(node), name, m), here + [Key(name)], rest, m, fuel);
    case Arr(items) => NoNamesInArray(items, here, name, rest, m, fuel);
    case _ =>
  }

  lemma {:induction false} NoNamesInArray(items: seq<Json>, here: Path, name: string, rest: Path, m: Disclosures,
                                          fuel: nat)
    ensures !Has(CollectItems(items, here, m, fuel), here + [Key(name)] + rest)
  {
    if items != [] {
      var n := |items| - 1;
      var target := here + [Key(name)] + rest;
      var own := here + [Index(n)];
      NoNamesInArray(items[..n], here, name, rest, m, fuel);
      ItemBelow(items[n], own, m, fuel);
      SegmentOf(here, Key(name), rest);
      assert own[|here|] != (here + [Key(name)])[|here|];
      NotUnder(CollectItem(items[n], own, m, fuel), own, 0, target);
      HasConcat(CollectItems(items[..n], here, m, fuel), CollectItem(items[n], own, m, fuel), target);
    }
  }

  ghost predicate ProperValues(m: Disclosures) {
    forall d :: d in m ==> Proper(m[d].value)
  }

  lemma EntriesProper(node: Json, segment: Option<string>, m: Disclosures, fuel: nat)
    requires Proper(node) && ProperValues(m) && Grounded(node, m, fuel)
    ensures forall v :: v in ChildEntries(node, segment, m).present ==> Proper(v)
  {
    match segment
    case None => if node.Arr? {
      forall i | 0 <= i < |node.items| ensures Proper(node.items[i]) { assert Proper(Cells(node)[i].value); }
      ElementsProper(node.items, m);
    }
    case Some(name) => if node.Obj? {
      NamedProper(SdItems(node), name, m);
      forall v | v in Own(node, name) ensures Proper(v) {
        var i :| 0 <= i < |Cells(node)| && Cells(node)[i] == Cell(Key(name), v);
        assert Proper(Cells(node)[i].value);
      }
    }
  }

  lemma {:induction false} ElementsProper(items: seq<Json>, m: Disclosures)
    requires ProperValues(m) && forall i :: 0 <= i < |items| ==> Proper(items[i])
    ensures forall v :: v in Elements(items, m) ==> Proper(v)
  {
    if items != [] {
      ElementsProper(items[..|items| - 1], m);
    }
  }

  lemma {:induction false} NamedProper(digests: seq<Json>, name: string, m: Disclosures)
    requires ProperValues(m)
    ensures forall v :: v in Named(digests, name, m) ==> Proper(v)
  {
    if digests != [] {
      NamedProper(digests[..|digests| - 1], name, m);
    }
  }

  lemma {:induction false} NamedGrounded(items: seq<Json>, name: string, m: Disclosures, fuel: nat)
    requires GroundedDigests(StringsOf(items), m, fuel)
    ensures forall v :: v in Named(items, name, m) ==> Grounded(v, m, fuel)
  {
    if items != [] {
      var n := |items| - 1;
      var before, all := StringsOf(items[..n]), StringsOf(items);
      assert forall i :: 0 <= i < |before| ==> all[i] == before[i];
      NamedGrounded(items[..n], name, m, fuel);
      if items[n].Str? && items[n].s in m && m[items[n].s].key == Some(name) {
        assert all[|all| - 1] == items[n].s;
        GroundedCollectsAlike(m[items[n].s].value, [], m, fuel - 1, fuel);
      }
    }
  }

  lemma EntriesGrounded(node: Json, name: string, m: Disclosures, fuel: nat)
    requires Grounded(node, m, fuel)
    ensures forall v :: v in ChildEntries(node, Some(name), m).present ==> Grounded(v, m, fuel)
  {
    if node.Obj? {
      NamedGrounded(SdItems(node), name, m, fuel);
      forall v | v in Own(node, name) ensures Grounded(v, m, fuel) {
        var i :| 0 <= i < |Cells(node)| && Cells(node)[i] == Cell(Key(name), v);
        assert GroundedMember(node.members[i], m, fuel);
      }
    }
  }

  /** Where names occur once, the path is collected exactly through the one child there is. */
  lemma CollectedStep(path: ClaimPath, node: Json, depth: nat, here: Path, m: Disclosures, fuel: nat)
    requires depth < |path| && NullFree(path) && |ChildEntries(node, path[depth], m).present| <= 1
    requires Proper(node) && Grounded(node, m, fuel) && !PassedOver(node, here, path[depth].value)
    ensures var present := ChildEntries(node, path[depth], m).present;
            Has(Collect(node, here, m, fuel), here + KeysFrom(path, depth))
            <==> present != [] && Leads(present[0], here + [Key(path[depth].value)], KeysFrom(path, depth + 1), m, fuel)
  {
    var below, rest := here + [Key(path[depth].value)], KeysFrom(path, depth + 1);
    var present := ChildEntries(node, path[depth], m).present;
    assert here + KeysFrom(path, depth) == below + rest;
    EntriesLead(node, here, path[depth].value, rest, m, fuel);
    if present != [] {
      assert present[..|present| - 1] == [];
      assert AnyLeads(present, below, rest, m, fuel) <==> Leads(present[0], below, rest, m, fuel);
    }
  }

  lemma EntryFacts(node: Json, name: string, m: Disclosures, fuel: nat, v: Json)
    requires Proper(node) && ProperValues(m) && Grounded(node, m, fuel)
             && v in ChildEntries(node, Some(name), m).present
    ensures Proper(v) && Grounded(v, m, fuel)
  {
    EntriesProper(node, Some(name), m, fuel);
    EntriesGrounded(node, name, m, fuel);
  }

  lemma NothingPresent(path: ClaimPath, metadata: seq<Claim>, node: Json, depth: nat, m: Disclosures)
    requires depth < |path| && path[depth].Some? && ChildEntries(node, path[depth], m).present == []
    ensures Walk(path, metadata, node, depth, m) != Present
  {
  }

  lemma RestLeads(path: ClaimPath, depth: nat, v: Json, here: Path, m: Disclosures, fuel: nat)
    requires depth < |path| && NullFree(path)
    ensures Leads(v, here, KeysFrom(path, depth), m, fuel) <==>
              Has(Collect(v, here, m, fuel), here + KeysFrom(path, depth))
  {
  }

  /** One step of the equivalence, given it for the child. */
  lemma PresentStepIsCollected(path: ClaimPath, metadata: seq<Claim>, node: Json, depth: nat, here: Path,
                               m: Disclosures, fuel: nat, v: Json)
    requires depth < |path| && NullFree(path) && ChildEntries(node, path[depth], m).present == [v]
    requires Proper(node) && Grounded(node, m, fuel) && !PassedOver(node, here, path[depth].value)
    requires Walk(path, metadata, v, depth + 1, m) == Present
             <==> Leads(v, here + [Key(path[depth].value)], KeysFrom(path, depth + 1), m, fuel)
    ensures Walk(path, metadata, node, depth, m) == Present <==>
              Has(Collect(node, here, m, fuel), here + KeysFrom(path, depth))
  {
    CollectedStep(path, node, depth, here, m, fuel);
    SingleStep(path, metadata, node, depth, m, v);
  }

  lemma {:induction false} PresentIsCollectedFrom(path: ClaimPath, metadata: seq<Claim>, node: Json, depth: nat,
                                                  here: Path, m: Disclosures, fuel: nat)
    requires depth < |path| && NullFree(path) && NamesOnce(path, node, depth, m)
    requires Proper(node) && ProperValues(m) && Grounded(node, m, fuel)
    requires !PassedOver(node, here, path[depth].value)
    ensures Walk(path, metadata, node, depth, m) == Present <==>
              Has(Collect(node, here, m, fuel), here + KeysFrom(path, depth))
    decreases |path| - depth, 0
  {
    var present := ChildEntries(node, path[depth], m).present;
    if present == [] {
      NothingPresent(path, metadata, node, depth, m);
      CollectedStep(path, node, depth, here, m, fuel);
    } else {
      var v := present[0];
      assert present == [v];
      EntryFacts(node, path[depth].value, m, fuel, v);
      PresentBelow(path, metadata, v, depth + 1, here + [Key(path[depth].value)], m, fuel);
      PresentStepIsCollected(path, metadata, node, depth, here, m, fuel, v);
    }
  }

  lemma {:induction false} PresentBelow(path: ClaimPath, metadata: seq<Claim>, v: Json, depth: nat, here: Path,
                                        m: Disclosures, fuel: nat)
    requires 0 < depth <= |path| && NullFree(path) && NamesOnce(path, v, depth, m)
    requires Proper(v) && ProperValues(m) && Grounded(v, m, fuel) && here != []
    ensures Walk(path, metadata, v, depth, m) == Present <==> Leads(v, here, KeysFrom(path, depth), m, fuel)
    decreases |path| - depth, 1
  {
    if depth < |path| {
      PresentIsCollectedFrom(path, metadata, v, depth, here, m, fuel);
      RestLeads(path, depth, v, here, m, fuel);
    }
  }

  /** A member that is there is the only value of its name, if no disclosure repeats the name. */
  lemma OwnIsAll(node: Json, name: string, m: Disclosures)
    requires node.Obj? && name != SD_DIGEST && Child(node, Key(name)).Some?
             && |ChildEntries(node, Some(name), m).present| <= 1
    ensures Named(SdItems(node), name, m) == []
  {
  }

  /** The member that is passed over is not collected, nor anything below it. */
  lemma PassedOverIsNotCollected(node: Json, rest: Path, m: Disclosures, fuel: nat)
    requires Proper(node) && Grounded(node, m, fuel) && node.Obj? && PassedOver(node, [], SD_ALG)
    requires Named(SdItems(node), SD_ALG, m) == []
    ensures !Has(Collect(node, [], m, fuel), [] + [Key(SD_ALG)] + rest)
  {
    MembersLead(node.members, [], SD_ALG, rest, m, fuel);
    DigestsLead(SdItems(node), [], SD_ALG, rest, m, fuel);
    HasConcat(CollectMembers(node.members, [], m, fuel), CollectDigests(DigestList(node), [], m, fuel),
              [] + [Key(SD_ALG)] + rest);
  }

  /**
   * On a payload and disclosures where names occur once per node along the path: the path is among the collected claims
   * if and only if the walk says present and the path does not go through the `_sd_alg` member of the payload itself.
   */
  lemma PresentIsCollected(path: ClaimPath, metadata: seq<Claim>, payload: Json, m: Disclosures, fuel: nat)
    requires path != [] && NullFree(path) && NamesOnce(path, payload, 0, m)
    requires Proper(payload) && ProperValues(m) && Grounded(payload, m, fuel)
    ensures Has(Collect(payload, [], m, fuel), KeysFrom(path, 0)) <==>
            Walk(path, metadata, payload, 0, m) == Present && !PassedOver(payload, [], path[0].value)
  {
    assert [] + KeysFrom(path, 0) == KeysFrom(path, 0);
    if !PassedOver(payload, [], path[0].value) {
      PresentIsCollectedFrom(path, metadata, payload, 0, [], m, fuel);
    } else {
      assert KeysFrom(path, 0) == [] + [Key(SD_ALG)] + KeysFrom(path, 1);
      if payload.Obj? {
        OwnIsAll(payload, SD_ALG, m);
        PassedOverIsNotCollected(payload, KeysFrom(path, 1), m, fuel);
      }
    }
  }

  /** So a mandatory claim that names `_sd_alg` is present, though the claim is never collected. */
  lemma AlgIsPresentOnly(metadata: seq<Claim>, alg: string, fuel: nat)
    ensures var payload := Obj([Member(SD_ALG, Str(alg))]);
            && StatusOf(Claim([Some(SD_ALG)], None, true), metadata, payload, map[]) == Present
            && Collect(payload, [], map[], fuel) == []
  {
    var payload := Obj([Member(SD_ALG, Str(alg))]);
    var cells := Cells(payload);
    assert cells == [Cell(Key(SD_ALG), Str(alg))];
    assert Child(payload, Key(SD_DIGEST)).None? && Child(payload, Key(SD_ALG)) == Some(Str(alg));
    SingleStep([Some(SD_ALG)], metadata, payload, 0, map[], Str(alg));
    assert CollectMembers(payload.members, [], map[], fuel) == CollectMember(payload.members[0], [], map[], fuel) by {
      assert payload.members[..0] == [];
    }
  }
}
