/** When a mandatory claim that is present stays present, whatever more is disclosed; null segments included. */
module Lasting {
  import opened Basics
  import opened Json
  import opened Packing
  import opened DigestLedger
  import opened Collecting
  import opened Presenting
  import opened Disclosing
  import opened Mandatory
  import opened PackedEntries
  import opened Verdicts

  /** The claim at `p`, if it is hidden, can be read with `m`. */
  ghost predicate RevealedAt(t: Tree, p: Path, m: Disclosures) {
    HiddenAt(t, p) ==> DigestAt(t, p) in m && p[|p| - 1] != Key("")
  }

  /**
   * `q` fits the first segments of the claim path and exists, and its members by name are readable; its elements need
   * not be.
   */
  ghost predicate MayLeadTo(path: ClaimPath, claims: Json, t: Tree, q: Path, m: Disclosures) {
    && |q| < |path| && (forall i :: 0 <= i < |q| ==> Fits(path[i], q[i])) && At(claims, q).Some?
    && MembersReadable(path, t, q, m)
  }

  ghost predicate MembersReadable(path: ClaimPath, t: Tree, q: Path, m: Disclosures)
    requires |q| <= |path|
  {
    forall n :: 0 < n <= |q| && path[n - 1].Some? ==> RevealedAt(t, q[..n], m)
  }

  lemma OneMoreMember(path: ClaimPath, t: Tree, p: Path, seg: Seg, m: Disclosures)
    requires |p| < |path| && MembersReadable(path, t, p, m) && (path[|p|].Some? ==> RevealedAt(t, p + [seg], m))
    ensures MembersReadable(path, t, p + [seg], m)
  {
    var q := p + [seg];
    assert q[..|q|] == q;
    forall n | 0 < n <= |p| ensures q[..n] == p[..n] {}
  }

  ghost predicate HasReadable(segment: Option<string>, claims: Json, t: Tree, q: Path, m: Disclosures) {
    exists seg :: Fits(segment, seg) && At(claims, q + [seg]).Some? && RevealedAt(t, q + [seg], m)
  }

  /**
   * At `q` the claim goes on: to a readable member, or through an array that shows something if it conceals anything.
   */
  ghost predicate GoesOn(path: ClaimPath, claims: Json, frame: Option<Frame>, t: Tree, q: Path, m: Disclosures)
    requires |q| < |path| && At(claims, q).Some?
  {
    match path[|q|]
    case None => At(claims, q).value.Arr? && (Conceals(frame, t, q, m) ==> HasReadable(None, claims, t, q, m))
    case Some(_) => HasReadable(path[|q|], claims, t, q, m)
  }

  lemma ShownIsReadable(claims: Json, t: Tree, q: Path, m: Disclosures)
    ensures PrefixesRevealed(t, q, m) <==> forall n :: 0 < n <= |q| ==> RevealedAt(t, q[..n], m)
  {
    forall n | 0 < n <= |q| ensures q[..n][|q[..n]| - 1] == q[n - 1] {}
  }

  lemma {:induction false} ExistsBefore(j: Json, q: Path, n: nat)
    requires n <= |q| && At(j, q).Some?
    ensures At(j, q[..n]).Some?
    decreases |q|
  {
    if n > 0 {
      assert q[..n][1..] == q[1..][..n - 1] && q[..n][0] == q[0];
      ExistsBefore(Child(j, q[0]).value, q[1..], n - 1);
    }
  }

  /** A child of something shown is shown exactly if it exists and is readable itself. */
  lemma ShownChild(claims: Json, t: Tree, q: Path, seg: Seg, m: Disclosures)
    requires IsShown(claims, t, q, m)
    ensures IsShown(claims, t, q + [seg], m) <==> At(claims, q + [seg]).Some? && RevealedAt(t, q + [seg], m)
  {
    ShownIsReadable(claims, t, q, m);
    ShownIsReadable(claims, t, q + [seg], m);
    OneMoreReadable(t, q, seg, m);
  }

  lemma OneMoreReadable(t: Tree, q: Path, seg: Seg, m: Disclosures)
    ensures var p := q + [seg];
            (forall n :: 0 < n <= |p| ==> RevealedAt(t, p[..n], m)) <==>
              (forall n :: 0 < n <= |q| ==> RevealedAt(t, q[..n], m)) && RevealedAt(t, p, m)
  {
    var p := q + [seg];
    assert p[..|p|] == p;
    forall n | 0 < n <= |q| ensures p[..n] == q[..n] {}
  }

  lemma ChildrenShown(path: ClaimPath, claims: Json, t: Tree, q: Path, m: Disclosures)
    requires |q| < |path| && IsShown(claims, t, q, m)
    ensures EndsAt(path, claims, t, q, m) <==> !HasReadable(path[|q|], claims, t, q, m)
  {
    forall seg
      ensures IsShown(claims, t, q + [seg], m) <==> At(claims, q + [seg]).Some? && RevealedAt(t, q + [seg], m) {
      ShownChild(claims, t, q, seg, m);
    }
  }

  // ---------- the condition is enough ----------

  lemma {:induction false} ShownMayLead(path: ClaimPath, claims: Json, frame: Option<Frame>, t: Tree, q: Path, n: nat,
                                        m: Disclosures, more: Disclosures)
    requires LeadsTo(path, claims, t, q, more) && n <= |q|
    requires forall p :: MayLeadTo(path, claims, t, p, m) ==> GoesOn(path, claims, frame, t, p, m)
    ensures MayLeadTo(path, claims, t, q[..n], m)
    decreases n
  {
    ExistsBefore(claims, q, n);
    if n > 0 {
      ShownMayLead(path, claims, frame, t, q, n - 1, m, more);
      var p, seg := q[..n - 1], q[n - 1];
      assert p + [seg] == q[..n];
      assert Fits(path[n - 1], q[n - 1]);
      MayLeadOn(path, claims, frame, t, p, seg, m);
    }
  }

  /** A member that the claim goes on to is readable. */
  lemma ReadableStep(path: ClaimPath, claims: Json, t: Tree, p: Path, seg: Seg, m: Disclosures)
    requires |p| < |path| && Fits(path[|p|], seg) && (path[|p|].Some? ==> HasReadable(path[|p|], claims, t, p, m))
    ensures path[|p|].Some? ==> RevealedAt(t, p + [seg], m)
  {
  }

  /** From where the claim goes on it may lead to every child that fits and exists. */
  lemma MayLeadOn(path: ClaimPath, claims: Json, frame: Option<Frame>, t: Tree, p: Path, seg: Seg, m: Disclosures)
    requires MayLeadTo(path, claims, t, p, m) && GoesOn(path, claims, frame, t, p, m)
    requires |p| + 1 < |path| && Fits(path[|p|], seg) && At(claims, p + [seg]).Some?
    ensures MayLeadTo(path, claims, t, p + [seg], m)
  {
    ReadableStep(path, claims, t, p, seg, m);
    OneMoreMember(path, t, p, seg, m);
  }

  lemma GoesOnStays(path: ClaimPath, metadata: seq<Claim>, claims: Json, frame: Option<Frame>, t: Tree, q: Path,
                    m: Disclosures, more: Disclosures)
    requires Extends(m, more) && LeadsTo(path, claims, t, q, more) && GoesOn(path, claims, frame, t, q, m)
    ensures !LosesAt(path, metadata, claims, frame, t, q, more)
            && !WithholdsAt(path, metadata, claims, frame, t, q, more)
  {
    ChildrenShown(path, claims, t, q, more);
    if HasReadable(path[|q|], claims, t, q, m) {
      var seg :| Fits(path[|q|], seg) && At(claims, q + [seg]).Some? && RevealedAt(t, q + [seg], m);
      assert RevealedAt(t, q + [seg], more);
      assert HasReadable(path[|q|], claims, t, q, more);
    }
    assert Conceals(frame, t, q, more) ==> Conceals(frame, t, q, m);
  }

  // ---------- the condition is needed ----------

  /** `m`, and the disclosures for the hidden prefixes of `q`. */
  ghost predicate AddsPrefixes(more: Disclosures, m: Disclosures, all: Disclosures, t: Tree, q: Path) {
    && Extends(m, more) && Extends(more, all)
    && (forall n :: 0 < n <= |q| && HiddenAt(t, q[..n]) ==> DigestAt(t, q[..n]) in more)
    && forall d :: d in more && d !in m ==> exists n :: 0 < n <= |q| && HiddenAt(t, q[..n]) && DigestAt(t, q[..n]) == d
  }

  ghost function WithPrefixes(m: Disclosures, all: Disclosures, t: Tree, q: Path): Disclosures {
    map d | d in all && (d in m || exists n :: 0 < n <= |q| && HiddenAt(t, q[..n]) && DigestAt(t, q[..n]) == d) ::
        all[d]
  }

  lemma WithPrefixesAdds(claims: Json, frame: Option<Frame>, env: Env, m: Disclosures, q: Path)
    requires Packable(claims, frame, env) && Chosen(m, Pack(claims, frame, env, START).value.disclosures, env)
    ensures var p := Pack(claims, frame, env, START).value;
            var all := AllOf(p.disclosures, env);
            var more := WithPrefixes(m, all, p.tree, q);
            AddsPrefixes(more, m, all, p.tree, q) && Chosen(more, p.disclosures, env)
  {
    var p := Pack(claims, frame, env, START).value;
    var all := AllOf(p.disclosures, env);
    AllIsChosen(p.disclosures, env);
    AllExtendsChosen(claims, frame, env, m);
    forall n | 0 < n <= |q| && HiddenAt(p.tree, q[..n]) ensures DigestAt(p.tree, q[..n]) in all {
      HiddenIsChosen(claims, frame, env, all, q[..n]);
    }
  }

  /** With the prefixes of `q` revealed, `q` is shown, and its children are hidden as before. */
  lemma PrefixesShow(path: ClaimPath, claims: Json, frame: Option<Frame>, t: Tree, q: Path, m: Disclosures,
                     all: Disclosures,
                     more: Disclosures)
    requires MayLeadTo(path, claims, t, q, m) && AddsPrefixes(more, m, all, t, q)
    requires DistinctDigests(t)
    ensures LeadsTo(path, claims, t, q, more)
    ensures forall seg :: RevealedAt(t, q + [seg], more) <==> RevealedAt(t, q + [seg], m)
    ensures Conceals(frame, t, q, more) <==> Conceals(frame, t, q, m)
  {
    PrefixesReadable(path, claims, t, q, m, all, more);
    ShownIsReadable(claims, t, q, more);
    forall seg | HiddenAt(t, q + [seg]) ensures DigestAt(t, q + [seg]) in more <==> DigestAt(t, q + [seg]) in m {
      ChildHasOwnDigest(t, q, seg);
    }
    assert forall seg :: Unrevealed(t, q + [seg], more) <==> Unrevealed(t, q + [seg], m);
  }

  lemma PrefixesReadable(path: ClaimPath, claims: Json, t: Tree, q: Path, m: Disclosures, all: Disclosures,
                         more: Disclosures)
    requires MayLeadTo(path, claims, t, q, m) && AddsPrefixes(more, m, all, t, q)
    ensures forall n :: 0 < n <= |q| ==> RevealedAt(t, q[..n], more)
  {
    forall n | 0 < n <= |q| ensures RevealedAt(t, q[..n], more) {
      assert q[..n][|q[..n]| - 1] == q[n - 1] && Fits(path[n - 1], q[n - 1]);
    }
  }

  ghost predicate DistinctDigests(t: Tree) {
    forall p, o :: HiddenAt(t, p) && HiddenAt(t, o) && p != o ==> DigestAt(t, p) != DigestAt(t, o)
  }

  lemma ChildHasOwnDigest(t: Tree, q: Path, seg: Seg)
    requires DistinctDigests(t) && HiddenAt(t, q + [seg])
    ensures forall n :: 0 < n <= |q| && HiddenAt(t, q[..n]) ==> DigestAt(t, q[..n]) != DigestAt(t, q + [seg])
  {
    forall n | 0 < n <= |q| && HiddenAt(t, q[..n]) ensures DigestAt(t, q[..n]) != DigestAt(t, q + [seg]) {
      assert |q[..n]| < |q + [seg]|;
    }
  }

  lemma StopsWithMore(path: ClaimPath, metadata: seq<Claim>, claims: Json, frame: Option<Frame>, t: Tree, q: Path,
                      m: Disclosures, more: Disclosures)
    requires LeadsTo(path, claims, t, q, more) && !GoesOn(path, claims, frame, t, q, m)
    requires forall seg :: RevealedAt(t, q + [seg], more) <==> RevealedAt(t, q + [seg], m)
    requires Conceals(frame, t, q, more) <==> Conceals(frame, t, q, m)
    ensures LosesAt(path, metadata, claims, frame, t, q, more) || WithholdsAt(path, metadata, claims, frame, t, q, more)
  {
    ChildrenShown(path, claims, t, q, more);
    assert HasReadable(path[|q|], claims, t, q, more) ==> HasReadable(path[|q|], claims, t, q, m);
  }

  // ---------- the theorem ----------

  /** Present now, and whatever more of the disclosures is revealed. */
  ghost predicate PresentForGood(claims: Json, frame: Option<Frame>, env: Env, m: Disclosures, claim: Claim,
                                 metadata: seq<Claim>)
    requires Packable(claims, frame, env)
  {
    var p := Pack(claims, frame, env, START).value;
    forall more :: Extends(m, more) && Chosen(more, p.disclosures, env) ==>
      StatusOf(claim, metadata, Emit(p.tree), more) == Present
  }

  /**
   * A mandatory claim of a packed payload is present and stays so, whatever more is disclosed, if and only if it goes
   * on from everything it may lead to: a named step always finds a readable member, also inside array elements that are
   * still hidden, and a null step always finds an array, which shows some element if it conceals anything.
   */
  lemma PresentIsLasting(claims: Json, frame: Option<Frame>, env: Env, m: Disclosures, claim: Claim,
                         metadata: seq<Claim>)
    requires Packable(claims, frame, env) && Chosen(m, Pack(claims, frame, env, START).value.disclosures, env)
    ensures var t := Pack(claims, frame, env, START).value.tree;
            PresentForGood(claims, frame, env, m, claim, metadata) <==>
            forall q :: MayLeadTo(claim.path, claims, t, q, m) ==> GoesOn(claim.path, claims, frame, t, q, m)
  {
    var p := Pack(claims, frame, env, START).value;
    var t := p.tree;
    if forall q :: MayLeadTo(claim.path, claims, t, q, m) ==> GoesOn(claim.path, claims, frame, t, q, m) {
      forall more | Extends(m, more) && Chosen(more, p.disclosures, env)
        ensures StatusOf(claim, metadata, Emit(t), more) == Present
      {
        StaysPresent(claims, frame, env, m, more, claim, metadata);
      }
    }
    if q :| MayLeadTo(claim.path, claims, t, q, m) && !GoesOn(claim.path, claims, frame, t, q, m) {
      var more := CanStop(claims, frame, env, m, claim, metadata, q);
    }
  }

  lemma StaysPresent(claims: Json, frame: Option<Frame>, env: Env, m: Disclosures, more: Disclosures, claim: Claim,
                     metadata: seq<Claim>)
    requires Packable(claims, frame, env) && Extends(m, more)
    requires Chosen(more, Pack(claims, frame, env, START).value.disclosures, env)
    requires var t := Pack(claims, frame, env, START).value.tree;
             forall q :: MayLeadTo(claim.path, claims, t, q, m) ==> GoesOn(claim.path, claims, frame, t, q, m)
    ensures StatusOf(claim, metadata, Emit(Pack(claims, frame, env, START).value.tree), more) == Present
  {
    var t := Pack(claims, frame, env, START).value.tree;
    ClaimVerdict(claims, frame, env, more, claim, metadata);
    forall q ensures !LosesAt(claim.path, metadata, claims, frame, t, q, more)
                     && !WithholdsAt(claim.path, metadata, claims, frame, t, q, more) {
      if LeadsTo(claim.path, claims, t, q, more) {
        ShownMayLead(claim.path, claims, frame, t, q, |q|, m, more);
        assert q[..|q|] == q;
        GoesOnStays(claim.path, metadata, claims, frame, t, q, m, more);
      }
    }
  }

  lemma CanStop(claims: Json, frame: Option<Frame>, env: Env, m: Disclosures, claim: Claim, metadata: seq<Claim>,
                q: Path)
    returns (more: Disclosures)
    requires Packable(claims, frame, env) && Chosen(m, Pack(claims, frame, env, START).value.disclosures, env)
    requires var t := Pack(claims, frame, env, START).value.tree;
             MayLeadTo(claim.path, claims, t, q, m) && !GoesOn(claim.path, claims, frame, t, q, m)
    ensures var p := Pack(claims, frame, env, START).value;
            Extends(m, more) && Chosen(more, p.disclosures, env)
            && StatusOf(claim, metadata, Emit(p.tree), more) != Present
  {
    var p := Pack(claims, frame, env, START).value;
    var all := AllOf(p.disclosures, env);
    more := WithPrefixes(m, all, p.tree, q);
    WithPrefixesAdds(claims, frame, env, m, q);
    OneDisclosurePerListedPath(claims, frame, env);
    PrefixesShow(claim.path, claims, frame, p.tree, q, m, all, more);
    ClaimVerdict(claims, frame, env, more, claim, metadata);
    StopsWithMore(claim.path, metadata, claims, frame, p.tree, q, m, more);
  }
}
