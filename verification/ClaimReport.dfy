/** `verifyClaimsAgainstTypeMetadata`: the five lists it reports, and why the list of extra claims loses nothing. */
module ClaimReport {
  import opened Basics
  import opened Json
  import opened Collecting
  import opened Collector
  import opened Presenting
  import opened Mandatory

  const REGISTERED_CLAIMS := ["iss", "nbf", "exp", "iat", "sub", "cnf", "vct", "vct#integrity", "status"]

  predicate SegMatches(seg: Option<string>, present: Seg) {
    if seg.None? then present.Index? else present == Key(seg.value)
  }

  predicate SegmentsMatch(claimPath: ClaimPath, present: Path, length: nat)
    requires length <= |claimPath| && length <= |present|
  {
    forall i :: 0 <= i < length ==> SegMatches(claimPath[i], present[i])
  }

  predicate ClaimPathMatches(claimPath: ClaimPath, present: Path) {
    |claimPath| == |present| && SegmentsMatch(claimPath, present, |claimPath|)
  }

  /** The claim path with every index as `null`. */
  function Canonical(path: Path): (r: ClaimPath)
    ensures |r| == |path|
  {
    seq(|path|, i requires 0 <= i < |path| => SegName(path[i]))
  }

  predicate HasDeclaredChildren(metadata: seq<Claim>, path: ClaimPath) {
    exists i :: 0 <= i < |metadata| && path < metadata[i].path
  }

  predicate RegisteredCovered(metadata: seq<Claim>, path: Path) {
    && path != [] && path[0].Key? && path[0].name in REGISTERED_CLAIMS
    && !exists i :: 0 <= i < |metadata| && metadata[i].path != [] && metadata[i].path[0] == Some(path[0].name)
  }

  predicate CoveredBy(mc: Claim, metadata: seq<Claim>, path: Path) {
    || (|path| < |mc.path| && SegmentsMatch(mc.path, path, |path|))
    || (|path| > |mc.path| && SegmentsMatch(mc.path, path, |mc.path|) && !HasDeclaredChildren(metadata, mc.path))
  }

  predicate IsCovered(metadata: seq<Claim>, path: Path) {
    RegisteredCovered(metadata, path) || exists i :: 0 <= i < |metadata| && CoveredBy(metadata[i], metadata, path)
  }

  predicate MatchedBySome(metadata: seq<Claim>, path: Path) {
    exists i :: 0 <= i < |metadata| && ClaimPathMatches(metadata[i].path, path)
  }

  /** No metadata claim matches the path, and it is not covered. */
  predicate IsExtra(metadata: seq<Claim>, path: Path) {
    !MatchedBySome(metadata, path) && !IsCovered(metadata, path)
  }

  // ---------- matching depends only on the canonical path ----------

  lemma MatchesCanonical(claimPath: ClaimPath, present: Path, length: nat)
    requires length <= |claimPath| && length <= |present|
    ensures SegmentsMatch(claimPath, present, length) <==> claimPath[..length] == Canonical(present)[..length]
  {
    forall i | 0 <= i < length
      ensures SegMatches(claimPath[i], present[i]) <==> claimPath[i] == Canonical(present)[i] {}
    if SegmentsMatch(claimPath, present, length) {
      assert forall i :: 0 <= i < length ==> SegMatches(claimPath[i], present[i]);
    } else {
      var i :| 0 <= i < length && !SegMatches(claimPath[i], present[i]);
      assert claimPath[..length][i] != Canonical(present)[..length][i];
    }
  }

  /** A claim at or below one that nothing matches or covers is itself neither matched nor covered. */
  lemma ExtraGoesDown(metadata: seq<Claim>, top: Path, path: Path)
    requires top != [] && IsExtra(metadata, top) && Canonical(top) <= Canonical(path)
    ensures IsExtra(metadata, path)
  {
    assert SegName(path[0]) == Canonical(path)[0] == Canonical(top)[0] == SegName(top[0]);
    forall i | 0 <= i < |metadata|
      ensures !ClaimPathMatches(metadata[i].path, path) && !CoveredBy(metadata[i], metadata, path) {
      NotMatchedBelow(metadata[i], metadata, top, path);
    }
  }

  lemma NotMatchedBelow(mc: Claim, metadata: seq<Claim>, top: Path, path: Path)
    requires !ClaimPathMatches(mc.path, top) && !CoveredBy(mc, metadata, top) && Canonical(top) <= Canonical(path)
    ensures !ClaimPathMatches(mc.path, path) && !CoveredBy(mc, metadata, path)
  {
    var n := if |mc.path| < |path| then |mc.path| else |path|;
    var k := if |mc.path| < |top| then |mc.path| else |top|;
    MatchesCanonical(mc.path, path, n);
    MatchesCanonical(mc.path, top, k);
    assert Canonical(top)[..k] == Canonical(path)[..k];
    if mc.path[..n] == Canonical(path)[..n] {
      assert mc.path[..k] == mc.path[..n][..k] == Canonical(path)[..k];
    }
  }

  // ---------- sets of claim paths, in the order of first insertion ----------

  function Added(paths: seq<ClaimPath>, path: ClaimPath): seq<ClaimPath> {
    if path in paths then paths else paths + [path]
  }

  /** A `Map` keyed by the JSON text of the path. */
  class ClaimPathSet {
    var paths: seq<ClaimPath>

    constructor ()
      ensures paths == []
    {
      paths := [];
    }

    method Add(path: ClaimPath)
      modifies this
      ensures paths == Added(old(paths), path)
    {
      if path !in paths {
        paths := paths + [path];
      }
    }
  }

  /** The canonical paths of the extra claims, each once, in the order of their first occurrence. */
  function ExtraPaths(metadata: seq<Claim>, present: seq<PresentClaim>): (r: seq<ClaimPath>)
    ensures forall i, j :: 0 <= i < j < |r| ==> r[i] != r[j]
    ensures forall p :: p in r <==>
              exists i :: 0 <= i < |present| && IsExtra(metadata, present[i].path) && Canonical(present[i].path) == p
  {
    if present == [] then []
    else
      var n := |present| - 1;
      var before := ExtraPaths(metadata, present[..n]);
      assert forall i :: 0 <= i < n ==> present[..n][i] == present[i];
      if IsExtra(metadata, present[n].path) then Added(before, Canonical(present[n].path)) else before
  }

  predicate HasShorter(paths: seq<ClaimPath>, path: ClaimPath) {
    exists i :: 0 <= i < |paths| && paths[i] < path
  }

  /** The paths of `from` that do not lie below a path of `all`. */
  function Topmost(from: seq<ClaimPath>, all: seq<ClaimPath>): (r: seq<ClaimPath>)
    ensures forall p :: p in r <==> p in from && !HasShorter(all, p)
  {
    if from == [] then []
    else
      var n := |from| - 1;
      assert forall p :: p in from <==> p in from[..n] || p == from[n];
      Topmost(from[..n], all) + (if HasShorter(all, from[n]) then [] else [from[n]])
  }

  function ReportedExtra(metadata: Option<seq<Claim>>, present: seq<PresentClaim>): seq<ClaimPath> {
    if metadata.None? then []
    else
      var paths := ExtraPaths(metadata.value, present);
      Topmost(paths, paths)
  }

  /** Every path has a shortest prefix among the paths. */
  lemma {:induction false} HasTopmost(paths: seq<ClaimPath>, path: ClaimPath) returns (top: ClaimPath)
    requires path in paths
    ensures top in paths && top <= path && !HasShorter(paths, top)
    decreases |path|
  {
    if HasShorter(paths, path) {
      var i :| 0 <= i < |paths| && paths[i] < path;
      top := HasTopmost(paths, paths[i]);
      assert top <= path;
    } else {
      top := path;
    }
  }

  /**
   * The reported extra claims are a lossless compression: none is a prefix of another, and a claim present in the
   * payload is extra if and only if some reported path is a prefix of its canonical path.
   */
  lemma ExtraClaimsAreLossless(metadata: seq<Claim>, present: seq<PresentClaim>)
    requires forall i :: 0 <= i < |present| ==> present[i].path != []
    ensures var reported := ReportedExtra(Some(metadata), present);
            && (forall p, q :: p in reported && q in reported && p <= q ==> p == q)
            && forall c :: c in present ==>
                 (IsExtra(metadata, c.path) <==> exists p :: p in reported && p <= Canonical(c.path))
  {
    var paths := ExtraPaths(metadata, present);
    var reported := ReportedExtra(Some(metadata), present);
    forall p, q | p in reported && q in reported && p <= q ensures p == q {
      var i :| 0 <= i < |paths| && paths[i] == p;
      assert paths[i] < q ==> HasShorter(paths, q);
    }
    forall c | c in present ensures IsExtra(metadata, c.path) <==> exists p :: p in reported && p <= Canonical(c.path) {
      if IsExtra(metadata, c.path) {
        var i :| 0 <= i < |present| && present[i] == c;
        assert Canonical(c.path) in paths;
        var top := HasTopmost(paths, Canonical(c.path));
        assert top in reported;
      }
      if exists p :: p in reported && p <= Canonical(c.path) {
        var p :| p in reported && p <= Canonical(c.path);
        var i :| 0 <= i < |present| && IsExtra(metadata, present[i].path) && Canonical(present[i].path) == p;
        ExtraGoesDown(metadata, present[i].path, c.path);
      }
    }
  }

  // ---------- the report ----------

  datatype Report = Report(
    extraClaims: seq<ClaimPath>,
    missingMandatory: seq<ClaimPath>,
    undisclosedMandatory: seq<ClaimPath>,
    notSelectivelyDisclosable: seq<ClaimPath>,
    selectivelyDisclosable: seq<ClaimPath>)

  /** A present claim breaks the policy of a metadata claim that matches it. */
  predicate Violates(mc: Claim, c: PresentClaim, policy: SdPolicy) {
    ClaimPathMatches(mc.path, c.path) && mc.sd == Some(policy)
    && ((policy == Always && !c.isSd) || (policy == Never && c.isSd))
  }

  function AddedIf(paths: seq<ClaimPath>, path: ClaimPath, condition: bool): seq<ClaimPath> {
    if condition then Added(paths, path) else paths
  }

  /** With the metadata claims whose policy one present claim breaks. */
  function WithViolated(paths: seq<ClaimPath>, metadata: seq<Claim>, c: PresentClaim,
                        policy: SdPolicy): seq<ClaimPath> {
    if metadata == [] then paths
    else
      var mc := metadata[|metadata| - 1];
      AddedIf(WithViolated(paths, metadata[..|metadata| - 1], c, policy), mc.path, Violates(mc, c, policy))
  }

  /** The paths of the metadata claims whose policy some present claim breaks, in the order in which that shows. */
  function Violated(metadata: seq<Claim>, present: seq<PresentClaim>, policy: SdPolicy): seq<ClaimPath> {
    if present == [] then []
    else WithViolated(Violated(metadata, present[..|present| - 1], policy), metadata, present[|present| - 1], policy)
  }

  /** The paths of the mandatory claims among `some` with a status, in order. */
  function MandatoryWith(some: seq<Claim>, metadata: seq<Claim>, payload: Json, m: Disclosures,
                         status: Status): seq<ClaimPath> {
    if some == [] then []
    else
      var mc := some[|some| - 1];
      AddedIf(MandatoryWith(some[..|some| - 1], metadata, payload, m, status), mc.path,
              mc.mandatory && StatusOf(mc, metadata, payload, m) == status)
  }

  ghost predicate Distinct(paths: seq<ClaimPath>) {
    forall i, j :: 0 <= i < j < |paths| ==> paths[i] != paths[j]
  }

  lemma {:induction false} WithViolatedLists(paths: seq<ClaimPath>, metadata: seq<Claim>, c: PresentClaim,
                                             policy: SdPolicy)
    requires Distinct(paths)
    ensures Distinct(WithViolated(paths, metadata, c, policy))
    ensures forall p :: p in WithViolated(paths, metadata, c, policy) <==>
                        p in paths || exists mc :: mc in metadata && Violates(mc, c, policy) && mc.path == p
  {
    if metadata != [] {
      WithViolatedLists(paths, metadata[..|metadata| - 1], c, policy);
      assert metadata == metadata[..|metadata| - 1] + [metadata[|metadata| - 1]];
    }
  }

  /**
   * The list of broken policies has each path once, and exactly those of which some present claim breaks the policy.
   */
  lemma {:induction false} ViolatedLists(metadata: seq<Claim>, present: seq<PresentClaim>, policy: SdPolicy)
    ensures Distinct(Violated(metadata, present, policy))
    ensures forall p :: p in Violated(metadata, present, policy) <==>
                        exists mc, c :: mc in metadata && c in present && Violates(mc, c, policy) && mc.path == p
  {
    if present != [] {
      var front, last := present[..|present| - 1], present[|present| - 1];
      ViolatedLists(metadata, front, policy);
      WithViolatedLists(Violated(metadata, front, policy), metadata, last, policy);
      assert present == front + [last];
    }
  }

  /** The lists of mandatory claims have each path once, and exactly those of the claims with that status. */
  lemma {:induction false} MandatoryLists(some: seq<Claim>, metadata: seq<Claim>, payload: Json, m: Disclosures,
                                          status: Status)
    ensures Distinct(MandatoryWith(some, metadata, payload, m, status))
    ensures forall p :: p in MandatoryWith(some, metadata, payload, m, status) <==>
                        exists mc ::
                            mc in some && mc.mandatory && StatusOf(mc, metadata, payload, m) == status && mc.path == p
  {
    if some != [] {
      MandatoryLists(some[..|some| - 1], metadata, payload, m, status);
      assert some == some[..|some| - 1] + [some[|some| - 1]];
    }
  }

  lemma {:induction false} NotMatchedBreaksNothing(paths: seq<ClaimPath>, metadata: seq<Claim>, c: PresentClaim,
                                                   policy: SdPolicy)
    requires !MatchedBySome(metadata, c.path)
    ensures WithViolated(paths, metadata, c, policy) == paths
  {
    if metadata != [] {
      var n := |metadata| - 1;
      assert forall i :: 0 <= i < n ==> metadata[..n][i] == metadata[i];
      NotMatchedBreaksNothing(paths, metadata[..n], c, policy);
    }
  }

  method CheckPolicies(metadata: seq<Claim>, c: PresentClaim, always: ClaimPathSet, never: ClaimPathSet)
    requires always != never
    modifies always, never
    ensures always.paths == WithViolated(old(always.paths), metadata, c, Always)
    ensures never.paths == WithViolated(old(never.paths), metadata, c, Never)
  {
    for j := 0 to |metadata|
      invariant always.paths == WithViolated(old(always.paths), metadata[..j], c, Always)
      invariant never.paths == WithViolated(old(never.paths), metadata[..j], c, Never)
    {
      var mc := metadata[j];
      assert metadata[..j + 1][..j] == metadata[..j];
      if ClaimPathMatches(mc.path, c.path) {
        if mc.sd == Some(Always) && !c.isSd {
          always.Add(mc.path);
        } else if mc.sd == Some(Never) && c.isSd {
          never.Add(mc.path);
        }
      }
    }
    assert metadata[..|metadata|] == metadata;
  }

  method CheckMandatory(metadata: seq<Claim>, payload: Json, m: Disclosures)
    returns (missing: seq<ClaimPath>, undisclosed: seq<ClaimPath>)
    ensures missing == MandatoryWith(metadata, metadata, payload, m, Missing)
    ensures undisclosed == MandatoryWith(metadata, metadata, payload, m, Undisclosed)
  {
    var missingSet := new ClaimPathSet();
    var undisclosedSet := new ClaimPathSet();
    for j := 0 to |metadata|
      invariant missingSet.paths == MandatoryWith(metadata[..j], metadata, payload, m, Missing)
      invariant undisclosedSet.paths == MandatoryWith(metadata[..j], metadata, payload, m, Undisclosed)
    {
      assert metadata[..j + 1][..j] == metadata[..j];
      if metadata[j].mandatory {
        var status := MandatoryClaimStatus(metadata[j], metadata, payload, m);
        if status == Missing {
          missingSet.Add(metadata[j].path);
        } else if status == Undisclosed {
          undisclosedSet.Add(metadata[j].path);
        }
      }
    }
    assert metadata[..|metadata|] == metadata;
    missing, undisclosed := missingSet.paths, undisclosedSet.paths;
  }

  /** The report on the collected claims. */
  function ReportOn(claims: Option<seq<Claim>>, present: seq<PresentClaim>, payload: Json, m: Disclosures): Report {
    var metadata := claims.GetOr([]);
    Report(ReportedExtra(claims, present),
           MandatoryWith(metadata, metadata, payload, m, Missing),
               MandatoryWith(metadata, metadata, payload, m, Undisclosed),
           Violated(metadata, present, Always), Violated(metadata, present, Never))
  }

  /** The whole report, for a payload whose disclosures nest at most `fuel` deep. */
  method VerifyClaims(claims: Option<seq<Claim>>, payload: Json, m: Disclosures, ghost fuel: nat) returns (r: Report)
    requires Grounded(payload, m, fuel)
    ensures r == ReportOn(claims, Collect(payload, [], m, fuel), payload, m)
  {
    var metadata := claims.GetOr([]);
    var present := CollectPresentClaims(payload, m, fuel);
    var extra := new ClaimPathSet();
    var always := new ClaimPathSet();
    var never := new ClaimPathSet();
    for k := 0 to |present|
      invariant claims.Some? ==> extra.paths == ExtraPaths(metadata, present[..k])
      invariant claims.None? ==> extra.paths == []
      invariant always.paths == Violated(metadata, present[..k], Always)
      invariant never.paths == Violated(metadata, present[..k], Never)
    {
      assert present[..k + 1][..k] == present[..k];
      if !MatchedBySome(metadata, present[k].path) {
        NotMatchedBreaksNothing(always.paths, metadata, present[k], Always);
        NotMatchedBreaksNothing(never.paths, metadata, present[k], Never);
        if claims.Some? && !IsCovered(metadata, present[k].path) {
          extra.Add(Canonical(present[k].path));
        }
      } else {
        CheckPolicies(metadata, present[k], always, never);
      }
    }
    assert present[..|present|] == present;
    var missing, undisclosed := CheckMandatory(metadata, payload, m);
    r := Report(Topmost(extra.paths, extra.paths), missing, undisclosed, always.paths, never.paths);
  }

  /** The report on any payload: what it lists as extra stands for exactly the extra claims that are there. */
  lemma ReportIsLossless(metadata: seq<Claim>, payload: Json, m: Disclosures, fuel: nat)
    ensures var present := Collect(payload, [], m, fuel);
            var reported := ReportedExtra(Some(metadata), present);
            && (forall p, q :: p in reported && q in reported && p <= q ==> p == q)
            && forall c :: c in present ==>
                 (IsExtra(metadata, c.path) <==> exists p :: p in reported && p <= Canonical(c.path))
  {
    Below(payload, [], m, fuel);
    ExtraClaimsAreLossless(metadata, Collect(payload, [], m, fuel));
  }
}
