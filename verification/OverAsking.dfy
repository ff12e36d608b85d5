/** The over-asking check: does a query ask for nothing beyond what is registered? */
module OverAsking {
  import opened Basics
  import opened Json
  import opened JsonValues
  import opened ClaimsPaths

  // ---------- paths ----------

  predicate PathCovered(requested: Pointer, registered: Pointer) {
    && |registered| <= |requested|
    && forall i :: 0 <= i < |registered| ==> registered[i] == Every || registered[i] == requested[i]
  }

  /** Where the registered pointer says `null`, the requested one does not name a member. */
  predicate NullsAlign(requested: Pointer, registered: Pointer) {
    forall i :: 0 <= i < |registered| && i < |requested| && registered[i] == Every ==> !requested[i].Name?
  }

  /**
   * In every document, whatever the requested pointer selects lies at or below something the registered one selects.
   */
  ghost predicate Within(requested: Pointer, registered: Pointer) {
    forall document, location :: SelectsAt(document, requested, location) ==>
      SelectsAbove(document, registered, location)
  }

  /** The pointer selects the location or something above it. */
  predicate SelectsAbove(document: Json, pointer: Pointer, location: Path) {
    |pointer| <= |location| && SelectsAt(document, pointer, location[..|pointer|])
  }

  lemma {:induction false} CoveredSelects(document: Json, requested: Pointer, registered: Pointer, location: Path)
    requires PathCovered(requested, registered) && NullsAlign(requested, registered)
             && SelectsAt(document, requested, location)
    ensures |registered| <= |location| && SelectsAt(document, registered, location[..|registered|])
    decreases |registered|
  {
    if registered != [] {
      assert PathCovered(requested[1..], registered[1..]) && NullsAlign(requested[1..], registered[1..]) by {
        forall i | 0 <= i < |registered[1..]|
          ensures registered[1..][i] == Every || registered[1..][i] == requested[1..][i]
          ensures registered[1..][i] == Every ==> !requested[1..][i].Name?
        {
          assert registered[i + 1] == Every || registered[i + 1] == requested[i + 1];
        }
      }
      CoveredSelects(Child(document, location[0]).value, requested[1..], registered[1..], location[1..]);
      assert location[1..][..|registered| - 1] == location[..|registered|][1..];
      assert registered[0] == Every || registered[0] == requested[0];
    }
  }

  // ---------- a document that tells pointers apart ----------

  /** The segment a component selects in the witness; `null` selects position `far`. */
  function WitnessSeg(c: Component, far: nat): Seg {
    match c case Name(n) => Key(n) case Position(i) => Index(i) case Every => Index(far)
  }

  function Nulls(n: nat): seq<Json> {
    seq(n, i => Null)
  }

  /** One way down: an object with one member, or an array with nulls before the element. */
  function Witness(pointer: Pointer, far: nat): Json {
    if pointer == [] then Null
    else
      var below := Witness(pointer[1..], far);
      match pointer[0]
      case Name(n) => Obj([Member(n, below)])
      case Position(i) => Arr(Nulls(i) + [below])
      case Every => Arr(Nulls(far) + [below])
  }

  function WitnessPath(pointer: Pointer, far: nat): Path {
    if pointer == [] then [] else [WitnessSeg(pointer[0], far)] + WitnessPath(pointer[1..], far)
  }

  lemma ArrayChild(items: seq<Json>, i: nat)
    requires i < |items|
    ensures Child(Arr(items), Index(i)) == Some(items[i])
  {
    var cells := Cells(Arr(items));
    assert cells[i].seg == Index(i);
    assert DistinctSegs(cells);
    FindAt(cells, i);
  }

  lemma ObjectChild(name: string, v: Json)
    ensures Child(Obj([Member(name, v)]), Key(name)) == Some(v)
  {
    var cells := Cells(Obj([Member(name, v)]));
    assert cells[|cells| - 1] == Cell(Key(name), v);
  }

  lemma {:induction false} WitnessSelected(pointer: Pointer, far: nat)
    ensures SelectsAt(Witness(pointer, far), pointer, WitnessPath(pointer, far))
    ensures |WitnessPath(pointer, far)| == |pointer|
    ensures forall i :: 0 <= i < |pointer| ==> WitnessPath(pointer, far)[i] == WitnessSeg(pointer[i], far)
  {
    if pointer != [] {
      WitnessSelected(pointer[1..], far);
      var below := Witness(pointer[1..], far);
      match pointer[0]
      case Name(n) => ObjectChild(n, below);
      case Position(i) => ArrayChild(Nulls(i) + [below], i);
      case Every => ArrayChild(Nulls(far) + [below], far);
      assert WitnessPath(pointer, far)[1..] == WitnessPath(pointer[1..], far);
    }
  }

  /** A position beyond all those of the pointer. */
  function Beyond(pointer: Pointer): (far: nat)
    ensures forall i :: 0 <= i < |pointer| && pointer[i].Position? ==> pointer[i].index < far
  {
    if pointer == [] then 0
    else
      var rest, last := Beyond(pointer[..|pointer| - 1]), pointer[|pointer| - 1];
      if last.Position? && last.index >= rest then last.index + 1 else rest
  }

  lemma {:induction false} SelectionMatches(document: Json, pointer: Pointer, location: Path, i: nat)
    requires SelectsAt(document, pointer, location) && i < |pointer|
    ensures Selects(pointer[i], location[i])
  {
    if i > 0 {
      SelectionMatches(Child(document, location[0]).value, pointer[1..], location[1..], i - 1);
    }
  }

  /** Only a pointer that covers the requested one, with its nulls aligned, selects above the witness. */
  lemma WitnessCovers(requested: Pointer, registered: Pointer, far: nat)
    requires SelectsAbove(Witness(requested, far), registered, WitnessPath(requested, far))
    requires forall i :: 0 <= i < |registered| && registered[i].Position? ==> registered[i].index < far
    ensures PathCovered(requested, registered) && NullsAlign(requested, registered)
  {
    var document, location := Witness(requested, far), WitnessPath(requested, far);
    WitnessSelected(requested, far);
    forall i | 0 <= i < |registered|
      ensures registered[i] == Every || registered[i] == requested[i]
      ensures registered[i] == Every ==> !requested[i].Name?
    {
      SelectionMatches(document, registered, location[..|registered|], i);
      assert Selects(registered[i], location[i]) && location[i] == WitnessSeg(requested[i], far);
    }
  }

  /**
   * Covering is what it should be, with one exception: the registered pointer selects at least what the requested one
   * does, in every document, if and only if it covers it and no `null` of it stands where the requested pointer names a
   * member.
   */
  lemma CoveringIsContainment(requested: Pointer, registered: Pointer)
    ensures Within(requested, registered) <==> PathCovered(requested, registered) && NullsAlign(requested, registered)
  {
    if PathCovered(requested, registered) && NullsAlign(requested, registered) {
      forall document, location | SelectsAt(document, requested, location)
        ensures SelectsAbove(document, registered, location)
      {
        CoveredSelects(document, requested, registered, location);
      }
    }
    if Within(requested, registered) {
      var far := Beyond(registered);
      WitnessSelected(requested, far);
      assert SelectsAbove(Witness(requested, far), registered, WitnessPath(requested, far));
      WitnessCovers(requested, registered, far);
    }
  }

  /**
   * The exception at its smallest: a registered `null` covers a requested member, though it selects array elements
   * only.
   */
  lemma NullCoversName(name: string)
    ensures PathCovered([Name(name)], [Every]) && !Within([Name(name)], [Every])
  {
    CoveringIsContainment([Name(name)], [Every]);
    assert [Every][0] == Every && [Name(name)][0].Name?;
  }

  lemma PathCoveredTransitive(a: Pointer, b: Pointer, c: Pointer)
    requires PathCovered(a, b) && PathCovered(b, c)
    ensures PathCovered(a, c)
  {
  }

  // ---------- queries and registrations ----------

  datatype ClaimValue = Text(s: string) | Number(n: int) | Flag(b: bool)

  /** A claims query; without a path it is in the form of earlier drafts. */
  datatype ClaimQuery = ClaimQuery(path: Option<Pointer>, values: Option<seq<ClaimValue>>)
  datatype CredentialQuery = CredentialQuery(format: string, meta: Option<Json>, claims: Option<seq<ClaimQuery>>)

  datatype RegisteredClaim = RegisteredClaim(path: Pointer, values: Option<seq<ClaimValue>>)

  /** A registered credential, with its claims under either of two names. */
  datatype Registered = Registered(format: string, meta: Json,
                                   claim: Option<seq<RegisteredClaim>>, claims: Option<seq<RegisteredClaim>>)

  datatype Code =
    | InvalidQuery
    | CredentialNotRegistered
    | ClaimNotRegistered
    | ClaimValuesNotRegistered
    | ClaimsNotListed

  datatype Issue = Issue(code: Code, credential: nat, claim: Option<nat>)

  predicate IsWarning(i: Issue) {
    i.code == ClaimsNotListed
  }

  function Listed(r: Registered): Option<seq<RegisteredClaim>> {
    if r.claim.Some? then r.claim else r.claims
  }

  function MetaOf(q: CredentialQuery): Json {
    q.meta.GetOr(Obj([]))
  }

  predicate MatchesCredential(q: CredentialQuery, r: Registered) {
    r.format == q.format && MetaCovered(MetaOf(q), r.meta)
  }

  function Matching(q: CredentialQuery, registered: seq<Registered>): (m: seq<Registered>)
    ensures forall r :: r in m <==> r in registered && MatchesCredential(q, r)
  {
    if registered == [] then []
    else
      var last := registered[|registered| - 1];
      assert forall r :: r in registered <==> r in registered[..|registered| - 1] || r == last;
      Matching(q, registered[..|registered| - 1]) + (if MatchesCredential(q, last) then [last] else [])
  }

  function AllClaims(matching: seq<Registered>): (c: seq<RegisteredClaim>)
    ensures forall x :: x in c <==> exists r :: r in matching && x in Listed(r).GetOr([])
  {
    if matching == [] then []
    else
      var last := matching[|matching| - 1];
      assert forall r :: r in matching <==> r in matching[..|matching| - 1] || r == last;
      AllClaims(matching[..|matching| - 1]) + Listed(last).GetOr([])
  }

  predicate SomeUnlisted(matching: seq<Registered>) {
    exists r :: r in matching && Listed(r).None?
  }

  predicate CoversClaim(r: RegisteredClaim, c: ClaimQuery) {
    c.path.Some? && PathCovered(c.path.value, r.path)
  }

  predicate AllowsValues(r: RegisteredClaim, c: ClaimQuery) {
    r.values.None? || (c.values.Some? && forall v :: v in c.values.value ==> v in r.values.value)
  }

  function ClaimIssue(c: ClaimQuery, claims: seq<RegisteredClaim>): Option<Code> {
    if c.path.None? then Some(InvalidQuery)
    else if !exists r :: r in claims && CoversClaim(r, c) then Some(ClaimNotRegistered)
    else if !exists r :: r in claims && CoversClaim(r, c) && AllowsValues(r, c) then Some(ClaimValuesNotRegistered)
    else None
  }

  function ClaimIssues(queries: seq<ClaimQuery>, claims: seq<RegisteredClaim>, credential: nat): seq<Issue> {
    if queries == [] then []
    else
      var n := |queries| - 1;
      var issue := ClaimIssue(queries[n], claims);
      ClaimIssues(queries[..n], claims, credential) + if issue.Some? then [Issue(issue.value, credential, Some(n))]
      else []
  }

  function CredentialIssues(q: CredentialQuery, registered: seq<Registered>, credential: nat): seq<Issue> {
    var matching := Matching(q, registered);
    if matching == [] then [Issue(CredentialNotRegistered, credential, None)]
    else if q.claims.None? then []
    else if SomeUnlisted(matching) then [Issue(ClaimsNotListed, credential, None)]
    else ClaimIssues(q.claims.value, AllClaims(matching), credential)
  }

  function Issues(query: seq<CredentialQuery>, registered: seq<Registered>): seq<Issue> {
    if query == [] then []
    else
      var n := |query| - 1;
      Issues(query[..n], registered) + CredentialIssues(query[n], registered, n)
  }

  /** None of the issues is an error. */
  predicate Valid(issues: seq<Issue>) {
    forall i :: 0 <= i < |issues| ==> IsWarning(issues[i])
  }

  method CheckOverAsking(query: seq<CredentialQuery>, registered: seq<Registered>)
    returns (valid: bool, issues: seq<Issue>)
    ensures issues == Issues(query, registered) && valid == Valid(issues)
  {
    issues := [];
    for index := 0 to |query|
      invariant issues == Issues(query[..index], registered)
    {
      assert query[..index + 1][..index] == query[..index];
      var found := CheckCredential(query[index], registered, index);
      issues := issues + found;
    }
    assert query[..|query|] == query;
    valid := Valid(issues);
  }

  method CheckCredential(q: CredentialQuery, registered: seq<Registered>, index: nat) returns (issues: seq<Issue>)
    ensures issues == CredentialIssues(q, registered, index)
  {
    var matching := Matching(q, registered);
    if matching == [] { return [Issue(CredentialNotRegistered, index, None)]; }
    if q.claims.None? { return []; }
    var registeredClaims := AllClaims(matching);
    if SomeUnlisted(matching) { return [Issue(ClaimsNotListed, index, None)]; }
    var queries := q.claims.value;
    issues := [];
    for claimIndex := 0 to |queries|
      invariant issues == ClaimIssues(queries[..claimIndex], registeredClaims, index)
    {
      assert queries[..claimIndex + 1][..claimIndex] == queries[..claimIndex];
      var code := ClaimIssue(queries[claimIndex], registeredClaims);
      if code.Some? {
        issues := issues + [Issue(code.value, index, Some(claimIndex))];
      }
    }
    assert queries[..|queries|] == queries;
  }

  /** A position beyond all those of the registered claims. */
  function BeyondAll(claims: seq<RegisteredClaim>): (far: nat)
    ensures forall x :: x in claims ==>
              forall i :: 0 <= i < |x.path| && x.path[i].Position? ==> x.path[i].index < far
  {
    if claims == [] then 0
    else
      var n := |claims| - 1;
      var rest, last := BeyondAll(claims[..n]), Beyond(claims[n].path);
      assert forall x :: x in claims <==> x in claims[..n] || x == claims[n];
      if rest < last then last else rest
  }

  // ---------- what valid means ----------

  ghost predicate ClaimRegistered(c: ClaimQuery, q: CredentialQuery, registered: seq<Registered>) {
    exists r, x ::
        r in registered && MatchesCredential(q, r) && x in Listed(r).GetOr([]) && CoversClaim(x, c)
        && AllowsValues(x, c)
  }

  /** The request for one credential stays within the registration, as far as that lists claims. */
  ghost predicate CredentialRegistered(q: CredentialQuery, registered: seq<Registered>) {
    && (exists r :: r in registered && MatchesCredential(q, r))
    && (q.claims.Some? ==>
          || (exists r :: r in registered && MatchesCredential(q, r) && Listed(r).None?)
          || (forall c :: c in q.claims.value ==> ClaimRegistered(c, q, registered)))
  }

  lemma ClaimHasNoIssue(c: ClaimQuery, q: CredentialQuery, registered: seq<Registered>)
    ensures ClaimIssue(c, AllClaims(Matching(q, registered))).None? <==> ClaimRegistered(c, q, registered)
  {
    var claims := AllClaims(Matching(q, registered));
    if ClaimIssue(c, claims).None? {
      var x :| x in claims && CoversClaim(x, c) && AllowsValues(x, c);
      var r :| r in Matching(q, registered) && x in Listed(r).GetOr([]);
    }
    if ClaimRegistered(c, q, registered) {
      var r, x :| r in registered && MatchesCredential(q, r) && x in Listed(r).GetOr([]) && CoversClaim(x, c)
          && AllowsValues(x, c);
      assert r in Matching(q, registered);
      assert x in claims;
    }
  }

  lemma {:induction false} ClaimsHaveNoIssue(queries: seq<ClaimQuery>, claims: seq<RegisteredClaim>, credential: nat)
    ensures Valid(ClaimIssues(queries, claims, credential)) <==> ClaimIssues(queries, claims, credential) == []
    ensures ClaimIssues(queries, claims, credential) == [] <==> forall c :: c in queries ==> ClaimIssue(c, claims).None?
  {
    if queries != [] {
      var n := |queries| - 1;
      ClaimsHaveNoIssue(queries[..n], claims, credential);
      assert forall c :: c in queries <==> c in queries[..n] || c == queries[n];
      var before, all := ClaimIssues(queries[..n], claims, credential), ClaimIssues(queries, claims, credential);
      if before != [] {
        var i :| 0 <= i < |before| && !IsWarning(before[i]);
        assert !IsWarning(all[i]);
      }
      if ClaimIssue(queries[n], claims).Some? { assert !IsWarning(all[|all| - 1]); }
    }
  }

  lemma MatchingFacts(q: CredentialQuery, registered: seq<Registered>)
    ensures Matching(q, registered) != [] <==> exists r :: r in registered && MatchesCredential(q, r)
    ensures SomeUnlisted(Matching(q, registered)) <==>
              exists r :: r in registered && MatchesCredential(q, r) && Listed(r).None?
  {
    var matching := Matching(q, registered);
    if matching != [] {
      assert matching[0] in matching;
      assert matching[0] in registered && MatchesCredential(q, matching[0]);
    }
    if SomeUnlisted(matching) {
      var r :| r in matching && Listed(r).None?;
      assert r in registered && MatchesCredential(q, r);
    }
    if r :| r in registered && MatchesCredential(q, r) && Listed(r).None? {
      assert r in matching;
    }
    if r :| r in registered && MatchesCredential(q, r) {
      assert r in matching;
    }
  }

  lemma CredentialIsRegistered(q: CredentialQuery, registered: seq<Registered>, credential: nat)
    ensures Valid(CredentialIssues(q, registered, credential)) <==> CredentialRegistered(q, registered)
    ensures CredentialIssues(q, registered, credential) == [] && q.claims.Some? ==>
              forall c :: c in q.claims.value ==> ClaimRegistered(c, q, registered)
  {
    var matching := Matching(q, registered);
    var issues := CredentialIssues(q, registered, credential);
    MatchingFacts(q, registered);
    if matching == [] {
      assert !IsWarning(issues[0]);
    } else if q.claims.Some? && SomeUnlisted(matching) {
      assert issues == [Issue(ClaimsNotListed, credential, None)];
    } else if q.claims.Some? {
      ClaimsHaveNoIssue(q.claims.value, AllClaims(matching), credential);
      forall c | c in q.claims.value
        ensures ClaimIssue(c, AllClaims(matching)).None? <==> ClaimRegistered(c, q, registered) {
        ClaimHasNoIssue(c, q, registered);
      }
    }
  }

  /** The check finds a query valid exactly if every credential it asks for is registered. */
  lemma {:induction false} ValidMeansRegistered(query: seq<CredentialQuery>, registered: seq<Registered>)
    ensures Valid(Issues(query, registered)) <==> forall q :: q in query ==> CredentialRegistered(q, registered)
  {
    if query != [] {
      var n := |query| - 1;
      ValidMeansRegistered(query[..n], registered);
      CredentialIsRegistered(query[n], registered, n);
      var a, b := Issues(query[..n], registered), CredentialIssues(query[n], registered, n);
      assert Valid(a + b) <==> Valid(a) && Valid(b) by {
        if Valid(a + b) {
          forall i | 0 <= i < |a| ensures IsWarning(a[i]) { assert (a + b)[i] == a[i]; }
          forall i | 0 <= i < |b| ensures IsWarning(b[i]) { assert (a + b)[|a| + i] == b[i]; }
        }
      }
      assert forall q :: q in query <==> q in query[..n] || q == query[n];
    }
  }

  // ---------- monotonicity ----------

  /** Registering more never makes a valid query invalid. */
  lemma RegisteringMoreKeepsValid(query: seq<CredentialQuery>, registered: seq<Registered>, more: seq<Registered>)
    requires Valid(Issues(query, registered)) && forall r :: r in registered ==> r in more
    ensures Valid(Issues(query, more))
  {
    ValidMeansRegistered(query, registered);
    ValidMeansRegistered(query, more);
    forall q | q in query ensures CredentialRegistered(q, more) {
      assert CredentialRegistered(q, registered);
      if q.claims.Some? && !exists r :: r in registered && MatchesCredential(q, r) && Listed(r).None? {
        forall c | c in q.claims.value ensures ClaimRegistered(c, q, more) { assert ClaimRegistered(c, q, registered); }
      }
    }
  }

  /** A claims query with an equal or deeper path, and no more values. */
  ghost predicate NarrowerClaim(c: ClaimQuery, than: ClaimQuery) {
    && c.path.Some? && than.path.Some? && PathCovered(c.path.value, than.path.value)
    && (than.values.Some? ==> c.values.Some? && forall v :: v in c.values.value ==> v in than.values.value)
  }

  /** A credential query with narrower `meta`, and claims that are all narrower than some claim it had. */
  ghost predicate NarrowerCredential(q: CredentialQuery, than: CredentialQuery) {
    && q.format == than.format && MetaCovered(MetaOf(q), MetaOf(than))
    && (q.claims.Some? ==> than.claims.Some?)
    && (q.claims.Some? ==> forall c :: c in q.claims.value ==>
          exists d :: d in than.claims.value && NarrowerClaim(c, d))
  }

  ghost predicate ProperQuery(query: seq<CredentialQuery>, registered: seq<Registered>) {
    (forall q :: q in query ==> Proper(MetaOf(q))) && forall r :: r in registered ==> Proper(r.meta)
  }

  lemma NarrowerMatches(q: CredentialQuery, than: CredentialQuery, r: Registered)
    requires NarrowerCredential(q, than) && MatchesCredential(than, r) && Proper(MetaOf(q)) && Proper(MetaOf(than))
             && Proper(r.meta)
    ensures MatchesCredential(q, r)
  {
    MetaCoveredTransitive(MetaOf(q), MetaOf(than), r.meta);
  }

  lemma NarrowerClaimRegistered(c: ClaimQuery, d: ClaimQuery, q: CredentialQuery, than: CredentialQuery,
                                registered: seq<Registered>)
    requires NarrowerCredential(q, than) && NarrowerClaim(c, d) && ClaimRegistered(d, than, registered)
    requires Proper(MetaOf(q)) && Proper(MetaOf(than)) && forall r :: r in registered ==> Proper(r.meta)
    ensures ClaimRegistered(c, q, registered)
  {
    var r, x :| r in registered && MatchesCredential(than, r) && x in Listed(r).GetOr([]) && CoversClaim(x, d)
        && AllowsValues(x, d);
    NarrowerMatches(q, than, r);
    PathCoveredTransitive(c.path.value, d.path.value, x.path);
    assert CoversClaim(x, c) && AllowsValues(x, c);
  }

  lemma NarrowerCredentialRegistered(q: CredentialQuery, than: CredentialQuery, registered: seq<Registered>)
    requires NarrowerCredential(q, than) && CredentialRegistered(than, registered)
    requires Proper(MetaOf(q)) && Proper(MetaOf(than)) && forall r :: r in registered ==> Proper(r.meta)
    ensures CredentialRegistered(q, registered)
  {
    var r :| r in registered && MatchesCredential(than, r);
    NarrowerMatches(q, than, r);
    if q.claims.Some? {
      if exists u :: u in registered && MatchesCredential(than, u) && Listed(u).None? {
        var u :| u in registered && MatchesCredential(than, u) && Listed(u).None?;
        NarrowerMatches(q, than, u);
      } else {
        forall c | c in q.claims.value ensures ClaimRegistered(c, q, registered) {
          var d :| d in than.claims.value && NarrowerClaim(c, d);
          NarrowerClaimRegistered(c, d, q, than, registered);
        }
      }
    }
  }

  /**
   * Asking for less never makes a valid query invalid: fewer credentials or claims, deeper paths, fewer values,
   * narrower `meta`.
   */
  lemma NarrowingKeepsValid(query: seq<CredentialQuery>, narrower: seq<CredentialQuery>, registered: seq<Registered>)
    requires Valid(Issues(query, registered)) && ProperQuery(query, registered) && ProperQuery(narrower, registered)
    requires forall q :: q in narrower ==> exists p :: p in query && NarrowerCredential(q, p)
    ensures Valid(Issues(narrower, registered))
  {
    ValidMeansRegistered(query, registered);
    ValidMeansRegistered(narrower, registered);
    forall q | q in narrower ensures CredentialRegistered(q, registered) {
      var p :| p in query && NarrowerCredential(q, p);
      NarrowerCredentialRegistered(q, p, registered);
    }
  }

  lemma {:induction false} NoIssuesPart(query: seq<CredentialQuery>, registered: seq<Registered>, i: nat)
    requires i < |query| && Issues(query, registered) == []
    ensures CredentialIssues(query[i], registered, i) == []
  {
    if i < |query| - 1 {
      NoIssuesPart(query[..|query| - 1], registered, i);
    }
  }

  /** A registered claim of some matching credential. */
  ghost predicate IsMatchingClaim(x: RegisteredClaim, q: CredentialQuery, registered: seq<Registered>) {
    exists r :: r in registered && MatchesCredential(q, r) && x in Listed(r).GetOr([])
  }

  /**
   * In this document the registered claims of the matching credentials select the location or something it lies below.
   */
  ghost predicate LocationRegistered(document: Json, location: Path, q: CredentialQuery, registered: seq<Registered>) {
    exists x :: IsMatchingClaim(x, q, registered) && SelectsAbove(document, x.path, location)
  }

  /**
   * In every document each location that a pointer selects is registered, if and only if a single registered claim of a
   * matching credential covers the pointer with all its nulls aligned.
   */
  lemma WithinRegistration(q: CredentialQuery, registered: seq<Registered>, requested: Pointer)
    ensures (forall document, location :: SelectsAt(document, requested, location) ==>
               LocationRegistered(document, location, q, registered)) <==>
            exists x ::
                IsMatchingClaim(x, q, registered) && PathCovered(requested, x.path) && NullsAlign(requested, x.path)
  {
    var claims := AllClaims(Matching(q, registered));
    forall x ensures x in claims <==> IsMatchingClaim(x, q, registered) {
      if IsMatchingClaim(x, q, registered) {
        var r :| r in registered && MatchesCredential(q, r) && x in Listed(r).GetOr([]);
        assert r in Matching(q, registered);
      }
    }
    if x :| IsMatchingClaim(x, q, registered) && PathCovered(requested, x.path) && NullsAlign(requested, x.path) {
      forall document, location | SelectsAt(document, requested, location)
        ensures LocationRegistered(document, location, q, registered)
      {
        CoveredSelects(document, requested, x.path, location);
        assert SelectsAbove(document, x.path, location);
      }
    }
    if forall document, location :: SelectsAt(document, requested, location) ==>
         LocationRegistered(document, location, q, registered)
    {
      var far := BeyondAll(claims);
      WitnessSelected(requested, far);
      var document, location := Witness(requested, far), WitnessPath(requested, far);
      var x :| IsMatchingClaim(x, q, registered) && SelectsAbove(document, x.path, location);
      WitnessCovers(requested, x.path, far);
    }
  }

  /**
   * If the check finds nothing at all, each requested claim has a registered claim of a matching credential that covers
   * it and allows its values; and in every document each location it selects lies at or below one that a registered
   * claim of a matching credential selects, if and only if some such claim covers it with all its nulls aligned.
   */
  lemma NoIssuesMeansWithin(query: seq<CredentialQuery>, registered: seq<Registered>, i: nat, c: ClaimQuery)
    requires Issues(query, registered) == [] && i < |query| && query[i].claims.Some? && c in query[i].claims.value
    ensures c.path.Some?
    ensures exists x ::
              IsMatchingClaim(x, query[i], registered) && AllowsValues(x, c) && PathCovered(c.path.value, x.path)
    ensures (forall document, location :: SelectsAt(document, c.path.value, location) ==>
               LocationRegistered(document, location, query[i], registered)) <==>
            exists x ::
              && IsMatchingClaim(x, query[i], registered) && PathCovered(c.path.value, x.path)
              && NullsAlign(c.path.value, x.path)
  {
    NoIssuesPart(query, registered, i);
    CredentialIsRegistered(query[i], registered, i);
    var r, x :| r in registered && MatchesCredential(query[i], r) && x in Listed(r).GetOr([]) && CoversClaim(x, c)
        && AllowsValues(x, c);
    assert IsMatchingClaim(x, query[i], registered);
    WithinRegistration(query[i], registered, c.path.value);
  }
}
