/** Merging SD-JWT VC Type Metadata documents along an `extends` chain. */
module MetadataMerge {
  import opened Basics
  import opened Json

  datatype ClaimMetadata = ClaimMetadata(path: ClaimPath, details: Json)

  /**
   * A document: its claims, the document it extends, and its other members, of which one may be there but undefined.
   */
  datatype TypeMetadata = TypeMetadata(
    claims: Option<seq<ClaimMetadata>>,
    base: Option<string>,
    members: map<string, Option<Json>>)

  const DISPLAY := "display"

  predicate Matches(c: ClaimMetadata, path: ClaimPath) {
    c.path == path
  }

  function FindIndex(claims: seq<ClaimMetadata>, path: ClaimPath): (r: Option<nat>)
    ensures r.Some? ==> r.value < |claims| && claims[r.value].path == path
    ensures r.None? ==> forall i :: 0 <= i < |claims| ==> claims[i].path != path
  {
    if claims == [] then None
    else if Matches(claims[0], path) then Some(0)
    else match FindIndex(claims[1..], path) case None => None case Some(i) => Some(i + 1)
  }

  function Removed(claims: seq<ClaimMetadata>, i: nat): seq<ClaimMetadata>
    requires i < |claims|
  {
    claims[..i] + claims[i + 1..]
  }

  /**
   * The claims of the parent, each replaced by a child claim with its path if there is one left, and the other child
   * claims.
   */
  function MergedClaims(parent: seq<ClaimMetadata>, child: seq<ClaimMetadata>): seq<ClaimMetadata>
    decreases |parent|
  {
    if parent == [] then child
    else
      match FindIndex(child, parent[0].path)
      case None => [parent[0]] + MergedClaims(parent[1..], child)
      case Some(i) => [child[i]] + MergedClaims(parent[1..], Removed(child, i))
  }

  method MergeClaims(parent: seq<ClaimMetadata>, child: seq<ClaimMetadata>) returns (claims: seq<ClaimMetadata>)
    ensures claims == MergedClaims(parent, child)
  {
    var childClaims := child;
    claims := [];
    for k := 0 to |parent|
      invariant claims + MergedClaims(parent[k..], childClaims) == MergedClaims(parent, child)
    {
      assert parent[k..][1..] == parent[k + 1..];
      var index := FindIndex(childClaims, parent[k].path);
      if index.None? {
        Associates(claims, [parent[k]], MergedClaims(parent[k + 1..], childClaims));
        claims := claims + [parent[k]];
      } else {
        Associates(claims, [childClaims[index.value]],
                   MergedClaims(parent[k + 1..], Removed(childClaims, index.value)));
        claims := claims + [childClaims[index.value]];
        childClaims := Removed(childClaims, index.value);
      }
    }
    claims := claims + childClaims;
  }

  function Spread(parent: map<string, Option<Json>>, child: map<string, Option<Json>>): map<string, Option<Json>> {
    parent + child
  }

  function Defined(t: TypeMetadata, name: string): Option<Json> {
    if name in t.members then t.members[name] else None
  }

  function Merged(parent: TypeMetadata, child: TypeMetadata): TypeMetadata {
    var members := Spread(parent.members, child.members);
    TypeMetadata(
      if parent.claims.Some? || child.claims.Some?
         then Some(MergedClaims(parent.claims.GetOr([]), child.claims.GetOr([]))) else None,
      if child.base.Some? then child.base else parent.base,
      if Defined(child, DISPLAY).None?
         && Defined(parent, DISPLAY).Some? then members[DISPLAY := Defined(parent, DISPLAY)]
         else members)
  }

  method MergeTypeMetadata(parent: TypeMetadata, child: TypeMetadata) returns (merged: TypeMetadata)
    ensures merged == Merged(parent, child)
  {
    merged := TypeMetadata(
      if child.claims.Some? then child.claims else parent.claims,
      if child.base.Some? then child.base else parent.base,
      Spread(parent.members, child.members));
    if parent.claims.Some? || child.claims.Some? {
      var claims := MergeClaims(parent.claims.GetOr([]), child.claims.GetOr([]));
      merged := merged.(claims := Some(claims));
    }
    if Defined(child, DISPLAY).None? && Defined(parent, DISPLAY).Some? {
      merged := merged.(members := merged.members[DISPLAY := Defined(parent, DISPLAY)]);
    }
  }

  // ---------- what merging means when no document has a path twice ----------

  ghost predicate Unique(claims: seq<ClaimMetadata>) {
    forall i, j :: 0 <= i < j < |claims| ==> claims[i].path != claims[j].path
  }

  ghost function Paths(claims: seq<ClaimMetadata>): set<ClaimPath> {
    set i | 0 <= i < |claims| :: claims[i].path
  }

  /** The claim with this path. */
  function Lookup(claims: seq<ClaimMetadata>, path: ClaimPath): Option<ClaimMetadata> {
    match FindIndex(claims, path) case None => None case Some(i) => Some(claims[i])
  }

  function Over(parent: ClaimMetadata, child: seq<ClaimMetadata>): ClaimMetadata {
    Lookup(child, parent.path).GetOr(parent)
  }

  /** The claims of the parent, in their order, each overridden by the child. */
  function Overridden(parent: seq<ClaimMetadata>, child: seq<ClaimMetadata>): (r: seq<ClaimMetadata>)
    ensures |r| == |parent|
  {
    seq(|parent|, i requires 0 <= i < |parent| => Over(parent[i], child))
  }

  /** The claims whose path is not among these, in their order. */
  ghost function Outside(claims: seq<ClaimMetadata>, paths: set<ClaimPath>): seq<ClaimMetadata> {
    if claims == [] then []
    else (if claims[0].path in paths then [] else [claims[0]]) + Outside(claims[1..], paths)
  }

  lemma {:induction false} LookupIs(claims: seq<ClaimMetadata>, i: nat)
    requires Unique(claims) && i < |claims|
    ensures Lookup(claims, claims[i].path) == Some(claims[i])
  {
    if i > 0 {
      LookupIs(claims[1..], i - 1);
    }
  }

  lemma LookupFinds(claims: seq<ClaimMetadata>, path: ClaimPath)
    ensures Lookup(claims, path).Some? <==> path in Paths(claims)
    ensures Lookup(claims, path).Some? ==> Lookup(claims, path).value.path == path
  {
  }

  lemma {:induction false} LookupWithout(claims: seq<ClaimMetadata>, i: nat, path: ClaimPath)
    requires i < |claims| && claims[i].path != path
    ensures Lookup(Removed(claims, i), path) == Lookup(claims, path)
  {
    var r := Removed(claims, i);
    if i == 0 {
      assert r == claims[1..];
    } else {
      assert r[1..] == Removed(claims[1..], i - 1);
      LookupWithout(claims[1..], i - 1, path);
      assert r[0] == claims[0];
    }
  }

  lemma RemovedIsUnique(claims: seq<ClaimMetadata>, i: nat)
    requires Unique(claims) && i < |claims|
    ensures Unique(Removed(claims, i))
  {
  }

  lemma {:induction false} OutsideWithout(claims: seq<ClaimMetadata>, i: nat, paths: set<ClaimPath>)
    requires Unique(claims) && i < |claims|
    ensures Outside(Removed(claims, i), paths) == Outside(claims, paths + {claims[i].path})
  {
    var r := Removed(claims, i);
    if i == 0 {
      assert r == claims[1..];
      OutsideMore(claims[1..], paths, claims[0].path);
    } else {
      assert r[1..] == Removed(claims[1..], i - 1) && r[0] == claims[0];
      OutsideWithout(claims[1..], i - 1, paths);
    }
  }

  lemma {:induction false} OutsideMore(claims: seq<ClaimMetadata>, paths: set<ClaimPath>, path: ClaimPath)
    requires forall i :: 0 <= i < |claims| ==> claims[i].path != path
    ensures Outside(claims, paths) == Outside(claims, paths + {path})
  {
    if claims != [] {
      OutsideMore(claims[1..], paths, path);
    }
  }

  lemma {:induction false} OutsideNothing(claims: seq<ClaimMetadata>)
    ensures Outside(claims, {}) == claims
  {
    if claims != [] {
      OutsideNothing(claims[1..]);
    }
  }

  lemma OverriddenStep(parent: seq<ClaimMetadata>, child: seq<ClaimMetadata>)
    requires parent != []
    ensures Overridden(parent, child) == [Over(parent[0], child)] + Overridden(parent[1..], child)
  {
  }

  lemma PathsStep(parent: seq<ClaimMetadata>)
    requires parent != []
    ensures Paths(parent) == Paths(parent[1..]) + {parent[0].path}
  {
    forall p | p in Paths(parent) ensures p in Paths(parent[1..]) + {parent[0].path} {
      var i :| 0 <= i < |parent| && parent[i].path == p;
      if i > 0 { assert parent[1..][i - 1].path == p; }
    }
    forall p | p in Paths(parent[1..]) ensures p in Paths(parent) {
      var i :| 0 <= i < |parent[1..]| && parent[1..][i].path == p;
      assert parent[i + 1].path == p;
    }
  }

  lemma OverriddenWithout(parent: seq<ClaimMetadata>, child: seq<ClaimMetadata>, i: nat)
    requires i < |child| && forall k :: 0 <= k < |parent| ==> parent[k].path != child[i].path
    ensures Overridden(parent, Removed(child, i)) == Overridden(parent, child)
  {
    forall k | 0 <= k < |parent| ensures Over(parent[k], Removed(child, i)) == Over(parent[k], child) {
      LookupWithout(child, i, parent[k].path);
    }
  }

  /** Merging keeps the parent's order, lets the child override, and puts new child claims after it. */
  lemma {:induction false} MergeIsOverride(parent: seq<ClaimMetadata>, child: seq<ClaimMetadata>)
    requires Unique(parent) && Unique(child)
    ensures MergedClaims(parent, child) == Overridden(parent, child) + Outside(child, Paths(parent))
    decreases |parent|
  {
    if parent == [] {
      OutsideNothing(child);
      assert Paths(parent) == {};
    } else {
      var p, rest := parent[0], parent[1..];
      PathsStep(parent);
      OverriddenStep(parent, child);
      Associates([Over(p, child)], Overridden(rest, child), Outside(child, Paths(parent)));
      match FindIndex(child, p.path)
      case None =>
        MergeIsOverride(rest, child);
        OutsideMore(child, Paths(rest), p.path);
      case Some(i) =>
        RemovedIsUnique(child, i);
        MergeIsOverride(rest, Removed(child, i));
        OutsideWithout(child, i, Paths(rest));
        OverriddenWithout(rest, child, i);
    }
  }

  lemma {:induction false} OutsideFacts(claims: seq<ClaimMetadata>, paths: set<ClaimPath>)
    requires Unique(claims)
    ensures Unique(Outside(claims, paths)) && Paths(Outside(claims, paths)) == Paths(claims) - paths
  {
    if claims != [] {
      OutsideFacts(claims[1..], paths);
      PathsStep(claims);
      var rest := Outside(claims[1..], paths);
      if claims[0].path !in paths {
        var r := Outside(claims, paths);
        assert r[1..] == rest && r[0] == claims[0];
        PathsStep(r);
        assert claims[0].path !in Paths(claims[1..]);
        forall j | 0 < j < |r|
          ensures r[j].path != r[0].path { assert r[j] == rest[j - 1]; assert rest[j - 1].path in Paths(rest); }
      } else {
        assert Outside(claims, paths) == rest;
      }
    }
  }

  lemma OverriddenFacts(parent: seq<ClaimMetadata>, child: seq<ClaimMetadata>)
    requires Unique(parent)
    ensures Unique(Overridden(parent, child)) && Paths(Overridden(parent, child)) == Paths(parent)
  {
    forall i | 0 <= i < |parent| ensures Overridden(parent, child)[i].path == parent[i].path {
      LookupFinds(child, parent[i].path);
    }
    forall p | p in Paths(parent) ensures p in Paths(Overridden(parent, child)) {
      var i :| 0 <= i < |parent| && parent[i].path == p;
      assert Overridden(parent, child)[i].path == p;
    }
  }

  lemma ConcatFacts(a: seq<ClaimMetadata>, b: seq<ClaimMetadata>)
    requires Unique(a) && Unique(b) && Paths(a) !! Paths(b)
    ensures Unique(a + b) && Paths(a + b) == Paths(a) + Paths(b)
  {
    forall i, j | 0 <= i < j < |a + b| ensures (a + b)[i].path != (a + b)[j].path {
      if i < |a| <= j {
        assert a[i].path in Paths(a) && b[j - |a|].path in Paths(b);
      }
    }
    forall p | p in Paths(a) + Paths(b) ensures p in Paths(a + b) {
      if p in Paths(a) {
        var i :| 0 <= i < |a| && a[i].path == p;
        assert (a + b)[i].path == p;
      } else {
        var i :| 0 <= i < |b| && b[i].path == p;
        assert (a + b)[|a| + i].path == p;
      }
    }
  }

  /** No path is lost, none occurs twice, and each has the child's claim if the child declares it, else the parent's. */
  lemma MergeFacts(parent: seq<ClaimMetadata>, child: seq<ClaimMetadata>)
    requires Unique(parent) && Unique(child)
    ensures var m := MergedClaims(parent, child);
            && Unique(m) && Paths(m) == Paths(parent) + Paths(child)
            && forall path ::
                 Lookup(m, path) == if Lookup(child, path).Some? then Lookup(child, path) else Lookup(parent, path)
  {
    var m := MergedClaims(parent, child);
    var a, b := Overridden(parent, child), Outside(child, Paths(parent));
    MergeIsOverride(parent, child);
    OverriddenFacts(parent, child);
    OutsideFacts(child, Paths(parent));
    ConcatFacts(a, b);
    forall path
      ensures Lookup(m, path) == if Lookup(child, path).Some? then Lookup(child, path) else Lookup(parent, path) {
      MergedLookup(parent, child, path);
    }
  }

  lemma {:induction false} OutsideHas(claims: seq<ClaimMetadata>, paths: set<ClaimPath>, i: nat)
    requires i < |claims| && claims[i].path !in paths
    ensures exists k :: 0 <= k < |Outside(claims, paths)| && Outside(claims, paths)[k] == claims[i]
  {
    var r := Outside(claims, paths);
    if i == 0 {
      assert r[0] == claims[0];
    } else {
      OutsideHas(claims[1..], paths, i - 1);
      var rest := Outside(claims[1..], paths);
      var k :| 0 <= k < |rest| && rest[k] == claims[i];
      assert r[k + if claims[0].path in paths then 0 else 1] == claims[i];
    }
  }

  lemma MergedLookup(parent: seq<ClaimMetadata>, child: seq<ClaimMetadata>, path: ClaimPath)
    requires Unique(parent) && Unique(child)
    ensures Lookup(MergedClaims(parent, child), path) == if Lookup(child, path).Some? then Lookup(child, path)
            else Lookup(parent, path)
  {
    var a, b := Overridden(parent, child), Outside(child, Paths(parent));
    MergeIsOverride(parent, child);
    OverriddenFacts(parent, child);
    OutsideFacts(child, Paths(parent));
    ConcatFacts(a, b);
    LookupFinds(a + b, path);
    LookupFinds(parent, path);
    LookupFinds(child, path);
    if path in Paths(parent) {
      OverriddenLookup(parent, child, b, path);
    } else if path in Paths(child) {
      OutsideLookup(parent, child, path);
    }
  }

  lemma OverriddenLookup(parent: seq<ClaimMetadata>, child: seq<ClaimMetadata>, more: seq<ClaimMetadata>,
                         path: ClaimPath)
    requires Unique(parent) && Unique(Overridden(parent, child) + more) && path in Paths(parent)
    ensures Lookup(Overridden(parent, child) + more, path) == if Lookup(child, path).Some? then Lookup(child, path)
            else Lookup(parent, path)
  {
    var m := Overridden(parent, child) + more;
    var i :| 0 <= i < |parent| && parent[i].path == path;
    LookupIs(parent, i);
    LookupFinds(child, path);
    assert m[i] == Over(parent[i], child);
    LookupIs(m, i);
  }

  lemma OutsideLookup(parent: seq<ClaimMetadata>, child: seq<ClaimMetadata>, path: ClaimPath)
    requires Unique(child) && path in Paths(child) && path !in Paths(parent)
    requires Unique(Overridden(parent, child) + Outside(child, Paths(parent)))
    ensures Lookup(Overridden(parent, child) + Outside(child, Paths(parent)), path) == Lookup(child, path)
  {
    var a, b := Overridden(parent, child), Outside(child, Paths(parent));
    var i :| 0 <= i < |child| && child[i].path == path;
    LookupIs(child, i);
    OutsideHas(child, Paths(parent), i);
    var k :| 0 <= k < |b| && b[k] == child[i];
    assert (a + b)[|a| + k] == child[i];
    LookupIs(a + b, |a| + k);
  }

  // ---------- associativity ----------

  lemma {:induction false} OutsideConcat(a: seq<ClaimMetadata>, b: seq<ClaimMetadata>, paths: set<ClaimPath>)
    ensures Outside(a + b, paths) == Outside(a, paths) + Outside(b, paths)
  {
    if a == [] {
      assert a + b == b;
    } else {
      assert (a + b)[1..] == a[1..] + b;
      OutsideConcat(a[1..], b, paths);
    }
  }

  lemma {:induction false} OutsideTwice(claims: seq<ClaimMetadata>, p: set<ClaimPath>, q: set<ClaimPath>)
    ensures Outside(Outside(claims, p), q) == Outside(claims, p + q)
  {
    if claims != [] {
      OutsideTwice(claims[1..], p, q);
      OutsideConcat(if claims[0].path in p then [] else [claims[0]], Outside(claims[1..], p), q);
    }
  }

  /** Overriding does not change which paths there are, so it may be done before or after leaving some out. */
  lemma {:induction false} OverrideOutside(claims: seq<ClaimMetadata>, child: seq<ClaimMetadata>, paths: set<ClaimPath>)
    ensures Overridden(Outside(claims, paths), child) == Outside(Overridden(claims, child), paths)
  {
    if claims != [] {
      OverrideOutside(claims[1..], child, paths);
      OverriddenStep(claims, child);
      LookupFinds(child, claims[0].path);
      var rest := Overridden(claims[1..], child);
      assert Overridden(claims, child)[1..] == rest;
      if claims[0].path !in paths {
        var kept := Outside(claims, paths);
        assert kept[1..] == Outside(claims[1..], paths);
        OverriddenStep(kept, child);
      } else {
        assert Outside(claims, paths) == Outside(claims[1..], paths);
      }
    }
  }

  lemma OverriddenTwice(a: seq<ClaimMetadata>, b: seq<ClaimMetadata>, c: seq<ClaimMetadata>)
    requires Unique(b) && Unique(c)
    ensures Overridden(Overridden(a, b), c) == Overridden(a, MergedClaims(b, c))
  {
    forall i | 0 <= i < |a| ensures Over(Over(a[i], b), c) == Over(a[i], MergedClaims(b, c)) {
      LookupFinds(b, a[i].path);
      MergedLookup(b, c, a[i].path);
    }
  }

  lemma OverriddenConcat(a: seq<ClaimMetadata>, b: seq<ClaimMetadata>, c: seq<ClaimMetadata>)
    ensures Overridden(a + b, c) == Overridden(a, c) + Overridden(b, c)
  {
  }

  lemma MergedOnTheLeft(a: seq<ClaimMetadata>, b: seq<ClaimMetadata>, c: seq<ClaimMetadata>)
    requires Unique(a) && Unique(b) && Unique(c)
    ensures MergedClaims(MergedClaims(a, b), c) ==
            Overridden(a, MergedClaims(b, c)) + (Overridden(Outside(b, Paths(a)), c) + Outside(c, Paths(a) + Paths(b)))
  {
    MergeFacts(a, b);
    MergeIsOverride(a, b);
    MergeIsOverride(MergedClaims(a, b), c);
    OverriddenConcat(Overridden(a, b), Outside(b, Paths(a)), c);
    OverriddenTwice(a, b, c);
    Associates(Overridden(a, MergedClaims(b, c)), Overridden(Outside(b, Paths(a)), c), Outside(c, Paths(a) + Paths(b)));
  }

  lemma MergedOnTheRight(a: seq<ClaimMetadata>, b: seq<ClaimMetadata>, c: seq<ClaimMetadata>)
    requires Unique(a) && Unique(b) && Unique(c)
    ensures MergedClaims(a, MergedClaims(b, c)) ==
            Overridden(a, MergedClaims(b, c)) + (Overridden(Outside(b, Paths(a)), c) + Outside(c, Paths(a) + Paths(b)))
  {
    MergeFacts(b, c);
    MergeIsOverride(b, c);
    MergeIsOverride(a, MergedClaims(b, c));
    OutsideConcat(Overridden(b, c), Outside(c, Paths(b)), Paths(a));
    OverrideOutside(b, c, Paths(a));
    OutsideTwice(c, Paths(b), Paths(a));
    assert Paths(b) + Paths(a) == Paths(a) + Paths(b);
  }

  lemma MergedClaimsAreAssociative(a: seq<ClaimMetadata>, b: seq<ClaimMetadata>, c: seq<ClaimMetadata>)
    requires Unique(a) && Unique(b) && Unique(c)
    ensures MergedClaims(MergedClaims(a, b), c) == MergedClaims(a, MergedClaims(b, c))
  {
    MergedOnTheLeft(a, b, c);
    MergedOnTheRight(a, b, c);
  }

  function ClaimsOf(t: TypeMetadata): seq<ClaimMetadata> {
    t.claims.GetOr([])
  }

  lemma MergedClaimsOf(parent: TypeMetadata, child: TypeMetadata)
    ensures ClaimsOf(Merged(parent, child)) == MergedClaims(ClaimsOf(parent), ClaimsOf(child))
  {
  }

  /**
   * A member that only the parent has is inherited; the display is inherited also where the child leaves it undefined.
   */
  lemma MergedEntry(parent: TypeMetadata, child: TypeMetadata, name: string)
    ensures Entry(Merged(parent, child), name) ==
            if Overrides(child, name) then Entry(child, name)
            else if Overrides(parent, name) || Entry(child, name).None? then Entry(parent, name)
            else Entry(child, name)
  {
  }

  /** A member of a document: absent, there but undefined, or defined. */
  function Entry(t: TypeMetadata, name: string): Option<Option<Json>> {
    if name in t.members then Some(t.members[name]) else None
  }

  /** The document decides about the member, whatever the documents it extends say. */
  predicate Overrides(t: TypeMetadata, name: string) {
    name in t.members && (name == DISPLAY ==> t.members[name].Some?)
  }

  /** Merging is associative: the claims as an exact sequence, what is extended, and every other member. */
  lemma MergeIsAssociative(a: TypeMetadata, b: TypeMetadata, c: TypeMetadata)
    requires Unique(ClaimsOf(a)) && Unique(ClaimsOf(b)) && Unique(ClaimsOf(c))
    ensures Merged(Merged(a, b), c) == Merged(a, Merged(b, c))
  {
    var left, right := Merged(Merged(a, b), c), Merged(a, Merged(b, c));
    MergedClaimsAreAssociative(ClaimsOf(a), ClaimsOf(b), ClaimsOf(c));
    forall name ensures Entry(left, name) == Entry(right, name) {
      MergedEntry(Merged(a, b), c, name);
      MergedEntry(a, b, name);
      MergedEntry(a, Merged(b, c), name);
      MergedEntry(b, c, name);
    }
    assert left.members == right.members by {
      forall name ensures name in left.members <==> name in right.members
                  ensures name in left.members ==> left.members[name] == right.members[name] {
        assert Entry(left, name) == Entry(right, name);
      }
    }
  }

  // ---------- the chain ----------

  /** `reduceRight` over the chain of a document, its parent, and so on. */
  function Folded(chain: seq<TypeMetadata>): TypeMetadata
    requires chain != []
  {
    if |chain| == 1 then chain[0] else Merged(Folded(chain[1..]), chain[0])
  }

  /** The claim of the nearest document of the chain that declares the path. */
  function Nearest(chain: seq<TypeMetadata>, path: ClaimPath): Option<ClaimMetadata> {
    if chain == [] then None
    else if Lookup(ClaimsOf(chain[0]), path).Some? then Lookup(ClaimsOf(chain[0]), path)
    else Nearest(chain[1..], path)
  }

  /** The member of the nearest document of the chain that has it, even undefined. */
  function NearestEntry(chain: seq<TypeMetadata>, name: string): Option<Option<Json>> {
    if chain == [] then None
    else if name in chain[0].members then Entry(chain[0], name)
    else NearestEntry(chain[1..], name)
  }

  /** The member of the nearest document of the chain that defines it. */
  function NearestMember(chain: seq<TypeMetadata>, name: string): Option<Json> {
    if chain == [] then None
    else if Defined(chain[0], name).Some? then Defined(chain[0], name)
    else NearestMember(chain[1..], name)
  }

  function NearestBase(chain: seq<TypeMetadata>): Option<string> {
    if chain == [] then None else if chain[0].base.Some? then chain[0].base else NearestBase(chain[1..])
  }

  /**
   * Each path has the claim of the nearest document that declares it, the display is the nearest one defined, and what
   * is extended and every other member are those of the nearest document that has them.
   */
  lemma {:induction false} FoldTakesNearest(chain: seq<TypeMetadata>, path: ClaimPath, name: string)
    requires chain != [] && forall i :: 0 <= i < |chain| ==> Unique(ClaimsOf(chain[i]))
    ensures Unique(ClaimsOf(Folded(chain))) && Lookup(ClaimsOf(Folded(chain)), path) == Nearest(chain, path)
    ensures Defined(Folded(chain), DISPLAY) == NearestMember(chain, DISPLAY) && Folded(chain).base == NearestBase(chain)
    ensures name != DISPLAY ==> Entry(Folded(chain), name) == NearestEntry(chain, name)
  {
    if |chain| > 1 {
      FoldTakesNearest(chain[1..], path, name);
      var parent := Folded(chain[1..]);
      MergeFacts(ClaimsOf(parent), ClaimsOf(chain[0]));
      MergedClaimsOf(parent, chain[0]);
      MergedEntry(parent, chain[0], name);
    } else {
      assert chain[1..] == [];
    }
  }

  datatype ResolveError = TooDeep | Cycle | NotResolved

  /** The document number `n` of the chain that starts at `document`. */
  function Ancestor(document: TypeMetadata, documents: map<string, TypeMetadata>, n: nat): Option<TypeMetadata> {
    if n == 0 then Some(document)
    else
      match Ancestor(document, documents, n - 1)
      case None => None
      case Some(d) => if d.base.Some? && d.base.value in documents then Some(documents[d.base.value]) else None
  }

  /** The chain ends after `n` steps, at most `maxDepth`, and none of its documents is met twice. */
  ghost predicate EndsAt(document: TypeMetadata, documents: map<string, TypeMetadata>, uri: string, maxDepth: nat,
                         n: nat) {
    && n <= maxDepth
    && Ancestor(document, documents, n).Some? && Ancestor(document, documents, n).value.base.None?
    && forall i :: 0 <= i < n ==> FreshAt(document, documents, uri, i)
  }

  /** What is extended at step `i` is not the start nor anything extended before. */
  ghost predicate FreshAt(document: TypeMetadata, documents: map<string, TypeMetadata>, uri: string, i: nat) {
    && Ancestor(document, documents, i).Some?
    && Ancestor(document, documents, i).value.base != Some(uri)
    && forall k :: 0 <= k < i ==>
         (Ancestor(document, documents, k).Some?
          && Ancestor(document, documents, k).value.base != Ancestor(document, documents, i).value.base)
  }

  lemma {:induction false} NoAncestorBeyond(document: TypeMetadata, documents: map<string, TypeMetadata>, n: nat,
                                            m: nat)
    requires n <= m && Ancestor(document, documents, n).None?
    ensures Ancestor(document, documents, m).None?
    decreases m
  {
    if n < m {
      NoAncestorBeyond(document, documents, n, m - 1);
    }
  }

  /** If the first `depth` documents extend something and the next step fails, the chain ends nowhere. */
  lemma EndsNowhere(document: TypeMetadata, documents: map<string, TypeMetadata>, uri: string, maxDepth: nat,
                    depth: nat, n: nat)
    requires forall i :: 0 <= i <= depth ==>
               Ancestor(document, documents, i).Some? && Ancestor(document, documents, i).value.base.Some?
    requires depth >= maxDepth || !FreshAt(document, documents, uri, depth)
             || Ancestor(document, documents, depth + 1).None?
    ensures !EndsAt(document, documents, uri, maxDepth, n)
  {
    if n > depth && Ancestor(document, documents, depth + 1).None? {
      NoAncestorBeyond(document, documents, depth + 1, n);
    }
  }

  /** After `n` steps the next document is not to be had: the chain is too long, runs in a circle or breaks off. */
  ghost predicate FailsAt(document: TypeMetadata, documents: map<string, TypeMetadata>, uri: string, maxDepth: nat,
                          n: nat, e: ResolveError) {
    && n <= maxDepth
    && Ancestor(document, documents, n).Some? && Ancestor(document, documents, n).value.base.Some?
    && (forall i :: 0 <= i < n ==> FreshAt(document, documents, uri, i))
    && match e
       case TooDeep => n == maxDepth
       case Cycle => n < maxDepth && !FreshAt(document, documents, uri, n)
       case NotResolved =>
         n < maxDepth && FreshAt(document, documents, uri, n) && Ancestor(document, documents, n + 1).None?
  }

  /** A chain that fails does not end, and fails at one place in one way. */
  lemma FailsOnce(document: TypeMetadata, documents: map<string, TypeMetadata>, uri: string, maxDepth: nat, n: nat,
                  e: ResolveError)
    requires FailsAt(document, documents, uri, maxDepth, n, e)
    ensures forall k: nat :: !EndsAt(document, documents, uri, maxDepth, k)
    ensures forall k: nat, f :: FailsAt(document, documents, uri, maxDepth, k, f) ==> k == n && f == e
  {
    forall i | 0 <= i <= n
      ensures Ancestor(document, documents, i).Some? && Ancestor(document, documents, i).value.base.Some? {
      ExtendsBefore(document, documents, i, n);
    }
    forall k: nat ensures !EndsAt(document, documents, uri, maxDepth, k) {
      EndsNowhere(document, documents, uri, maxDepth, n, k);
    }
    forall k: nat, f | FailsAt(document, documents, uri, maxDepth, k, f) ensures k == n && f == e {
      if n < k && Ancestor(document, documents, n + 1).None? {
        NoAncestorBeyond(document, documents, n + 1, k);
      }
    }
  }

  /** Every document before one that is there extends something. */
  lemma {:induction false} ExtendsBefore(document: TypeMetadata, documents: map<string, TypeMetadata>, i: nat, n: nat)
    requires i <= n && Ancestor(document, documents, n).Some?
    ensures Ancestor(document, documents, i).Some? && (i < n ==> Ancestor(document, documents, i).value.base.Some?)
    decreases n
  {
    if i < n {
      ExtendsBefore(document, documents, i, n - 1);
    }
  }

  /** The chain so far, with what each document but the last one extends. */
  ghost predicate Walked(document: TypeMetadata, documents: map<string, TypeMetadata>, uri: string,
                         chain: seq<TypeMetadata>, fetched: seq<string>) {
    && |chain| == |fetched| + 1
    && (forall i :: 0 <= i < |chain| ==> Ancestor(document, documents, i) == Some(chain[i]))
    && (forall i :: 0 <= i < |fetched| ==> chain[i].base == Some(fetched[i]) && FreshAt(document, documents, uri, i))
    && uri !in fetched && forall i, j :: 0 <= i < j < |fetched| ==> fetched[i] != fetched[j]
  }

  /** The loop sees a URI as visited exactly if the step to it is not fresh. */
  lemma VisitedIsStale(document: TypeMetadata, documents: map<string, TypeMetadata>, uri: string,
                       chain: seq<TypeMetadata>, fetched: seq<string>)
    requires Walked(document, documents, uri, chain, fetched) && chain[|fetched|].base.Some?
    ensures chain[|fetched|].base.value in fetched + [uri] <==> !FreshAt(document, documents, uri, |fetched|)
  {
    var n, next := |fetched|, chain[|fetched|].base.value;
    forall k | 0 <= k < n
      ensures Ancestor(document, documents, k) == Some(chain[k]) && chain[k].base == Some(fetched[k]) {}
    if next in fetched {
      var k :| 0 <= k < n && fetched[k] == next;
      assert Ancestor(document, documents, k).value.base == Ancestor(document, documents, n).value.base;
    }
  }

  lemma WalkedStep(document: TypeMetadata, documents: map<string, TypeMetadata>, uri: string, chain: seq<TypeMetadata>,
                   fetched: seq<string>)
    requires Walked(document, documents, uri, chain, fetched) && chain[|fetched|].base.Some?
    requires chain[|fetched|].base.value !in fetched + [uri] && chain[|fetched|].base.value in documents
    ensures var next := chain[|fetched|].base.value;
            Walked(document, documents, uri, chain + [documents[next]], fetched + [next])
  {
    VisitedIsStale(document, documents, uri, chain, fetched);
  }

  /**
   * The loop asks for different URIs, none of them that of the document itself and at most `maxDepth`, the one that
   * cannot be had included. It succeeds if and only if the chain ends, within that depth and without running in a
   * circle, and then returns the fold over the chain; otherwise it throws the error of the one place where the chain
   * fails.
   */
  method ResolveExtendsChain(document: TypeMetadata, documents: map<string, TypeMetadata>, uri: string, maxDepth: nat)
    returns (r: Outcome<TypeMetadata, ResolveError>, ghost asked: seq<string>)
    ensures |asked| <= maxDepth && uri !in asked
    ensures forall i, j :: 0 <= i < j < |asked| ==> asked[i] != asked[j]
    ensures r.Ok? ==> exists chain :: IsChain(chain, document, documents) && r.value == Folded(chain)
    ensures r.Ok? <==> exists n :: EndsAt(document, documents, uri, maxDepth, n)
    ensures forall e :: r == Err(e) <==> exists n :: FailsAt(document, documents, uri, maxDepth, n, e)
  {
    var chain := [document];
    var current := document;
    var depth := 0;
    var visited := {uri};
    asked := [];
    while current.base.Some?
      invariant depth == |asked| <= maxDepth && Walked(document, documents, uri, chain, asked)
                && current == chain[depth]
      invariant forall x :: x in visited <==> x in asked + [uri]
      decreases maxDepth - depth
    {
      VisitedIsStale(document, documents, uri, chain, asked);
      if depth >= maxDepth {
        assert FailsAt(document, documents, uri, maxDepth, depth, TooDeep);
        FailsOnce(document, documents, uri, maxDepth, depth, TooDeep);
        return Err(TooDeep), asked;
      }
      var next := current.base.value;
      if next in visited {
        assert FailsAt(document, documents, uri, maxDepth, depth, Cycle);
        FailsOnce(document, documents, uri, maxDepth, depth, Cycle);
        return Err(Cycle), asked;
      }
      visited := visited + {next};
      if next !in documents {
        assert Ancestor(document, documents, depth + 1).None?;
        assert FailsAt(document, documents, uri, maxDepth, depth, NotResolved);
        FailsOnce(document, documents, uri, maxDepth, depth, NotResolved);
        return Err(NotResolved), asked + [next];
      }
      WalkedStep(document, documents, uri, chain, asked);
      asked := asked + [next];
      current := documents[next];
      chain := chain + [current];
      depth := depth + 1;
    }
    assert EndsAt(document, documents, uri, maxDepth, depth);
    EndsWithoutFailure(document, documents, uri, maxDepth, depth);
    assert IsChain(chain, document, documents);
    r := Ok(Folded(chain));
  }

  lemma EndsWithoutFailure(document: TypeMetadata, documents: map<string, TypeMetadata>, uri: string, maxDepth: nat,
                           n: nat)
    requires EndsAt(document, documents, uri, maxDepth, n)
    ensures forall k: nat, e :: !FailsAt(document, documents, uri, maxDepth, k, e)
  {
    forall k: nat, e ensures !FailsAt(document, documents, uri, maxDepth, k, e) {
      if FailsAt(document, documents, uri, maxDepth, k, e) {
        FailsOnce(document, documents, uri, maxDepth, k, e);
      }
    }
  }

  /** The documents from one on to the last one it extends. */
  ghost predicate IsChain(chain: seq<TypeMetadata>, document: TypeMetadata, documents: map<string, TypeMetadata>) {
    && chain != [] && chain[|chain| - 1].base.None?
    && forall i :: 0 <= i < |chain| ==> Ancestor(document, documents, i) == Some(chain[i])
  }
}
