/**
 * Exactly which claims paths the schema walker infers: those of the ways down that record no object twice and end at a
 * leaf.
 */
module SchemaClaims {
  import opened ClaimsPaths
  import opened SchemaWalker

  // ---------- the ways down a schema ----------

  /** How a position is come to: to be entered, as a property, or as a tuple position. */
  datatype Stance = Entered | AsProperty | AsTupleItem

  /**
   * The walker records the object: it goes through its combinators as well, and does not enter it again on this way.
   */
  predicate Recorded(g: Graph, v: Value, stance: Stance)
    requires InGraph(g, v)
  {
    match stance
    case Entered => v.Node?
    case AsProperty => !IsArraySchema(g, v) && IsObjectSchema(g, v)
    case AsTupleItem => IsObjectSchema(g, v) || IsArraySchema(g, v)
  }

  /** The items of an array lead on: its elements are objects or arrays themselves. */
  predicate ElementsLead(g: Graph, id: NodeId)
    requires Closed(g) && id in g
  {
    assert SchemaInGraph(g, g[id]);
    TupleItems(g[id]).None? && g[id].items.ItemSchema?
    && (IsObjectSchema(g, g[id].items.schema) || IsArraySchema(g, g[id].items.schema))
  }

  predicate ArrayEdge(g: Graph, id: NodeId, e: Edge)
    requires Closed(g) && id in g
  {
    || (e.TupleAt? && TupleItems(g[id]).Some? && e.i < |TupleItems(g[id]).value|)
    || (e.Element? && ElementsLead(g, id))
  }

  predicate NodeEdge(g: Graph, id: NodeId, e: Edge)
    requires Closed(g) && id in g
  {
    || (e.Variant? && e.i < |g[id].variants|)
    || (e.PropertyAt? && g[id].properties.Some? && e.i < |g[id].properties.value|)
    || (g[id].properties.None? && IsArraySchema(g, Node(id)) && ArrayEdge(g, id, e))
  }

  /** The step may be taken from here. */
  predicate MayTake(g: Graph, v: Value, stance: Stance, e: Edge)
    requires Closed(g) && InGraph(g, v)
  {
    if Recorded(g, v, stance) then NodeEdge(g, v.id, e)
    else stance.AsProperty? && IsArraySchema(g, v) && ArrayEdge(g, v.id, e)
  }

  predicate ArrayLeaf(g: Graph, id: NodeId)
    requires Closed(g) && id in g
  {
    TupleItems(g[id]).None? && !ElementsLead(g, id)
  }

  /** The position itself is a claim: there are no properties, tuple positions or leading elements below it. */
  predicate Leaf(g: Graph, v: Value, stance: Stance)
    requires Closed(g) && InGraph(g, v)
  {
    if Recorded(g, v, stance) then g[v.id].properties.None? && (IsArraySchema(g, v) ==> ArrayLeaf(g, v.id))
    else if stance.AsProperty? && IsArraySchema(g, v) then ArrayLeaf(g, v.id)
    else true
  }

  function Next(e: Edge): Stance {
    if e.PropertyAt? then AsProperty else if e.TupleAt? then AsTupleItem else Entered
  }

  lemma EdgeTarget(g: Graph, v: Value, stance: Stance, e: Edge)
    requires Closed(g) && InGraph(g, v) && MayTake(g, v, stance, e)
    ensures Target(g, v, e).Some? && InGraph(g, Target(g, v, e).value)
  {
    assert SchemaInGraph(g, g[v.id]);
  }

  /**
   * From `v` the walker may take these steps in turn, ending at a leaf, and records no object twice nor any of
   * `ancestors`.
   */
  ghost predicate Way(g: Graph, v: Value, stance: Stance, edges: seq<Edge>, ancestors: set<NodeId>)
    requires Closed(g) && InGraph(g, v)
    decreases |edges|
  {
    && (Recorded(g, v, stance) ==> v.id !in ancestors)
    && if edges == [] then Leaf(g, v, stance)
       else
         && MayTake(g, v, stance, edges[0])
         && (EdgeTarget(g, v, stance, edges[0]);
             Way(g, Target(g, v, edges[0]).value, Next(edges[0]), edges[1..], Inner(g, v, stance, ancestors)))
  }

  function Inner(g: Graph, v: Value, stance: Stance, ancestors: set<NodeId>): set<NodeId>
    requires InGraph(g, v)
  {
    if Recorded(g, v, stance) then ancestors + {v.id} else ancestors
  }

  /** Some way spells the path. */
  ghost predicate Emits(g: Graph, v: Value, stance: Stance, ancestors: set<NodeId>, rest: Pointer)
    requires Closed(g) && InGraph(g, v)
  {
    exists edges :: Way(g, v, stance, edges, ancestors) && Spells(g, v, edges, rest)
  }

  /** Some way begins with this step and spells the path. */
  ghost predicate Through(g: Graph, v: Value, e: Edge, ancestors: set<NodeId>, rest: Pointer)
    requires Closed(g) && InGraph(g, v)
  {
    var t := Target(g, v, e);
    && t.Some? && InGraph(g, t.value) && Components(g, v, e) <= rest
    && Emits(g, t.value, Next(e), ancestors, rest[|Components(g, v, e)|..])
  }

  lemma ThroughIsWay(g: Graph, v: Value, stance: Stance, e: Edge, ancestors: set<NodeId>, rest: Pointer)
    requires Closed(g) && InGraph(g, v) && MayTake(g, v, stance, e) && (Recorded(g, v, stance) ==> v.id !in ancestors)
    requires Through(g, v, e, Inner(g, v, stance, ancestors), rest)
    ensures Emits(g, v, stance, ancestors, rest)
  {
    var t, c := Target(g, v, e).value, Components(g, v, e);
    var inner := Inner(g, v, stance, ancestors);
    var edges :| Way(g, t, Next(e), edges, inner) && Spells(g, t, edges, rest[|c|..]);
    var all := [e] + edges;
    assert all[1..] == edges && all[0] == e;
    assert Way(g, v, stance, all, ancestors);
    assert Spells(g, v, all, rest);
  }

  /** A way ends at once or goes through a first step. */
  lemma EmitsStep(g: Graph, v: Value, stance: Stance, ancestors: set<NodeId>, rest: Pointer)
    requires Closed(g) && InGraph(g, v)
    ensures Emits(g, v, stance, ancestors, rest) <==>
            && (Recorded(g, v, stance) ==> v.id !in ancestors)
            && ((Leaf(g, v, stance) && rest == [])
                || exists e :: MayTake(g, v, stance, e) && Through(g, v, e, Inner(g, v, stance, ancestors), rest))
  {
    if Emits(g, v, stance, ancestors, rest) {
      var edges :| Way(g, v, stance, edges, ancestors) && Spells(g, v, edges, rest);
      if edges != [] {
        var e := edges[0];
        EdgeTarget(g, v, stance, e);
        assert Way(g, Target(g, v, e).value, Next(e), edges[1..], Inner(g, v, stance, ancestors));
        assert Spells(g, Target(g, v, e).value, edges[1..], rest[|Components(g, v, e)|..]);
        assert Through(g, v, e, Inner(g, v, stance, ancestors), rest);
      }
    }
    if Recorded(g, v, stance) ==> v.id !in ancestors {
      if Leaf(g, v, stance) && rest == [] {
        assert Way(g, v, stance, [], ancestors) && Spells(g, v, [], rest);
      }
      if e :| MayTake(g, v, stance, e) && Through(g, v, e, Inner(g, v, stance, ancestors), rest) {
        ThroughIsWay(g, v, stance, e, ancestors, rest);
      }
    }
  }

  // ---------- the claims are the paths of these ways ----------

  /** `p` is `path` continued by something that is emitted from `v`. */
  ghost predicate Continues(g: Graph, v: Value, stance: Stance, ancestors: set<NodeId>, path: Pointer, p: Pointer)
    requires Closed(g) && InGraph(g, v)
  {
    p != [] && path <= p && Emits(g, v, stance, ancestors, p[|path|..])
  }

  ghost predicate ContinuesBy(g: Graph, id: NodeId, e: Edge, ancestors: set<NodeId>, path: Pointer, p: Pointer)
    requires Closed(g) && id in g
  {
    p != [] && path <= p && Through(g, Node(id), e, ancestors, p[|path|..])
  }

  /** The steps of an object that stand in a list. */
  datatype ListOf = Variants | Properties | Positions

  function EdgeAt(list: ListOf, i: nat): Edge {
    match list case Variants => Variant(i) case Properties => PropertyAt(i) case Positions => TupleAt(i)
  }

  /** `p` continues by one of the first `n` steps of the list. */
  ghost predicate ContinuesBySome(g: Graph, id: NodeId, list: ListOf, n: nat, ancestors: set<NodeId>, path: Pointer,
                                  p: Pointer)
    requires Closed(g) && id in g
  {
    exists i: nat :: i < n && ContinuesBy(g, id, EdgeAt(list, i), ancestors, path, p)
  }

  lemma OneMoreStep(g: Graph, id: NodeId, list: ListOf, n: nat, ancestors: set<NodeId>, path: Pointer, p: Pointer)
    requires Closed(g) && id in g
    ensures ContinuesBySome(g, id, list, n + 1, ancestors, path, p) <==>
            ContinuesBySome(g, id, list, n, ancestors, path, p)
            || ContinuesBy(g, id, EdgeAt(list, n), ancestors, path, p)
  {
  }

  /** Continuing by a step is continuing the longer path from where the step leads. */
  lemma ContinuesAfter(g: Graph, id: NodeId, e: Edge, ancestors: set<NodeId>, path: Pointer, p: Pointer)
    requires Closed(g) && id in g && Target(g, Node(id), e).Some? && InGraph(g, Target(g, Node(id), e).value)
    ensures ContinuesBy(g, id, e, ancestors, path, p) <==>
            Continues(g, Target(g, Node(id), e).value, Next(e), ancestors, path + Components(g, Node(id), e), p)
  {
    var c := Components(g, Node(id), e);
    LongerPath(path, c, p);
  }

  lemma LongerPath(path: Pointer, c: Pointer, p: Pointer)
    ensures path + c <= p <==> path <= p && c <= p[|path|..]
    ensures path + c <= p ==> p[|path|..][|c|..] == p[|path + c|..]
  {
    if path <= p && c <= p[|path|..] {
      var rest := p[|path|..];
      assert p == path + rest && rest == c + rest[|c|..];
      assert p == (path + c) + rest[|c|..];
    }
    if path + c <= p {
      SplitAfter(path, c, p);
    }
  }

  /** What an object yields, by its first steps. */
  lemma StepsOf(g: Graph, v: Value, stance: Stance, path: Pointer, ancestors: set<NodeId>, p: Pointer)
    requires Closed(g) && InGraph(g, v) && v.Node? && (Recorded(g, v, stance) ==> v.id !in ancestors)
    ensures Continues(g, v, stance, ancestors, path, p) <==>
            || (Leaf(g, v, stance) && p in Claim(path))
            || exists e :: MayTake(g, v, stance, e) && ContinuesBy(g, v.id, e, Inner(g, v, stance, ancestors), path, p)
  {
    ClaimIsPath(path, p);
    if p != [] && path <= p {
      EmitsStep(g, v, stance, ancestors, p[|path|..]);
    }
  }

  lemma {:induction false} SchemaEmits(g: Graph, v: Value, path: Pointer, ancestors: set<NodeId>, p: Pointer)
    requires Closed(g) && InGraph(g, v)
    ensures p in OfSchema(g, v, path, ancestors) <==> Continues(g, v, Entered, ancestors, path, p)
    decreases g.Keys - ancestors, 0, 0
  {
    if v.Node? && v.id !in ancestors {
      NodeEmits(g, v.id, path, ancestors + {v.id}, p);
      StepsOf(g, v, Entered, path, ancestors, p);
      assert forall e :: MayTake(g, v, Entered, e) <==> NodeEdge(g, v.id, e);
    } else {
      if path <= p {
        EmitsStep(g, v, Entered, ancestors, p[|path|..]);
      }
      ClaimIsPath(path, p);
    }
  }

  lemma ClaimIsPath(path: Pointer, p: Pointer)
    ensures p in Claim(path) <==> p != [] && path <= p && p[|path|..] == []
  {
    if path <= p && p[|path|..] == [] {
      assert p == path;
    }
  }

  /** What an object yields once it is recorded. */
  lemma {:induction false} NodeEmits(g: Graph, id: NodeId, path: Pointer, ancestors: set<NodeId>, p: Pointer)
    requires Closed(g) && id in g
    ensures p in OfNode(g, id, path, ancestors) <==>
            || (Leaf(g, Node(id), Entered) && p in Claim(path))
            || exists e :: NodeEdge(g, id, e) && ContinuesBy(g, id, e, ancestors, path, p)
    decreases g.Keys - ancestors, 4, 0
  {
    var s := g[id];
    assert SchemaInGraph(g, s);
    VariantsEmit(g, id, |s.variants|, path, ancestors, p);
    assert s.variants[..|s.variants|] == s.variants;
    if s.properties.Some? {
      PropertiesEmit(g, id, |s.properties.value|, path, ancestors, p);
      assert s.properties.value[..|s.properties.value|] == s.properties.value;
    } else if IsArraySchema(g, Node(id)) {
      ArrayEmits(g, id, path, ancestors, p);
    }
    EdgesOfNode(g, id, ancestors, path, p);
  }

  /**
   * The steps from an object are those into its combinators, and those of its properties or else of the array it is.
   */
  lemma EdgesOfNode(g: Graph, id: NodeId, ancestors: set<NodeId>, path: Pointer, p: Pointer)
    requires Closed(g) && id in g
    ensures (exists e :: NodeEdge(g, id, e) && ContinuesBy(g, id, e, ancestors, path, p)) <==>
            || ContinuesBySome(g, id, Variants, |g[id].variants|, ancestors, path, p)
            || (if g[id].properties.Some?
                then ContinuesBySome(g, id, Properties, |g[id].properties.value|, ancestors, path, p)
                else IsArraySchema(g, Node(id)) && exists e ::
                     ArrayEdge(g, id, e) && ContinuesBy(g, id, e, ancestors, path, p))
  {
    var s := g[id];
    if e: Edge :| NodeEdge(g, id, e) && ContinuesBy(g, id, e, ancestors, path, p) {
      assert e.Variant? ==> e == EdgeAt(Variants, e.i);
      assert e.PropertyAt? ==> e == EdgeAt(Properties, e.i);
    }
    if ContinuesBySome(g, id, Variants, |s.variants|, ancestors, path, p) {
      var i: nat :| i < |s.variants| && ContinuesBy(g, id, EdgeAt(Variants, i), ancestors, path, p);
      assert NodeEdge(g, id, Variant(i));
    }
    if s.properties.Some? && ContinuesBySome(g, id, Properties, |s.properties.value|, ancestors, path, p) {
      var i: nat :| i < |s.properties.value| && ContinuesBy(g, id, EdgeAt(Properties, i), ancestors, path, p);
      assert NodeEdge(g, id, PropertyAt(i));
    }
    if s.properties.None? && IsArraySchema(g, Node(id)) {
      if e: Edge :| ArrayEdge(g, id, e) && ContinuesBy(g, id, e, ancestors, path, p) {
        assert NodeEdge(g, id, e);
      }
    }
  }

  lemma EdgesOfTuple(g: Graph, id: NodeId, ancestors: set<NodeId>, path: Pointer, p: Pointer)
    requires Closed(g) && id in g && TupleItems(g[id]).Some?
    ensures (exists e :: ArrayEdge(g, id, e) && ContinuesBy(g, id, e, ancestors, path, p)) <==>
            ContinuesBySome(g, id, Positions, |TupleItems(g[id]).value|, ancestors, path, p)
  {
    if e: Edge :| ArrayEdge(g, id, e) && ContinuesBy(g, id, e, ancestors, path, p) {
      assert e == EdgeAt(Positions, e.i);
    }
    if ContinuesBySome(g, id, Positions, |TupleItems(g[id]).value|, ancestors, path, p) {
      var i: nat :| i < |TupleItems(g[id]).value| && ContinuesBy(g, id, EdgeAt(Positions, i), ancestors, path, p);
      assert ArrayEdge(g, id, TupleAt(i));
    }
  }

  lemma {:induction false} VariantsEmit(g: Graph, id: NodeId, n: nat, path: Pointer, ancestors: set<NodeId>, p: Pointer)
    requires Closed(g) && id in g && n <= |g[id].variants|
    ensures AllInGraph(g, g[id].variants[..n])
    ensures p in OfVariants(g, g[id].variants[..n], path, ancestors) <==>
            ContinuesBySome(g, id, Variants, n, ancestors, path, p)
    decreases g.Keys - ancestors, 1, n
  {
    assert SchemaInGraph(g, g[id]);
    if n > 0 {
      VariantsEmit(g, id, n - 1, path, ancestors, p);
      SchemaEmits(g, g[id].variants[n - 1], path, ancestors, p);
      OneMoreVariant(g, id, n - 1, path, ancestors, p);
      OneMoreStep(g, id, Variants, n - 1, ancestors, path, p);
    }
  }

  lemma OneMoreVariant(g: Graph, id: NodeId, n: nat, path: Pointer, ancestors: set<NodeId>, p: Pointer)
    requires Closed(g) && id in g && n < |g[id].variants|
    requires AllInGraph(g, g[id].variants[..n + 1]) && AllInGraph(g, g[id].variants[..n])
    requires p in OfSchema(g, g[id].variants[n], path, ancestors) <==>
               Continues(g, g[id].variants[n], Entered, ancestors, path, p)
    ensures p in OfVariants(g, g[id].variants[..n + 1], path, ancestors) <==>
            p in OfVariants(g, g[id].variants[..n], path, ancestors)
            || ContinuesBy(g, id, Variant(n), ancestors, path, p)
  {
    assert g[id].variants[..n + 1][..n] == g[id].variants[..n];
    ContinuesAfter(g, id, Variant(n), ancestors, path, p);
    assert path + [] == path;
  }

  lemma {:induction false} PropertiesEmit(g: Graph, id: NodeId, n: nat, path: Pointer, ancestors: set<NodeId>,
                                          p: Pointer)
    requires Closed(g) && id in g && g[id].properties.Some? && n <= |g[id].properties.value|
    ensures forall i :: 0 <= i < n ==> InGraph(g, g[id].properties.value[i].schema)
    ensures p in OfProperties(g, g[id].properties.value[..n], path, ancestors) <==>
            ContinuesBySome(g, id, Properties, n, ancestors, path, p)
    decreases g.Keys - ancestors, 3, n
  {
    assert SchemaInGraph(g, g[id]);
    if n > 0 {
      var last := g[id].properties.value[n - 1];
      PropertiesEmit(g, id, n - 1, path, ancestors, p);
      PropertyEmits(g, last.schema, path + [Name(last.name)], ancestors, p);
      OneMoreProperty(g, id, n - 1, path, ancestors, p);
      OneMoreStep(g, id, Properties, n - 1, ancestors, path, p);
    }
  }

  lemma OneMoreProperty(g: Graph, id: NodeId, n: nat, path: Pointer, ancestors: set<NodeId>, p: Pointer)
    requires Closed(g) && id in g && g[id].properties.Some? && n < |g[id].properties.value|
    requires forall i :: 0 <= i <= n ==> InGraph(g, g[id].properties.value[i].schema)
    requires var last := g[id].properties.value[n];
             p in OfProperty(g, last.schema, path + [Name(last.name)], ancestors) <==>
             Continues(g, last.schema, AsProperty, ancestors, path + [Name(last.name)], p)
    ensures p in OfProperties(g, g[id].properties.value[..n + 1], path, ancestors) <==>
            p in OfProperties(g, g[id].properties.value[..n], path, ancestors)
            || ContinuesBy(g, id, PropertyAt(n), ancestors, path, p)
  {
    assert g[id].properties.value[..n + 1][..n] == g[id].properties.value[..n];
    ContinuesAfter(g, id, PropertyAt(n), ancestors, path, p);
  }

  lemma {:induction false} PropertyEmits(g: Graph, v: Value, path: Pointer, ancestors: set<NodeId>, p: Pointer)
    requires Closed(g) && InGraph(g, v)
    ensures p in OfProperty(g, v, path, ancestors) <==> Continues(g, v, AsProperty, ancestors, path, p)
    decreases g.Keys - ancestors, 2, 1
  {
    if IsArraySchema(g, v) {
      ArrayEmits(g, v.id, path, ancestors, p);
      StepsOf(g, v, AsProperty, path, ancestors, p);
      assert forall e :: MayTake(g, v, AsProperty, e) <==> ArrayEdge(g, v.id, e);
    } else if IsObjectSchema(g, v) {
      SchemaEmits(g, v, path, ancestors, p);
      SameRecorded(g, v, AsProperty, path, ancestors, p);
    } else {
      if path <= p {
        EmitsStep(g, v, AsProperty, ancestors, p[|path|..]);
      }
      ClaimIsPath(path, p);
    }
  }

  /** A recorded object yields the same, however it was come to. */
  lemma SameRecorded(g: Graph, v: Value, stance: Stance, path: Pointer, ancestors: set<NodeId>, p: Pointer)
    requires Closed(g) && InGraph(g, v) && Recorded(g, v, stance) && v.Node?
    ensures Continues(g, v, stance, ancestors, path, p) <==> Continues(g, v, Entered, ancestors, path, p)
  {
    if path <= p {
      EmitsStep(g, v, stance, ancestors, p[|path|..]);
      EmitsStep(g, v, Entered, ancestors, p[|path|..]);
      assert forall e :: MayTake(g, v, stance, e) <==> MayTake(g, v, Entered, e);
    }
  }

  lemma {:induction false} ArrayEmits(g: Graph, id: NodeId, path: Pointer, ancestors: set<NodeId>, p: Pointer)
    requires Closed(g) && id in g
    ensures p in OfArray(g, id, path, ancestors) <==>
            || (ArrayLeaf(g, id) && p in Claim(path))
            || exists e :: ArrayEdge(g, id, e) && ContinuesBy(g, id, e, ancestors, path, p)
    decreases g.Keys - ancestors, 2, 0
  {
    var s := g[id];
    assert SchemaInGraph(g, s);
    if TupleItems(s).Some? {
      TupleEmits(g, id, |TupleItems(s).value|, path, ancestors, p);
      assert TupleItems(s).value[..|TupleItems(s).value|] == TupleItems(s).value;
      EdgesOfTuple(g, id, ancestors, path, p);
    } else if ElementsLead(g, id) {
      SchemaEmits(g, s.items.schema, path + [Every], ancestors, p);
      ContinuesAfter(g, id, Element, ancestors, path, p);
      assert ArrayEdge(g, id, Element);
    }
  }

  lemma {:induction false} TupleEmits(g: Graph, id: NodeId, n: nat, path: Pointer, ancestors: set<NodeId>, p: Pointer)
    requires Closed(g) && id in g && TupleItems(g[id]).Some? && n <= |TupleItems(g[id]).value|
    ensures AllInGraph(g, TupleItems(g[id]).value[..n])
    ensures p in OfTuple(g, TupleItems(g[id]).value[..n], path, ancestors) <==>
            ContinuesBySome(g, id, Positions, n, ancestors, path, p)
    decreases g.Keys - ancestors, 1, n
  {
    assert SchemaInGraph(g, g[id]);
    if n > 0 {
      TupleEmits(g, id, n - 1, path, ancestors, p);
      TupleItemEmits(g, TupleItems(g[id]).value[n - 1], path + [Position(n - 1)], ancestors, p);
      OneMoreTupleItem(g, id, n - 1, path, ancestors, p);
      OneMoreStep(g, id, Positions, n - 1, ancestors, path, p);
    }
  }

  lemma OneMoreTupleItem(g: Graph, id: NodeId, n: nat, path: Pointer, ancestors: set<NodeId>, p: Pointer)
    requires Closed(g) && id in g && TupleItems(g[id]).Some? && n < |TupleItems(g[id]).value|
    requires AllInGraph(g, TupleItems(g[id]).value[..n + 1]) && AllInGraph(g, TupleItems(g[id]).value[..n])
    requires var item, here := TupleItems(g[id]).value[n], path + [Position(n)];
             p in OfTupleItem(g, item, here, ancestors) <==> Continues(g, item, AsTupleItem, ancestors, here, p)
    ensures p in OfTuple(g, TupleItems(g[id]).value[..n + 1], path, ancestors) <==>
            p in OfTuple(g, TupleItems(g[id]).value[..n], path, ancestors)
            || ContinuesBy(g, id, TupleAt(n), ancestors, path, p)
  {
    assert TupleItems(g[id]).value[..n + 1][..n] == TupleItems(g[id]).value[..n];
    ContinuesAfter(g, id, TupleAt(n), ancestors, path, p);
  }

  lemma {:induction false} TupleItemEmits(g: Graph, item: Value, path: Pointer, ancestors: set<NodeId>, p: Pointer)
    requires Closed(g) && InGraph(g, item)
    ensures p in OfTupleItem(g, item, path, ancestors) <==> Continues(g, item, AsTupleItem, ancestors, path, p)
    decreases g.Keys - ancestors, 1, 0
  {
    if Recorded(g, item, AsTupleItem) {
      SchemaEmits(g, item, path, ancestors, p);
      SameRecorded(g, item, AsTupleItem, path, ancestors, p);
    } else {
      ClaimIsPath(path, p);
      if path <= p {
        EmitsStep(g, item, AsTupleItem, ancestors, p[|path|..]);
      }
    }
  }

  /**
   * A path is inferred from a schema, cyclic or not, if and only if it is not empty and is spelled by a way down from
   * the root that takes only the steps open at each position, records no object twice, and ends at a leaf.
   */
  lemma ClaimsAreWays(g: Graph, root: Value, path: Pointer)
    requires Closed(g) && InGraph(g, root)
    ensures path in OfSchema(g, root, [], {}) <==> path != [] && Emits(g, root, Entered, {}, path)
  {
    SchemaEmits(g, root, [], {}, path);
    assert path[0..] == path;
  }
}
