/** The walk over a JSON Schema graph, cyclic or not, that infers DCQL claims paths. */
module SchemaWalker {
  import opened Basics
  import opened ClaimsPaths

  // ---------- schema graphs ----------

  type NodeId = nat

  /** A schema position: an object of the graph, or anything that is not a plain object. */
  datatype Value = Node(id: NodeId) | NoObject

  datatype Items = NoItems | ItemList(list: seq<Value>) | ItemSchema(schema: Value)
  datatype PrefixItems = NoPrefix | PrefixList(list: seq<Value>) | PrefixOther
  datatype Property = Property(name: string, schema: Value)

  /**
   * One object: its `type` names, its combinators in order, its properties if it has an object of them, and its items.
   */
  datatype Schema = Schema(
    types: seq<string>,
    variants: seq<Value>,
    properties: Option<seq<Property>>,
    items: Items,
    prefixItems: PrefixItems)

  type Graph = map<NodeId, Schema>

  predicate InGraph(g: Graph, v: Value) {
    v.Node? ==> v.id in g
  }

  predicate AllInGraph(g: Graph, vs: seq<Value>) {
    forall i :: 0 <= i < |vs| ==> InGraph(g, vs[i])
  }

  predicate SchemaInGraph(g: Graph, s: Schema) {
    && AllInGraph(g, s.variants)
    && (s.properties.Some? ==> forall i :: 0 <= i < |s.properties.value| ==> InGraph(g, s.properties.value[i].schema))
    && (s.items.ItemList? ==> AllInGraph(g, s.items.list))
    && (s.items.ItemSchema? ==> InGraph(g, s.items.schema))
    && (s.prefixItems.PrefixList? ==> AllInGraph(g, s.prefixItems.list))
  }

  predicate Closed(g: Graph) {
    forall id :: id in g ==> SchemaInGraph(g, g[id])
  }

  predicate IsArraySchema(g: Graph, v: Value)
    requires InGraph(g, v)
  {
    v.Node? && ("array" in g[v.id].types || !g[v.id].items.NoItems? || !g[v.id].prefixItems.NoPrefix?)
  }

  predicate IsObjectSchema(g: Graph, v: Value)
    requires InGraph(g, v)
  {
    v.Node? && (g[v.id].properties.Some? || "object" in g[v.id].types)
  }

  function TupleItems(s: Schema): Option<seq<Value>> {
    if s.prefixItems.PrefixList? && s.prefixItems.list != [] then Some(s.prefixItems.list)
    else if s.items.ItemList? && s.items.list != [] then Some(s.items.list)
    else None
  }

  // ---------- the claims of a schema ----------

  function Claim(path: Pointer): seq<Pointer> {
    if path == [] then [] else [path]
  }

  /** The claims below a position, with the objects on the way to it. */
  function OfSchema(g: Graph, v: Value, path: Pointer, ancestors: set<NodeId>): seq<Pointer>
    requires Closed(g) && InGraph(g, v)
    decreases g.Keys - ancestors, 0, 0
  {
    if v.NoObject? then Claim(path)
    else if v.id in ancestors then []
    else OfNode(g, v.id, path, ancestors + {v.id})
  }

  function OfNode(g: Graph, id: NodeId, path: Pointer, ancestors: set<NodeId>): seq<Pointer>
    requires Closed(g) && id in g
    decreases g.Keys - ancestors, 4, 0
  {
    OfVariants(g, g[id].variants, path, ancestors) +
    if g[id].properties.Some? then OfProperties(g, g[id].properties.value, path, ancestors)
    else if IsArraySchema(g, Node(id)) then OfArray(g, id, path, ancestors)
    else Claim(path)
  }

  function OfVariants(g: Graph, variants: seq<Value>, path: Pointer, ancestors: set<NodeId>): seq<Pointer>
    requires Closed(g) && AllInGraph(g, variants)
    decreases g.Keys - ancestors, 1, |variants|
  {
    if variants == [] then []
    else OfVariants(g, variants[..|variants| - 1], path, ancestors)
         + OfSchema(g, variants[|variants| - 1], path, ancestors)
  }

  function OfProperties(g: Graph, properties: seq<Property>, path: Pointer, ancestors: set<NodeId>): seq<Pointer>
    requires Closed(g) && forall i :: 0 <= i < |properties| ==> InGraph(g, properties[i].schema)
    decreases g.Keys - ancestors, 3, |properties|
  {
    if properties == [] then []
    else
      var last := properties[|properties| - 1];
      OfProperties(g, properties[..|properties| - 1], path, ancestors)
      + OfProperty(g, last.schema, path + [Name(last.name)], ancestors)
  }

  function OfProperty(g: Graph, v: Value, path: Pointer, ancestors: set<NodeId>): seq<Pointer>
    requires Closed(g) && InGraph(g, v)
    decreases g.Keys - ancestors, 2, 1
  {
    if IsArraySchema(g, v) then OfArray(g, v.id, path, ancestors)
    else if IsObjectSchema(g, v) then OfSchema(g, v, path, ancestors)
    else Claim(path)
  }

  function OfArray(g: Graph, id: NodeId, path: Pointer, ancestors: set<NodeId>): seq<Pointer>
    requires Closed(g) && id in g
    decreases g.Keys - ancestors, 2, 0
  {
    var s := g[id];
    if TupleItems(s).Some? then OfTuple(g, TupleItems(s).value, path, ancestors)
    else if s.items.ItemSchema? && (IsObjectSchema(g, s.items.schema) || IsArraySchema(g, s.items.schema))
    then OfSchema(g, s.items.schema, path + [Every], ancestors)
    else Claim(path)
  }

  function OfTuple(g: Graph, items: seq<Value>, path: Pointer, ancestors: set<NodeId>): seq<Pointer>
    requires Closed(g) && AllInGraph(g, items)
    decreases g.Keys - ancestors, 1, |items|
  {
    if items == [] then []
    else
      var n := |items| - 1;
      OfTuple(g, items[..n], path, ancestors) + OfTupleItem(g, items[n], path + [Position(n)], ancestors)
  }

  function OfTupleItem(g: Graph, item: Value, path: Pointer, ancestors: set<NodeId>): seq<Pointer>
    requires Closed(g) && InGraph(g, item)
    decreases g.Keys - ancestors, 1, 0
  {
    if IsObjectSchema(g, item) || IsArraySchema(g, item) then OfSchema(g, item, path, ancestors) else Claim(path)
  }

  // ---------- the walker ----------

  class Walker {
    var claims: seq<Pointer>
    var ancestors: set<NodeId>

    constructor ()
      ensures claims == [] && ancestors == {}
    {
      claims, ancestors := [], {};
    }

    method PushClaim(path: Pointer)
      modifies this
      ensures claims == old(claims) + Claim(path) && ancestors == old(ancestors)
    {
      if path != [] {
        claims := claims + [path];
      }
    }

    /** The set of ancestors is restored, and claims are only appended: exactly those of the schema. */
    method CollectFromSchema(g: Graph, node: Value, path: Pointer)
      requires Closed(g) && InGraph(g, node)
      modifies this
      ensures ancestors == old(ancestors) && claims == old(claims) + OfSchema(g, node, path, old(ancestors))
      decreases g.Keys - ancestors, 0, 0
    {
      if node.NoObject? {
        PushClaim(path);
        return;
      }
      if node.id in ancestors { return; }
      ancestors := ancestors + {node.id};
      CollectFromSchemaNode(g, node.id, path);
      ancestors := ancestors - {node.id};
    }

    method CollectFromSchemaNode(g: Graph, id: NodeId, path: Pointer)
      requires Closed(g) && id in g
      modifies this
      ensures ancestors == old(ancestors) && claims == old(claims) + OfNode(g, id, path, old(ancestors))
      decreases g.Keys - ancestors, 4, 0
    {
      var node := g[id];
      assert SchemaInGraph(g, node);
      CollectFromVariants(g, node.variants, path);
      if node.properties.Some? {
        CollectFromProperties(g, node.properties.value, path);
      } else if IsArraySchema(g, Node(id)) {
        CollectFromArraySchema(g, id, path);
      } else {
        PushClaim(path);
      }
    }

    method CollectFromVariants(g: Graph, variants: seq<Value>, path: Pointer)
      requires Closed(g) && AllInGraph(g, variants)
      modifies this
      ensures ancestors == old(ancestors) && claims == old(claims) + OfVariants(g, variants, path, old(ancestors))
      decreases g.Keys - ancestors, 1, |variants| + 1
    {
      for i := 0 to |variants|
        invariant ancestors == old(ancestors)
                  && claims == old(claims) + OfVariants(g, variants[..i], path, old(ancestors))
      {
        assert variants[..i + 1][..i] == variants[..i];
        CollectFromSchema(g, variants[i], path);
      }
      assert variants[..|variants|] == variants;
    }

    method CollectFromProperties(g: Graph, properties: seq<Property>, path: Pointer)
      requires Closed(g) && forall i :: 0 <= i < |properties| ==> InGraph(g, properties[i].schema)
      modifies this
      ensures ancestors == old(ancestors) && claims == old(claims) + OfProperties(g, properties, path, old(ancestors))
      decreases g.Keys - ancestors, 3, |properties| + 1
    {
      for i := 0 to |properties|
        invariant ancestors == old(ancestors)
                  && claims == old(claims) + OfProperties(g, properties[..i], path, old(ancestors))
      {
        assert properties[..i + 1][..i] == properties[..i];
        var propertySchema := properties[i].schema;
        var propertyPath := path + [Name(properties[i].name)];
        if IsArraySchema(g, propertySchema) {
          CollectFromArraySchema(g, propertySchema.id, propertyPath);
        } else if IsObjectSchema(g, propertySchema) {
          CollectFromSchema(g, propertySchema, propertyPath);
        } else {
          PushClaim(propertyPath);
        }
      }
      assert properties[..|properties|] == properties;
    }

    method CollectFromArraySchema(g: Graph, id: NodeId, path: Pointer)
      requires Closed(g) && id in g
      modifies this
      ensures ancestors == old(ancestors) && claims == old(claims) + OfArray(g, id, path, old(ancestors))
      decreases g.Keys - ancestors, 2, 0
    {
      var node := g[id];
      assert SchemaInGraph(g, node);
      var tupleItems := TupleItems(node);
      if tupleItems.Some? {
        CollectFromTuple(g, tupleItems.value, path);
        return;
      }
      if node.items.ItemSchema? && (IsObjectSchema(g, node.items.schema) || IsArraySchema(g, node.items.schema)) {
        CollectFromSchema(g, node.items.schema, path + [Every]);
        return;
      }
      PushClaim(path);
    }

    method CollectFromTuple(g: Graph, items: seq<Value>, path: Pointer)
      requires Closed(g) && AllInGraph(g, items)
      modifies this
      ensures ancestors == old(ancestors) && claims == old(claims) + OfTuple(g, items, path, old(ancestors))
      decreases g.Keys - ancestors, 1, |items| + 1
    {
      for index := 0 to |items|
        invariant ancestors == old(ancestors)
                  && claims == old(claims) + OfTuple(g, items[..index], path, old(ancestors))
      {
        assert items[..index + 1][..index] == items[..index];
        var itemPath := path + [Position(index)];
        if IsObjectSchema(g, items[index]) || IsArraySchema(g, items[index]) {
          CollectFromSchema(g, items[index], itemPath);
        } else {
          PushClaim(itemPath);
        }
      }
      assert items[..|items|] == items;
    }
  }

  // ---------- every claim can be reached from the root ----------

  /** One step down a schema: into a combinator, a property, a tuple position or the items. */
  datatype Edge = Variant(i: nat) | PropertyAt(i: nat) | TupleAt(i: nat) | Element

  function Target(g: Graph, v: Value, e: Edge): Option<Value> {
    if v.NoObject? || v.id !in g then None
    else
      var s := g[v.id];
      match e
      case Variant(i) => if i < |s.variants| then Some(s.variants[i]) else None
      case PropertyAt(i) =>
        if s.properties.Some? && i < |s.properties.value| then Some(s.properties.value[i].schema) else None
      case TupleAt(i) => if TupleItems(s).Some? && i < |TupleItems(s).value| then Some(TupleItems(s).value[i]) else None
      case Element => if s.items.ItemSchema? then Some(s.items.schema) else None
  }

  function Components(g: Graph, v: Value, e: Edge): Pointer
    requires Target(g, v, e).Some?
  {
    match e
    case Variant(_) => []
    case PropertyAt(i) => [Name(g[v.id].properties.value[i].name)]
    case TupleAt(i) => [Position(i)]
    case Element => [Every]
  }

  /** The edges lead from `v` somewhere, and the claims path they spell is `path`. */
  predicate Spells(g: Graph, v: Value, edges: seq<Edge>, path: Pointer)
    decreases |edges|
  {
    if edges == [] then path == []
    else
      var t := Target(g, v, edges[0]);
      && t.Some?
      && Components(g, v, edges[0]) <= path
      && Spells(g, t.value, edges[1..], path[|Components(g, v, edges[0])|..])
  }

  ghost predicate Navigable(g: Graph, v: Value, path: Pointer) {
    exists edges :: Spells(g, v, edges, path)
  }

  /** `claims` extend `path` by what can be navigated from `v`, and are at most `bound` long. */
  ghost predicate ReachedFrom(claims: seq<Pointer>, g: Graph, v: Value, path: Pointer, bound: nat) {
    forall i :: 0 <= i < |claims| ==>
        path <= claims[i] && |claims[i]| <= bound && claims[i] != [] && Navigable(g, v, claims[i][|path|..])
  }

  lemma Here(g: Graph, v: Value, path: Pointer)
    ensures ReachedFrom(Claim(path), g, v, path, |path|)
  {
    assert Spells(g, v, [], []);
    assert path[|path|..] == [];
  }

  lemma EdgeFirst(g: Graph, v: Value, e: Edge, rest: Pointer)
    requires Target(g, v, e).Some? && Navigable(g, Target(g, v, e).value, rest)
    ensures Navigable(g, v, Components(g, v, e) + rest)
  {
    var edges :| Spells(g, Target(g, v, e).value, edges, rest);
    var c := Components(g, v, e);
    assert (c + rest)[|c|..] == rest;
    assert ([e] + edges)[1..] == edges;
    assert Spells(g, v, [e] + edges, c + rest);
  }

  lemma SplitAfter(path: Pointer, c: Pointer, claim: Pointer)
    requires path + c <= claim
    ensures path <= claim && claim[|path|..] == c + claim[|path + c|..]
  {
  }

  lemma Along(claims: seq<Pointer>, g: Graph, v: Value, e: Edge, path: Pointer, bound: nat)
    requires Target(g, v, e).Some? && ReachedFrom(claims, g, Target(g, v, e).value, path + Components(g, v, e), bound)
    ensures ReachedFrom(claims, g, v, path, bound)
  {
    var c := Components(g, v, e);
    forall i | 0 <= i < |claims| ensures path <= claims[i] && Navigable(g, v, claims[i][|path|..]) {
      EdgeFirst(g, v, e, claims[i][|path + c|..]);
      SplitAfter(path, c, claims[i]);
    }
  }

  lemma Both(a: seq<Pointer>, b: seq<Pointer>, g: Graph, v: Value, path: Pointer, bound: nat)
    requires ReachedFrom(a, g, v, path, bound) && ReachedFrom(b, g, v, path, bound)
    ensures ReachedFrom(a + b, g, v, path, bound)
  {
  }

  /** What is left to enter, two components each. */
  function Room(g: Graph, path: Pointer, ancestors: set<NodeId>): nat {
    |path| + 2 * |g.Keys - ancestors|
  }

  lemma EnteringTakesRoom(g: Graph, id: NodeId, ancestors: set<NodeId>)
    requires id in g && id !in ancestors
    ensures |g.Keys - (ancestors + {id})| + 1 == |g.Keys - ancestors|
  {
    assert g.Keys - ancestors == (g.Keys - (ancestors + {id})) + {id};
  }

  lemma {:induction false} SchemaReached(g: Graph, v: Value, path: Pointer, ancestors: set<NodeId>)
    requires Closed(g) && InGraph(g, v)
    ensures ReachedFrom(OfSchema(g, v, path, ancestors), g, v, path, Room(g, path, ancestors))
    decreases g.Keys - ancestors, 0, 0
  {
    if v.NoObject? {
      Here(g, v, path);
    } else if v.id !in ancestors {
      EnteringTakesRoom(g, v.id, ancestors);
      NodeReached(g, v.id, path, ancestors + {v.id});
    }
  }

  lemma {:induction false} NodeReached(g: Graph, id: NodeId, path: Pointer, ancestors: set<NodeId>)
    requires Closed(g) && id in g
    ensures ReachedFrom(OfNode(g, id, path, ancestors), g, Node(id), path, Room(g, path, ancestors) + 2)
    decreases g.Keys - ancestors, 4, 0
  {
    var bound := Room(g, path, ancestors) + 2;
    assert SchemaInGraph(g, g[id]);
    VariantsReached(g, id, |g[id].variants|, path, ancestors);
    assert g[id].variants[..|g[id].variants|] == g[id].variants;
    var rest := if g[id].properties.Some? then OfProperties(g, g[id].properties.value, path, ancestors)
                else if IsArraySchema(g, Node(id)) then OfArray(g, id, path, ancestors)
                else Claim(path);
    if g[id].properties.Some? {
      PropertiesReached(g, id, |g[id].properties.value|, path, ancestors);
      assert g[id].properties.value[..|g[id].properties.value|] == g[id].properties.value;
    } else if IsArraySchema(g, Node(id)) {
      ArrayReached(g, id, path, ancestors);
    } else {
      Here(g, Node(id), path);
    }
    Both(OfVariants(g, g[id].variants, path, ancestors), rest, g, Node(id), path, bound);
  }

  lemma {:induction false} VariantsReached(g: Graph, id: NodeId, n: nat, path: Pointer, ancestors: set<NodeId>)
    requires Closed(g) && id in g && n <= |g[id].variants|
    ensures AllInGraph(g, g[id].variants[..n])
    ensures ReachedFrom(OfVariants(g, g[id].variants[..n], path, ancestors), g, Node(id), path,
                        Room(g, path, ancestors) + 2)
    decreases g.Keys - ancestors, 1, n
  {
    assert SchemaInGraph(g, g[id]);
    if n > 0 {
      var bound := Room(g, path, ancestors) + 2;
      var last := g[id].variants[n - 1];
      VariantsReached(g, id, n - 1, path, ancestors);
      assert g[id].variants[..n][..n - 1] == g[id].variants[..n - 1];
      SchemaReached(g, last, path, ancestors);
      assert path + [] == path;
      Along(OfSchema(g, last, path, ancestors), g, Node(id), Variant(n - 1), path, Room(g, path, ancestors));
    }
  }

  lemma {:induction false} PropertiesReached(g: Graph, id: NodeId, n: nat, path: Pointer, ancestors: set<NodeId>)
    requires Closed(g) && id in g && g[id].properties.Some? && n <= |g[id].properties.value|
    ensures forall i :: 0 <= i < n ==> InGraph(g, g[id].properties.value[i].schema)
    ensures ReachedFrom(OfProperties(g, g[id].properties.value[..n], path, ancestors), g, Node(id), path,
                        Room(g, path, ancestors) + 2)
    decreases g.Keys - ancestors, 3, n
  {
    assert SchemaInGraph(g, g[id]);
    if n > 0 {
      var p := g[id].properties.value[n - 1];
      var here := path + [Name(p.name)];
      PropertiesReached(g, id, n - 1, path, ancestors);
      assert g[id].properties.value[..n][..n - 1] == g[id].properties.value[..n - 1];
      PropertyReached(g, p.schema, here, ancestors);
      Along(OfProperty(g, p.schema, here, ancestors), g, Node(id), PropertyAt(n - 1), path,
            Room(g, path, ancestors) + 2);
    }
  }

  lemma {:induction false} PropertyReached(g: Graph, v: Value, path: Pointer, ancestors: set<NodeId>)
    requires Closed(g) && InGraph(g, v)
    ensures ReachedFrom(OfProperty(g, v, path, ancestors), g, v, path, Room(g, path, ancestors) + 1)
    decreases g.Keys - ancestors, 2, 1
  {
    if IsArraySchema(g, v) {
      ArrayReached(g, v.id, path, ancestors);
    } else if IsObjectSchema(g, v) {
      SchemaReached(g, v, path, ancestors);
    } else {
      Here(g, v, path);
    }
  }

  lemma {:induction false} ArrayReached(g: Graph, id: NodeId, path: Pointer, ancestors: set<NodeId>)
    requires Closed(g) && id in g
    ensures ReachedFrom(OfArray(g, id, path, ancestors), g, Node(id), path, Room(g, path, ancestors) + 1)
    decreases g.Keys - ancestors, 2, 0
  {
    var s := g[id];
    assert SchemaInGraph(g, s);
    if TupleItems(s).Some? {
      TupleReached(g, id, |TupleItems(s).value|, path, ancestors);
      assert TupleItems(s).value[..|TupleItems(s).value|] == TupleItems(s).value;
    } else if s.items.ItemSchema? && (IsObjectSchema(g, s.items.schema) || IsArraySchema(g, s.items.schema)) {
      SchemaReached(g, s.items.schema, path + [Every], ancestors);
      Along(OfSchema(g, s.items.schema, path + [Every], ancestors), g, Node(id), Element, path,
            Room(g, path, ancestors) + 1);
    } else {
      Here(g, Node(id), path);
    }
  }

  lemma {:induction false} TupleReached(g: Graph, id: NodeId, n: nat, path: Pointer, ancestors: set<NodeId>)
    requires Closed(g) && id in g && TupleItems(g[id]).Some? && n <= |TupleItems(g[id]).value|
    ensures AllInGraph(g, TupleItems(g[id]).value[..n])
    ensures ReachedFrom(OfTuple(g, TupleItems(g[id]).value[..n], path, ancestors), g, Node(id), path,
                        Room(g, path, ancestors) + 1)
    decreases g.Keys - ancestors, 1, n
  {
    assert SchemaInGraph(g, g[id]);
    if n > 0 {
      var items := TupleItems(g[id]).value;
      var here := path + [Position(n - 1)];
      TupleReached(g, id, n - 1, path, ancestors);
      assert items[..n][..n - 1] == items[..n - 1];
      TupleItemReached(g, items[n - 1], here, ancestors);
      Along(OfTupleItem(g, items[n - 1], here, ancestors), g, Node(id), TupleAt(n - 1), path,
            Room(g, path, ancestors) + 1);
    }
  }

  lemma {:induction false} TupleItemReached(g: Graph, item: Value, path: Pointer, ancestors: set<NodeId>)
    requires Closed(g) && InGraph(g, item)
    ensures ReachedFrom(OfTupleItem(g, item, path, ancestors), g, item, path, Room(g, path, ancestors))
    decreases g.Keys - ancestors, 1, 0
  {
    if IsObjectSchema(g, item) || IsArraySchema(g, item) {
      SchemaReached(g, item, path, ancestors);
    } else {
      Here(g, item, path);
    }
  }

  /**
   * Every claim inferred from a schema, cyclic or not, has a path that is not empty, spells a way down the schema from
   * its root, and is at most twice as long as the schema has objects.
   */
  lemma ClaimsAreNavigable(g: Graph, root: Value)
    requires Closed(g) && InGraph(g, root)
    ensures forall path :: path in OfSchema(g, root, [], {}) ==>
              path != [] && |path| <= 2 * |g| && Navigable(g, root, path)
  {
    SchemaReached(g, root, [], {});
    assert g.Keys - {} == g.Keys && |g.Keys| == |g|;
    forall path | path in OfSchema(g, root, [], {})
      ensures path != [] && |path| <= 2 * |g| && Navigable(g, root, path) {
      assert path[0..] == path;
    }
  }
}
