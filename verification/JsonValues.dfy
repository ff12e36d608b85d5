/** JSON values up to the order of object members, and the comparisons that the over-asking check makes of them. */
module JsonValues {
  import opened Basics
  import opened Json

  // ---------- JSON up to the order of members ----------

  datatype Val =
    | VNull
    | VBool(b: bool)
    | VNum(n: int)
    | VStr(s: string)
    | VArr(items: seq<Val>)
    | VObj(fields: map<string, Val>)

  function Sem(j: Json): Val
    decreases j, 1
  {
    match j
    case Null => VNull
    case Bool(b) => VBool(b)
    case Num(n) => VNum(n)
    case Str(s) => VStr(s)
    case Arr(items) => VArr(SemItems(items))
    case Obj(members) => VObj(SemMembers(members))
  }

  function SemItems(items: seq<Json>): (r: seq<Val>)
    ensures |r| == |items|
    decreases items, 0
  {
    if items == [] then [] else SemItems(items[..|items| - 1]) + [Sem(items[|items| - 1])]
  }

  function SemMembers(members: seq<Member>): map<string, Val>
    decreases members, 0
  {
    if members == [] then map[]
    else SemMembers(members[..|members| - 1])[members[|members| - 1].key := SemMember(members[|members| - 1])]
  }

  function SemMember(x: Member): Val
    decreases x, 0
  {
    Sem(x.value)
  }

  lemma {:induction false} SemItemsAt(items: seq<Json>, i: nat)
    requires i < |items|
    ensures SemItems(items)[i] == Sem(items[i])
  {
    if i < |items| - 1 {
      SemItemsAt(items[..|items| - 1], i);
    }
  }

  ghost predicate DistinctKeys(members: seq<Member>) {
    forall i, j :: 0 <= i < j < |members| ==> members[i].key != members[j].key
  }

  lemma {:induction false} SemHasKey(members: seq<Member>, k: string)
    ensures k in SemMembers(members) <==> HasKey(members, k)
  {
    if members != [] {
      var n := |members| - 1;
      SemHasKey(members[..n], k);
      if HasKey(members[..n], k) {
        var i :| 0 <= i < n && members[..n][i].key == k;
        assert members[i].key == k;
      }
      if HasKey(members, k) && members[n].key != k {
        var i :| 0 <= i < |members| && members[i].key == k;
        assert members[..n][i].key == k;
      }
    }
  }

  lemma {:induction false} SemMemberAt(members: seq<Member>, i: nat)
    requires DistinctKeys(members) && i < |members|
    ensures members[i].key in SemMembers(members) && SemMembers(members)[members[i].key] == Sem(members[i].value)
  {
    if i < |members| - 1 {
      SemMemberAt(members[..|members| - 1], i);
    }
  }

  lemma {:induction false} SemSize(members: seq<Member>)
    requires DistinctKeys(members)
    ensures |SemMembers(members)| == |members|
  {
    if members != [] {
      var n := |members| - 1;
      SemSize(members[..n]);
      SemHasKey(members[..n], members[n].key);
      assert !HasKey(members[..n], members[n].key);
    }
  }

  // ---------- deepEqual ----------

  predicate DeepEqual(a: Json, b: Json)
    decreases a, 1
  {
    match a
    case Arr(items) => b.Arr? && |items| == |b.items| && forall i :: 0 <= i < |items| ==>
      DeepEqual(items[i], b.items[i])
    case Obj(members) => b.Obj? && |members| == |b.members| && forall i :: 0 <= i < |members| ==>
      MemberEqual(members[i], b)
    case _ => a == b
  }

  predicate MemberEqual(x: Member, b: Json)
    decreases x, 0
  {
    Child(b, Key(x.key)).Some? && DeepEqual(x.value, Child(b, Key(x.key)).value)
  }

  lemma ProperMember(j: Json, i: nat)
    requires Proper(j) && j.Obj? && i < |j.members|
    ensures Proper(j.members[i].value) && Child(j, Key(j.members[i].key)) == Some(j.members[i].value)
  {
    assert Proper(Cells(j)[i].value);
    FindAt(Cells(j), i);
  }

  lemma ProperKeys(j: Json)
    requires Proper(j) && j.Obj?
    ensures DistinctKeys(j.members)
  {
    forall i, k | 0 <= i < k < |j.members| ensures j.members[i].key != j.members[k].key {
      assert Cells(j)[i].seg != Cells(j)[k].seg;
    }
  }

  lemma ChildIsKey(j: Json, k: string)
    requires j.Obj?
    ensures Child(j, Key(k)).Some? <==> HasKey(j.members, k)
  {
    var cells := Cells(j);
    if Child(j, Key(k)).Some? {
      var i :| 0 <= i < |cells| && cells[i].seg == Key(k);
      assert j.members[i].key == k;
    }
    if HasKey(j.members, k) {
      var i :| 0 <= i < |j.members| && j.members[i].key == k;
      assert cells[i].seg == Key(k);
    }
  }

  lemma ProperItems(j: Json)
    requires Proper(j) && j.Arr?
    ensures forall i :: 0 <= i < |j.items| ==> Proper(j.items[i])
  {
    forall i | 0 <= i < |j.items| ensures Proper(j.items[i]) { assert Proper(Cells(j)[i].value); }
  }

  lemma ChildIsProper(j: Json, key: string)
    requires Proper(j) && j.Obj? && Child(j, Key(key)).Some?
    ensures Proper(Child(j, Key(key)).value) && key in SemMembers(j.members)
            && SemMembers(j.members)[key] == Sem(Child(j, Key(key)).value)
  {
    ChildIsKey(j, key);
    var i :| 0 <= i < |j.members| && j.members[i].key == key;
    ProperMember(j, i);
    ProperKeys(j);
    SemMemberAt(j.members, i);
  }

  lemma SubsetOfSameSize<T>(a: set<T>, b: set<T>)
    requires a <= b && |a| == |b|
    ensures a == b
  {
    if a != b {
      var x :| x in b && x !in a;
      assert a <= b - {x};
      SubsetSize(a, b - {x});
    }
  }

  lemma {:induction false} SubsetSize<T>(a: set<T>, b: set<T>)
    requires a <= b
    ensures |a| <= |b|
    decreases a
  {
    if a != {} {
      var x :| x in a;
      SubsetSize(a - {x}, b - {x});
    }
  }

  /** `deepEqual` decides equality of JSON values: it compares one way only, and the number of keys does the rest. */
  lemma {:induction false} DeepEqualIsEqual(a: Json, b: Json)
    requires Proper(a) && Proper(b)
    ensures DeepEqual(a, b) <==> Sem(a) == Sem(b)
    decreases a, 1
  {
    match a
    case Arr(items) =>
      if b.Arr? && |items| == |b.items| {
        ProperItems(a);
        ProperItems(b);
        forall i | 0 <= i < |items| ensures DeepEqual(items[i], b.items[i]) <==> Sem(items[i]) == Sem(b.items[i]) {
          DeepEqualIsEqual(items[i], b.items[i]);
        }
        SameItems(items, b.items);
      }
    case Obj(members) =>
      if b.Obj? {
        forall i | 0 <= i < |members| ensures MemberEqual(members[i], b) <==> SameField(members[i], b.members) {
          ProperMember(a, i);
          MemberEqualIsEqual(members[i], b);
        }
        ObjectsEqual(a, b);
      }
    case _ =>
  }

  lemma ObjectsEqual(a: Json, b: Json)
    requires Proper(a) && Proper(b) && a.Obj? && b.Obj?
    requires forall i :: 0 <= i < |a.members| ==> (MemberEqual(a.members[i], b) <==> SameField(a.members[i], b.members))
    ensures DeepEqual(a, b) <==> Sem(a) == Sem(b)
  {
    ProperKeys(a);
    ProperKeys(b);
    SameFields(a.members, b.members);
  }

  lemma SameItems(a: seq<Json>, b: seq<Json>)
    requires |a| == |b|
    ensures SemItems(a) == SemItems(b) <==> forall i :: 0 <= i < |a| ==> Sem(a[i]) == Sem(b[i])
  {
    forall i | 0 <= i < |a| ensures SemItems(a)[i] == Sem(a[i]) && SemItems(b)[i] == Sem(b[i]) {
      SemItemsAt(a, i);
      SemItemsAt(b, i);
    }
  }

  ghost predicate SameField(x: Member, members: seq<Member>) {
    x.key in SemMembers(members) && SemMembers(members)[x.key] == Sem(x.value)
  }

  lemma {:induction false} MemberEqualIsEqual(x: Member, b: Json)
    requires Proper(x.value) && Proper(b) && b.Obj?
    ensures MemberEqual(x, b) <==> SameField(x, b.members)
    decreases x, 0
  {
    ChildIsKey(b, x.key);
    SemHasKey(b.members, x.key);
    if Child(b, Key(x.key)).Some? {
      ChildIsProper(b, x.key);
      DeepEqualIsEqual(x.value, Child(b, Key(x.key)).value);
    }
  }

  lemma SameFields(a: seq<Member>, b: seq<Member>)
    requires DistinctKeys(a) && DistinctKeys(b)
    ensures SemMembers(a) == SemMembers(b) <==> |a| == |b| && forall i :: 0 <= i < |a| ==> SameField(a[i], b)
  {
    var f, g := SemMembers(a), SemMembers(b);
    SemSize(a);
    SemSize(b);
    if |a| == |b| && forall i :: 0 <= i < |a| ==> SameField(a[i], b) {
      forall k | k in f ensures k in g && f[k] == g[k] {
        SemHasKey(a, k);
        var i :| 0 <= i < |a| && a[i].key == k;
        SemMemberAt(a, i);
        assert SameField(a[i], b);
      }
      assert |f.Keys| == |f| && |g.Keys| == |g|;
      SubsetOfSameSize(f.Keys, g.Keys);
      assert f == g;
    }
    if f == g {
      forall i | 0 <= i < |a| ensures SameField(a[i], b) { SemMemberAt(a, i); }
    }
  }

  // ---------- metaCovered ----------

  predicate MetaCovered(requested: Json, registered: Json)
    decreases registered, 1
  {
    match registered
    case Obj(members) => requested.Obj? && forall i :: 0 <= i < |members| ==> MemberCovered(requested, members[i])
    case Arr(items) => requested.Arr? && forall i :: 0 <= i < |requested.items| ==> HasEqual(requested.items[i], items)
    case _ => DeepEqual(requested, registered)
  }

  predicate HasEqual(x: Json, items: seq<Json>) {
    exists k :: 0 <= k < |items| && DeepEqual(x, items[k])
  }

  predicate MemberCovered(requested: Json, x: Member)
    decreases x, 0
  {
    Child(requested, Key(x.key)).Some? && MetaCovered(Child(requested, Key(x.key)).value, x.value)
  }

  lemma {:induction false} MetaCoveredReflexive(j: Json)
    requires Proper(j)
    ensures MetaCovered(j, j)
    decreases j, 1
  {
    match j
    case Obj(members) =>
      forall i | 0 <= i < |members| ensures MemberCovered(j, members[i]) {
        ProperMember(j, i);
        MemberCoveredReflexive(j, members[i]);
      }
    case Arr(items) =>
      ProperItems(j);
      forall i | 0 <= i < |items| ensures HasEqual(items[i], items) { DeepEqualIsEqual(items[i], items[i]); }
    case _ => DeepEqualIsEqual(j, j);
  }

  lemma {:induction false} MemberCoveredReflexive(j: Json, x: Member)
    requires Proper(x.value) && Child(j, Key(x.key)) == Some(x.value)
    ensures MemberCovered(j, x)
    decreases x, 0
  {
    MetaCoveredReflexive(x.value);
  }

  lemma {:induction false} MetaCoveredTransitive(a: Json, b: Json, c: Json)
    requires Proper(a) && Proper(b) && Proper(c) && MetaCovered(a, b) && MetaCovered(b, c)
    ensures MetaCovered(a, c)
    decreases c, 1
  {
    match c
    case Obj(members) =>
      forall i | 0 <= i < |members| ensures MemberCovered(a, members[i]) {
        ProperMember(c, i);
        MemberCoveredTransitive(a, b, members[i]);
      }
    case Arr(items) =>
      ProperItems(a);
      ProperItems(b);
      ProperItems(c);
      forall i | 0 <= i < |a.items| ensures HasEqual(a.items[i], items) {
        assert HasEqual(a.items[i], b.items);
        var j :| 0 <= j < |b.items| && DeepEqual(a.items[i], b.items[j]);
        assert HasEqual(b.items[j], items);
        var k :| 0 <= k < |items| && DeepEqual(b.items[j], items[k]);
        DeepEqualIsEqual(a.items[i], b.items[j]);
        DeepEqualIsEqual(b.items[j], items[k]);
        DeepEqualIsEqual(a.items[i], items[k]);
      }
    case _ =>
  }

  lemma {:induction false} MemberCoveredTransitive(a: Json, b: Json, x: Member)
    requires Proper(a) && Proper(b) && Proper(x.value) && a.Obj? && b.Obj? && MetaCovered(a, b) && MemberCovered(b, x)
    ensures MemberCovered(a, x)
    decreases x, 0
  {
    ChildIsKey(b, x.key);
    var i :| 0 <= i < |b.members| && b.members[i].key == x.key;
    ProperMember(b, i);
    assert MemberCovered(a, b.members[i]);
    ChildIsProper(a, x.key);
    MetaCoveredTransitive(Child(a, Key(x.key)).value, b.members[i].value, x.value);
  }
}
