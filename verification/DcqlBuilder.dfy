/** Deduplicating claims, and giving each selected format a resolved reference. */
module DcqlBuilder {
  import opened Basics
  import opened ClaimsPaths

  // ---------- dedupeClaims ----------

  method DedupeClaims(claims: seq<Pointer>) returns (deduped: seq<Pointer>)
    ensures deduped == Deduped(claims)
  {
    deduped := [];
    for i := 0 to |claims|
      invariant deduped == Deduped(claims[..i])
    {
      assert claims[..i + 1][..i] == claims[..i];
      if claims[i] !in deduped {
        deduped := deduped + [claims[i]];
      }
    }
    assert claims[..|claims|] == claims;
  }

  /** The position of the first occurrence. */
  function First(claims: seq<Pointer>, path: Pointer): (i: nat)
    requires path in claims
    ensures i < |claims| && claims[i] == path && path !in claims[..i]
  {
    if path in claims[..|claims| - 1] then
      var i := First(claims[..|claims| - 1], path);
      assert claims[..|claims| - 1][..i] == claims[..i];
      i
    else
      assert claims == claims[..|claims| - 1] + [claims[|claims| - 1]];
      |claims| - 1
  }

  /** Each path stays once, and the paths stay in the order of their first occurrences. */
  lemma {:induction false} DedupedKeepsFirst(claims: seq<Pointer>)
    ensures forall path :: path in Deduped(claims) <==> path in claims
    ensures forall i, j :: 0 <= i < j < |Deduped(claims)| ==>
              Deduped(claims)[i] != Deduped(claims)[j]
              && First(claims, Deduped(claims)[i]) < First(claims, Deduped(claims)[j])
  {
    if claims != [] {
      var front, last := claims[..|claims| - 1], claims[|claims| - 1];
      DedupedKeepsFirst(front);
      assert forall path :: path in claims <==> path in front || path == last;
      var d := Deduped(claims);
      forall i, j | 0 <= i < j < |d| ensures d[i] != d[j] && First(claims, d[i]) < First(claims, d[j]) {
        assert d[i] == Deduped(front)[i];
        assert d[i] in front;
        if j < |Deduped(front)| {
          assert d[j] in front;
        }
      }
    }
  }

  // ---------- the greedy assignment of references ----------

  function CountOf(s: seq<string>, format: string): nat {
    if s == [] then 0 else CountOf(s[..|s| - 1], format) + if s[|s| - 1] == format then 1 else 0
  }

  /** The index of the reference number `k` of a format. */
  function NthOf(references: seq<string>, format: string, k: nat): (r: Option<nat>)
    ensures r.Some? ==>
              r.value < |references| && references[r.value] == format && CountOf(references[..r.value], format) == k
  {
    if references == [] then None
    else
      var n := |references| - 1;
      if references[n] == format && CountOf(references[..n], format) == k then Some(n)
      else
        var r := NthOf(references[..n], format, k);
        assert r.Some? ==> references[..n][..r.value] == references[..r.value];
        r
  }

  lemma {:induction false} NthExists(references: seq<string>, format: string, k: nat)
    ensures NthOf(references, format, k).Some? <==> k < CountOf(references, format)
  {
    if references != [] {
      NthExists(references[..|references| - 1], format, k);
    }
  }

  lemma {:induction false} CountGrows(s: seq<string>, format: string, i: nat, j: nat)
    requires i <= j <= |s|
    ensures CountOf(s[..i], format) <= CountOf(s[..j], format)
    ensures i < j && s[i] == format ==> CountOf(s[..i], format) < CountOf(s[..j], format)
    decreases j
  {
    if i < j {
      assert s[..j][..j - 1] == s[..j - 1];
      CountGrows(s, format, i, j - 1);
    }
  }

  /** An index with the right format and rank is the one `NthOf` finds. */
  lemma NthIsUnique(references: seq<string>, format: string, j: nat)
    requires j < |references| && references[j] == format
    ensures NthOf(references, format, CountOf(references[..j], format)) == Some(j)
  {
    var k := CountOf(references[..j], format);
    CountGrows(references, format, j, |references|);
    assert references[..|references|] == references;
    NthExists(references, format, k);
    var r := NthOf(references, format, k).value;
    if r < j { CountGrows(references, format, r, j); } else if j < r { CountGrows(references, format, j, r); }
  }

  /** After some selections, the consumed references are, of each format, the first as many as were selected. */
  ghost predicate ConsumedAfter(consumed: set<nat>, references: seq<string>, selected: seq<string>) {
    forall j :: 0 <= j < |references| ==>
      (j in consumed <==> CountOf(references[..j], references[j]) < CountOf(selected, references[j]))
  }

  function FindFree(references: seq<string>, format: string, consumed: set<nat>, from: nat): (r: Option<nat>)
    requires from <= |references|
    ensures r.Some? ==> from <= r.value < |references| && references[r.value] == format && r.value !in consumed
    ensures forall j :: from <= j < |references| && references[j] == format && j !in consumed ==>
              r.Some? && r.value <= j
    decreases |references| - from
  {
    if from == |references| then None
    else if references[from] == format && from !in consumed then Some(from)
    else FindFree(references, format, consumed, from + 1)
  }

  lemma NotBeforeNth(references: seq<string>, selected: seq<string>, format: string, consumed: set<nat>, f: nat)
    requires ConsumedAfter(consumed, references, selected) && f < |references| && references[f] == format
             && f !in consumed
    ensures var nth := NthOf(references, format, CountOf(selected, format));
            nth.Some? && nth.value <= f
  {
    var k := CountOf(selected, format);
    CountGrows(references, format, f, |references|);
    assert references[..|references|] == references;
    NthExists(references, format, k);
    var j := NthOf(references, format, k).value;
    if f < j { CountGrows(references, format, f, j); }
  }

  lemma FreeIsNth(references: seq<string>, selected: seq<string>, format: string, consumed: set<nat>)
    requires ConsumedAfter(consumed, references, selected)
    ensures FindFree(references, format, consumed, 0) == NthOf(references, format, CountOf(selected, format))
  {
    var nth := NthOf(references, format, CountOf(selected, format));
    var free := FindFree(references, format, consumed, 0);
    if nth.Some? {
      assert references[nth.value] == format && nth.value !in consumed;
    }
    if free.Some? {
      NotBeforeNth(references, selected, format, consumed, free.value);
    }
  }

  lemma SelectConsumes(references: seq<string>, selected: seq<string>, format: string, consumed: set<nat>)
    requires ConsumedAfter(consumed, references, selected)
    ensures var nth := NthOf(references, format, CountOf(selected, format));
            ConsumedAfter(if nth.Some? then consumed + {nth.value} else consumed, references, selected + [format])
  {
    var k := CountOf(selected, format);
    var nth := NthOf(references, format, k);
    var after := if nth.Some? then consumed + {nth.value} else consumed;
    assert (selected + [format])[..|selected|] == selected;
    forall j | 0 <= j < |references|
      ensures j in after <==> CountOf(references[..j], references[j]) < CountOf(selected + [format], references[j])
    {
      if references[j] == format && CountOf(references[..j], format) == k {
        NthIsUnique(references, format, j);
      }
    }
  }

  /** Selection number k of a format gets reference number k of that format. */
  function Given(selected: seq<string>, references: seq<string>): (r: seq<Option<nat>>)
    ensures |r| == |selected|
  {
    if selected == [] then []
    else
      var n := |selected| - 1;
      Given(selected[..n], references) + [NthOf(references, selected[n], CountOf(selected[..n], selected[n]))]
  }

  /** The references of `buildDcqlFromSchemaMeta`. */
  method AssignReferences(selected: seq<string>, references: seq<string>) returns (given: seq<Option<nat>>)
    ensures given == Given(selected, references)
  {
    var consumed: set<nat> := {};
    given := [];
    for i := 0 to |selected|
      invariant given == Given(selected[..i], references)
      invariant ConsumedAfter(consumed, references, selected[..i])
    {
      ghost var before := selected[..i];
      FreeIsNth(references, before, selected[i], consumed);
      SelectConsumes(references, before, selected[i], consumed);
      assert selected[..i + 1] == before + [selected[i]];
      assert selected[..i + 1][..i] == before;
      var free := FindFree(references, selected[i], consumed, 0);
      if free.Some? {
        consumed := consumed + {free.value};
      }
      given := given + [free];
    }
    assert selected[..|selected|] == selected;
  }

  lemma {:induction false} GivenAt(selected: seq<string>, references: seq<string>, i: nat)
    requires i < |selected|
    ensures Given(selected, references)[i] == NthOf(references, selected[i], CountOf(selected[..i], selected[i]))
  {
    var n := |selected| - 1;
    if i < n {
      GivenAt(selected[..n], references, i);
      assert selected[..n][..i] == selected[..i];
    }
  }

  /** How many selections of a format are given a reference. */
  ghost function Matched(given: seq<Option<nat>>, selected: seq<string>, format: string): nat
    requires |given| == |selected|
  {
    if selected == [] then 0
    else
      var n := |selected| - 1;
      Matched(given[..n], selected[..n], format) + if selected[n] == format && given[n].Some? then 1 else 0
  }

  /**
   * Each selection is given a reference of its own format, no reference is given twice, and of each format as many are
   * given as there are both selections and references.
   */
  lemma AssignmentIsBest(references: seq<string>, selected: seq<string>)
    ensures var given := Given(selected, references);
            && (forall i :: 0 <= i < |given| && given[i].Some? ==>
                  given[i].value < |references| && references[given[i].value] == selected[i])
            && (forall i, j :: 0 <= i < j < |given| && given[i].Some? && given[j].Some? ==> given[i] != given[j])
            && forall format :: Matched(given, selected, format) ==
                 if CountOf(selected, format) < CountOf(references, format) then CountOf(selected, format)
                    else CountOf(references, format)
  {
    var given := Given(selected, references);
    forall i | 0 <= i < |given| && given[i].Some?
      ensures given[i].value < |references| && references[given[i].value] == selected[i] {
      GivenAt(selected, references, i);
    }
    forall i, j | 0 <= i < j < |given| && given[i].Some? && given[j].Some? ensures given[i] != given[j] {
      GivenAt(selected, references, i);
      GivenAt(selected, references, j);
      CountGrows(selected, selected[i], i, j);
    }
    forall format ensures Matched(given, selected, format) ==
                          if CountOf(selected, format) < CountOf(references, format) then CountOf(selected, format)
                          else CountOf(references, format)
    {
      MatchedCount(references, selected, format);
    }
  }

  lemma {:induction false} MatchedCount(references: seq<string>, selected: seq<string>, format: string)
    ensures Matched(Given(selected, references), selected, format) ==
            if CountOf(selected, format) < CountOf(references, format) then CountOf(selected, format)
               else CountOf(references, format)
  {
    if selected != [] {
      var n := |selected| - 1;
      MatchedCount(references, selected[..n], format);
      NthExists(references, format, CountOf(selected[..n], format));
      assert Given(selected, references)[..n] == Given(selected[..n], references);
    }
  }
}
