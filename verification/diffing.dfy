/**
  The comparison engine: `diff` of configurama.go and v2/configurama.go (the two
  are the same code). It collects what `first` holds that `second` lacks: keys
  `second` does not have or holds with another value, grouped by section.
*/
module Diffing {
  import opened Wrappers
  import opened PoolData
  import opened Merging

  /** Key `k` of section `s`, with value `v`, is not found as such in `second`. */
  predicate Missing(second: Data, s: string, k: string, v: string)
  {
    s !in second || k !in second[s] || second[s][k] != v
  }

  /** The keys of `a` that `b` lacks or holds with another value. */
  function DiffSection(a: Section, b: Section): (r: Section)
    ensures forall k :: k in r <==> k in a && (k !in b || b[k] != a[k])
    ensures forall k :: k in r ==> r[k] == a[k]
    ensures b == map[] ==> r == a
  {
    map k | k in a && (k !in b || b[k] != a[k]) :: a[k]
  }

  /**
    What `diff(first, second)` returns. A section of `first` that `second` lacks
    appears whole, even when it is empty; a section both have appears only when
    some key of it is missing or different, and then with just those keys.
  */
  function DiffOf(first: Data, second: Data): (r: Data)
    ensures r.Keys <= first.Keys
    ensures forall s :: s in first && s !in second ==> s in r && r[s] == first[s]
    ensures forall s :: s in r ==> forall k :: k in r[s] <==> k in first[s] && Missing(second, s, k, first[s][k])
    ensures forall s :: s in r ==> forall k :: k in r[s] ==> r[s][k] == first[s][k]
    ensures forall s :: s in first && s in second ==>
              (s in r <==> exists k :: k in first[s] && Missing(second, s, k, first[s][k]))
  {
    var r := map s | s in first && (s !in second || DiffSection(first[s], second[s]) != map[]) ::
      if s in second then DiffSection(first[s], second[s]) else first[s];
    assert forall s :: s in first && s in second && s !in r ==> forall k :: k in first[s] ==> k !in DiffSection(first[s], second[s]);
    r
  }

  /**
    The inner loop of `diff` for one section: `params` is the section of `first`,
    `other` the same section of `second` (Go reads an absent section as an empty
    map) and `prior` the entry `diff` has already written for a section `second`
    lacks. The first differing key replaces that entry with a fresh map.
  */
  method DiffKeys(params: Section, other: Section, prior: Option<Section>) returns (entry: Option<Section>)
    ensures DiffSection(params, other) != map[] ==> entry == Some(DiffSection(params, other))
    ensures DiffSection(params, other) == map[] ==> entry == prior
  {
    entry := prior;
    var gotSection := false;
    var keys := params.Keys;
    while keys != {}
      invariant keys <= params.Keys
      invariant gotSection ==> entry.Some? && entry.value == DiffSection(params - keys, other) != map[]
      invariant !gotSection ==> entry == prior && DiffSection(params - keys, other) == map[]
      decreases keys
    {
      var key :| key in keys;
      ghost var seen := params - keys;
      if key !in other || other[key] != params[key] {
        if !gotSection {
          entry := Some(map[]);
          gotSection := true;
        }
        entry := Some(entry.value[key := params[key]]);
      }
      OneMoreSection(params, keys, key);
      keys := keys - {key};
      assert params - keys == seen[key := params[key]];
    }
    NoneRemoved(params);
  }

  /** `diff(first, second)`, visiting the sections of `first` in an order the source leaves open. */
  method Diff(first: Data, second: Data) returns (res: Data)
    ensures res == DiffOf(first, second)
  {
    res := map[];
    var todo := first.Keys;
    AllRemoved(first);
    while todo != {}
      invariant todo <= first.Keys
      invariant res == DiffOf(first - todo, second)
      decreases todo
    {
      var sec :| sec in todo;
      var params := first[sec];
      var prior: Option<Section> := None;
      if sec !in second {
        // The section is missing, so every key of it is missing as well.
        var copy := CopySection(params);
        prior := Some(copy);
      }
      var other := if sec in second then second[sec] else map[];
      var entry := DiffKeys(params, other, prior);
      if entry.Some? {
        res := res[sec := entry.value];
      }
      DiffStep(first - todo, second, sec, params);
      OneMoreSection(first, todo, sec);
      todo := todo - {sec};
    }
    NoneRemoved(first);
  }

  /** Comparing one more section adds that section's differences, or nothing when it has none. */
  lemma DiffStep(done: Data, second: Data, sec: string, params: Section)
    requires sec !in done
    ensures sec !in second ==> DiffOf(done[sec := params], second) == DiffOf(done, second)[sec := params]
    ensures sec in second && DiffSection(params, second[sec]) != map[] ==>
              DiffOf(done[sec := params], second) == DiffOf(done, second)[sec := DiffSection(params, second[sec])]
    ensures sec in second && DiffSection(params, second[sec]) == map[] ==>
              DiffOf(done[sec := params], second) == DiffOf(done, second)
  {
    var l, r := DiffOf(done[sec := params], second), DiffOf(done, second);
    forall s | s != sec
      ensures (s in l <==> s in r) && (s in r ==> l[s] == r[s])
    {
      DiffElsewhere(done, second, sec, params, s);
    }
    if sec !in second || DiffSection(params, second[sec]) != map[] {
      var x := if sec in second then DiffSection(params, second[sec]) else params;
      assert sec in l && l[sec] == x;
      assert l.Keys == r[sec := x].Keys;
      SameMap(l, r[sec := x]);
    } else {
      assert sec !in l;
      assert l.Keys == r.Keys;
      SameMap(l, r);
    }
  }

  /** Comparing one more section leaves the difference of every other section as it was. */
  lemma DiffElsewhere(done: Data, second: Data, sec: string, params: Section, s: string)
    requires s != sec
    ensures s in DiffOf(done[sec := params], second) <==> s in DiffOf(done, second)
    ensures s in DiffOf(done, second) ==> DiffOf(done[sec := params], second)[s] == DiffOf(done, second)[s]
  {
    var next := done[sec := params];
    assert (s in next) == (s in done);
    assert s in done ==> next[s] == done[s];
  }

  /** Every key of `first` is in `second` with the same value. */
  predicate Included(first: Data, second: Data)
  {
    forall s :: s in first ==> s in second && forall k :: k in first[s] ==> k in second[s] && second[s][k] == first[s][k]
  }

  /** The difference is empty exactly when `first` is included in `second`. */
  lemma DiffEmptyIff(first: Data, second: Data)
    ensures DiffOf(first, second) == map[] <==> Included(first, second)
  {
    var r := DiffOf(first, second);
    if r == map[] {
      forall s | s in first
        ensures s in second && forall k :: k in first[s] ==> k in second[s] && second[s][k] == first[s][k]
      {
        assert s !in r;
      }
    } else {
      var s :| s in r;
      if s in second {
        var k :| k in first[s] && Missing(second, s, k, first[s][k]);
        assert !Included(first, second);
      }
    }
  }

  /**
    Two pools are identical if, and only if, neither holds anything the other
    lacks, as the doc comment of `Compare` promises.
  */
  lemma IdenticalIff(a: Data, b: Data)
    ensures DiffOf(a, b) == map[] && DiffOf(b, a) == map[] <==> a == b
  {
    DiffEmptyIff(a, b);
    DiffEmptyIff(b, a);
    if Included(a, b) && Included(b, a) {
      forall s | s in a
        ensures a[s] == b[s]
      {
        assert a[s].Keys == b[s].Keys;
      }
      assert a.Keys == b.Keys;
    }
  }

  /** After an Overwrite merge nothing of the merged-in pool is missing. */
  lemma OverwriteCoversSecond(first: Data, second: Data)
    ensures DiffOf(second, Combined(first, second, Overwrite)) == map[]
  {
    DiffEmptyIff(second, Combined(first, second, Overwrite));
  }

  /** After a merge under any strategy but Overwrite, nothing of the original pool is missing. */
  lemma KeepCoversFirst(first: Data, second: Data, strategy: Strategy)
    requires strategy != Overwrite
    ensures DiffOf(first, Combined(first, second, strategy)) == map[]
  {
    DiffEmptyIff(first, Combined(first, second, strategy));
  }

  /** Keys compare case-sensitively: a key differing only in case is missing. */
  lemma CaseSensitive()
    ensures DiffOf(map["Section" := map["KEY1" := "v"]], map["Section" := map["key1" := "v"]])
         == map["Section" := map["KEY1" := "v"]]
  {
    var first: Data := map["Section" := map["KEY1" := "v"]];
    var second: Data := map["Section" := map["key1" := "v"]];
    assert "KEY1" != "key1" by {
      assert "KEY1"[0] != "key1"[0];
    }
    assert Missing(second, "Section", "KEY1", "v");
    var r := DiffOf(first, second);
    assert "Section" in r;
    assert r["Section"] == map["KEY1" := "v"];
    assert r.Keys == {"Section"};
  }
}
