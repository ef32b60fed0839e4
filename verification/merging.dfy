/**
  The merge engine: `merge` of configurama.go and v2/configurama.go (the two are
  the same code). Two pools are combined section by section and key by key; a key
  present in both is settled by the strategy.
*/
module Merging {
  import opened Wrappers
  import opened Errors
  import opened PoolData

  /** Go's `Strategy uint8`; every code other than the three named ones behaves like Keep. */
  newtype Strategy = x: int | 0 <= x < 256

  const Report: Strategy := 0
  const Overwrite: Strategy := 1
  const Keep: Strategy := 2

  /** One section of the merge: the union of keys; a shared key takes `b`'s value only under Overwrite. */
  function MergeSection(a: Section, b: Section, strategy: Strategy): (r: Section)
    ensures r.Keys == a.Keys + b.Keys
    ensures forall k :: k in a && k !in b ==> r[k] == a[k]
    ensures forall k :: k in b && k !in a ==> r[k] == b[k]
    ensures forall k :: k in a && k in b ==> r[k] == (if strategy == Overwrite then b[k] else a[k])
  {
    map k | k in a.Keys + b.Keys :: if k in b && (k !in a || strategy == Overwrite) then b[k] else a[k]
  }

  /** The pool a successful merge produces: every section and key of either input. */
  function Combined(first: Data, second: Data, strategy: Strategy): (r: Data)
    ensures r.Keys == first.Keys + second.Keys
    ensures forall s :: s in first && s !in second ==> r[s] == first[s]
    ensures forall s :: s in second && s !in first ==> r[s] == second[s]
    ensures forall s :: s in first && s in second ==> r[s] == MergeSection(first[s], second[s], strategy)
  {
    map s | s in first.Keys + second.Keys ::
      if s !in first then second[s]
      else if s !in second then first[s]
      else MergeSection(first[s], second[s], strategy)
  }

  /** Key `key` is present in section `section` of both inputs, whatever its two values. */
  predicate IsConflict(first: Data, second: Data, section: string, key: string)
  {
    section in first && section in second && key in first[section] && key in second[section]
  }

  ghost predicate HasConflict(first: Data, second: Data)
  {
    exists section, key :: IsConflict(first, second, section, key)
  }

  /**
    The inner loop of `merge` for a section present on both sides: the keys of
    `params` are added to `existing` one at a time, in an order the source leaves
    open. Under Report it stops at the first shared key it meets and names it.
  */
  method MergeKeys(existing: Section, params: Section, strategy: Strategy) returns (merged: Section, conflict: Option<string>)
    ensures conflict.Some? <==> strategy == Report && exists k :: k in existing && k in params
    ensures conflict.Some? ==> conflict.value in existing && conflict.value in params
    ensures conflict.None? ==> merged == MergeSection(existing, params, strategy)
  {
    merged := existing;
    var keys := params.Keys;
    while keys != {}
      invariant keys <= params.Keys
      invariant merged == MergeSection(existing, params - keys, strategy)
      invariant strategy == Report ==> forall k :: k in params && k !in keys ==> k !in existing
      decreases keys
    {
      var key :| key in keys;
      if key in merged {
        if strategy == Report {
          return merged, Some(key);
        } else if strategy == Overwrite {
          merged := merged[key := params[key]];
        }
        // Keep, and every unnamed strategy, keeps the existing value.
      } else {
        merged := merged[key := params[key]];
      }
      KeyStep(existing, params, keys, key, strategy);
      keys := keys - {key};
    }
    NoneRemoved(params);
    conflict := None;
  }

  /**
    `merge(first, second, strategy)`. Sections are visited in an order the
    source leaves open, so each is picked with `:|`. Under Report the merge stops
    at the first shared key it meets; which one that is depends on the order, so
    the contract names only some shared key. The partial pool returned beside an
    error is left unspecified, as no caller uses it.
  */
  method Merge(first: Data, second: Data, strategy: Strategy) returns (res: Data, err: Option<Error>)
    ensures |first| == 0 ==> res == second && err == None
    ensures |first| != 0 && |second| == 0 ==> res == first && err == None
    ensures err.Some? <==> strategy == Report && HasConflict(first, second)
    ensures err.Some? ==> err.value.MergeConflict? && IsConflict(first, second, err.value.section, err.value.key)
    ensures err.None? ==> res == Combined(first, second, strategy)
  {
    if |first| == 0 {
      return second, None;
    }
    if |second| == 0 {
      EdgeCasesAgree(first, second, strategy);
      NoConflictWithEmpty(first, second);
      return first, None;
    }
    res, err := MergeSections(first, second, strategy);
  }

  /**
    The two loops of `merge` past its edge cases: `first` is copied, then each
    section of `second` is merged into the copy.
  */
  method MergeSections(first: Data, second: Data, strategy: Strategy) returns (res: Data, err: Option<Error>)
    ensures err.Some? <==> strategy == Report && HasConflict(first, second)
    ensures err.Some? ==> err.value.MergeConflict? && IsConflict(first, second, err.value.section, err.value.key)
    ensures err.None? ==> res == Combined(first, second, strategy)
  {
    res := CopyData(first);
    EdgeCasesAgree(first, map[], strategy);
    NoConflictWithEmpty(first, map[]);
    AllRemoved(second);
    var todo := second.Keys;
    while todo != {}
      invariant todo <= second.Keys
      invariant res == Combined(first, second - todo, strategy)
      invariant strategy == Report ==> !HasConflict(first, second - todo)
      decreases todo
    {
      var sec :| sec in todo;
      if sec in res {
        assert sec in first && res[sec] == first[sec];
        var merged, conflict := MergeKeys(res[sec], second[sec], strategy);
        if conflict.Some? {
          assert IsConflict(first, second, sec, conflict.value);
          return res, Some(MergeConflict(sec, conflict.value));
        }
        res := res[sec := merged];
      } else {
        var copy := CopySection(second[sec]);
        res := res[sec := copy];
      }
      SectionVisited(first, second, todo, sec, strategy);
      if strategy == Report {
        ConflictStep(first, second, todo, sec);
      }
      todo := todo - {sec};
    }
    NoneRemoved(second);
    err := None;
  }

  /** Merging one more key of `params` into a section sets that key as the strategy says and changes nothing else. */
  lemma KeyStep(existing: Section, params: Section, keys: set<string>, key: string, strategy: Strategy)
    requires key in keys && key in params
    ensures MergeSection(existing, params - (keys - {key}), strategy)
         == MergeSection(existing, params - keys, strategy)[key := if key in existing && strategy != Overwrite then existing[key] else params[key]]
  {
    OneMoreSection(params, keys, key);
    var l := MergeSection(existing, params - (keys - {key}), strategy);
    var r := MergeSection(existing, params - keys, strategy)[key := if key in existing && strategy != Overwrite then existing[key] else params[key]];
    assert l.Keys == r.Keys;
  }

  /** Merging one more section of `second` extends the combined pool by that section's merge. */
  lemma MergeStep(first: Data, done: Data, sec: string, v: Section, strategy: Strategy)
    requires sec !in done
    ensures Combined(first, done[sec := v], strategy)
         == Combined(first, done, strategy)[sec := if sec in first then MergeSection(first[sec], v, strategy) else v]
  {
    var m := if sec in first then MergeSection(first[sec], v, strategy) else v;
    var l := Combined(first, done[sec := v], strategy);
    var r := Combined(first, done, strategy)[sec := m];
    CombinedStepKeys(first, done, sec, v, m, strategy);
    forall s | s in l
      ensures l[s] == r[s]
    {
      CombinedStepAt(first, done, sec, v, s, strategy);
    }
    SameMap(l, r);
  }

  /** One more section of `second` adds its name to the merged pool. */
  lemma CombinedStepKeys(first: Data, done: Data, sec: string, v: Section, m: Section, strategy: Strategy)
    ensures Combined(first, done[sec := v], strategy).Keys == Combined(first, done, strategy)[sec := m].Keys
  {
  }

  /** One section of the merged pool after one more section of `second`: the new one, or what it was before. */
  lemma CombinedStepAt(first: Data, done: Data, sec: string, v: Section, s: string, strategy: Strategy)
    requires sec !in done && s in first.Keys + done.Keys + {sec}
    ensures s in Combined(first, done[sec := v], strategy)
    ensures s != sec ==> s in Combined(first, done, strategy)
    ensures Combined(first, done[sec := v], strategy)[s]
         == if s == sec then (if sec in first then MergeSection(first[sec], v, strategy) else v)
            else Combined(first, done, strategy)[s]
  {
    var next := done[sec := v];
    if s != sec {
      assert (s in next) == (s in done);
      assert s in done ==> next[s] == done[s];
    }
  }

  /** The loop of `merge` visiting section `sec` of `second`, with the sections outside `todo` already merged. */
  lemma SectionVisited(first: Data, second: Data, todo: set<string>, sec: string, strategy: Strategy)
    requires sec in todo && todo <= second.Keys
    ensures Combined(first, second - (todo - {sec}), strategy)
         == Combined(first, second - todo, strategy)[sec := if sec in first then MergeSection(first[sec], second[sec], strategy) else second[sec]]
  {
    OneMoreSection(second, todo, sec);
    MergeStep(first, second - todo, sec, second[sec], strategy);
  }

  /** A conflict after one more section is a conflict before it or one inside that section. */
  lemma ConflictStep(first: Data, second: Data, todo: set<string>, sec: string)
    requires sec in todo && todo <= second.Keys
    requires !HasConflict(first, second - todo)
    requires sec in first ==> forall k :: k in first[sec] ==> k !in second[sec]
    ensures !HasConflict(first, second - (todo - {sec}))
  {
    var done := second - todo;
    OneMoreSection(second, todo, sec);
    var next := done[sec := second[sec]];
    forall s, k
      ensures !IsConflict(first, next, s, k)
    {
      if s != sec {
        assert !IsConflict(first, done, s, k);
      }
    }
  }

  /** Nothing conflicts with an empty pool. */
  lemma NoConflictWithEmpty(first: Data, second: Data)
    requires |first| == 0 || |second| == 0
    ensures !HasConflict(first, second)
  {
    if |first| == 0 {
      assert first == map[];
    } else {
      assert second == map[];
    }
  }

  /** The edge cases the source settles up front agree with the general rule. */
  lemma {:induction false} EdgeCasesAgree(first: Data, second: Data, strategy: Strategy)
    ensures |first| == 0 ==> Combined(first, second, strategy) == second
    ensures |second| == 0 ==> Combined(first, second, strategy) == first
  {
    if |first| == 0 {
      assert first == map[];
    }
    if |second| == 0 {
      assert second == map[];
    }
  }

  lemma SectionAssociative(a: Section, b: Section, c: Section, strategy: Strategy)
    requires strategy == Overwrite || strategy == Keep
    ensures MergeSection(MergeSection(a, b, strategy), c, strategy) == MergeSection(a, MergeSection(b, c, strategy), strategy)
  {
    var left := MergeSection(MergeSection(a, b, strategy), c, strategy);
    var right := MergeSection(a, MergeSection(b, c, strategy), strategy);
    assert left.Keys == right.Keys;
  }

  /**
    Merging with Overwrite, or with Keep, is associative: the grouping of three
    successive merges does not change the result.
  */
  lemma {:induction false} MergeAssociative(a: Data, b: Data, c: Data, strategy: Strategy)
    requires strategy == Overwrite || strategy == Keep
    ensures Combined(Combined(a, b, strategy), c, strategy) == Combined(a, Combined(b, c, strategy), strategy)
  {
    var ab, bc := Combined(a, b, strategy), Combined(b, c, strategy);
    var left := Combined(ab, c, strategy);
    var right := Combined(a, bc, strategy);
    assert left.Keys == right.Keys by {
      assert left.Keys == a.Keys + b.Keys + c.Keys;
    }
    assert forall s :: s in left ==> left[s] == right[s] by {
      forall s | s in left
        ensures left[s] == right[s]
      {
        AssociativeAt(a, b, c, s, strategy);
      }
    }
    SameMap(left, right);
  }

  /** One section of the two groupings of three merges. */
  lemma AssociativeAt(a: Data, b: Data, c: Data, s: string, strategy: Strategy)
    requires strategy == Overwrite || strategy == Keep
    requires s in a || s in b || s in c
    ensures Combined(Combined(a, b, strategy), c, strategy)[s] == Combined(a, Combined(b, c, strategy), strategy)[s]
  {
    var ab, bc := Combined(a, b, strategy), Combined(b, c, strategy);
    var left := Combined(ab, c, strategy);
    var right := Combined(a, bc, strategy);
    if s in a && s in b && s in c {
      SectionAssociative(a[s], b[s], c[s], strategy);
    } else if s in a && s in b {
      assert left[s] == ab[s] == MergeSection(a[s], b[s], strategy) == right[s];
    } else if s in b && s in c {
      assert left[s] == MergeSection(b[s], c[s], strategy) == bc[s] == right[s];
    } else if s in a && s in c {
      assert left[s] == MergeSection(a[s], c[s], strategy) == right[s];
    }
  }

  /** Under Report a successful merge equals the merge under either other strategy. */
  lemma ReportSuccessIsUnion(first: Data, second: Data)
    requires !HasConflict(first, second)
    ensures Combined(first, second, Report) == Combined(first, second, Overwrite)
    ensures Combined(first, second, Report) == Combined(first, second, Keep)
  {
    var r, o, k := Combined(first, second, Report), Combined(first, second, Overwrite), Combined(first, second, Keep);
    assert forall s :: s in r ==> r[s] == o[s] && r[s] == k[s] by {
      forall s | s in r
        ensures r[s] == o[s] && r[s] == k[s]
      {
        if s in first && s in second {
          forall key
            ensures !(key in first[s] && key in second[s])
          {
            assert !IsConflict(first, second, s, key);
          }
          DisjointSectionsAgree(first[s], second[s]);
        }
      }
    }
    SameMap(r, o);
    SameMap(r, k);
  }

  /** Two sections without a shared key merge alike under every strategy. */
  lemma DisjointSectionsAgree(a: Section, b: Section)
    requires forall k :: !(k in a && k in b)
    ensures MergeSection(a, b, Report) == MergeSection(a, b, Overwrite)
    ensures MergeSection(a, b, Report) == MergeSection(a, b, Keep)
  {
    var r, o, k := MergeSection(a, b, Report), MergeSection(a, b, Overwrite), MergeSection(a, b, Keep);
    assert r.Keys == o.Keys == k.Keys;
  }

  /** A key present on both sides is a conflict for Report even when the two values agree. */
  lemma ReportConflictsOnEqualValues()
    ensures HasConflict(map["Section one" := map["Field one" := "Value one"]],
                        map["Section one" := map["Field one" := "Value one"]])
  {
    assert IsConflict(map["Section one" := map["Field one" := "Value one"]],
                      map["Section one" := map["Field one" := "Value one"]], "Section one", "Field one");
  }
}
