/**
  The configuration pool of configurama.go, the first revision: no lock, no
  `Set` and no section accessor, but a prefix-filtered extraction of one section
  for struct decoding.
*/
module PoolV1 {
  import opened Wrappers
  import opened Errors
  import opened Text
  import opened PoolData
  import Merging
  import Diffing

  class Pool {
    /** The sections of the pool. */
    var params: Data

    /** `New(params)`: an empty pool into which `params` is merged with Overwrite, which cannot fail. */
    constructor New(m: Data)
      ensures params == m
    {
      params := map[];
      new;
      var err := Merge(m, Merging.Overwrite);
      Merging.EdgeCasesAgree(map[], m, Merging.Overwrite);
    }

    /** `Raw()`: the pool's own map. */
    function Raw(): (r: Data)
      reads this
      ensures r == params
    {
      params
    }

    /**
      `extractParams(section, prefix)`: the named section, or an unknown-section
      error. With a prefix, only the keys that start with it are kept, with the
      prefix cut off; different keys keep different names.
    */
    method ExtractParams(section: string, prefix: string) returns (r: Section, err: Option<Error>)
      ensures err.Some? <==> section !in params
      ensures err.Some? ==> err.value == UnknownSection(section) && r == map[]
      ensures err.None? && prefix == "" ==> r == params[section]
      ensures err.None? && prefix != "" ==> forall k :: k in r <==> prefix + k in params[section]
      ensures err.None? && prefix != "" ==> forall k :: k in r ==> r[k] == params[section][prefix + k]
    {
      if section !in params {
        return map[], Some(UnknownSection(section));
      }
      r := params[section];
      err := None;
      if prefix != "" {
        r := WithPrefix(params[section], prefix);
      }
    }

    /** `Get(section, key)`: the value and whether the key exists in that section. */
    function Get(section: string, key: string): (r: (string, bool))
      reads this
      ensures r == PoolData.Get(params, section, key)
    {
      PoolData.Get(params, section, key)
    }

    /**
      `Merge(params, strategy)`: the pool becomes the merge of itself with
      `other`; on a Report conflict the error is returned and the pool is left
      as it was.
    */
    method Merge(other: Data, strategy: Merging.Strategy) returns (err: Option<Error>)
      modifies this
      ensures err.Some? <==> strategy == Merging.Report && Merging.HasConflict(old(params), other)
      ensures err.Some? ==> err.value.MergeConflict? && params == old(params)
      ensures err.Some? ==> Merging.IsConflict(old(params), other, err.value.section, err.value.key)
      ensures err.None? ==> params == Merging.Combined(old(params), other, strategy)
    {
      var res;
      res, err := Merging.Merge(params, other, strategy);
      if err.Some? {
        return err;
      }
      params := res;
    }

    /** `Unset(section, key)`: removes the key, or with an empty key the whole section; says whether anything went. */
    method Unset(section: string, key: string) returns (removed: bool)
      modifies this
      ensures (params, removed) == PoolData.Unset(old(params), section, key)
    {
      if section !in params {
        return false;
      }
      if key == "" {
        params := params - {section};
        return true;
      }
      removed := key in params[section];
      if removed {
        params := params[section := params[section] - {key}];
      }
    }

    /** `Compare(pool)`: what the other pool holds that this one lacks. */
    method Compare(pool: Pool) returns (d: Data)
      ensures d == Diffing.DiffOf(pool.params, params)
    {
      d := Diffing.Diff(pool.params, params);
    }
  }

  /**
    The loop of `extractParams` for a non-empty prefix: every key that starts
    with the prefix is copied under its name with the prefix trimmed, in an order
    the source leaves open.
  */
  method WithPrefix(params: Section, prefix: string) returns (tmp: Section)
    ensures forall k :: k in tmp <==> prefix + k in params
    ensures forall k :: k in tmp ==> tmp[k] == params[prefix + k]
  {
    tmp := map[];
    var todo := params.Keys;
    while todo != {}
      invariant todo <= params.Keys
      invariant forall k :: k in tmp <==> prefix + k in params && prefix + k !in todo
      invariant forall k :: k in tmp ==> tmp[k] == params[prefix + k]
      decreases todo
    {
      var key :| key in todo;
      if HasPrefix(key, prefix) {
        var trimmed := key[|prefix|..];
        assert prefix + trimmed == key;
        tmp := tmp[trimmed := params[key]];
        forall k | k in tmp
          ensures prefix + k in params && (prefix + k !in todo || k == trimmed)
        {
        }
      }
      todo := todo - {key};
    }
  }
}
