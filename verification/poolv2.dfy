/**
  The configuration pool of v2/configurama.go: one map of sections that the
  pool's methods read and replace. The mutex that guards it is not modelled; each
  method is one atomic step.
*/
module PoolV2 {
  import opened Wrappers
  import opened Errors
  import opened PoolData
  import Merging
  import Diffing

  class Pool {
    /** The sections of the pool. */
    var params: Data

    /** `New(params)`: an empty pool into which `params` is merged with Overwrite, which cannot fail. */
    constructor New(m: Data)
      ensures params == m
    {
      params := map[];
      new;
      var err := Merge(m, Merging.Overwrite);
      Merging.EdgeCasesAgree(map[], m, Merging.Overwrite);
    }

    /** `Raw()`: the whole pool. The source also builds a copy and then discards it. */
    method Raw() returns (r: Data)
      ensures r == params
    {
      var discarded := CopyData(params);
      r := params;
    }

    /** `Params(name)`: a copy of the named section, or nothing and false when there is no such section. */
    method Params(name: string) returns (section: Section, ok: bool)
      ensures ok <==> name in params
      ensures ok ==> section == params[name]
      ensures !ok ==> section == map[]
    {
      if name !in params {
        return map[], false;
      }
      section := CopySection(params[name]);
      ok := true;
    }

    /**
      `Merge(params, strategy)`: the pool becomes the merge of itself with
      `other`; on a Report conflict the error is returned and the pool is left
      as it was.
    */
    method Merge(other: Data, strategy: Merging.Strategy) returns (err: Option<Error>)
      modifies this
      ensures err.Some? <==> strategy == Merging.Report && Merging.HasConflict(old(params), other)
      ensures err.Some? ==> err.value.MergeConflict? && params == old(params)
      ensures err.Some? ==> Merging.IsConflict(old(params), other, err.value.section, err.value.key)
      ensures err.None? ==> params == Merging.Combined(old(params), other, strategy)
    {
      var res;
      res, err := Merging.Merge(params, other, strategy);
      if err.Some? {
        return err;
      }
      params := res;
    }

    /** `Get(section, key)`: the value and whether the key exists in that section. */
    function Get(section: string, key: string): (r: (string, bool))
      reads this
      ensures r == PoolData.Get(params, section, key)
    {
      PoolData.Get(params, section, key)
    }

    /**
      `Set(section, key, value)`: sets the key in an existing section; a missing
      section is a NoSectionError and changes nothing.
    */
    method Set(section: string, key: string, value: string) returns (err: Option<Error>)
      modifies this
      ensures err.Some? <==> section !in old(params)
      ensures err.Some? ==> err.value == NoSectionError(section)
      ensures params == PoolData.Set(old(params), section, key, value).0
    {
      if section !in params {
        return Some(NoSectionError(section));
      }
      params := params[section := params[section][key := value]];
      err := None;
    }

    /** `Unset(section, key)`: removes the key, or with an empty key the whole section; says whether anything went. */
    method Unset(section: string, key: string) returns (removed: bool)
      modifies this
      ensures (params, removed) == PoolData.Unset(old(params), section, key)
    {
      if section !in params {
        return false;
      }
      if key == "" {
        params := params - {section};
        return true;
      }
      removed := key in params[section];
      if removed {
        params := params[section := params[section] - {key}];
      }
    }

    /** `Compare(pool)`: what the other pool holds that this one lacks. */
    method Compare(pool: Pool) returns (d: Data)
      ensures d == Diffing.DiffOf(pool.params, params)
    {
      d := Diffing.Diff(pool.params, params);
    }
  }
}
