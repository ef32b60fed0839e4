/**
  The content of a configuration pool: named sections, each a map from key to
  value. Go's maps are reference values; here they are values, so a copy is an
  equal map and a returned map can never alias the pool's own.
*/
module PoolData {

  /** One section: key to value. An empty value is still a present key. */
  type Section = map<string, string>

  /** A whole pool: section name to section. */
  type Data = map<string, Section>

  /** Copies a section key by key, as the source does with `make` and a `range` loop. */
  method CopySection(src: Section) returns (dst: Section)
    ensures dst == src
  {
    dst := map[];
    var todo := src.Keys;
    while todo != {}
      invariant todo <= src.Keys
      invariant dst == map k | k in src.Keys - todo :: src[k]
      decreases todo
    {
      var key :| key in todo;
      dst := dst[key := src[key]];
      todo := todo - {key};
    }
  }

  /** Copies a whole pool section by section. */
  method CopyData(src: Data) returns (dst: Data)
    ensures dst == src
  {
    dst := map[];
    var todo := src.Keys;
    while todo != {}
      invariant todo <= src.Keys
      invariant dst == map s | s in src.Keys - todo :: src[s]
      decreases todo
    {
      var name :| name in todo;
      var section := CopySection(src[name]);
      dst := dst[name := section];
      todo := todo - {name};
    }
  }

  /** A loop over the keys of `data` that has visited all but `todo` and now visits `sec`. */
  lemma OneMoreSection<K, V>(data: map<K, V>, todo: set<K>, sec: K)
    requires sec in todo && sec in data
    ensures data - (todo - {sec}) == (data - todo)[sec := data[sec]]
  {
    var l, r := data - (todo - {sec}), (data - todo)[sec := data[sec]];
    assert l.Keys == r.Keys;
  }

  /** Removing no key leaves a map as it was. */
  lemma NoneRemoved<K, V>(m: map<K, V>)
    ensures m - {} == m
  {
  }

  /** Removing every key leaves the empty map. */
  lemma AllRemoved<K, V>(m: map<K, V>)
    ensures m - m.Keys == map[]
  {
  }

  /** Two maps with the same keys and the same value at each key are one map. */
  lemma SameMap<K, V>(l: map<K, V>, r: map<K, V>)
    requires l.Keys == r.Keys
    requires forall k :: k in l ==> l[k] == r[k]
    ensures l == r
  {
  }

  /**
    What `Unset(section, key)` leaves and returns, in both revisions: an empty key
    removes the whole section, any other key only that key; the flag says whether
    something was removed.
  */
  function Unset(data: Data, section: string, key: string): (r: (Data, bool))
    ensures r.1 <==> section in data && (key == "" || key in data[section])
    ensures key == "" ==> r.0 == data - {section}
    ensures key != "" && section in data && key in data[section] ==> r.0 == data[section := data[section] - {key}]
    ensures section !in data ==> r.0 == data
    ensures !r.1 ==> r.0 == data
    ensures section !in r.0 || key !in r.0[section]
  {
    if section !in data then (data, false)
    else if key == "" then (data - {section}, true)
    else if key in data[section] then (data[section := data[section] - {key}], true)
    else (data, false)
  }

  /** Unsetting touches nothing but the named section, and in it only the named key. */
  lemma UnsetLeavesOthers(data: Data, section: string, key: string, s: string, k: string)
    requires s in data && k in data[s]
    requires s != section || (key != "" && k != key)
    ensures s in Unset(data, section, key).0
    ensures k in Unset(data, section, key).0[s]
    ensures Unset(data, section, key).0[s][k] == data[s][k]
  {
  }

  /** What `Get(section, key)` returns in both revisions: the value and whether it is there, "" when it is not. */
  function Get(data: Data, section: string, key: string): (r: (string, bool))
    ensures r.1 <==> section in data && key in data[section]
    ensures r.1 ==> r.0 == data[section][key]
    ensures !r.1 ==> r.0 == ""
  {
    if section !in data then ("", false)
    else if key !in data[section] then ("", false)
    else (data[section][key], true)
  }

  /**
    What v2's `Set(section, key, value)` leaves: the key set in an existing
    section, or nothing changed when the section is missing; the flag says which.
  */
  function Set(data: Data, section: string, key: string, value: string): (r: (Data, bool))
    ensures r.1 <==> section in data
    ensures r.1 ==> r.0.Keys == data.Keys && r.0[section] == data[section][key := value]
    ensures !r.1 ==> r.0 == data
  {
    if section in data then (data[section := data[section][key := value]], true) else (data, false)
  }

  /** A value that was set reads back, and an empty value is still a present key. */
  lemma SetThenGet(data: Data, section: string, key: string, value: string)
    requires section in data
    ensures Get(Set(data, section, key, value).0, section, key) == (value, true)
  {
  }

  /** Setting a key touches no other key, and never creates a section. */
  lemma SetLeavesOthers(data: Data, section: string, key: string, value: string, s: string, k: string)
    requires s != section || k != key
    ensures Get(Set(data, section, key, value).0, s, k) == Get(data, s, k)
    ensures Set(data, section, key, value).0.Keys == data.Keys
  {
  }

  /** After unsetting, the key (or, for an empty key, every key of the section) reads as missing. */
  lemma UnsetThenGet(data: Data, section: string, key: string, k: string)
    requires key == "" || k == key
    ensures Get(Unset(data, section, key).0, section, k) == ("", false)
  {
  }

  /** Unsetting a key that was just set restores the section as it was when the key was new. */
  lemma SetThenUnset(data: Data, section: string, key: string, value: string)
    requires section in data && key != "" && key !in data[section]
    ensures Unset(Set(data, section, key, value).0, section, key) == (data, true)
  {
    var after := Set(data, section, key, value).0;
    assert after[section] - {key} == data[section];
    assert after[section := data[section]] == data;
  }
}
