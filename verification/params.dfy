/**
  The typed accessors of v2/configurama.go on one section (`Params`): `String`,
  `Strings`, `Int` and `Bool`. Each looks the key up, runs `checkApplyOptions`
  on what it found, and converts a non-empty result.
*/
module Params {
  import opened Wrappers
  import opened Errors
  import opened Text
  import opened PoolData
  import opened Options

  /** What `String(key, options...)` returns: the lookup settled by the options. A Go map yields "" for an absent key. */
  function Lookup(params: Section, key: string, options: seq<Opt>): (r: (string, Option<Error>))
    ensures r.1.Some? ==> r.0 == ""
    ensures r.1.None? && key in params && params[key] != "" ==> r.0 == params[key]
    ensures r.1.None? && (key !in params || params[key] == "") ==> r.0 == Collect(options).defaultValue
    ensures r.0 != "" ==> Validate(key, r.0, Collect(options)).None?
  {
    Resolve(key, if key in params then params[key] else "", key in params, Collect(options))
  }

  /** `Params.String`. */
  method String(params: Section, key: string, options: seq<Opt>) returns (value: string, err: Option<Error>)
    ensures (value, err) == Lookup(params, key, options)
    ensures err.Some? ==> value == ""
    ensures key in params && params[key] != "" && err.None? ==> value == params[key]
  {
    var val := if key in params then params[key] else "";
    value, err := CheckApplyOptions(key, val, key in params, options);
  }

  /**
    `Params.Strings`: the looked-up value split on the separator, with the
    validation applied before splitting. An error or an empty value gives no
    pieces (Go's nil slice); otherwise the pieces join back to the value.
  */
  method Strings(params: Section, key: string, separator: string, options: seq<Opt>) returns (parts: seq<string>, err: Option<Error>)
    ensures err == Lookup(params, key, options).1
    ensures err.Some? || Lookup(params, key, options).0 == "" ==> parts == []
    ensures err.None? && Lookup(params, key, options).0 != "" ==>
              parts == Split(Lookup(params, key, options).0, separator)
              && |parts| >= 1 && Join(parts, separator) == Lookup(params, key, options).0
    ensures separator != "" ==> forall p :: p in parts ==> !Contains(p, separator)
  {
    var val;
    val, err := String(params, key, options);
    if err.Some? || val == "" {
      return [], err;
    }
    parts := Split(val, separator);
    SplitJoin(val, separator);
    if separator != "" {
      SplitPiecesFree(val, separator);
    }
  }

  /**
    `Params.Int`: an error or an empty value gives 0; otherwise the value must be
    a decimal integer that fits in 64 bits, else a ConversionError to "int".
  */
  method Int(params: Section, key: string, options: seq<Opt>) returns (i: int, err: Option<Error>)
    ensures var (v, e) := Lookup(params, key, options);
            && (e.Some? ==> i == 0 && err == e)
            && (e.None? && v == "" ==> i == 0 && err.None?)
            && (e.None? && v != "" && IsDecimal(v) && IntMin <= SignedValue(v) <= IntMax ==> i == SignedValue(v) && err.None?)
            && (e.None? && v != "" && !(IsDecimal(v) && IntMin <= SignedValue(v) <= IntMax) ==>
                  i == 0 && err == Some(ConversionError(key, v, "int")))
  {
    var val;
    val, err := String(params, key, options);
    if err.Some? || val == "" {
      return 0, err;
    }
    var n := Atoi(val);
    if n.None? {
      return 0, Some(ConversionError(key, val, "int"));
    }
    return n.value, None;
  }

  /** The spellings `Bool` reads as true. */
  const TrueTokens: seq<string> := ["t", "true", "y", "yes", "on", "1"]

  /** The spellings `Bool` reads as false. */
  const FalseTokens: seq<string> := ["f", "false", "n", "no", "off", "0"]

  /** The switch in `Params.Bool`: one of the listed spellings, or nothing. */
  function ParseBool(s: string): (r: Option<bool>)
    ensures r == Some(true) <==> s in TrueTokens
    ensures r == Some(false) <==> s in FalseTokens
    ensures r == None <==> s !in TrueTokens && s !in FalseTokens
  {
    if s in TrueTokens then Some(true)
    else if s in FalseTokens then Some(false)
    else None
  }

  /** `Params.Bool`: an error or an empty value gives false; an unlisted spelling is a ConversionError to "bool". */
  method Bool(params: Section, key: string, options: seq<Opt>) returns (b: bool, err: Option<Error>)
    ensures var (v, e) := Lookup(params, key, options);
            && (e.Some? ==> !b && err == e)
            && (e.None? && v == "" ==> !b && err.None?)
            && (e.None? && v != "" && v in TrueTokens ==> b && err.None?)
            && (e.None? && v != "" && v in FalseTokens ==> !b && err.None?)
            && (e.None? && v != "" && v !in TrueTokens && v !in FalseTokens ==>
                  !b && err == Some(ConversionError(key, v, "bool")))
  {
    var val;
    val, err := String(params, key, options);
    if err.Some? || val == "" {
      return false, err;
    }
    var parsed := ParseBool(val);
    if parsed.None? {
      return false, Some(ConversionError(key, val, "bool"));
    }
    return parsed.value, None;
  }

  /** An empty value reads exactly as a missing key, whatever the options. */
  lemma EmptyIsMissing(params: Section, key: string, options: seq<Opt>)
    ensures Lookup(params[key := ""], key, options) == Lookup(params - {key}, key, options)
  {
    var s := Collect(options);
    assert Lookup(params[key := ""], key, options) == Resolve(key, "", true, s);
    assert Lookup(params - {key}, key, options) == Resolve(key, "", false, s);
  }

  /** A missing key with a default, and nothing required, reads as the default once it validates. */
  lemma MissingTakesDefault(params: Section, key: string, d: string)
    requires key !in params && d != ""
    ensures Lookup(params, key, [Default(d)]) == (d, None)
  {
    assert [Default(d)][..0] == [];
    assert Collect([Default(d)]) == Settings(d, None, None, false);
  }

  /** A stored decimal integer reads back as the same number: `Int` undoes `strconv.Itoa`. */
  lemma IntReadsBack(params: Section, key: string, n: int)
    requires IntMin <= n <= IntMax
    requires key in params && params[key] == Itoa(n)
    ensures Lookup(params, key, []) == (Itoa(n), None)
    ensures Itoa(n) != "" && Atoi(Itoa(n)) == Some(n)
  {
    AtoiItoa(n);
  }

  /** A list value split on its separator joins back to the stored text. */
  lemma StringsRoundTrip(params: Section, key: string, separator: string)
    requires key in params && params[key] != ""
    ensures Lookup(params, key, []) == (params[key], None)
    ensures Join(Split(params[key], separator), separator) == params[key]
  {
    SplitJoin(params[key], separator);
  }
}
