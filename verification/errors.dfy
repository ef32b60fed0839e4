/**
  The error values of the configuration pool. The first four are the error types
  of v2/errors.go; the others are the errors the pools build inline: the missing
  section of `Set` (used but never declared in the source), the merge conflict of
  the Report strategy, the unknown section of the v1 prefix extraction, and
  whatever error a caller's validation function returns.
*/
module Errors {

  datatype Error =
    | NoKeyError(key: string)
    | RegExpValidationError(key: string)
    | EnumValidationError(key: string)
    | ConversionError(key: string, value: string, typeName: string)
    | NoSectionError(section: string)
    | MergeConflict(section: string, key: string)
    | UnknownSection(section: string)
    | Custom(message: string)

  /** Go's `%q` verb, for strings without quote or escape characters. */
  function Quote(s: string): string
  {
    "\"" + s + "\""
  }

  /** A string that `Quote` renders exactly as `%q` would. */
  predicate Plain(s: string)
  {
    forall i :: 0 <= i < |s| ==> s[i] != '"' && s[i] != '\\' && ' ' <= s[i] <= '~'
  }

  /** `t` is the front of `s`. */
  predicate StartsWith(s: string, t: string)
  {
    |t| <= |s| && s[..|t|] == t
  }

  /** `t` is the end of `s`. */
  predicate EndsWith(s: string, t: string)
  {
    |t| <= |s| && s[|s| - |t|..] == t
  }

  /** The errors whose type has an `Error()` method in the source. */
  predicate HasMessage(e: Error)
  {
    !e.NoSectionError?
  }

  /** The text `Error()` returns. */
  function Message(e: Error): (r: string)
    requires HasMessage(e)
    ensures e.NoKeyError? || e.RegExpValidationError? || e.EnumValidationError? ==>
              EndsWith(r, Quote(e.key))
    ensures e.UnknownSection? ==> EndsWith(r, e.section)
    ensures e.MergeConflict? ==> StartsWith(r, "section " + Quote(e.section))
  {
    match e
    case NoKeyError(key) => "no such key: " + Quote(key)
    case RegExpValidationError(key) => "regexp validation failed for key: " + Quote(key)
    case EnumValidationError(key) => "enum validation failed for key: " + Quote(key)
    case ConversionError(key, value, typeName) =>
      "unable to convert value " + Quote(value) + " for key " + Quote(key) + " into " + typeName
    case MergeConflict(section, key) => "section " + Quote(section) + ", key " + Quote(key) + " already exists"
    case UnknownSection(section) => "unknown section name: " + section
    case Custom(message) => message
  }

  /** The error kinds declared in v2/errors.go. */
  predicate Declared(e: Error)
  {
    e.NoKeyError? || e.RegExpValidationError? || e.EnumValidationError? || e.ConversionError?
  }

  /** The quoted strings an error of a declared kind carries are plain. */
  predicate PlainFields(e: Error)
  {
    match e
    case NoKeyError(key) => Plain(key)
    case RegExpValidationError(key) => Plain(key)
    case EnumValidationError(key) => Plain(key)
    case ConversionError(key, value, _) => Plain(key) && Plain(value)
    case _ => true
  }

  /** Where a quote closes a shorter plain string, a longer one still has a plain character. */
  lemma QuotedAt(a: string, r1: string, b: string, r2: string)
    ensures |a| < |b| ==> (a + "\"" + r1)[|a|] == '"' && (b + "\"" + r2)[|a|] == b[|a|]
  {
  }

  /** A quoted plain string can be read back off the front of a text. */
  lemma {:induction false} QuotedPrefix(a: string, b: string, r1: string, r2: string)
    requires Plain(a) && Plain(b)
    requires a + "\"" + r1 == b + "\"" + r2
    ensures a == b && r1 == r2
  {
    var x, y := a + "\"" + r1, b + "\"" + r2;
    if |a| < |b| {
      QuotedAt(a, r1, b, r2);
      assert false;
    } else if |b| < |a| {
      QuotedAt(b, r2, a, r1);
      assert false;
    }
    assert a == x[..|a|] == y[..|b|] == b;
    assert r1 == x[|a| + 1..] == y[|b| + 1..] == r2;
  }

  /** Dropping a common prefix preserves equality. */
  lemma DropPrefix(p: string, s: string, t: string)
    requires p + s == p + t
    ensures s == t
  {
    assert s == (p + s)[|p|..];
    assert t == (p + t)[|p|..];
  }

  /** A quoted string at the end of a text is determined by the text. */
  lemma QuotedSuffix(p: string, a: string, b: string)
    requires p + Quote(a) == p + Quote(b)
    ensures a == b
  {
    var x, y := p + Quote(a), p + Quote(b);
    assert a == x[|p| + 1..|x| - 1];
    assert b == y[|p| + 1..|y| - 1];
  }

  /** The conversion message, regrouped so that each quoted field starts a suffix. */
  lemma ConversionShape(k: string, v: string, d: string)
    ensures Message(ConversionError(k, v, d))
         == "unable to convert value \"" + (v + "\"" + (" for key \"" + (k + "\"" + (" into " + d))))
  {
  }

  /** A conversion error's message determines its value, key and type name. */
  lemma ConversionMessageIdentifies(k1: string, v1: string, d1: string, k2: string, v2: string, d2: string)
    requires Plain(k1) && Plain(v1) && Plain(k2) && Plain(v2)
    requires Message(ConversionError(k1, v1, d1)) == Message(ConversionError(k2, v2, d2))
    ensures k1 == k2 && v1 == v2 && d1 == d2
  {
    ConversionShape(k1, v1, d1);
    ConversionShape(k2, v2, d2);
    var t1, t2 := " for key \"" + (k1 + "\"" + (" into " + d1)), " for key \"" + (k2 + "\"" + (" into " + d2));
    DropPrefix("unable to convert value \"", v1 + "\"" + t1, v2 + "\"" + t2);
    QuotedPrefix(v1, v2, t1, t2);
    DropPrefix(" for key \"", k1 + "\"" + (" into " + d1), k2 + "\"" + (" into " + d2));
    QuotedPrefix(k1, k2, " into " + d1, " into " + d2);
    DropPrefix(" into ", d1, d2);
  }

  /**
    Messages of the declared kinds identify the error: the kind, the key and, for a
    conversion error, the value and the target type can all be read back.
  */
  lemma {:induction false} MessageIdentifiesError(e1: Error, e2: Error)
    requires Declared(e1) && Declared(e2) && PlainFields(e1) && PlainFields(e2)
    requires Message(e1) == Message(e2)
    ensures e1 == e2
  {
    // Every declared kind starts its message with a different letter.
    assert Message(e1)[0] == Message(e2)[0];
    match e1
    case NoKeyError(k1) =>
      QuotedSuffix("no such key: ", k1, e2.key);
    case RegExpValidationError(k1) =>
      QuotedSuffix("regexp validation failed for key: ", k1, e2.key);
    case EnumValidationError(k1) =>
      QuotedSuffix("enum validation failed for key: ", k1, e2.key);
    case ConversionError(k1, v1, d1) =>
      ConversionMessageIdentifies(k1, v1, d1, e2.key, e2.value, e2.typeName);
  }
}
