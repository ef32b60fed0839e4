/**
  The retrieval options of v2/configurama.go and `checkApplyOptions`, which
  applies them to one looked-up value. Each Go `Option` is a closure that sets one
  field of an `option` record; here it is a datatype value and `Apply` performs
  its assignment.

  Regular expressions are not modelled as such: a compiled expression is the
  predicate it decides on whole strings, and the one expression the package
  compiles itself, `^[0-9]*$`, is spelled out.
*/
module Options {
  import opened Wrappers
  import opened Errors
  import opened Text

  /** A compiled `*regexp.Regexp`, known by what `MatchString` answers. */
  datatype RegExp =
    | Integral
    | Compiled(matches: string -> bool)

  /** `re.MatchString(s)`. `Integral` is `^[0-9]*$`: every character an ASCII digit, the empty string included. */
  predicate Matches(re: RegExp, s: string)
  {
    match re
    case Integral => AllDigits(s)
    case Compiled(matches) => matches(s)
  }

  /** The validation function slot: a caller's function, or the one `ValidateEnum` builds. */
  datatype Validator =
    | Func(check: (string, string) -> Option<Error>)
    | Enum(values: seq<string>)

  /** Runs a validation function on a key and its value; `None` is Go's nil error. */
  function RunValidator(v: Validator, key: string, value: string): (r: Option<Error>)
    ensures v.Enum? ==> (r.Some? <==> |v.values| > 0 && value !in v.values)
    ensures v.Enum? && r.Some? ==> r.value == EnumValidationError(key)
  {
    match v
    case Func(check) => check(key, value)
    case Enum(values) =>
      if |values| == 0 then None
      else if value in values then None
      else Some(EnumValidationError(key))
  }

  /** The internal `option` record; `None` plays the part of a nil field. */
  datatype Settings = Settings(
    defaultValue: string,
    validateRegExp: Option<RegExp>,
    validateFunc: Option<Validator>,
    require: bool)

  /** The zero `option` record `checkApplyOptions` starts from. */
  const NoSettings := Settings("", None, None, false)

  /** The exported option constructors; a nil argument is `None`. */
  datatype Opt =
    | Default(val: string)
    | Require
    | ValidateRegExp(regex: Option<RegExp>)
    | ValidateIntegral
    | ValidateFunc(validateFunc: Option<(string, string) -> Option<Error>>)
    | ValidateEnum(values: seq<string>)

  /** Calling the option's closure on the record: each option sets one field and leaves the others. */
  function Apply(o: Opt, s: Settings): (r: Settings)
    ensures o.Default? ==> r == s.(defaultValue := o.val)
    ensures o.Require? ==> r == s.(require := true)
    ensures o.ValidateRegExp? ==> r == s.(validateRegExp := o.regex)
    ensures o.ValidateIntegral? ==> r == s.(validateRegExp := Some(Integral))
    ensures o.ValidateFunc? ==> r == s.(validateFunc := if o.validateFunc.Some? then Some(Func(o.validateFunc.value)) else None)
    ensures o.ValidateEnum? ==> r == s.(validateFunc := Some(Enum(o.values)))
  {
    match o
    case Default(val) => s.(defaultValue := val)
    case Require => s.(require := true)
    case ValidateRegExp(regex) => s.(validateRegExp := regex)
    case ValidateIntegral => s.(validateRegExp := Some(Integral))
    case ValidateFunc(f) => s.(validateFunc := if f.Some? then Some(Func(f.value)) else None)
    case ValidateEnum(values) => s.(validateFunc := Some(Enum(values)))
  }

  /** An option that sets the regular-expression slot. */
  predicate SetsRegExp(o: Opt)
  {
    o.ValidateRegExp? || o.ValidateIntegral?
  }

  /** An option that sets the validation-function slot. */
  predicate SetsFunc(o: Opt)
  {
    o.ValidateFunc? || o.ValidateEnum?
  }

  /** The record after applying the options in order, starting from the zero record. */
  function Collect(options: seq<Opt>): Settings
    decreases |options|
  {
    if options == [] then NoSettings
    else Apply(options[|options| - 1], Collect(options[..|options| - 1]))
  }

  /** The requirement, once set by some option, stays set; nothing else sets it. */
  lemma {:induction false} CollectRequire(options: seq<Opt>)
    ensures Collect(options).require <==> exists i :: 0 <= i < |options| && options[i].Require?
    decreases |options|
  {
    if options != [] {
      var init := options[..|options| - 1];
      CollectRequire(init);
      assert forall i :: 0 <= i < |init| ==> init[i] == options[i];
    }
  }

  /** The default is the value of the last Default option, or empty when there is none. */
  lemma {:induction false} CollectDefault(options: seq<Opt>)
    ensures (forall i :: 0 <= i < |options| ==> !options[i].Default?) ==> Collect(options).defaultValue == ""
    ensures forall i :: 0 <= i < |options| && options[i].Default? && (forall j :: i < j < |options| ==> !options[j].Default?)
              ==> Collect(options).defaultValue == options[i].val
    decreases |options|
  {
    if options != [] {
      var init := options[..|options| - 1];
      var last := options[|options| - 1];
      CollectDefault(init);
      assert Collect(options) == Apply(last, Collect(init));
      if !last.Default? {
        assert Collect(options).defaultValue == Collect(init).defaultValue;
        assert forall i :: 0 <= i < |init| ==> init[i] == options[i];
      }
    }
  }

  /** The regular expression is the one the last ValidateRegExp or ValidateIntegral set, or none. */
  lemma {:induction false} CollectRegExp(options: seq<Opt>)
    ensures (forall i :: 0 <= i < |options| ==> !SetsRegExp(options[i])) ==> Collect(options).validateRegExp.None?
    ensures forall i :: 0 <= i < |options| && SetsRegExp(options[i]) && (forall j :: i < j < |options| ==> !SetsRegExp(options[j]))
              ==> Collect(options).validateRegExp == Apply(options[i], NoSettings).validateRegExp
    decreases |options|
  {
    if options != [] {
      var init := options[..|options| - 1];
      var last := options[|options| - 1];
      CollectRegExp(init);
      assert Collect(options) == Apply(last, Collect(init));
      if !SetsRegExp(last) {
        assert Collect(options).validateRegExp == Collect(init).validateRegExp;
        assert forall i :: 0 <= i < |init| ==> init[i] == options[i];
      }
    }
  }

  /** The validation function is the one the last ValidateFunc or ValidateEnum set, or none. */
  lemma {:induction false} CollectFunc(options: seq<Opt>)
    ensures (forall i :: 0 <= i < |options| ==> !SetsFunc(options[i])) ==> Collect(options).validateFunc.None?
    ensures forall i :: 0 <= i < |options| && SetsFunc(options[i]) && (forall j :: i < j < |options| ==> !SetsFunc(options[j]))
              ==> Collect(options).validateFunc == Apply(options[i], NoSettings).validateFunc
    decreases |options|
  {
    if options != [] {
      var init := options[..|options| - 1];
      var last := options[|options| - 1];
      CollectFunc(init);
      assert Collect(options) == Apply(last, Collect(init));
      if !SetsFunc(last) {
        assert Collect(options).validateFunc == Collect(init).validateFunc;
        assert forall i :: 0 <= i < |init| ==> init[i] == options[i];
      }
    }
  }

  /** What the validation options say about a value: the regular expression if one is set, else the function. */
  function Validate(key: string, value: string, s: Settings): (r: Option<Error>)
    ensures s.validateRegExp.Some? ==> (r.Some? <==> !Matches(s.validateRegExp.value, value))
    ensures s.validateRegExp.Some? && r.Some? ==> r.value == RegExpValidationError(key)
    ensures s.validateRegExp.None? && s.validateFunc.Some? ==> r == RunValidator(s.validateFunc.value, key, value)
    ensures s.validateRegExp.None? && s.validateFunc.None? ==> r.None?
  {
    if s.validateRegExp.Some? then
      if Matches(s.validateRegExp.value, value) then None else Some(RegExpValidationError(key))
    else if s.validateFunc.Some? then
      RunValidator(s.validateFunc.value, key, value)
    else
      None
  }

  /**
    What `checkApplyOptions(key, value, ok, options...)` returns once the options
    are collected. An empty value counts as missing. A missing value is an error
    when required, is replaced by the default when one is set, and is the empty
    string otherwise. Whatever value is returned has passed validation; on an
    error the value is empty.
  */
  function Resolve(key: string, value: string, ok: bool, s: Settings): (r: (string, Option<Error>))
    ensures r.1.Some? ==> r.0 == ""
    ensures r.1.None? ==> r.0 == (if ok && value != "" then value else s.defaultValue)
    ensures r.0 != "" ==> Validate(key, r.0, s).None?
    ensures ok && value != "" ==> r.1 == Validate(key, value, s)
    ensures !(ok && value != "") && s.require ==> r == ("", Some(NoKeyError(key)))
    ensures !(ok && value != "") && !s.require ==> r.1 == (if s.defaultValue == "" then None else Validate(key, s.defaultValue, s))
  {
    var present := ok && value != "";
    if !present && s.require then ("", Some(NoKeyError(key)))
    else if !present && s.defaultValue == "" then ("", None)
    else
      var candidate := if present then value else s.defaultValue;
      var err := Validate(key, candidate, s);
      if err.Some? then ("", err) else (candidate, None)
  }

  /**
    `checkApplyOptions`. The `goto check` that re-enters the switch with the
    default value is a loop that runs at most twice.
  */
  method CheckApplyOptions(key: string, value: string, ok: bool, options: seq<Opt>) returns (result: string, err: Option<Error>)
    ensures (result, err) == Resolve(key, value, ok, Collect(options))
  {
    var opt := NoSettings;
    for i := 0 to |options|
      invariant opt == Collect(options[..i])
    {
      assert options[..i + 1][..i] == options[..i];
      opt := Apply(options[i], opt);
    }
    WholeSlice(options);

    var found, current := ok, value;
    if current == "" {
      found := false;
    }
    while true
      invariant opt == Collect(options)
      invariant !found ==> !(ok && value != "")
      invariant found && ok && value != "" ==> current == value
      invariant found && !(ok && value != "") ==> !opt.require && opt.defaultValue != "" && current == opt.defaultValue
      decreases if found then 0 else 1
    {
      if !found && opt.require {
        return "", Some(NoKeyError(key));
      } else if !found && opt.defaultValue != "" {
        found, current := true, opt.defaultValue;
      } else if !found {
        return "", None;
      } else if opt.validateRegExp.Some? {
        if !Matches(opt.validateRegExp.value, current) {
          return "", Some(RegExpValidationError(key));
        }
        break;
      } else if opt.validateFunc.Some? {
        var e := RunValidator(opt.validateFunc.value, key, current);
        if e.Some? {
          return "", e;
        }
        break;
      } else {
        break;
      }
    }
    return current, None;
  }

  /** A required value that is missing or empty is a NoKeyError, whatever default is also given. */
  lemma RequireBeatsDefault(key: string, value: string, ok: bool, options: seq<Opt>, i: int)
    requires 0 <= i < |options| && options[i].Require?
    requires !ok || value == ""
    ensures Resolve(key, value, ok, Collect(options)) == ("", Some(NoKeyError(key)))
  {
    CollectRequire(options);
  }

  /** When a regular expression is set, the validation function is never consulted. */
  lemma RegExpTakesPrecedence(key: string, value: string, ok: bool, s: Settings, other: Option<Validator>)
    requires s.validateRegExp.Some?
    ensures Resolve(key, value, ok, s) == Resolve(key, value, ok, s.(validateFunc := other))
  {
  }

  /** The value a successful lookup returns is returned again when looked up itself. */
  lemma ResolveIdempotent(key: string, value: string, ok: bool, s: Settings)
    requires Resolve(key, value, ok, s).1.None?
    ensures var v := Resolve(key, value, ok, s).0;
            v == "" || Resolve(key, v, true, s) == (v, None)
  {
  }

  /** ValidateIntegral accepts exactly the strings of ASCII digits, so the empty default and "0042" pass and "-1" fails. */
  lemma IntegralExamples(key: string)
    ensures Resolve(key, "0042", true, Collect([ValidateIntegral])) == ("0042", None)
    ensures Resolve(key, "-1", true, Collect([ValidateIntegral])) == ("", Some(RegExpValidationError(key)))
    ensures Resolve(key, "", false, Collect([ValidateIntegral])) == ("", None)
  {
    assert [ValidateIntegral][..0] == [];
    assert "-1"[0] == '-' && !IsDigit('-');
  }

  /**
    With ValidateEnum as the last function option and no regular expression, a
    present value fails exactly when the list is non-empty and lacks it.
  */
  lemma EnumRule(key: string, value: string, values: seq<string>, options: seq<Opt>)
    requires value != ""
    requires forall i :: 0 <= i < |options| ==> !SetsRegExp(options[i])
    ensures var r := Resolve(key, value, true, Collect(options + [ValidateEnum(values)]));
            (r.1.Some? <==> |values| > 0 && value !in values)
            && (r.1.Some? ==> r.1.value == EnumValidationError(key))
  {
    var all := options + [ValidateEnum(values)];
    assert forall i :: 0 <= i < |all| ==> !SetsRegExp(all[i]) by {
      forall i | 0 <= i < |all|
        ensures !SetsRegExp(all[i])
      {
        if i < |options| {
          assert all[i] == options[i];
        }
      }
    }
    assert all[..|all| - 1] == options;
    CollectRegExp(all);
  }
}
