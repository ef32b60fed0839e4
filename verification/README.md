# configurama in Dafny

A verified model of the core of configurama, a Go package that keeps
configuration data in a pool of named sections, each a map from key to string
value. Both revisions of the package are covered:

- the first, `configurama.go`;
- the second, `v2/configurama.go` with `v2/errors.go`.

The model covers these parts of the package:

- **Merging.** `merge` combines two pools under a strategy: Report, Overwrite or
  Keep. It is modelled once and used by both pool classes.
- **Comparing.** `diff` and `Compare` list what one pool holds that another
  lacks. They are also modelled once.
- **Pool classes.** v2's `Pool` has `New`, `Raw`, `Params`, `Merge`, `Get`,
  `Set`, `Unset` and `Compare`. v1's `Pool` has `New`, `Raw`, `Get`, `Merge`,
  `Unset` and `Compare`, plus the prefix filtering of `extractParams`.
- **Retrieval options.** These are `Default`, `Require`, `ValidateRegExp`,
  `ValidateIntegral`, `ValidateFunc` and `ValidateEnum`, together with
  `checkApplyOptions`, which settles one looked-up value.
- **Typed accessors.** `String`, `Strings`, `Int` and `Bool` on a section.
- **`MustPrettyPrint`.** The sorted text rendering of a pool.
- **Errors.** The error values and their messages.

Each Go map becomes a Dafny `map`, and each `Pool` becomes a `class` whose field
`params` is replaced by its methods. The source's loops become `while` loops
over the keys still to visit. Each key is picked with `:|`, because Go leaves
map iteration order open. Every such method is proved equal to a function over
its inputs:

- `Combined` for merging;
- `DiffOf` for comparing;
- `Resolve` for the options;
- `PrettyPrint` for rendering.

The properties the package promises are proved about those functions as lemmas.

Modules, one per file:

- `Wrappers`: an Option type.
- `Errors`: the error values and their messages.
- `Text`: the parts of `strings`, `sort` and `strconv` the pool uses.
- `PoolData`: pool and section types, copying, `Get`, `Set` and `Unset` on values.
- `Merging`: `merge`.
- `Diffing`: `diff`.
- `Printing`: `MustPrettyPrint`.
- `Options`: the retrieval options and `checkApplyOptions`.
- `Params`: the typed accessors.
- `PoolV2` and `PoolV1`: the two pool classes.

Two points where the source's comments and its code can be read differently:

- **Report on equal values.** The Report strategy "will report an error for
  parameters that already exist" (v2/configurama.go:86-87) and aborts "on the
  first conflicting key name" (v2/configurama.go:145). The code reports a
  conflict for every key present in both pools, whatever the values, and the
  test at v2/configurama_test.go:735-739 expects an error for a key holding the
  same value on both sides. The model follows the code;
  `Merging.ReportConflictsOnEqualValues` records this.
- **Defensive copies.** The doc comment of v2's `Raw` (v2/configurama.go:106)
  promises that modifying the result does not affect the pool. The body builds
  a copy and then returns the pool's own map (v2/configurama.go:118). With value
  semantics this cannot be observed (see below).

## Model

| member | source | states |
|---|---|---|
| Errors.MessageIdentifiesError | v2/errors.go:6-37 | For errors of the four declared kinds, over plain strings, equal messages mean equal errors. The message tells the kind, and carries the key and, for a conversion error, the value and the target type. |
| Errors.Message | v2/errors.go:9-37 | The text of each error. The messages of NoKeyError, RegExpValidationError and EnumValidationError end in the quoted key; "unknown section name: " (configurama.go:99) ends in the section name. A merge conflict's message names the quoted section right after "section " (v2/configurama.go:417). |
| Errors.ConversionShape | v2/errors.go:34-37 | Helper for `ConversionMessageIdentifies`: a conversion error's message names the quoted value, then the quoted key, then the unquoted type name. |
| Errors.ConversionMessageIdentifies | v2/errors.go:35-37 | A conversion message over plain strings gives back its value, key and type name. |
| Text.SortedKeys | v2/configurama.go:487-491 | The names of a set in strictly increasing byte order, each exactly once: what `sort.Strings` leaves in the collected slice. |
| Text.Less | v2/configurama.go:491 | Go's byte-wise string order, the order `sort.Strings` uses: it is irreflexive, and the empty string is below every other string. Its totality and transitivity are the next two rows. |
| Text.StrictlySortedUnique | v2/configurama.go:491 | Two strictly sorted sequences with the same elements are equal, so the sorted order of a set is unique. |
| Text.LessTotal | v2/configurama.go:491 | Go's string order is total on distinct strings. |
| Text.LessTransitive | v2/configurama.go:491 | Go's string order is transitive. |
| Text.SplitJoin | v2/configurama.go:248 | `strings.Split` followed by `strings.Join` with the same separator gives back the string. A non-empty string, or any split on a non-empty separator, yields at least one piece. |
| Text.SplitFrom | v2/configurama.go:248 | `strings.Split` on a non-empty separator, scanning from the left and cutting at each occurrence: there is always at least one piece. Its contents are stated by `SplitFromPieces` and `SplitJoin`. |
| Text.Explode | v2/configurama.go:248 | `strings.Split` on the empty separator: one piece per character, so as many pieces as characters. |
| Text.Split | v2/configurama.go:248 | `strings.Split`: `Explode` for the empty separator, `SplitFrom` otherwise. Its properties are the rows `SplitJoin`, `SplitPiecesFree` and `ExplodePieces`. |
| Text.SplitFromPieces | v2/configurama.go:248 | When the piece built so far holds no occurrence of the separator, no piece of the rest of the split holds one. |
| Text.SplitPiecesFree | v2/configurama.go:248 | No piece of a split on a non-empty separator contains the separator. |
| Text.ExplodePieces | v2/configurama.go:248 | A split on the empty separator yields, at each position, the one-character string of that character. |
| Text.TrimNewlines | v2/configurama.go:505 | `strings.Trim(s, "\n")`: the result is no longer than the input and neither starts nor ends with a newline. |
| Text.TrimDropsOnlyNewlines | v2/configurama.go:505 | Trimming removes a run of newlines from the front and a run from the back, and nothing else: the input is those newlines around the result. |
| Text.TrimFramed | v2/configurama.go:505 | Trimming a text wrapped in one newline on each side gives the text back, when the text itself neither starts nor ends with one. |
| Text.Atoi | v2/configurama.go:262 | `strconv.Atoi` succeeds exactly on an optional sign followed by at least one digit, with a value in the signed 64-bit range, and then yields that value. |
| Text.AtoiItoa | v2/configurama.go:262 | Parsing the decimal text of any 64-bit integer gives the integer back. |
| Text.AtoiRejectsFraction | v2/configurama.go:262-265 | "12.5" is not an integer. |
| PoolData.CopySection | v2/configurama.go:133-136 | The key-by-key copy of a section equals the section. |
| PoolData.CopyData | v2/configurama.go:402-407 | The section-by-section copy of a pool equals the pool. |
| PoolData.Get | v2/configurama.go:163-173 | The result is `(value, true)` exactly when the section holds the key, including an empty value. Otherwise it is `("", false)`. |
| PoolData.Set | v2/configurama.go:178-188 | On an existing section the key is written and nothing else changes. On a missing section nothing changes, and the flag is false. |
| PoolData.Unset | v2/configurama.go:193-214 | An empty key removes the whole section; any other key removes only that key. The flag is true exactly when something was there to remove, and afterwards the key is gone. |
| PoolData.UnsetLeavesOthers | configurama.go:156-174 | Unsetting leaves every other section, and every other key of the same section, as it was. |
| PoolData.SetThenGet | v2/configurama.go:175-188 | A key that was set reads back with its value and present, even when the value is empty. |
| PoolData.SetLeavesOthers | v2/configurama.go:182-187 | Setting touches no other key and never creates a section. |
| PoolData.UnsetThenGet | v2/configurama.go:190-214 | After unsetting, the key reads as missing; after unsetting a whole section, every key of it does. |
| PoolData.SetThenUnset | v2/configurama.go:178-214 | Unsetting a key that was just added to a section gives back the pool as it was, and reports that something was removed. |
| Merging.MergeSection | v2/configurama.go:413-428 | The merged section holds the union of the keys. A key on one side only keeps its value. A shared key takes the second value under Overwrite, and the first value under Keep, Report or any unknown strategy. |
| Merging.Combined | v2/configurama.go:401-437 | The merged pool holds the union of the sections. A section on one side only is kept as it is; a shared section is merged key by key. |
| Merging.MergeKeys | v2/configurama.go:413-428 | The inner loop reports a conflict exactly when the strategy is Report and some key is on both sides. The reported key is one of those. Otherwise the loop yields the merged section. |
| Merging.Merge | v2/configurama.go:384-440 | An empty first pool gives the second; otherwise an empty second pool gives the first. The merge fails exactly under Report when some section holds the same key on both sides, and the error names such a section and key. Otherwise the result is `Combined`. |
| Merging.MergeSections | v2/configurama.go:399-439 | Past the edge cases, the copy of the first pool followed by the loop over the second fails exactly under Report when some section holds the same key on both sides, naming such a key. Otherwise it yields `Combined`, whatever order the sections and keys are visited in. |
| Merging.MergeStep | v2/configurama.go:409-436 | Merging one more section of the second pool changes only that section of the result: it becomes the key-by-key merge when the first pool has it, and a copy otherwise. |
| Merging.EdgeCasesAgree | v2/configurama.go:388-393 | The two early returns agree with the general merge. |
| Merging.MergeAssociative | configurama.go:185-241 | Under Overwrite, and under Keep, merging three pools gives the same result however the merges are grouped. |
| Merging.SectionAssociative | configurama.go:214-228 | The key-level merge is associative under Overwrite and Keep. |
| Merging.ReportSuccessIsUnion | v2/configurama.go:414-417 | When no key is shared, Report yields the same pool as Overwrite and as Keep. |
| Merging.DisjointSectionsAgree | v2/configurama.go:413-428 | Two sections without a shared key merge to the same section under every strategy. |
| Merging.ReportConflictsOnEqualValues | configurama.go:215-218 | A key present on both sides conflicts under Report even when the two values are equal. |
| Diffing.DiffSection | v2/configurama.go:457-465 | The keys of one section that the other lacks or holds with another value, each with its own value. |
| Diffing.DiffOf | v2/configurama.go:444-469 | The difference holds exactly the (section, key, value) triples of the first pool that the second lacks or holds with another value. A section the second pool lacks appears whole, even when it is empty. A shared section appears only when something in it differs. |
| Diffing.DiffKeys | v2/configurama.go:457-465 | The inner loop, with its `gotSection` flag, writes a fresh entry holding exactly the differing keys when there are any, and otherwise leaves the prior entry. |
| Diffing.Diff | v2/configurama.go:444-469 | Whatever the order of iteration, `diff` returns `DiffOf`. |
| Diffing.DiffStep | v2/configurama.go:447-466 | Comparing one more section adds that section's differences, or nothing when it has none. |
| Diffing.DiffEmptyIff | configurama.go:245-270 | The difference is empty exactly when every key of the first pool is in the second with the same value. |
| Diffing.IdenticalIff | v2/configurama.go:216-219 | Two pools are equal if and only if both directions of `Compare` are empty, as the doc comment promises. |
| Diffing.OverwriteCoversSecond | v2/configurama.go:420-421 | After an Overwrite merge, nothing of the merged-in pool is missing. |
| Diffing.KeepCoversFirst | v2/configurama.go:418-419 | After a merge under any strategy but Overwrite, nothing of the original pool is missing. |
| Diffing.CaseSensitive | configurama.go:259 | Keys compare case-sensitively: "KEY1" is missing from a section that holds only "key1". |
| Printing.Least | v2/configurama.go:491 | Returns the least name of a non-empty set. |
| Printing.SortedNames | v2/configurama.go:487-491 | Collecting the names and sorting them yields `SortedKeys`. |
| Printing.PrettyPrint | v2/configurama.go:477-506 | The rendering: the block of each section in increasing name order, each `\n[name]\n` followed by one `indent key: value\n` line per key in increasing key order, the whole trimmed of newlines at both ends. Its properties are the rows `MustPrettyPrint`, `EmptyPool`, `EmptySection`, `TwoEmptySections` and `OneKeySection`. |
| Printing.MustPrettyPrint | v2/configurama.go:477-506 | The built text is the sections' blocks in increasing name order. Each block is `\n[name]\n` followed by `indent key: value\n` lines in increasing key order. The text is trimmed of newlines at both ends, so the result neither starts nor ends with a newline. |
| Printing.WriteSection | v2/configurama.go:493-502 | One pass of the outer loop appends the section's block: the header, then one line per key in increasing key order. |
| Printing.HeaderFramed | v2/configurama.go:499 | A section header is its bracketed name with one newline before and one after. |
| Printing.EmptyPool | configurama.go:278-307 | An empty pool renders as "". |
| Printing.EmptySection | configurama.go:299-303 | A pool of one empty section renders as its header `[name]` alone. |
| Printing.TwoEmptySections | configurama.go:292-304 | Two empty sections render as their headers in increasing name order, one blank line apart. |
| Printing.OneKeySection | configurama.go:300-302 | A one-key section renders as `[name]`, a newline, then `indent key: value`, provided the value does not end in a newline. |
| Options.RunValidator | v2/configurama.go:44-58 | The enum check accepts everything when its list is empty; otherwise it accepts exactly the listed values. Anything else is an EnumValidationError for the key. |
| Options.Apply | v2/configurama.go:17-59 | Each option constructor sets its one field of the option record and leaves the others. ValidateIntegral sets the digits-only expression. A nil expression or function clears its slot. |
| Options.Collect | v2/configurama.go:351-354 | The option fold: starting from no settings, each option is applied in order. Its outcome is stated field by field by the four rows that follow. |
| Options.CollectRequire | v2/configurama.go:351-354 | After the options are applied in order, the value is required exactly when some option is Require. |
| Options.CollectDefault | v2/configurama.go:351-354 | The default is the value of the last Default option, or empty when there is none. |
| Options.CollectRegExp | v2/configurama.go:351-354 | The regular expression is the one set by the last ValidateRegExp or ValidateIntegral, or there is none. |
| Options.CollectFunc | v2/configurama.go:351-354 | The validation function is the one set by the last ValidateFunc or ValidateEnum, or there is none. |
| Options.Validate | v2/configurama.go:369-377 | When a regular expression is set, a value fails exactly when it does not match, with a RegExpValidationError. Otherwise the validation function decides. With neither, every value passes. |
| Options.Resolve | v2/configurama.go:350-381 | An empty value counts as missing. A missing value that is required is a NoKeyError. Otherwise a non-empty default takes its place, and the default is validated too. Any error comes with the empty string. A returned non-empty value has passed validation. |
| Options.CheckApplyOptions | v2/configurama.go:350-381 | The option fold and the `goto check` loop return exactly `Resolve` of the collected options. |
| Options.RequireBeatsDefault | v2/configurama.go:362-366 | A missing or empty required value is a NoKeyError whatever default is also given. |
| Options.RegExpTakesPrecedence | v2/configurama.go:369-377 | With a regular expression set, the validation function is never consulted. |
| Options.ResolveIdempotent | v2/configurama.go:356-380 | A non-empty value returned without error is returned unchanged when it is itself looked up. |
| Options.IntegralExamples | v2/configurama.go:14 | ValidateIntegral accepts "0042", rejects "-1", and leaves a missing value empty without error. |
| Options.EnumRule | v2/configurama.go:44-58 | With ValidateEnum last and no regular expression, a present value fails exactly when the list is non-empty and lacks it, and the error is EnumValidationError. |
| Params.Lookup | v2/configurama.go:231-234 | The lookup shared by the accessors. An error comes with "". Without one, a present non-empty value is returned as it is, and an absent or empty one becomes the default. A non-empty result has passed validation. |
| Params.String | v2/configurama.go:231-234 | Returns the options' resolution of the looked-up value; an absent key reads as "". An error comes with "", and a present non-empty value that passes is returned as it is. |
| Params.Strings | v2/configurama.go:243-250 | An error or an empty value gives no pieces. Otherwise the validated value is split on the separator: the pieces join back to it, and with a non-empty separator no piece contains it. |
| Params.Int | v2/configurama.go:257-267 | An error or an empty value gives 0. A decimal value in the 64-bit range gives its number. Anything else gives 0 and a ConversionError to "int". |
| Params.ParseBool | v2/configurama.go:298-303 | t, true, y, yes, on and 1 read as true; f, false, n, no, off and 0 read as false; any other spelling reads as neither. |
| Params.Bool | v2/configurama.go:293-305 | An error or an empty value gives false. A listed spelling gives its truth value. Anything else gives false and a ConversionError to "bool". |
| Params.EmptyIsMissing | v2/configurama.go:356-358 | Under any options, an empty value reads exactly as an absent key. |
| Params.MissingTakesDefault | v2/configurama.go:364-366 | With `Default(d)`, `d` non-empty, as the only option, a missing key reads as `d` without error. |
| Params.IntReadsBack | v2/configurama.go:257-267 | A stored decimal integer reads back as the same number. |
| Params.StringsRoundTrip | v2/configurama.go:243-250 | A stored list value read without options splits into pieces that join back to it. |
| PoolV2.Pool.New | v2/configurama.go:99-103 | The new pool holds exactly the given data. |
| PoolV2.Pool.Raw | v2/configurama.go:107-120 | Returns the pool's whole content. |
| PoolV2.Pool.Params | v2/configurama.go:124-139 | A copy of the named section and true, or an empty section and false when there is no such section. |
| PoolV2.Pool.Merge | v2/configurama.go:147-157 | Fails exactly under Report when the pool and the argument share a key in a section; the error then names such a section and key, and the pool is unchanged. Otherwise the pool becomes `Combined`. |
| PoolV2.Pool.Get | v2/configurama.go:163-173 | The value and its presence, as `PoolData.Get` states. |
| PoolV2.Pool.Set | v2/configurama.go:178-188 | A missing section gives a NoSectionError for that section and leaves the pool unchanged. Otherwise the key is written and there is no error. |
| PoolV2.Pool.Unset | v2/configurama.go:193-214 | The new pool and the flag are those of `PoolData.Unset`. |
| PoolV2.Pool.Compare | v2/configurama.go:220-225 | Returns what the other pool holds that this one lacks: `DiffOf(other, this)`. |
| PoolV1.Pool.New | configurama.go:34-38 | The new pool holds exactly the given data, so `New(m).Raw()` is `m`. |
| PoolV1.Pool.Raw | configurama.go:78-80 | Returns the pool's content. |
| PoolV1.Pool.ExtractParams | configurama.go:96-111 | A missing section is the error "unknown section name: " followed by the name. An empty prefix returns the section unchanged. A non-empty prefix keeps exactly the keys that start with it, with the prefix cut off and the values kept. |
| PoolV1.WithPrefix | configurama.go:101-109 | The filtering loop yields a key `k` exactly when `prefix + k` is in the section, with that key's value. |
| PoolV1.Pool.Get | configurama.go:129-136 | The value and its presence, as `PoolData.Get` states. |
| PoolV1.Pool.Merge | configurama.go:144-151 | Fails exactly under Report when the pool and the argument share a key in a section; the error then names such a section and key, and the pool is unchanged. Otherwise the pool becomes `Combined`. |
| PoolV1.Pool.Unset | configurama.go:156-174 | The new pool and the flag are those of `PoolData.Unset`. |
| PoolV1.Pool.Compare | configurama.go:180-182 | Returns what the other pool holds that this one lacks: `DiffOf(other, this)`. |

## Left out

- **Locking.** The `sync.Mutex` of v2's `Pool` and every `Lock`/`Unlock` are not modelled. Each method is one sequential step.
- **Other accessors.** `Float`, `Duration` and `Time` are not modelled. They rest on floating point and on Go's duration and timestamp grammars.
- **Regular expressions.** Only the package's own `^[0-9]*$` is spelled out. Any other compiled expression is the predicate it decides.
- **Struct decoding.** `decodeParams`, `Extract` and the decoding and hook calls of `ExtractWithHooks` are not modelled. They rely on reflection through the foreign mapstructure library and on arbitrary caller closures.
- **Aliasing.** Dafny maps are values, so the model captures no aliasing effect:
  - v2's `Raw` returns the pool's own map, despite its doc comment.
  - `merge` returns an input map itself when the other side is empty.
  - `Set` writes into a section map that a caller may share.
  - v1's `extractParams` with an empty prefix returns the section map itself.
  - Updating a result of the pool never changes the pool here.
- Errors.MessageIdentifiesError: stated only for plain strings, because `Quote` approximates Go's `%q` and has no escaping. A plain string has no quote, no backslash and nothing outside printable ASCII.
- Errors.Message: `NoSectionError` has no message, because the source uses it at v2/configurama.go:184 but v2/errors.go never declares it. It is modelled as an error value carrying the section name.
- Merging.Merge: on a Report conflict the contract does not say which conflicting key is named, only that some shared key is; the source's choice depends on map iteration order.
- Merging.Merge: the contract leaves the partial pool returned beside a conflict error unspecified. Both `Pool.Merge` methods discard it.
- Merging.MergeSections: like `Merge`, it names only some conflicting key and leaves the partial pool beside an error unspecified.
- PoolV2.Pool.Set: Go tells a nil section map from an empty one. A nil section reaches the pool when `merge` returns one of its inputs as it is (v2/configurama.go:388-393), for instance a decoded `null` section passed to `New` (v2/configurama.go:101) or to `Merge` on an empty pool. `Set` then panics when it writes into that section (v2/configurama.go:186). Dafny maps have no nil, so the model writes the key and returns no error.
- Merging.Merge: section counts are compared as unbounded integers, while the source converts them to `uint32`. The two differ only for a pool of 2^32 or more sections.
- **Text.** Strings are sequences of Unicode scalar values. Go strings holding invalid UTF-8 cannot be represented. `strings.Split` with an empty separator splits into one piece per character.
- Text.Atoi: models `strconv.Atoi` on a 64-bit platform, where Go's `int` has 64 bits.
- **Panics.** The panic path of `MustPrettyPrint` is left out: writing to a `strings.Builder` never fails.
- **Validation functions.** A caller's validation function is a pure total function from key and value to an optional error. Side effects of a caller's closure are not modelled.
- **Tests and examples.** The test and example files are not part of this model.
