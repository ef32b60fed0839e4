/**
  `MustPrettyPrint` of v2/configurama.go: a pool rendered as text, sections in
  increasing name order, each a bracketed header followed by one
  `indent key: value` line per key in increasing key order.
*/
module Printing {
  import opened Text
  import opened PoolData

  /** One key's line. A key the section lacks reads as the empty value, as a Go map lookup does. */
  function Line(section: Section, indent: string, key: string): string
  {
    indent + key + ": " + (if key in section then section[key] else "") + "\n"
  }

  /** The lines of the given keys, in the given order. */
  function Lines(section: Section, indent: string, keys: seq<string>): string
  {
    if keys == [] then ""
    else Lines(section, indent, keys[..|keys| - 1]) + Line(section, indent, keys[|keys| - 1])
  }

  /** A section's header line, preceded by the newline that separates it from what came before. */
  function Header(name: string): string
  {
    "\n[" + name + "]\n"
  }

  /** A section's block: its header, then its keys in increasing order. */
  ghost function Block(pool: Data, indent: string, name: string): string
  {
    var section := if name in pool then pool[name] else map[];
    Header(name) + Lines(section, indent, SortedKeys(section.Keys))
  }

  /** The blocks of the given sections, in the given order. */
  ghost function Blocks(pool: Data, indent: string, names: seq<string>): string
  {
    if names == [] then ""
    else Blocks(pool, indent, names[..|names| - 1]) + Block(pool, indent, names[|names| - 1])
  }

  /**
    What `MustPrettyPrint(pool, indent)` returns: every block in increasing
    section order, with the newlines at either end trimmed away.
  */
  ghost function PrettyPrint(pool: Data, indent: string): string
  {
    TrimNewlines(Blocks(pool, indent, SortedKeys(pool.Keys)))
  }

  /** The least name of a non-empty set, found by one pass over it. */
  method Least(names: set<string>) returns (m: string)
    requires names != {}
    ensures IsLeast(m, names)
  {
    m :| m in names;
    var left := names - {m};
    while left != {}
      invariant left <= names && m in names && m !in left
      invariant forall x :: x in names && x !in left && x != m ==> Less(m, x)
      decreases left
    {
      var x :| x in left;
      if Less(x, m) {
        forall y | y in names && y !in left && y != x
          ensures Less(x, y)
        {
          if y != m {
            LessTransitive(x, m, y);
          }
        }
        m := x;
      } else {
        LessTotal(x, m);
      }
      left := left - {x};
    }
  }

  /**
    The names of a set in increasing order: the source collects them into a
    slice and calls `sort.Strings`; here the least remaining name is taken
    repeatedly, which yields the same sequence.
  */
  method SortedNames(names: set<string>) returns (r: seq<string>)
    ensures r == SortedKeys(names)
  {
    r := [];
    var left := names;
    while left != {}
      invariant left <= names
      invariant StrictlySorted(r)
      invariant forall x :: x in r <==> x in names && x !in left
      invariant forall i, y :: 0 <= i < |r| && y in left ==> Less(r[i], y)
      decreases left
    {
      var m := Least(left);
      r := r + [m];
      left := left - {m};
    }
    StrictlySortedUnique(r, SortedKeys(names));
  }

  /** `MustPrettyPrint(pool, indent)`. Writing to a `strings.Builder` never fails, so it never panics. */
  method MustPrettyPrint(pool: Data, indent: string) returns (out: string)
    ensures out == PrettyPrint(pool, indent)
    ensures out == [] || (out[0] != '\n' && out[|out| - 1] != '\n')
  {
    var sections := SortedNames(pool.Keys);
    var text := "";
    for i := 0 to |sections|
      invariant text == Blocks(pool, indent, sections[..i])
    {
      text := WriteSection(pool, indent, sections[i], text);
      BlocksStep(pool, indent, sections, i);
    }
    WholeSlice(sections);
    out := TrimNewlines(text);
  }

  /** One pass of the outer loop of `MustPrettyPrint`: the section's header, then its keys in increasing order. */
  method WriteSection(pool: Data, indent: string, sec: string, text: string) returns (out: string)
    requires sec in pool
    ensures out == text + Block(pool, indent, sec)
  {
    var params := SortedNames(pool[sec].Keys);
    out := text + Header(sec);
    for j := 0 to |params|
      invariant out == text + Header(sec) + Lines(pool[sec], indent, params[..j])
    {
      assert params[j] in pool[sec];
      var line := indent + params[j] + ": " + pool[sec][params[j]] + "\n";
      LinesStep(pool[sec], indent, params, j);
      AppendLine(text + Header(sec), Lines(pool[sec], indent, params[..j]), line);
      out := out + line;
    }
    WholeSlice(params);
    AppendLine(text, Header(sec), Lines(pool[sec], indent, params));
  }

  lemma AppendLine(head: string, lines: string, line: string)
    ensures head + lines + line == head + (lines + line)
  {
  }

  lemma LinesStep(section: Section, indent: string, keys: seq<string>, j: int)
    requires 0 <= j < |keys| && keys[j] in section
    ensures Lines(section, indent, keys[..j + 1])
         == Lines(section, indent, keys[..j]) + (indent + keys[j] + ": " + section[keys[j]] + "\n")
  {
    assert keys[..j + 1][..j] == keys[..j];
  }

  lemma BlocksStep(pool: Data, indent: string, names: seq<string>, i: int)
    requires 0 <= i < |names|
    ensures Blocks(pool, indent, names[..i + 1]) == Blocks(pool, indent, names[..i]) + Block(pool, indent, names[i])
  {
    var prefix := names[..i + 1];
    assert prefix[..i] == names[..i] && prefix[i] == names[i];
  }

  /** An empty pool prints as the empty string. */
  lemma EmptyPool(indent: string)
    ensures PrettyPrint(map[], indent) == ""
  {
    assert SortedKeys({}) == [];
  }

  /** A header is the bracketed name between two newlines. */
  lemma HeaderFramed(name: string)
    ensures Header(name) == "\n" + Bracketed(name) + "\n"
  {
    var n, o, c := "\n", "[", "]";
    assert "\n[" == n + o && "]\n" == c + n;
    Regroup5(n, o, name, c, n);
  }

  /** A section name between brackets, as its header shows it. */
  function Bracketed(name: string): (r: string)
    ensures |r| == |name| + 2 && r[0] == '[' && r[|r| - 1] == ']'
    ensures r[1..|r| - 1] == name
  {
    "[" + name + "]"
  }

  lemma Regroup5(a: string, b: string, x: string, c: string, d: string)
    ensures a + b + x + (c + d) == a + (b + x + c) + d
  {
  }

  /** A pool of one empty section prints as its header alone. */
  lemma EmptySection(name: string, indent: string)
    ensures PrettyPrint(map[name := map[]], indent) == Bracketed(name)
  {
    var pool: Data := map[name := map[]];
    StrictlySortedUnique(SortedKeys(pool.Keys), [name]);
    EmptyBlock(pool, indent, name);
    assert [name][..0] == [];
    assert Blocks(pool, indent, [name]) == Header(name);
    HeaderFramed(name);
    TrimFramed(Bracketed(name));
  }

  /** An empty section's block is its header alone. */
  lemma EmptyBlock(pool: Data, indent: string, name: string)
    requires name in pool && pool[name] == map[]
    ensures Block(pool, indent, name) == Header(name)
  {
    var empty: Section := map[];
    StrictlySortedUnique(SortedKeys(empty.Keys), []);
  }

  /** The names of a two-name set, in order. */
  lemma TwoNames(a: string, b: string)
    requires Less(a, b)
    ensures SortedKeys({a, b}) == [a, b]
  {
    LessIrreflexive(a);
    StrictlySortedUnique(SortedKeys({a, b}), [a, b]);
  }

  /** Two framed texts in a row, regrouped as one framed text. */
  lemma Regroup(n: string, p: string, q: string)
    ensures n + p + n + (n + q + n) == n + (p + (n + n) + q) + n
  {
  }

  /** The blocks of two empty sections, in name order. */
  lemma TwoEmptyBlocks(a: string, b: string, indent: string)
    requires Less(a, b)
    ensures Blocks(map[a := map[], b := map[]], indent, SortedKeys({a, b})) == Header(a) + Header(b)
  {
    var pool: Data := map[a := map[], b := map[]];
    LessIrreflexive(a);
    TwoNames(a, b);
    EmptyBlock(pool, indent, a);
    EmptyBlock(pool, indent, b);
    assert [a, b][..1] == [a] && [a][..0] == [];
    assert Blocks(pool, indent, [a]) == Header(a);
  }

  /** Sections print in increasing name order, whichever order the map would yield them in, one blank line apart. */
  lemma TwoEmptySections(a: string, b: string, indent: string)
    requires Less(a, b)
    ensures PrettyPrint(map[a := map[], b := map[]], indent) == Bracketed(a) + "\n\n" + Bracketed(b)
  {
    var pool: Data := map[a := map[], b := map[]];
    assert pool.Keys == {a, b};
    TwoEmptyBlocks(a, b, indent);
    HeaderFramed(a);
    HeaderFramed(b);
    var n, p, q := "\n", Bracketed(a), Bracketed(b);
    assert "\n\n" == n + n;
    Regroup(n, p, q);
    TrimFramed(p + (n + n) + q);
  }

  /** The block of a section with a single key: its header, then the key's line. */
  lemma OneKeyBlock(name: string, key: string, value: string, indent: string)
    ensures Blocks(map[name := map[key := value]], indent, SortedKeys({name}))
         == Header(name) + Line(map[key := value], indent, key)
  {
    var pool: Data := map[name := map[key := value]];
    var section: Section := map[key := value];
    StrictlySortedUnique(SortedKeys({name}), [name]);
    StrictlySortedUnique(SortedKeys(section.Keys), [key]);
    assert [name][..0] == [] && [key][..0] == [];
    assert Lines(section, indent, [key]) == Line(section, indent, key);
  }

  /** A framed header followed by one line, regrouped as one framed text. */
  lemma RegroupLine(n: string, p: string, l: string)
    ensures n + p + n + (l + n) == n + (p + n + l) + n
  {
  }

  /**
    A section with one key prints as its header and one `indent key: value` line,
    provided the value does not end in a newline that the final trim would eat.
  */
  lemma OneKeySection(name: string, key: string, value: string, indent: string)
    requires value == [] || value[|value| - 1] != '\n'
    ensures PrettyPrint(map[name := map[key := value]], indent) == Bracketed(name) + "\n" + (indent + key + ": " + value)
  {
    var pool: Data := map[name := map[key := value]];
    assert pool.Keys == {name};
    OneKeyBlock(name, key, value, indent);
    HeaderFramed(name);
    var n, p, l := "\n", Bracketed(name), indent + key + ": " + value;
    assert Line(map[key := value], indent, key) == l + n;
    RegroupLine(n, p, l);
    assert l[|l| - 1] != '\n' by {
      if value == [] {
        assert l == indent + key + ": ";
      }
    }
    TrimFramed(p + n + l);
  }
}
