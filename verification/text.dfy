/**
  The pieces of Go's `strings`, `sort` and `strconv` packages the pool relies on:
  byte-wise string order, `strings.Split`/`strings.Join`, `strings.Trim` with
  "\n", `strings.HasPrefix`/`strings.TrimPrefix` and `strconv.Atoi`/`Itoa`.

  Characters are Unicode scalar values; ordering them by code point orders their
  UTF-8 encodings byte by byte, which is how Go compares strings.
*/
module Text {
  import opened Wrappers

  // ---------------------------------------------------------------------------
  // Ordering

  /** `a < b` on Go strings: lexicographic, a proper prefix comes first. */
  predicate Less(a: string, b: string)
    ensures Less(a, b) ==> a != b
    ensures a == "" ==> (Less(a, b) <==> b != "")
    decreases |a|
  {
    |b| > 0 && (|a| == 0 || a[0] < b[0] || (a[0] == b[0] && Less(a[1..], b[1..])))
  }

  lemma {:induction false} LessIrreflexive(a: string)
    ensures !Less(a, a)
    decreases |a|
  {
    if |a| > 0 {
      LessIrreflexive(a[1..]);
    }
  }

  lemma {:induction false} LessTransitive(a: string, b: string, c: string)
    requires Less(a, b) && Less(b, c)
    ensures Less(a, c)
    decreases |a|
  {
    if |a| > 0 && a[0] == b[0] && b[0] == c[0] {
      LessTransitive(a[1..], b[1..], c[1..]);
    }
  }

  lemma {:induction false} LessTotal(a: string, b: string)
    requires a != b
    ensures Less(a, b) || Less(b, a)
    decreases |a|
  {
    if |a| > 0 && |b| > 0 && a[0] == b[0] {
      assert a == [a[0]] + a[1..] && b == [b[0]] + b[1..];
      LessTotal(a[1..], b[1..]);
    }
  }

  lemma LessAsymmetric(a: string, b: string)
    requires Less(a, b)
    ensures !Less(b, a)
  {
    if Less(b, a) {
      LessTransitive(a, b, a);
      LessIrreflexive(a);
    }
  }

  /** Each name comes strictly before the next: sorted and without repeats. */
  predicate StrictlySorted(s: seq<string>)
  {
    forall i, j :: 0 <= i < j < |s| ==> Less(s[i], s[j])
  }

  lemma HeadIn(s: seq<string>)
    ensures |s| > 0 ==> s[0] in s
  {
  }

  /** A strictly sorted sequence is determined by the set of its elements. */
  lemma {:induction false} StrictlySortedUnique(a: seq<string>, b: seq<string>)
    requires StrictlySorted(a) && StrictlySorted(b)
    requires forall x :: x in a <==> x in b
    ensures a == b
    decreases |a|
  {
    HeadIn(a);
    HeadIn(b);
    if |a| > 0 {
      if a[0] != b[0] {
        var i :| 0 <= i < |a| && a[i] == b[0];
        var j :| 0 <= j < |b| && b[j] == a[0];
        assert Less(a[0], b[0]) by {
          assert i > 0;
        }
        assert Less(b[0], a[0]) by {
          assert j > 0;
        }
        LessAsymmetric(a[0], b[0]);
      }
      var ta, tb := a[1..], b[1..];
      forall x | x in ta
        ensures x in tb
      {
        var i :| 0 <= i < |ta| && ta[i] == x;
        assert x in a;
        var j :| 0 <= j < |b| && b[j] == x;
        assert tb[j - 1] == x;
      }
      forall x | x in tb
        ensures x in ta
      {
        var j :| 0 <= j < |tb| && tb[j] == x;
        assert x in b;
        var i :| 0 <= i < |a| && a[i] == x;
        assert ta[i - 1] == x;
      }
      StrictlySortedUnique(ta, tb);
      assert a == [a[0]] + ta && b == [b[0]] + tb;
    }
  }

  /** `m` is in `s` and comes before every other name of `s`. */
  predicate IsLeast(m: string, s: set<string>)
  {
    m in s && forall x :: x in s && x != m ==> Less(m, x)
  }

  /** Adding a name to a set: the new least is the added name or the old least, whichever comes first. */
  lemma AddToLeast(y: string, m: string, rest: set<string>)
    requires IsLeast(m, rest) && y !in rest
    ensures IsLeast(if Less(y, m) then y else m, rest + {y})
  {
    var s := rest + {y};
    if Less(y, m) {
      forall x | x in s && x != y
        ensures Less(y, x)
      {
        if x != m {
          LessTransitive(y, m, x);
        }
      }
    } else {
      LessTotal(y, m);
    }
  }

  /** Among the names of a finite non-empty set there is a least one. */
  lemma {:induction false} LeastExists(s: set<string>)
    requires s != {}
    ensures exists m :: IsLeast(m, s)
    decreases |s|
  {
    var y :| y in s;
    var rest := s - {y};
    if rest == {} {
      assert s == {y};
      assert IsLeast(y, s);
    } else {
      LeastExists(rest);
      var m :| IsLeast(m, rest);
      AddToLeast(y, m, rest);
      assert rest + {y} == s;
    }
  }

  /** Putting the least name in front of the sorted others sorts the whole set. */
  lemma PrependLeast(m: string, rest: seq<string>, s: set<string>)
    requires IsLeast(m, s)
    requires StrictlySorted(rest) && (forall x :: x in rest <==> x in s - {m}) && |rest| == |s - {m}|
    ensures StrictlySorted([m] + rest)
    ensures forall x :: x in [m] + rest <==> x in s
    ensures |[m] + rest| == |s|
  {
    var r := [m] + rest;
    forall i, j | 0 <= i < j < |r|
      ensures Less(r[i], r[j])
    {
      assert r[j] == rest[j - 1] && rest[j - 1] in rest;
      if i > 0 {
        assert r[i] == rest[i - 1];
      }
    }
  }

  /** The names of a set in increasing order: what `sort.Strings` leaves in a slice of them. */
  ghost function SortedKeys(s: set<string>): (r: seq<string>)
    ensures StrictlySorted(r)
    ensures forall x :: x in r <==> x in s
    ensures |r| == |s|
    decreases |s|
  {
    if s == {} then []
    else
      LeastExists(s);
      var m :| IsLeast(m, s);
      var rest := SortedKeys(s - {m});
      PrependLeast(m, rest, s);
      [m] + rest
  }

  // ---------------------------------------------------------------------------
  // Splitting and joining

  /** `strings.Join`. */
  function Join(parts: seq<string>, sep: string): string
  {
    if |parts| == 0 then ""
    else if |parts| == 1 then parts[0]
    else parts[0] + sep + Join(parts[1..], sep)
  }

  /**
    `strings.Split` of `s` after the piece `current` has already been read: scans
    left to right and cuts at the leftmost occurrence of `sep` each time.
  */
  function SplitFrom(s: string, sep: string, current: string): (parts: seq<string>)
    requires sep != ""
    ensures |parts| >= 1
    decreases |s|
  {
    if |s| < |sep| then [current + s]
    else if s[..|sep|] == sep then [current] + SplitFrom(s[|sep|..], sep, "")
    else SplitFrom(s[1..], sep, current + [s[0]])
  }

  /** `strings.Split` with an empty separator: one piece per character, none for the empty string. */
  function Explode(s: string): (parts: seq<string>)
    ensures |parts| == |s|
  {
    if s == [] then [] else [[s[0]]] + Explode(s[1..])
  }

  /** `strings.Split`. */
  function Split(s: string, sep: string): (parts: seq<string>)
  {
    if sep == "" then Explode(s) else SplitFrom(s, sep, "")
  }

  lemma {:induction false} SplitFromJoin(s: string, sep: string, current: string)
    requires sep != ""
    ensures Join(SplitFrom(s, sep, current), sep) == current + s
    decreases |s|
  {
    if |s| < |sep| {
    } else if s[..|sep|] == sep {
      var rest := SplitFrom(s[|sep|..], sep, "");
      SplitFromJoin(s[|sep|..], sep, "");
      assert ([current] + rest)[1..] == rest;
      assert s == sep + s[|sep|..];
    } else {
      SplitFromJoin(s[1..], sep, current + [s[0]]);
      assert s == [s[0]] + s[1..];
    }
  }

  lemma {:induction false} ExplodeJoin(s: string)
    ensures Join(Explode(s), "") == s
    decreases |s|
  {
    var e := Explode(s);
    if |s| > 1 {
      ExplodeJoin(s[1..]);
      assert e[0] == [s[0]] && e[1..] == Explode(s[1..]);
      calc {
        Join(e, "");
        e[0] + "" + Join(e[1..], "");
        [s[0]] + s[1..];
        s;
      }
    } else if |s| == 1 {
      assert e == [[s[0]]] && [s[0]] == s;
    }
  }

  /**
    Joining the pieces with the separator gives back the split string; a
    non-empty string, or any string split on a non-empty separator, yields at
    least one piece.
  */
  lemma SplitJoin(s: string, sep: string)
    ensures Join(Split(s, sep), sep) == s
    ensures s != "" || sep != "" ==> |Split(s, sep)| >= 1
  {
    if sep == "" {
      ExplodeJoin(s);
    } else {
      SplitFromJoin(s, sep, "");
    }
  }

  /** `sep` occurs in `s` starting at index `i`. */
  predicate OccursAt(s: string, sep: string, i: int)
  {
    0 <= i && i + |sep| <= |s| && s[i..i + |sep|] == sep
  }

  /** `strings.Contains`. */
  predicate Contains(s: string, sep: string)
  {
    exists i :: 0 <= i <= |s| - |sep| && OccursAt(s, sep, i)
  }

  /**
    Every piece `SplitFrom` yields is free of the separator, provided no
    occurrence starts inside the piece read so far: cutting at the leftmost
    occurrence each time leaves none behind.
  */
  lemma {:induction false} SplitFromPieces(s: string, sep: string, current: string)
    requires sep != ""
    requires forall i :: 0 <= i < |current| ==> !OccursAt(current + s, sep, i)
    ensures forall p :: p in SplitFrom(s, sep, current) ==> !Contains(p, sep)
    decreases |s|
  {
    var whole := current + s;
    if |s| < |sep| {
      assert SplitFrom(s, sep, current) == [whole];
      assert forall i :: !OccursAt(whole, sep, i);
    } else if s[..|sep|] == sep {
      SplitFromPieces(s[|sep|..], sep, "");
      forall i
        ensures !OccursAt(current, sep, i)
      {
        if 0 <= i && i + |sep| <= |current| {
          assert current[i..i + |sep|] == whole[i..i + |sep|];
          assert !OccursAt(whole, sep, i);
        }
      }
    } else {
      var next := current + [s[0]];
      assert next + s[1..] == whole;
      assert whole[|current|..|current| + |sep|] == s[..|sep|];
      SplitFromPieces(s[1..], sep, next);
    }
  }

  /** `strings.Split` on a non-empty separator: no piece contains the separator. */
  lemma SplitPiecesFree(s: string, sep: string)
    requires sep != ""
    ensures forall p :: p in Split(s, sep) ==> !Contains(p, sep)
  {
    SplitFromPieces(s, sep, "");
  }

  /** `strings.Split` on an empty separator: the pieces are the characters, in order. */
  lemma {:induction false} ExplodePieces(s: string)
    ensures forall i :: 0 <= i < |s| ==> Split(s, "")[i] == [s[i]]
    decreases |s|
  {
    if s != [] {
      ExplodePieces(s[1..]);
      assert Explode(s) == [[s[0]]] + Explode(s[1..]);
    }
  }

  // ---------------------------------------------------------------------------
  // Prefixes and trimming

  /** `strings.HasPrefix`. */
  predicate HasPrefix(s: string, prefix: string)
  {
    |prefix| <= |s| && s[..|prefix|] == prefix
  }

  /** `strings.TrimRight(s, "\n")`. */
  function TrimTrailingNewlines(s: string): (r: string)
    ensures |r| <= |s| && r == s[..|r|]
    ensures r == [] || r[|r| - 1] != '\n'
    ensures forall i :: |r| <= i < |s| ==> s[i] == '\n'
  {
    if |s| > 0 && s[|s| - 1] == '\n' then TrimTrailingNewlines(s[..|s| - 1]) else s
  }

  /** `strings.TrimLeft(s, "\n")`. */
  function TrimLeadingNewlines(s: string): (r: string)
    ensures |r| <= |s| && r == s[|s| - |r|..]
    ensures r == [] || r[0] != '\n'
    ensures forall i :: 0 <= i < |s| - |r| ==> s[i] == '\n'
  {
    if |s| > 0 && s[0] == '\n' then TrimLeadingNewlines(s[1..]) else s
  }

  predicate NewlinesOnly(s: string)
  {
    forall i :: 0 <= i < |s| ==> s[i] == '\n'
  }

  /** `strings.Trim(s, "\n")`. */
  function TrimNewlines(s: string): (r: string)
    ensures |r| <= |s|
    ensures r == [] || (r[0] != '\n' && r[|r| - 1] != '\n')
  {
    TrimTrailingNewlines(TrimLeadingNewlines(s))
  }

  /** The newlines `strings.TrimLeft` drops, in front of what it keeps. */
  lemma LeadingShape(s: string) returns (p: string)
    ensures NewlinesOnly(p) && s == p + TrimLeadingNewlines(s)
  {
    var l := TrimLeadingNewlines(s);
    var n := |s| - |l|;
    p := s[..n];
    forall i | 0 <= i < |p|
      ensures p[i] == '\n'
    {
      assert p[i] == s[i];
    }
    SplitAt(s, n);
  }

  /** The newlines `strings.TrimRight` drops, behind what it keeps. */
  lemma TrailingShape(l: string) returns (q: string)
    ensures NewlinesOnly(q) && l == TrimTrailingNewlines(l) + q
  {
    var r := TrimTrailingNewlines(l);
    q := l[|r|..];
    forall i | 0 <= i < |q|
      ensures q[i] == '\n'
    {
      assert q[i] == l[|r| + i];
    }
    SplitAt(l, |r|);
  }

  /** A sequence is its part before `i` followed by its part from `i`. */
  lemma SplitAt<T>(s: seq<T>, i: int)
    requires 0 <= i <= |s|
    ensures s[..i] + s[i..] == s
  {
  }

  /** A slice to the end is the whole sequence. */
  lemma WholeSlice<T>(s: seq<T>)
    ensures s[..|s|] == s
  {
  }

  lemma Regroup3(p: string, r: string, q: string)
    ensures p + (r + q) == p + r + q
  {
  }

  /** Trimming drops newlines from either end and nothing else. */
  lemma TrimDropsOnlyNewlines(s: string)
    ensures exists p, q :: NewlinesOnly(p) && NewlinesOnly(q) && s == p + TrimNewlines(s) + q
  {
    var l := TrimLeadingNewlines(s);
    var p := LeadingShape(s);
    var q := TrailingShape(l);
    var r := TrimTrailingNewlines(l);
    assert r == TrimNewlines(s);
    Regroup3(p, r, q);
    assert s == p + r + q;
  }

  /** Trimming a text between two newlines gives the text back when it neither starts nor ends with one. */
  lemma TrimFramed(body: string)
    requires body != [] && body[0] != '\n' && body[|body| - 1] != '\n'
    ensures TrimNewlines("\n" + body + "\n") == body
  {
    var s := "\n" + body + "\n";
    assert s[1..] == body + "\n";
    assert TrimLeadingNewlines(body + "\n") == body + "\n";
    assert (body + "\n")[..|body|] == body;
    assert TrimTrailingNewlines(body) == body;
  }

  // ---------------------------------------------------------------------------
  // Decimal integers

  const IntMin: int := -0x8000_0000_0000_0000
  const IntMax: int := 0x7fff_ffff_ffff_ffff

  predicate IsDigit(c: char)
  {
    '0' <= c <= '9'
  }

  predicate AllDigits(s: string)
  {
    forall i :: 0 <= i < |s| ==> IsDigit(s[i])
  }

  /** The number a string of decimal digits denotes. */
  function DigitsValue(s: string): nat
    requires AllDigits(s)
  {
    if |s| == 0 then 0 else DigitsValue(s[..|s| - 1]) * 10 + (s[|s| - 1] as int - '0' as int)
  }

  /** The decimal digits of `n`, without leading zeros. */
  function DecimalDigits(n: nat): (s: string)
    ensures |s| >= 1 && AllDigits(s) && DigitsValue(s) == n
    ensures s[0] == '0' ==> n == 0
  {
    var last := [('0' as int + n % 10) as char];
    if n < 10 then last
    else
      var front := DecimalDigits(n / 10);
      assert (front + last)[..|front|] == front;
      front + last
  }

  /** `strconv.Itoa`. */
  function Itoa(n: int): string
  {
    if n < 0 then "-" + DecimalDigits(-n) else DecimalDigits(n)
  }

  /** The digits after an optional leading sign. */
  function Unsigned(s: string): string
  {
    if |s| > 0 && (s[0] == '+' || s[0] == '-') then s[1..] else s
  }

  /** An optional sign followed by at least one decimal digit. */
  predicate IsDecimal(s: string)
  {
    |Unsigned(s)| > 0 && AllDigits(Unsigned(s))
  }

  /** The integer a decimal text denotes, of any size. */
  function SignedValue(s: string): int
    requires IsDecimal(s)
  {
    if s[0] == '-' then -(DigitsValue(Unsigned(s)) as int) else DigitsValue(Unsigned(s))
  }

  /**
    `strconv.Atoi` on a 64-bit platform: an optional sign, then at least one
    decimal digit, and the value must fit in a signed 64-bit integer.
  */
  function Atoi(s: string): (r: Option<int>)
    ensures r.Some? <==> IsDecimal(s) && IntMin <= SignedValue(s) <= IntMax
    ensures r.Some? ==> r.value == SignedValue(s)
  {
    if !IsDecimal(s) then None
    else
      var n := SignedValue(s);
      if IntMin <= n <= IntMax then Some(n) else None
  }

  /** Parsing undoes formatting for every 64-bit integer. */
  lemma AtoiItoa(n: int)
    requires IntMin <= n <= IntMax
    ensures Atoi(Itoa(n)) == Some(n)
  {
    if n < 0 {
      assert Unsigned(Itoa(n)) == DecimalDigits(-n);
    } else {
      assert Unsigned(Itoa(n)) == DecimalDigits(n);
    }
  }

  /** A value with a decimal point is not an integer. */
  lemma AtoiRejectsFraction()
    ensures Atoi("12.5") == None
  {
    assert !IsDigit("12.5"[2]);
  }
}
