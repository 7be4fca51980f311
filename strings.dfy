/**
 * The pieces of Python's `str` behaviour the model relies on: `split`, `join`,
 * `replace`, `startswith`, `strip`, `int()` on decimal text, `"%d"` formatting and
 * the code-point ordering that `sorted()` uses on strings.
 */
module Strings {
  import opened Wrappers

  // ---------------------------------------------------------------- search

  /** Index of the first occurrence of `c` in `s`. */
  function IndexOf(s: string, c: char): (i: nat)
    requires c in s
    ensures i < |s| && s[i] == c && c !in s[..i]
  {
    if s[0] == c then 0 else 1 + IndexOf(s[1..], c)
  }

  predicate StartsWith(s: string, prefix: string) {
    |prefix| <= |s| && s[..|prefix|] == prefix
  }

  // ---------------------------------------------------------------- split / join

  /** `sep.join(parts)`. */
  function Join(parts: seq<string>, sep: string): string {
    if |parts| == 0 then ""
    else if |parts| == 1 then parts[0]
    else parts[0] + sep + Join(parts[1..], sep)
  }

  /**
   * `s.split(sep)` for a one-character separator: at least one piece, no piece
   * holds the separator, and joining the pieces back gives `s`.
   */
  function Split(s: string, sep: char): (r: seq<string>)
    ensures |r| >= 1
    ensures forall i :: 0 <= i < |r| ==> sep !in r[i]
    ensures Join(r, [sep]) == s
    decreases |s|
  {
    if sep !in s then [s]
    else
      var i := IndexOf(s, sep);
      var rest := Split(s[i + 1..], sep);
      assert s == s[..i] + [sep] + s[i + 1..];
      [s[..i]] + rest
  }

  lemma {:induction false} SplitNoSep(s: string, sep: char)
    requires sep !in s
    ensures Split(s, sep) == [s]
  {
  }

  /** The first piece of a split ends at the first separator. */
  lemma SplitCons(a: string, rest: string, sep: char)
    requires sep !in a
    ensures Split(a + [sep] + rest, sep) == [a] + Split(rest, sep)
  {
    var s := a + [sep] + rest;
    SplitFirstUnique(s, sep, a, rest);
  }

  /** Splitting joined separator-free pieces gives the pieces back. */
  lemma {:induction false} SplitJoin(parts: seq<string>, sep: char)
    requires |parts| > 0
    requires forall i :: 0 <= i < |parts| ==> sep !in parts[i]
    ensures Split(Join(parts, [sep]), sep) == parts
  {
    if |parts| == 1 {
      SplitNoSep(parts[0], sep);
    } else {
      SplitJoin(parts[1..], sep);
      SplitCons(parts[0], Join(parts[1..], [sep]), sep);
      assert parts[0] + [sep] + Join(parts[1..], [sep]) == Join(parts, [sep]);
      assert [parts[0]] + parts[1..] == parts;
    }
  }

  /** Joining one more piece appends the separator and the piece. */
  lemma {:induction false} JoinAppend(parts: seq<string>, x: string, sep: string)
    requires |parts| > 0
    ensures Join(parts + [x], sep) == Join(parts, sep) + sep + x
    decreases |parts|
  {
    if |parts| == 1 {
      assert parts + [x] == [parts[0], x];
    } else {
      JoinAppend(parts[1..], x, sep);
      assert (parts + [x])[1..] == parts[1..] + [x];
    }
  }

  /** A separator-free last piece is split off as the last element. */
  lemma SplitAppendLast(a: string, x: string, sep: char)
    requires sep !in x
    ensures Split(a + [sep] + x, sep) == Split(a, sep) + [x]
  {
    var parts := Split(a, sep);
    JoinAppend(parts, x, [sep]);
    SplitJoin(parts + [x], sep);
  }

  /** Splitting "a<sep>b", where neither half holds the separator, gives the two halves. */
  lemma SplitTwo(a: string, b: string, sep: char)
    requires sep !in a && sep !in b
    ensures Split(a + [sep] + b, sep) == [a, b]
  {
    var s := a + [sep] + b;
    SplitFirstUnique(s, sep, a, b);
    SplitNoSep(b, sep);
  }

  /** `x in t` for strings: `x` occurs in `t` as a contiguous piece. */
  predicate IsInfix(x: string, t: string)
    decreases |t|
  {
    StartsWith(t, x) || (|t| > 0 && IsInfix(x, t[1..]))
  }

  lemma {:induction false} InfixAfter(pre: string, x: string, t: string)
    requires IsInfix(x, t)
    ensures IsInfix(x, pre + t)
    decreases |pre|
  {
    if pre != [] {
      InfixAfter(pre[1..], x, t);
      assert (pre + t)[1..] == pre[1..] + t;
    } else {
      assert pre + t == t;
    }
  }

  lemma {:induction false} InfixBefore(x: string, t: string, post: string)
    requires IsInfix(x, t)
    ensures IsInfix(x, t + post)
    decreases |t|
  {
    if StartsWith(t, x) {
      assert (t + post)[..|x|] == t[..|x|];
    } else {
      InfixBefore(x, t[1..], post);
      assert (t + post)[1..] == t[1..] + post;
    }
  }

  /** Every part occurs in the joined text. */
  lemma {:induction false} JoinContains(parts: seq<string>, sep: string, i: nat)
    requires i < |parts|
    ensures IsInfix(parts[i], Join(parts, sep))
  {
    if i == 0 {
      assert StartsWith(parts[0], parts[0]);
      if |parts| > 1 {
        InfixBefore(parts[0], parts[0], sep + Join(parts[1..], sep));
        assert parts[0] + (sep + Join(parts[1..], sep)) == Join(parts, sep);
      }
    } else {
      JoinContains(parts[1..], sep, i - 1);
      InfixAfter(parts[0] + sep, parts[i], Join(parts[1..], sep));
    }
  }

  /** `s.split(sep, 1)` when `sep` occurs in `s`: the text before and after its first occurrence. */
  function SplitFirst(s: string, sep: char): (r: (string, string))
    requires sep in s
    ensures s == r.0 + [sep] + r.1
    ensures sep !in r.0
  {
    var i := IndexOf(s, sep);
    assert s == s[..i] + [sep] + s[i + 1..];
    (s[..i], s[i + 1..])
  }

  /** The pieces of `s.split(sep, 1)`: one piece without `sep`, two with it. */
  lemma SplitFirstUnique(s: string, sep: char, a: string, b: string)
    requires s == a + [sep] + b && sep !in a
    ensures sep in s && SplitFirst(s, sep) == (a, b)
  {
    assert s[|a|] == sep;
    var i := IndexOf(s, sep);
    assert i == |a|;
    assert s[..i] == a;
    assert s[i + 1..] == b;
  }

  // ---------------------------------------------------------------- strip

  /** `s.rstrip(c)`. */
  function StripTrailing(s: string, c: char): (r: string)
    ensures |r| == 0 || r[|r| - 1] != c
    ensures StartsWith(s, r)
    ensures forall i :: |r| <= i < |s| ==> s[i] == c
    decreases |s|
  {
    if |s| > 0 && s[|s| - 1] == c then StripTrailing(s[..|s| - 1], c) else s
  }

  /** `s.lstrip(c)`. */
  function StripLeading(s: string, c: char): (r: string)
    ensures |r| == 0 || r[0] != c
    ensures |r| <= |s| && s[|s| - |r|..] == r
    ensures forall i :: 0 <= i < |s| - |r| ==> s[i] == c
    decreases |s|
  {
    if |s| > 0 && s[0] == c then StripLeading(s[1..], c) else s
  }

  // ---------------------------------------------------------------- replace

  /**
   * `s.replace(p, r)`: every non-overlapping occurrence of `p`, scanning from the
   * left, becomes `r`; an empty `p` puts `r` before every character and at the end.
   */
  function Replace(s: string, p: string, r: string): string
    decreases |s|
  {
    if |p| == 0 then (if s == [] then r else r + [s[0]] + Replace(s[1..], p, r))
    else if |s| < |p| then s
    else if s[..|p|] == p then r + Replace(s[|p|..], p, r)
    else [s[0]] + Replace(s[1..], p, r)
  }

  /** ASCII lower-casing of one character. */
  function LowerChar(c: char): char {
    if 'A' <= c <= 'Z' then (c as int + 32) as char else c
  }

  function Lower(s: string): (r: string)
    ensures |r| == |s|
    ensures forall i :: 0 <= i < |s| ==> r[i] == LowerChar(s[i])
  {
    seq(|s|, i requires 0 <= i < |s| => LowerChar(s[i]))
  }

  /**
   * `re.sub("(?i)" + p, r, s)` for a literal, non-empty pattern `p`: like `Replace`,
   * with occurrences matched regardless of ASCII case.
   */
  function ReplaceIgnoreCase(s: string, p: string, r: string): string
    requires |p| > 0
    decreases |s|
  {
    if |s| < |p| then s
    else if Lower(s[..|p|]) == Lower(p) then r + ReplaceIgnoreCase(s[|p|..], p, r)
    else [s[0]] + ReplaceIgnoreCase(s[1..], p, r)
  }

  /** A character absent from the input and from the replacement is absent from the output. */
  lemma {:induction false} ReplaceKeepsAbsent(s: string, p: string, r: string, d: char)
    requires d !in s && d !in r
    ensures d !in Replace(s, p, r)
    decreases |s|
  {
    if |p| == 0 {
      if s != [] { ReplaceKeepsAbsent(s[1..], p, r, d); }
    } else if |s| < |p| {
    } else if s[..|p|] == p {
      ReplaceKeepsAbsent(s[|p|..], p, r, d);
    } else {
      ReplaceKeepsAbsent(s[1..], p, r, d);
    }
  }

  /** Replacing a one-character pattern by text without it removes that character. */
  lemma {:induction false} ReplaceRemovesChar(s: string, c: char, r: string)
    requires c !in r
    ensures c !in Replace(s, [c], r)
    decreases |s|
  {
    if |s| < 1 {
    } else if s[..1] == [c] {
      ReplaceRemovesChar(s[1..], c, r);
    } else {
      assert s[0] != c;
      ReplaceRemovesChar(s[1..], c, r);
    }
  }

  lemma {:induction false} ReplaceIgnoreCaseKeepsAbsent(s: string, p: string, r: string, d: char)
    requires |p| > 0 && d !in s && d !in r
    ensures d !in ReplaceIgnoreCase(s, p, r)
    decreases |s|
  {
    if |s| < |p| {
    } else if Lower(s[..|p|]) == Lower(p) {
      ReplaceIgnoreCaseKeepsAbsent(s[|p|..], p, r, d);
    } else {
      ReplaceIgnoreCaseKeepsAbsent(s[1..], p, r, d);
    }
  }

  /** Text lacking some character of the pattern holds no occurrence and is returned unchanged. */
  lemma {:induction false} ReplaceWithoutOccurrence(s: string, p: string, r: string, k: nat)
    requires k < |p| && p[k] !in s
    ensures Replace(s, p, r) == s
    decreases |s|
  {
    if |s| >= |p| {
      assert s[..|p|][k] == s[k];
      ReplaceWithoutOccurrence(s[1..], p, r, k);
      assert [s[0]] + s[1..] == s;
    }
  }

  /** Replacing the one character that ends the text, and occurs nowhere else. */
  lemma {:induction false} ReplaceLastChar(a: string, c: char, r: string)
    requires c !in a
    ensures Replace(a + [c], [c], r) == a + r
    decreases |a|
  {
    var s := a + [c];
    if a == [] {
      assert s[..1] == [c] && s[1..] == [];
      assert Replace(s, [c], r) == r + Replace([], [c], r);
    } else {
      var rest := a[1..] + [c];
      assert s[..1] == [a[0]] && s[..1] != [c];
      assert s[1..] == rest;
      assert Replace(s, [c], r) == [s[0]] + Replace(rest, [c], r);
      assert c !in a[1..];
      ReplaceLastChar(a[1..], c, r);
      assert [a[0]] + a[1..] == a;
    }
  }

  /** Text in which no character matches the pattern's first one, case aside, is returned unchanged. */
  lemma {:induction false} ReplaceIgnoreCaseWithoutOccurrence(s: string, p: string, r: string)
    requires |p| > 0
    requires forall i :: 0 <= i < |s| ==> LowerChar(s[i]) != LowerChar(p[0])
    ensures ReplaceIgnoreCase(s, p, r) == s
    decreases |s|
  {
    if |s| >= |p| {
      assert Lower(s[..|p|])[0] != Lower(p)[0];
      ReplaceIgnoreCaseWithoutOccurrence(s[1..], p, r);
      assert [s[0]] + s[1..] == s;
    }
  }

  // ---------------------------------------------------------------- integers

  predicate IsDigit(c: char) { '0' <= c <= '9' }

  predicate AllDigits(s: string) { forall i :: 0 <= i < |s| ==> IsDigit(s[i]) }

  /** The value of a string of decimal digits. */
  function DigitsValue(s: string): nat
    requires AllDigits(s)
  {
    if s == [] then 0
    else DigitsValue(s[..|s| - 1]) * 10 + (s[|s| - 1] as int - '0' as int)
  }

  /**
   * Python's `int(s)` on decimal text: an optional `+` or `-` followed by at least one
   * ASCII digit; anything else raises ValueError, modelled as `None`.
   */
  function ParseInt(s: string): (r: Option<int>)
    ensures s == [] ==> r == None
    ensures r.Some? ==> (AllDigits(s) && |s| > 0) || (|s| > 1 && s[0] in "+-" && AllDigits(s[1..]))
  {
    if |s| > 1 && s[0] == '-' && AllDigits(s[1..]) then Some(-(DigitsValue(s[1..]) as int))
    else if |s| > 1 && s[0] == '+' && AllDigits(s[1..]) then Some(DigitsValue(s[1..]))
    else if |s| > 0 && AllDigits(s) then Some(DigitsValue(s))
    else None
  }

  function DigitChar(d: nat): (c: char)
    requires d < 10
    ensures IsDigit(c) && c as int - '0' as int == d
  {
    ('0' as int + d) as char
  }

  /** `"%d" % n` for a non-negative `n`. */
  function NatToString(n: nat): (s: string)
    ensures |s| > 0 && AllDigits(s)
    ensures forall c :: c in s ==> IsDigit(c)
  {
    if n < 10 then [DigitChar(n)] else NatToString(n / 10) + [DigitChar(n % 10)]
  }

  /** Formatting a number and reading it back gives the number. */
  lemma {:induction false} NatToStringValue(n: nat)
    ensures DigitsValue(NatToString(n)) == n
  {
    var s := NatToString(n);
    if n >= 10 {
      NatToStringValue(n / 10);
      assert s[..|s| - 1] == NatToString(n / 10);
    } else {
      assert s[..|s| - 1] == [];
    }
  }

  lemma ParseNatToString(n: nat)
    ensures ParseInt(NatToString(n)) == Some(n)
  {
    NatToStringValue(n);
  }

  /** `"%d" % n` for any integer. */
  function IntToString(n: int): (s: string)
    ensures |s| > 0 && forall c :: c in s ==> IsDigit(c) || c == '-'
  {
    if n < 0 then "-" + NatToString(-n) else NatToString(n)
  }

  lemma ParseIntToString(n: int)
    ensures ParseInt(IntToString(n)) == Some(n)
  {
    if n < 0 {
      var d := NatToString(-n);
      NatToStringValue(-n);
      assert ("-" + d)[1..] == d;
    } else {
      ParseNatToString(n);
    }
  }

  // ---------------------------------------------------------------- ordering

  /** Python's `<=` on strings: lexicographic by code point, a prefix first. */
  predicate StrLe(a: string, b: string)
    decreases |a|
  {
    if a == [] then true
    else if b == [] then false
    else if a[0] != b[0] then a[0] < b[0]
    else StrLe(a[1..], b[1..])
  }

  lemma {:induction false} StrLeTotal(a: string, b: string)
    ensures StrLe(a, b) || StrLe(b, a)
    decreases |a|
  {
    if a != [] && b != [] && a[0] == b[0] { StrLeTotal(a[1..], b[1..]); }
  }

  lemma {:induction false} StrLeAntisymmetric(a: string, b: string)
    requires StrLe(a, b) && StrLe(b, a)
    ensures a == b
    decreases |a|
  {
    if a != [] {
      StrLeAntisymmetric(a[1..], b[1..]);
      assert a == [a[0]] + a[1..] && b == [b[0]] + b[1..];
    }
  }

  lemma {:induction false} StrLeTransitive(a: string, b: string, c: string)
    requires StrLe(a, b) && StrLe(b, c)
    ensures StrLe(a, c)
    decreases |a|
  {
    if a != [] && b != [] && c != [] && a[0] == b[0] && b[0] == c[0] {
      StrLeTransitive(a[1..], b[1..], c[1..]);
    }
  }

  predicate IsLeast(m: string, s: set<string>) {
    m in s && forall x :: x in s ==> StrLe(m, x)
  }

  lemma {:induction false} LeastExists(s: set<string>)
    requires s != {}
    ensures exists m :: IsLeast(m, s)
    decreases |s|
  {
    var x :| x in s;
    if s - {x} == {} {
      assert s == {x};
      StrLeTotal(x, x);
      assert IsLeast(x, s);
    } else {
      LeastExists(s - {x});
      var m :| IsLeast(m, s - {x});
      StrLeTotal(m, x);
      if StrLe(m, x) {
        assert IsLeast(m, s);
      } else {
        forall y | y in s ensures StrLe(x, y) {
          if y != x { StrLeTransitive(x, m, y); } else { StrLeTotal(x, x); }
        }
        assert IsLeast(x, s);
      }
    }
  }

  lemma LeastUnique(s: set<string>)
    ensures forall a, b :: IsLeast(a, s) && IsLeast(b, s) ==> a == b
  {
    forall a, b | IsLeast(a, s) && IsLeast(b, s) ensures a == b {
      StrLeAntisymmetric(a, b);
    }
  }

  predicate StrictlySorted(r: seq<string>) {
    forall i, j :: 0 <= i < j < |r| ==> StrLe(r[i], r[j]) && r[i] != r[j]
  }

  /** `sorted(s)` for a set of strings: its elements, each once, in increasing order. */
  function Sorted(s: set<string>): (r: seq<string>)
    ensures |r| == |s|
    ensures forall x :: x in s <==> x in r
    ensures StrictlySorted(r)
    decreases |s|
  {
    if s == {} then []
    else
      LeastExists(s);
      LeastUnique(s);
      var m :| IsLeast(m, s);
      var rest := Sorted(s - {m});
      SortedCons(m, s, rest);
      [m] + rest
  }

  /** The least element followed by the rest, sorted, is the whole set sorted. */
  lemma SortedCons(m: string, s: set<string>, rest: seq<string>)
    requires IsLeast(m, s)
    requires |rest| == |s - {m}| && (forall x :: x in s - {m} <==> x in rest) && StrictlySorted(rest)
    ensures |[m] + rest| == |s| && (forall x :: x in s <==> x in [m] + rest) && StrictlySorted([m] + rest)
  {
    var r := [m] + rest;
    forall j | 0 <= j < |rest| ensures StrLe(m, rest[j]) && m != rest[j] {
      assert rest[j] in rest;
    }
    forall i, j | 0 <= i < j < |r| ensures StrLe(r[i], r[j]) && r[i] != r[j] {
      if i > 0 {
        assert r[i] == rest[i - 1] && r[j] == rest[j - 1];
      } else {
        assert r[j] == rest[j - 1];
      }
    }
    assert forall x :: x in r <==> x == m || x in rest;
  }

  /** A common prefix does not change the order. */
  lemma {:induction false} StrLeCommonPrefix(p: string, a: string, b: string)
    requires StrLe(a, b)
    ensures StrLe(p + a, p + b)
    decreases |p|
  {
    if p != [] {
      StrLeCommonPrefix(p[1..], a, b);
      assert (p + a)[0] == p[0] == (p + b)[0];
      assert (p + a)[1..] == p[1..] + a && (p + b)[1..] == p[1..] + b;
    } else {
      assert p + a == a && p + b == b;
    }
  }

  /** `sorted({a, b})` for two different strings with `a <= b`. */
  lemma SortedPair(a: string, b: string)
    requires StrLe(a, b) && a != b
    ensures Sorted({a, b}) == [a, b]
  {
    var r := Sorted({a, b});
    assert r[0] in {a, b} && r[1] in {a, b};
    if r[0] == b {
      StrLeAntisymmetric(a, b);
    }
  }
}
