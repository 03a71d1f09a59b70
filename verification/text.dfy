/** String helpers with the meaning of the Python built-ins the source uses:
    `str.join`, `str.split`, `str.upper`, `str.lower`, `str(n)`. */
module Text {
  import opened Wrappers

  /** Python truthiness of an optional string: present and non-empty. */
  predicate Truthy(o: Option<string>)
  {
    o.Some? && o.value != ""
  }

  /** `s` begins with `prefix`. */
  predicate StartsWith(s: string, prefix: string)
  {
    |prefix| <= |s| && s[..|prefix|] == prefix
  }

  /** `s` ends with `suffix`. */
  predicate EndsWith(s: string, suffix: string)
  {
    |suffix| <= |s| && s[|s| - |suffix|..] == suffix
  }

  /** The character `c` does not occur in `s`. */
  predicate Lacks(s: string, c: char)
  {
    forall i | 0 <= i < |s| :: s[i] != c
  }

  /** Sum of the lengths of `parts`. */
  function TotalLength(parts: seq<string>): nat
  {
    if |parts| == 0 then 0 else |parts[0]| + TotalLength(parts[1..])
  }

  /** Python's `sep.join(parts)`: the parts in order with `sep` between
      neighbours. */
  function Join(sep: string, parts: seq<string>): (r: string)
    ensures |parts| == 0 ==> r == ""
    ensures |parts| > 0 ==> |r| == TotalLength(parts) + (|parts| - 1) * |sep|
    ensures |parts| > 0 ==> StartsWith(r, parts[0])
  {
    if |parts| == 0 then ""
    else if |parts| == 1 then parts[0]
    else parts[0] + sep + Join(sep, parts[1..])
  }

  /** Python's `s.split(sep)` for a non-empty separator: the maximal pieces of
      `s` between left-to-right, non-overlapping occurrences of `sep`.
      There is always at least one piece (`"".split(sep) == [""]`). */
  function Split(s: string, sep: string): (r: seq<string>)
    requires |sep| > 0
    ensures |r| >= 1
    decreases |s|
  {
    if |s| == 0 then [""]
    else if StartsWith(s, sep) then [""] + Split(s[|sep|..], sep)
    else
      var rest := Split(s[1..], sep);
      [[s[0]] + rest[0]] + rest[1..]
  }

  /** No occurrence of `sep` starts inside `p` when `p` is followed by `sep`:
      `p` can stand as one piece of a `sep`-joined string. */
  predicate Separable(p: string, sep: string)
  {
    forall i | 0 <= i < |p| :: !StartsWith((p + sep)[i..], sep)
  }

  /** A piece that lacks the separator's first character is separable. */
  lemma LacksFirstSeparable(p: string, sep: string)
    requires |sep| > 0 && Lacks(p, sep[0])
    ensures Separable(p, sep)
  {
    forall i | 0 <= i < |p|
      ensures !StartsWith((p + sep)[i..], sep)
    {
      assert (p + sep)[i..][0] == p[i];
    }
  }

  /** Whatever follows a separable piece (nothing, or the separator and more),
      no separator starts inside the piece. */
  lemma SeparableInContext(p: string, sep: string, t: string)
    requires |sep| > 0 && Separable(p, sep)
    requires t == "" || StartsWith(t, sep)
    ensures forall i | 0 <= i < |p| :: !StartsWith((p + t)[i..], sep)
  {
    forall i | 0 <= i < |p|
      ensures !StartsWith((p + t)[i..], sep)
    {
      var a, b := (p + t)[i..], (p + sep)[i..];
      assert !StartsWith(b, sep);
      if |sep| <= |a| {
        forall j | 0 <= j < |sep|
          ensures a[j] == b[j]
        {
          if i + j < |p| {
            assert a[j] == p[i + j] == b[j];
          } else {
            assert a[j] == t[i + j - |p|] == sep[i + j - |p|] == b[j];
          }
        }
        assert a[..|sep|] == b[..|sep|];
      }
    }
  }

  /** Splitting a string that begins with a piece containing no separator
      start glues that piece onto the first piece of the rest. */
  lemma {:induction false} SplitPiece(p: string, t: string, sep: string)
    requires |sep| > 0
    requires forall i | 0 <= i < |p| :: !StartsWith((p + t)[i..], sep)
    ensures Split(p + t, sep) == [p + Split(t, sep)[0]] + Split(t, sep)[1..]
    decreases |p|
  {
    if |p| == 0 {
      assert p + t == t;
      assert p + Split(t, sep)[0] == Split(t, sep)[0];
      assert [Split(t, sep)[0]] + Split(t, sep)[1..] == Split(t, sep);
    } else {
      var s := p + t;
      assert s[0..] == s;
      assert !StartsWith(s, sep);
      assert s[1..] == p[1..] + t;
      forall i | 0 <= i < |p[1..]|
        ensures !StartsWith((p[1..] + t)[i..], sep)
      {
        assert (p[1..] + t)[i..] == (p + t)[i + 1..];
      }
      SplitPiece(p[1..], t, sep);
      assert [s[0]] + (p[1..] + Split(t, sep)[0]) == p + Split(t, sep)[0];
    }
  }

  /** Splitting right after a separator yields an empty first piece. */
  lemma SplitAfterSeparator(sep: string, t: string)
    requires |sep| > 0
    ensures Split(sep + t, sep) == [""] + Split(t, sep)
  {
    var s := sep + t;
    assert s[..|sep|] == sep;
    assert s[|sep|..] == t;
  }

  /** Round trip: splitting a join of separable pieces gives the pieces back. */
  lemma {:induction false} SplitJoin(parts: seq<string>, sep: string)
    requires |sep| > 0 && |parts| >= 1
    requires forall i | 0 <= i < |parts| :: Separable(parts[i], sep)
    ensures Split(Join(sep, parts), sep) == parts
    decreases |parts|
  {
    var p := parts[0];
    assert Separable(p, sep);
    if |parts| == 1 {
      SeparableInContext(p, sep, "");
      SplitPiece(p, "", sep);
      assert p + "" == p;
    } else {
      var rest := Join(sep, parts[1..]);
      assert StartsWith(sep + rest, sep) by {
        assert (sep + rest)[..|sep|] == sep;
      }
      SeparableInContext(p, sep, sep + rest);
      assert Join(sep, parts) == p + (sep + rest);
      SplitPiece(p, sep + rest, sep);
      SplitAfterSeparator(sep, rest);
      SplitJoin(parts[1..], sep);
      assert [p + ""] + parts[1..] == parts;
    }
  }

  /** Round trip for pieces that lack the separator's first character. */
  lemma SplitJoinLacking(parts: seq<string>, sep: string)
    requires |sep| > 0 && |parts| >= 1
    requires forall i | 0 <= i < |parts| :: Lacks(parts[i], sep[0])
    ensures Split(Join(sep, parts), sep) == parts
  {
    forall i | 0 <= i < |parts|
      ensures Separable(parts[i], sep)
    {
      LacksFirstSeparable(parts[i], sep);
    }
    SplitJoin(parts, sep);
  }

  /** Joining a first piece onto a non-empty rest puts one separator between. */
  lemma JoinCons(sep: string, p: string, rest: seq<string>)
    requires |rest| > 0
    ensures Join(sep, [p] + rest) == p + sep + Join(sep, rest)
  {
    assert ([p] + rest)[1..] == rest;
  }

  /** Pairs laid out one after another: first, second, first, second, ... */
  function Flatten<T>(ps: seq<(T, T)>): (r: seq<T>)
    ensures |r| == 2 * |ps|
  {
    if |ps| == 0 then [] else [ps[0].0, ps[0].1] + Flatten(ps[1..])
  }

  /** The i-th pair sits at positions 2i and 2i+1. */
  lemma {:induction false} FlattenAt<T>(ps: seq<(T, T)>, i: nat)
    requires i < |ps|
    ensures Flatten(ps)[2 * i] == ps[i].0 && Flatten(ps)[2 * i + 1] == ps[i].1
  {
    if i > 0 {
      FlattenAt(ps[1..], i - 1);
      assert ps[1..][i - 1] == ps[i];
    }
  }

  /** Laying out pairs of strings that lack `c` gives strings that lack `c`. */
  lemma {:induction false} FlattenLacks(ps: seq<(string, string)>, c: char)
    requires forall i | 0 <= i < |ps| :: Lacks(ps[i].0, c) && Lacks(ps[i].1, c)
    ensures forall j | 0 <= j < |Flatten(ps)| :: Lacks(Flatten(ps)[j], c)
  {
    if |ps| > 0 {
      var rest := Flatten(ps[1..]);
      FlattenLacks(ps[1..], c);
      assert Flatten(ps) == [ps[0].0, ps[0].1] + rest;
      forall j | 2 <= j < |Flatten(ps)|
        ensures Flatten(ps)[j] == rest[j - 2]
      {
      }
    }
  }

  lemma LacksConcat(a: string, b: string, c: char)
    ensures Lacks(a + b, c) <==> Lacks(a, c) && Lacks(b, c)
  {
    if Lacks(a, c) && Lacks(b, c) {
      forall i | 0 <= i < |a + b|
        ensures (a + b)[i] != c
      {
        if i >= |a| {
          assert (a + b)[i] == b[i - |a|];
        }
      }
    }
    if Lacks(a + b, c) {
      forall i | 0 <= i < |a|
        ensures a[i] != c
      {
        assert (a + b)[i] == a[i];
      }
      forall i | 0 <= i < |b|
        ensures b[i] != c
      {
        assert (a + b)[|a| + i] == b[i];
      }
    }
  }

  /** A join of pieces none of which contains `c` (with a separator that
      does not either) does not contain `c`. */
  lemma {:induction false} JoinLacks(sep: string, parts: seq<string>, c: char)
    requires Lacks(sep, c)
    requires forall i | 0 <= i < |parts| :: Lacks(parts[i], c)
    ensures Lacks(Join(sep, parts), c)
  {
    if |parts| > 1 {
      JoinLacks(sep, parts[1..], c);
      assert Lacks(parts[0], c);
      var r := Join(sep, parts);
      assert r == parts[0] + sep + Join(sep, parts[1..]);
      forall i | 0 <= i < |r|
        ensures r[i] != c
      {
        if i < |parts[0]| {
          assert r[i] == parts[0][i];
        } else if i < |parts[0]| + |sep| {
          assert r[i] == sep[i - |parts[0]|];
        } else {
          assert r[i] == Join(sep, parts[1..])[i - |parts[0]| - |sep|];
        }
      }
    } else if |parts| == 1 {
      assert Lacks(parts[0], c);
    }
  }

  /** Number of occurrences of `c` in `s`. */
  function Count(c: char, s: string): nat
  {
    if |s| == 0 then 0 else (if s[0] == c then 1 else 0) + Count(c, s[1..])
  }

  lemma {:induction false} CountConcat(c: char, a: string, b: string)
    ensures Count(c, a + b) == Count(c, a) + Count(c, b)
    decreases |a|
  {
    if |a| > 0 {
      assert (a + b)[1..] == a[1..] + b;
      CountConcat(c, a[1..], b);
    } else {
      assert a + b == b;
    }
  }

  /** `n` copies of the character `c` (Python's `c * n`). */
  function Repeat(c: char, n: nat): (r: string)
    ensures |r| == n && forall i | 0 <= i < n :: r[i] == c
  {
    seq(n, _ => c)
  }

  /** The one-character strings of `s`, as iterating a Python string gives. */
  function Chars(s: string): (r: seq<string>)
    ensures |r| == |s| && forall i | 0 <= i < |s| :: r[i] == [s[i]]
  {
    seq(|s|, i requires 0 <= i < |s| => [s[i]])
  }

  /** ASCII case mapping; characters outside `a`-`z` / `A`-`Z` are kept. */
  function UpperChar(c: char): char
  {
    if 'a' <= c <= 'z' then (c as int - 'a' as int + 'A' as int) as char else c
  }

  function LowerChar(c: char): char
  {
    if 'A' <= c <= 'Z' then (c as int - 'A' as int + 'a' as int) as char else c
  }

  /** Python's `s.upper()` restricted to ASCII letters. */
  function Upper(s: string): (r: string)
    ensures |r| == |s| && forall i | 0 <= i < |s| :: r[i] == UpperChar(s[i])
  {
    seq(|s|, i requires 0 <= i < |s| => UpperChar(s[i]))
  }

  /** Python's `s.lower()` restricted to ASCII letters. */
  function Lower(s: string): (r: string)
    ensures |r| == |s| && forall i | 0 <= i < |s| :: r[i] == LowerChar(s[i])
  {
    seq(|s|, i requires 0 <= i < |s| => LowerChar(s[i]))
  }

  /** Upper-casing twice is upper-casing once. */
  lemma UpperIdempotent(s: string)
    ensures Upper(Upper(s)) == Upper(s)
  {
  }

  /** The only characters that lower-case to `y` are `y` and `Y`. */
  lemma LowerCharIsY(c: char)
    ensures LowerChar(c) == 'y' <==> c == 'y' || c == 'Y'
  {
  }

  predicate IsDigit(c: char)
  {
    '0' <= c <= '9'
  }

  function DigitValue(c: char): nat
    requires IsDigit(c)
  {
    c as int - '0' as int
  }

  /** Python's `str(n)` for a natural number: its decimal digits, with no
      leading zero. */
  function NatToString(n: nat): (r: string)
    ensures |r| >= 1 && forall i | 0 <= i < |r| :: IsDigit(r[i])
    ensures |r| > 1 ==> r[0] != '0'
  {
    var d := ['0' + (n % 10) as char];
    if n < 10 then d else NatToString(n / 10) + d
  }

  /** Reads a string of decimal digits back as a number. */
  function DecimalValue(s: string): nat
    requires forall i | 0 <= i < |s| :: IsDigit(s[i])
  {
    if |s| == 0 then 0 else 10 * DecimalValue(s[..|s| - 1]) + DigitValue(s[|s| - 1])
  }

  /** Round trip: the decimal rendering reads back as the number. */
  lemma {:induction false} NatToStringValue(n: nat)
    ensures DecimalValue(NatToString(n)) == n
  {
    var r := NatToString(n);
    if n >= 10 {
      NatToStringValue(n / 10);
      assert r[..|r| - 1] == NatToString(n / 10);
    }
  }
}
