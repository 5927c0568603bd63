/** The JavaScript built-ins the client and the server rely on, given
    bodies: `String.prototype.trim`, `toLowerCase`, `includes`, the order
    `localeCompare` decides, `Number(string)` and `String(integer)`. */
module JsText {
  import opened Items

  /** WhiteSpace and LineTerminator code points as ECMAScript defines them
      (the ones `trim` and `Number` strip). */
  predicate IsSpace(c: char) {
    c == '\t' || c == '\n' || c == '\U{000B}' || c == '\U{000C}' || c == '\r' ||
    c == ' ' || c == '\U{00A0}' || c == '\U{1680}' ||
    ('\U{2000}' <= c <= '\U{200A}') ||
    c == '\U{2028}' || c == '\U{2029}' || c == '\U{202F}' || c == '\U{205F}' ||
    c == '\U{3000}' || c == '\U{FEFF}'
  }

  function TrimStart(s: string): (r: string)
    ensures |r| <= |s| && r == s[|s| - |r|..]
    ensures r == [] || !IsSpace(r[0])
  {
    if s != [] && IsSpace(s[0]) then TrimStart(s[1..]) else s
  }

  /** What `TrimStart` cuts is white space. */
  lemma {:induction false} TrimStartCutsSpace(s: string)
    ensures forall k :: 0 <= k < |s| - |TrimStart(s)| ==> IsSpace(s[k])
    decreases |s|
  {
    if s != [] && IsSpace(s[0]) {
      TrimStartCutsSpace(s[1..]);
      assert forall k :: 1 <= k < |s| ==> s[k] == s[1..][k - 1];
    }
  }

  function TrimEnd(s: string): (r: string)
    ensures |r| <= |s| && r == s[..|r|]
    ensures r == [] || !IsSpace(r[|r| - 1])
  {
    if s != [] && IsSpace(s[|s| - 1]) then TrimEnd(s[..|s| - 1]) else s
  }

  /** What `TrimEnd` cuts is white space. */
  lemma {:induction false} TrimEndCutsSpace(s: string)
    ensures forall k :: |TrimEnd(s)| <= k < |s| ==> IsSpace(s[k])
    decreases |s|
  {
    if s != [] && IsSpace(s[|s| - 1]) {
      TrimEndCutsSpace(s[..|s| - 1]);
    }
  }

  /** Neither the first nor the last character is white space. */
  predicate Trimmed(s: string) {
    s == [] || (!IsSpace(s[0]) && !IsSpace(s[|s| - 1]))
  }

  /** `s.trim()`: what it returns has no white space at either end. */
  function Trim(s: string): (r: string)
    ensures Trimmed(r)
  {
    var u := TrimStart(s);
    var t := TrimEnd(u);
    assert t != [] ==> t[0] == u[0];
    t
  }

  /** A string with no white space at either end is its own trim. */
  lemma TrimOfTrimmed(s: string)
    requires Trimmed(s)
    ensures Trim(s) == s
  {
  }

  /** `r` is the slice of `s` starting at `a`, and everything of `s`
      outside that slice is white space. */
  predicate SpaceAround(s: string, a: int, r: string) {
    && 0 <= a && a + |r| <= |s|
    && r == s[a..a + |r|]
    && (forall k :: 0 <= k < a ==> IsSpace(s[k]))
    && (forall k :: a + |r| <= k < |s| ==> IsSpace(s[k]))
  }

  /** `trim` cuts white space only: what it returns is a slice of `s`, and
      every character outside that slice is white space. */
  lemma TrimSlice(s: string)
    ensures SpaceAround(s, |s| - |TrimStart(s)|, Trim(s))
  {
    var u := TrimStart(s);
    var r := TrimEnd(u);
    TrimStartCutsSpace(s);
    TrimEndCutsSpace(u);
    SliceOfSuffix(s, u, r);
    assert Trim(s) == r;
  }

  /** White space cut from the start of `s`, leaving `u`, then from the end
      of `u`, leaving `r`, surrounds `r` in `s`. */
  lemma SliceOfSuffix(s: string, u: string, r: string)
    requires |u| <= |s| && u == s[|s| - |u|..]
    requires forall k :: 0 <= k < |s| - |u| ==> IsSpace(s[k])
    requires |r| <= |u| && r == u[..|r|]
    requires forall k :: |r| <= k < |u| ==> IsSpace(u[k])
    ensures SpaceAround(s, |s| - |u|, r)
  {
    var a := |s| - |u|;
    forall k | a + |r| <= k < |s|
      ensures IsSpace(s[k])
    {
      assert s[k] == u[k - a];
    }
  }

  /** `toLowerCase`, on the Latin capital letters A to Z. */
  function LowerChar(c: char): char {
    if 'A' <= c <= 'Z' then (c as int + 32) as char else c
  }

  function Lower(s: string): (r: string)
    ensures |r| == |s|
    ensures forall k :: 0 <= k < |s| ==> r[k] == LowerChar(s[k])
  {
    if s == [] then [] else [LowerChar(s[0])] + Lower(s[1..])
  }

  /** `s.includes(q)`: `q` occurs in `s` as a contiguous piece. */
  predicate Includes(s: string, q: string)
    decreases |s|
  {
    q <= s || (s != [] && Includes(s[1..], q))
  }

  /** `q` occurs in `s` starting at index `k`. */
  predicate OccursAt(s: string, q: string, k: nat) {
    k + |q| <= |s| && s[k..k + |q|] == q
  }

  lemma IncludesIff(s: string, q: string)
    ensures Includes(s, q) <==> exists k: nat :: OccursAt(s, q, k)
  {
    if Includes(s, q) {
      IncludesOccurs(s, q);
    }
    if exists k: nat :: OccursAt(s, q, k) {
      var k: nat :| OccursAt(s, q, k);
      OccursIncludes(s, q, k);
    }
  }

  lemma {:induction false} IncludesOccurs(s: string, q: string)
    requires Includes(s, q)
    ensures exists k: nat :: OccursAt(s, q, k)
    decreases |s|
  {
    if q <= s {
      assert s[0..|q|] == q;
      assert OccursAt(s, q, 0);
    } else {
      IncludesOccurs(s[1..], q);
      var k: nat :| OccursAt(s[1..], q, k);
      assert s[1..][k..k + |q|] == s[k + 1..k + 1 + |q|];
      assert OccursAt(s, q, k + 1);
    }
  }

  lemma {:induction false} OccursIncludes(s: string, q: string, k: nat)
    requires OccursAt(s, q, k)
    ensures Includes(s, q)
    decreases k
  {
    if k == 0 {
      assert s[..|q|] == q;
    } else {
      assert s[1..][k - 1..k - 1 + |q|] == s[k..k + |q|];
      OccursIncludes(s[1..], q, k - 1);
    }
  }

  /** Every string includes the empty string. */
  lemma IncludesEmpty(s: string)
    ensures Includes(s, "")
  {
  }

  /** The strict lexicographic order on code points that `localeCompare`
      stands for here. */
  predicate LexLess(a: string, b: string)
    decreases |a|
  {
    if a == [] then b != []
    else if b == [] then false
    else if a[0] == b[0] then LexLess(a[1..], b[1..])
    else a[0] < b[0]
  }

  lemma {:induction false} LexLessIrreflexive(a: string)
    ensures !LexLess(a, a)
    decreases |a|
  {
    if a != [] {
      LexLessIrreflexive(a[1..]);
    }
  }

  lemma {:induction false} LexLessTransitive(a: string, b: string, c: string)
    requires LexLess(a, b) && LexLess(b, c)
    ensures LexLess(a, c)
    decreases |a|
  {
    if a != [] && a[0] == b[0] && b[0] == c[0] {
      LexLessTransitive(a[1..], b[1..], c[1..]);
    }
  }

  lemma {:induction false} LexLessTotal(a: string, b: string)
    ensures a == b || LexLess(a, b) || LexLess(b, a)
    decreases |a|
  {
    if a != [] && b != [] && a[0] == b[0] {
      LexLessTotal(a[1..], b[1..]);
      if a[1..] == b[1..] {
        assert a == [a[0]] + a[1..] && b == [b[0]] + b[1..];
      }
    }
  }

  /** Two strings are never each below the other. */
  lemma LexLessAsymmetric(a: string, b: string)
    requires LexLess(a, b)
    ensures !LexLess(b, a)
  {
    if LexLess(b, a) {
      LexLessTransitive(a, b, a);
      LexLessIrreflexive(a);
    }
  }

  // Decimal numbers.

  predicate IsDigit(c: char) {
    '0' <= c <= '9'
  }

  function DigitChar(d: nat): char
    requires d < 10
  {
    ('0' as int + d) as char
  }

  /** The value of a digit character. */
  function Digit(c: char): int {
    c as int - '0' as int
  }

  /** Reads the integer part of an unsigned decimal literal: `w` is the
      value of the digits read so far and `seen` whether there was one. */
  function Whole(t: string, w: int, seen: bool): Num
    decreases |t|
  {
    if t == [] then (if seen then Finite(w as real) else NonFinite)
    else if IsDigit(t[0]) then Whole(t[1..], w * 10 + Digit(t[0]), true)
    else if t[0] == '.' then Fraction(t[1..], w as real, 0.1, seen)
    else NonFinite
  }

  /** Reads the digits after the decimal point: `v` is the value so far and
      `unit` the weight of the next digit. */
  function Fraction(t: string, v: real, unit: real, seen: bool): Num
    decreases |t|
  {
    if t == [] then (if seen then Finite(v) else NonFinite)
    else if IsDigit(t[0]) then Fraction(t[1..], v + Digit(t[0]) as real * unit, unit / 10.0, true)
    else NonFinite
  }

  /** An unsigned decimal literal (`12`, `12.5`, `12.`, `.5`) or `Infinity`;
      everything else is NaN. */
  function Unsigned(t: string): Num {
    if t == "Infinity" then NonFinite else Whole(t, 0, false)
  }

  function Negate(n: Num): Num {
    match n
    case Finite(v) => Finite(-v)
    case NonFinite => NonFinite
  }

  /** `Number(s)` for a string: white space around is ignored (it is cut
      one character at a time, from the left and then from the right), the
      empty string is 0, an optional sign precedes an unsigned literal. */
  function ToNumber(s: string): Num
    decreases |s|
  {
    if s != [] && IsSpace(s[0]) then ToNumber(s[1..])
    else if s != [] && IsSpace(s[|s| - 1]) then ToNumber(s[..|s| - 1])
    else if s == [] then Finite(0.0)
    else if s[0] == '-' then Negate(Unsigned(s[1..]))
    else if s[0] == '+' then Unsigned(s[1..])
    else Unsigned(s)
  }

  /** `String(n)` for a natural number: its decimal digits. */
  function NatToString(n: nat): (r: string)
    ensures |r| > 0 && IsDigit(r[0]) && IsDigit(r[|r| - 1])
  {
    if n < 10 then [DigitChar(n)] else NatToString(n / 10) + [DigitChar(n % 10)]
  }

  /** `String(i)` for an integer. */
  function IntToString(i: int): (r: string)
  {
    if i < 0 then "-" + NatToString(-i) else NatToString(i)
  }

  /** Reading the digits of `n` adds `n` to an integer part of 0 and goes on
      with what follows. */
  lemma {:induction false} WholeOfNatToString(n: nat, rest: string, seen: bool)
    ensures Whole(NatToString(n) + rest, 0, seen) == Whole(rest, n, true)
  {
    var c := DigitChar(n % 10);
    if n < 10 {
      assert (NatToString(n) + rest)[1..] == rest;
    } else {
      var d := NatToString(n / 10);
      assert NatToString(n) + rest == d + ([c] + rest);
      WholeOfNatToString(n / 10, [c] + rest, seen);
      assert ([c] + rest)[1..] == rest;
    }
  }

  lemma UnsignedOfNatToString(n: nat)
    ensures Unsigned(NatToString(n)) == Finite(n as real)
  {
    var d := NatToString(n);
    assert d != "Infinity" by {
      assert !IsDigit("Infinity"[0]);
    }
    WholeOfNatToString(n, [], false);
    assert d + [] == d;
  }

  /** `String(i)` is never empty and has no white space to trim. */
  lemma IntToStringTrimmed(i: int)
    ensures IntToString(i) != [] && Trimmed(IntToString(i))
  {
    var s := IntToString(i);
    if i < 0 {
      var d := NatToString(-i);
      assert s == "-" + d;
      assert s[|s| - 1] == d[|d| - 1];
    }
  }

  /** `Number(String(i)) == i`: rendering an integer and reading it back
      gives it again. */
  lemma ToNumberOfIntToString(i: int)
    ensures ToNumber(IntToString(i)) == Finite(i as real)
  {
    var s := IntToString(i);
    IntToStringTrimmed(i);
    if i < 0 {
      var d := NatToString(-i);
      assert s == "-" + d && s[1..] == d;
      UnsignedOfNatToString(-i);
    } else {
      UnsignedOfNatToString(i);
    }
  }
}
