/** The few JavaScript string primitives the client relies on, over `seq<char>`:
    `String.prototype.toLowerCase` (A–Z only), `trim`, `includes` and `String(n)` for integers. */
module JsText {

  datatype Option<+T> = None | Some(value: T)

  // ---------------------------------------------------------------- lower case

  function LowerChar(c: char): (d: char)
    ensures 'A' <= c <= 'Z' ==> d as int == c as int + 32
    ensures !('A' <= c <= 'Z') ==> d == c
  {
    if 'A' <= c <= 'Z' then (c as int + 32) as char else c
  }

  function Lower(s: string): (r: string)
    ensures |r| == |s|
    ensures forall i :: 0 <= i < |s| ==> r[i] == LowerChar(s[i])
  {
    if s == [] then [] else [LowerChar(s[0])] + Lower(s[1..])
  }

  /** Lower-casing twice is lower-casing once. */
  lemma LowerIdempotent(s: string)
    ensures Lower(Lower(s)) == Lower(s)
  {
    assert forall i :: 0 <= i < |s| ==> LowerChar(LowerChar(s[i])) == LowerChar(s[i]);
  }

  /** Text without upper-case ASCII letters is its own lower-case form. */
  lemma LowerKeepsNonLetters(s: string)
    requires forall i :: 0 <= i < |s| ==> !('A' <= s[i] <= 'Z')
    ensures Lower(s) == s
  {
  }

  // ---------------------------------------------------------------- trim

  /** The ECMAScript WhiteSpace and LineTerminator code points outside the
      EN QUAD .. HAIR SPACE range. */
  const SingleSpaces: set<char> := {
    // TAB, LF, VT, FF, CR, SPACE
    '\t', '\n', '\U{000B}', '\U{000C}', '\r', ' ',
    // NO-BREAK SPACE, OGHAM SPACE MARK
    '\U{00A0}', '\U{1680}',
    // LINE SEPARATOR, PARAGRAPH SEPARATOR, NARROW NBSP, MEDIUM MATH SPACE
    '\U{2028}', '\U{2029}', '\U{202F}', '\U{205F}',
    // IDEOGRAPHIC SPACE, ZERO WIDTH NO-BREAK SPACE
    '\U{3000}', '\U{FEFF}'
  }

  /** ECMAScript WhiteSpace and LineTerminator code points: what `trim` removes. */
  predicate IsJsSpace(c: char)
  {
    c in SingleSpaces || '\U{2000}' <= c <= '\U{200A}'
  }

  predicate AllSpace(s: string)
  {
    forall i :: 0 <= i < |s| ==> IsJsSpace(s[i])
  }

  function TrimStart(s: string): (r: string)
    ensures |r| <= |s| && r == s[|s| - |r|..]
    ensures r == [] || !IsJsSpace(r[0])
    ensures AllSpace(s[..|s| - |r|])
  {
    if s != [] && IsJsSpace(s[0]) then
      var t := s[1..];
      var r := TrimStart(t);
      var k := |s| - |r|;
      assert t[k - 1..] == s[k..];
      assert s[..k] == [s[0]] + t[..k - 1];
      AllSpaceCons(s[0], t[..k - 1]);
      r
    else s
  }

  lemma AllSpaceCons(c: char, t: string)
    requires IsJsSpace(c) && AllSpace(t)
    ensures AllSpace([c] + t)
  {
    assert forall i :: 1 <= i < |t| + 1 ==> ([c] + t)[i] == t[i - 1];
  }

  function TrimEnd(s: string): (r: string)
    ensures |r| <= |s| && r == s[..|r|]
    ensures r == [] || !IsJsSpace(r[|r| - 1])
    ensures AllSpace(s[|r|..])
  {
    if s != [] && IsJsSpace(s[|s| - 1]) then
      var r := TrimEnd(s[..|s| - 1]);
      assert s[..|s| - 1][..|r|] == s[..|r|];
      assert s[|r|..] == s[..|s| - 1][|r|..] + [s[|s| - 1]];
      r
    else s
  }

  function Trim(s: string): string
  {
    TrimEnd(TrimStart(s))
  }

  /** `s.trim()` is a slice of `s`, and only white space was cut off. */
  lemma TrimIsInnerSlice(s: string)
    ensures exists i, j :: 0 <= i <= j <= |s| && Trim(s) == s[i..j]
                           && AllSpace(s[..i]) && AllSpace(s[j..])
  {
    var t := TrimStart(s);
    var i := |s| - |t|;
    var r := TrimEnd(t);
    var j := i + |r|;
    assert r == s[i..j] by {
      assert t == s[i..];
    }
    assert AllSpace(s[j..]) by {
      assert s[j..] == t[|r|..];
    }
    assert Trim(s) == s[i..j];
  }

  /** `s.trim()` has no white space at either end. */
  lemma TrimHasNoOuterSpace(s: string)
    ensures Trim(s) == [] || (!IsJsSpace(Trim(s)[0]) && !IsJsSpace(Trim(s)[|Trim(s)| - 1]))
  {
    var t := TrimStart(s);
    var r := TrimEnd(t);
    if r != [] {
      assert r[0] == t[0];
    }
  }

  /** The blank test `!s.trim()`: the trimmed string is empty exactly when every
      character of `s` is white space. */
  lemma {:induction false} TrimEmptyIffBlank(s: string)
    ensures Trim(s) == [] <==> AllSpace(s)
  {
    var t := TrimStart(s);
    if t == [] {
      assert s[..|s|] == s;
    } else {
      assert !IsJsSpace(s[|s| - |t|]);
    }
  }

  /** Text that neither starts nor ends with white space is its own trim. */
  lemma TrimKeepsUnpadded(s: string)
    requires s != [] ==> !IsJsSpace(s[0]) && !IsJsSpace(s[|s| - 1])
    ensures Trim(s) == s
  {
  }

  // ---------------------------------------------------------------- includes

  /** `s.includes(q)`. */
  predicate Includes(s: string, q: string)
    decreases |s|
  {
    q <= s || (s != [] && Includes(s[1..], q))
  }

  /** `q` occurs in `s` at position `i`. */
  predicate OccursAt(s: string, q: string, i: int)
  {
    0 <= i <= |s| - |q| && s[i..i + |q|] == q
  }

  /** An inclusion is found at some position. */
  lemma {:induction false} IncludesFound(s: string, q: string) returns (i: int)
    requires Includes(s, q)
    ensures OccursAt(s, q, i)
    decreases |s|
  {
    if q <= s {
      i := 0;
    } else {
      var k := IncludesFound(s[1..], q);
      assert s[1..][k..k + |q|] == s[k + 1..k + 1 + |q|];
      i := k + 1;
    }
  }

  /** An occurrence at any position is found by the scan. */
  lemma {:induction false} OccursIncluded(s: string, q: string, i: int)
    requires OccursAt(s, q, i)
    ensures Includes(s, q)
    decreases i
  {
    if i > 0 {
      assert s[1..][i - 1..i - 1 + |q|] == s[i..i + |q|];
      OccursIncluded(s[1..], q, i - 1);
    } else {
      assert q <= s;
    }
  }

  /** `s.includes(q)` holds exactly when `q` occurs somewhere in `s`. */
  lemma IncludesIff(s: string, q: string)
    ensures Includes(s, q) <==> exists i :: OccursAt(s, q, i)
  {
    if Includes(s, q) {
      var i := IncludesFound(s, q);
    }
    if exists i :: OccursAt(s, q, i) {
      var i :| OccursAt(s, q, i);
      OccursIncluded(s, q, i);
    }
  }

  // ---------------------------------------------------------------- String(n)

  function DigitChar(d: int): (c: char)
    requires 0 <= d < 10
    ensures '0' <= c <= '9' && c as int - '0' as int == d
  {
    ('0' as int + d) as char
  }

  /** The number a text of decimal digits denotes, read left to right. */
  function DigitsValue(s: string): int
  {
    if s == [] then 0 else DigitsValue(s[..|s| - 1]) * 10 + (s[|s| - 1] as int - '0' as int)
  }

  /** The number a decimal text with an optional leading '-' denotes. */
  function SignedValue(s: string): int
  {
    if s != [] && s[0] == '-' then -DigitsValue(s[1..]) else DigitsValue(s)
  }

  /** `String(n)` for a natural number: decimal digits, with a leading zero only
      for zero itself. */
  function NatToString(n: nat): (r: string)
    ensures r != []
    ensures forall i :: 0 <= i < |r| ==> '0' <= r[i] <= '9'
    ensures r[0] == '0' <==> n == 0
  {
    if n < 10 then [DigitChar(n)] else NatToString(n / 10) + [DigitChar(n % 10)]
  }

  /** The digits of `String(n)` read back to `n`. */
  lemma {:induction false} NatToStringValue(n: nat)
    ensures DigitsValue(NatToString(n)) == n
  {
    var r := NatToString(n);
    if n < 10 {
      assert r[..0] == [];
    } else {
      assert r[..|r| - 1] == NatToString(n / 10);
      NatToStringValue(n / 10);
    }
  }

  /** `String(n)` for an integer `n`: a minus sign only for negatives, then decimal digits. */
  function IntToString(n: int): (r: string)
    ensures r != []
    ensures (r[0] == '-') <==> n < 0
    ensures n >= 0 ==> r == NatToString(n)
    ensures n < 0 ==> r[1..] == NatToString(-n)
  {
    if n < 0 then "-" + NatToString(-n) else NatToString(n)
  }

  /** `String(n)` reads back to `n`: no two integers render alike. */
  lemma IntToStringValue(n: int)
    ensures SignedValue(IntToString(n)) == n
  {
    if n < 0 {
      assert IntToString(n)[1..] == NatToString(-n);
      NatToStringValue(-n);
    } else {
      NatToStringValue(n);
    }
  }
}
