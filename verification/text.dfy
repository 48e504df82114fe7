/**
 * Character and string helpers shared by the models: ASCII case folding,
 * regular-expression whitespace, and the `{i:03d}` zero-padded decimal format
 * used for backup names.
 */
module Text {

  /** `c.lower()` restricted to ASCII letters. */
  function LowerChar(c: char): (r: char)
    ensures 'A' <= c <= 'Z' ==> r as int == c as int + 32
    ensures !('A' <= c <= 'Z') ==> r == c
  {
    if 'A' <= c <= 'Z' then (c as int + 32) as char else c
  }

  /** `s.lower()` restricted to ASCII letters. */
  function Lower(s: string): (r: string)
    ensures |r| == |s|
    ensures forall i :: 0 <= i < |s| ==> r[i] == LowerChar(s[i])
  {
    if s == [] then [] else [LowerChar(s[0])] + Lower(s[1..])
  }

  /** Lowering twice is lowering once. */
  lemma LowerIdempotent(s: string)
    ensures Lower(Lower(s)) == Lower(s)
  {
  }

  /** A character matched by the regular-expression class `\s` (ASCII part). */
  predicate IsSpace(c: char) {
    c == ' ' || c == '\t' || c == '\n' || c == '\r' || c as int == 11 || c as int == 12
  }

  predicate EndsWith(s: string, suffix: string) {
    |suffix| <= |s| && s[|s| - |suffix|..] == suffix
  }

  /** `s.rstrip(c)`: `s` without its trailing run of `c`. */
  function RStrip(s: string, c: char): (r: string)
    ensures |r| <= |s| && r == s[..|r|]
    ensures r == [] || r[|r| - 1] != c
    ensures forall i :: |r| <= i < |s| ==> s[i] == c
  {
    if s != [] && s[|s| - 1] == c then RStrip(s[..|s| - 1], c) else s
  }

  /** `s.rfind(c)`: the index of the last `c` in `s`, or -1 when there is none. */
  function RFind(s: string, c: char): (i: int)
    ensures -1 <= i < |s|
    ensures i >= 0 ==> s[i] == c
    ensures forall j :: i < j < |s| ==> s[j] != c
  {
    if s == [] then -1
    else if s[|s| - 1] == c then |s| - 1
    else RFind(s[..|s| - 1], c)
  }

  function DigitChar(d: nat): char
    requires d < 10
  {
    ('0' as int + d) as char
  }

  predicate IsDigitChar(c: char) {
    '0' as int <= c as int <= '9' as int
  }

  /** The decimal representation of `n`, without leading zeros. */
  function Decimal(n: nat): (r: string)
    ensures 1 <= |r|
    ensures forall i :: 0 <= i < |r| ==> IsDigitChar(r[i])
  {
    if n < 10 then [DigitChar(n)] else Decimal(n / 10) + [DigitChar(n % 10)]
  }

  function Zeros(k: nat): (r: string)
    ensures |r| == k && forall i :: 0 <= i < k ==> r[i] == '0'
  {
    if k == 0 then [] else "0" + Zeros(k - 1)
  }

  /** Python's `f"{n:03d}"` for a non-negative `n`. */
  function Pad3(n: nat): (r: string)
    ensures 3 <= |r|
    ensures forall i :: 0 <= i < |r| ==> IsDigitChar(r[i])
  {
    var d := Decimal(n);
    (if |d| < 3 then Zeros(3 - |d|) else "") + d
  }

  /** The value of a string of decimal digits (leading zeros allowed). */
  function ParseDecimal(s: string): nat
    requires forall i :: 0 <= i < |s| ==> IsDigitChar(s[i])
  {
    if s == [] then 0
    else
      assert IsDigitChar(s[|s| - 1]);
      ParseDecimal(s[..|s| - 1]) * 10 + (s[|s| - 1] as int - '0' as int)
  }

  lemma {:induction false} ParseDecimalOfDecimal(n: nat)
    ensures ParseDecimal(Decimal(n)) == n
  {
    if n >= 10 {
      var d := Decimal(n);
      assert d[..|d| - 1] == Decimal(n / 10);
      ParseDecimalOfDecimal(n / 10);
    }
  }

  lemma {:induction false} ParseDecimalLeadingZero(s: string)
    requires forall i :: 0 <= i < |s| ==> IsDigitChar(s[i])
    ensures ParseDecimal("0" + s) == ParseDecimal(s)
  {
    if s != [] {
      var t := "0" + s;
      assert t[..|t| - 1] == "0" + s[..|s| - 1];
      ParseDecimalLeadingZero(s[..|s| - 1]);
    }
  }

  lemma {:induction false} ParseDecimalLeadingZeros(k: nat, s: string)
    requires forall i :: 0 <= i < |s| ==> IsDigitChar(s[i])
    ensures ParseDecimal(Zeros(k) + s) == ParseDecimal(s)
  {
    if k > 0 {
      var t := Zeros(k - 1) + s;
      assert forall i :: 0 <= i < |t| ==> IsDigitChar(t[i]) by {
        forall i | 0 <= i < |t| ensures IsDigitChar(t[i]) {
          if i >= k - 1 { assert t[i] == s[i - (k - 1)]; }
        }
      }
      assert Zeros(k) + s == "0" + t;
      ParseDecimalLeadingZeros(k - 1, s);
      ParseDecimalLeadingZero(t);
      assert ParseDecimal("0" + t) == ParseDecimal(t);
    } else {
      assert Zeros(k) + s == s;
    }
  }

  /** Reading the padded index back gives the index: the format is a round trip. */
  lemma Pad3RoundTrip(n: nat)
    ensures ParseDecimal(Pad3(n)) == n
  {
    var d := Decimal(n);
    ParseDecimalOfDecimal(n);
    if |d| < 3 {
      ParseDecimalLeadingZeros(3 - |d|, d);
    } else {
      assert Pad3(n) == d;
    }
  }

  /** Distinct indices give distinct padded strings. */
  lemma Pad3Injective(m: nat, n: nat)
    requires Pad3(m) == Pad3(n)
    ensures m == n
  {
    Pad3RoundTrip(m);
    Pad3RoundTrip(n);
  }

  /** Two strings that agree on a common prefix and suffix agree in the middle. */
  lemma SameFrame(a: string, x: string, y: string, c: string)
    requires a + x + c == a + y + c
    ensures x == y
  {
    var s := a + x + c;
    assert |x| == |y|;
    assert x == s[|a|..|a| + |x|];
    assert y == (a + y + c)[|a|..|a| + |y|];
  }
}
