/** Hexadecimal text as the tracer reads and writes ids: int(s, 16) restricted
    to plain hex digits, and format(v, "0<width>x"). */
module Hex {
  import opened Exceptions

  function Pow16(n: nat): (p: nat)
    ensures p >= 1
  {
    if n == 0 then 1 else 16 * Pow16(n - 1)
  }

  predicate IsHexDigit(c: char) {
    ('0' <= c <= '9') || ('a' <= c <= 'f') || ('A' <= c <= 'F')
  }

  function DigitValue(c: char): (d: nat)
    requires IsHexDigit(c)
    ensures d < 16
  {
    if '0' <= c <= '9' then c as int - '0' as int
    else if 'a' <= c <= 'f' then c as int - 'a' as int + 10
    else c as int - 'A' as int + 10
  }

  predicate AllHex(s: string) {
    forall i :: 0 <= i < |s| ==> IsHexDigit(s[i])
  }

  /** The value of a string of hex digits, most significant first. */
  function HexValue(s: string): nat
    requires AllHex(s)
  {
    if s == [] then 0 else 16 * HexValue(s[..|s| - 1]) + DigitValue(s[|s| - 1])
  }

  /** int(s, 16): None (Python raises ValueError) unless s is a non-empty run of hex digits. */
  function ParseHex(s: string): (r: Option<nat>)
    ensures r.Some? <==> |s| > 0 && AllHex(s)
    ensures r.Some? ==> r.value == HexValue(s) && r.value < Pow16(|s|) && FixedHex(r.value, |s|) == ToLower(s)
  {
    if |s| > 0 && AllHex(s) then
      HexValueBound(s);
      FixedHexOfValue(s);
      Some(HexValue(s))
    else
      None
  }

  function LowerDigit(d: nat): (c: char)
    requires d < 16
    ensures IsHexDigit(c) && DigitValue(c) == d
  {
    "0123456789abcdef"[d]
  }

  /** A hex digit written in lower case. */
  function LowerChar(c: char): char {
    if 'A' <= c <= 'F' then (c as int - 'A' as int + 'a' as int) as char else c
  }

  function ToLower(s: string): (t: string)
    ensures |t| == |s| && forall i :: 0 <= i < |s| ==> t[i] == LowerChar(s[i])
  {
    seq(|s|, i requires 0 <= i < |s| => LowerChar(s[i]))
  }

  /** The last `width` hex digits of v, in lower case. */
  function FixedHex(v: nat, width: nat): (s: string)
    ensures |s| == width
  {
    if width == 0 then [] else FixedHex(v / 16, width - 1) + [LowerDigit(v % 16)]
  }

  /** How many hex digits v needs (one for zero). */
  function DigitCount(v: nat): (n: nat)
    ensures n >= 1
  {
    if v < 16 then 1 else 1 + DigitCount(v / 16)
  }

  /** format(v, "0<width>x"): lower-case hex, zero-padded to width, never truncated. */
  function FormatHex(v: nat, width: nat): (s: string)
    ensures |s| >= width && AllHex(s) && HexValue(s) == v
    ensures forall i :: 0 <= i < |s| ==> s[i] in "0123456789abcdef"
  {
    var w := if DigitCount(v) > width then DigitCount(v) else width;
    DigitCountBound(v, w);
    FixedHexValue(v, w);
    DivModUnique(v, Pow16(w), 0, v);
    FixedHexLower(v, w);
    FixedHex(v, w)
  }

  lemma DivModUnique(v: int, k: int, q: int, r: int)
    requires k > 0 && v == k * q + r && 0 <= r < k
    ensures v / k == q && v % k == r
  {
    var q', r' := v / k, v % k;
    assert k * (q' - q) == r - r';
    if q' > q {
      MulAtLeast(k, q' - q);
    } else if q' < q {
      MulAtLeast(k, q - q');
    }
  }

  lemma MulAtLeast(k: int, n: int)
    requires k > 0 && n >= 1
    ensures k * n >= k
  {
  }

  /** The last w + 1 digits of v are the last w digits of v / 16 followed by v's last digit. */
  lemma ModPow16Step(v: nat, w: nat)
    ensures v % Pow16(w + 1) == 16 * ((v / 16) % Pow16(w)) + v % 16
  {
    var m := Pow16(w);
    var a, b := (v / 16) / m, (v / 16) % m;
    assert v / 16 == m * a + b;
    assert v == (16 * m) * a + (16 * b + v % 16);
    DivModUnique(v, 16 * m, a, 16 * b + v % 16);
  }

  lemma {:induction false} HexValueSnoc(s: string, c: char)
    requires AllHex(s) && IsHexDigit(c)
    ensures AllHex(s + [c]) && HexValue(s + [c]) == 16 * HexValue(s) + DigitValue(c)
  {
    assert (s + [c])[..|s|] == s;
  }

  /** A string of hex digits encodes a value below 16^length. */
  lemma {:induction false} HexValueBound(s: string)
    requires AllHex(s)
    ensures HexValue(s) < Pow16(|s|)
  {
    if s != [] {
      var init := s[..|s| - 1];
      HexValueBound(init);
      assert HexValue(s) <= 16 * (Pow16(|init|) - 1) + 15;
    }
  }

  /** Reading back the last w digits of v gives v modulo 16^w. */
  lemma {:induction false} FixedHexValue(v: nat, w: nat)
    ensures AllHex(FixedHex(v, w)) && HexValue(FixedHex(v, w)) == v % Pow16(w)
  {
    if w > 0 {
      FixedHexValue(v / 16, w - 1);
      HexValueSnoc(FixedHex(v / 16, w - 1), LowerDigit(v % 16));
      ModPow16Step(v, w - 1);
    }
  }

  /** Writing the value of a hex string back at the same width gives the string in lower case. */
  lemma {:induction false} FixedHexOfValue(s: string)
    requires AllHex(s)
    ensures FixedHex(HexValue(s), |s|) == ToLower(s)
  {
    if s != [] {
      var init, c := s[..|s| - 1], s[|s| - 1];
      assert s == init + [c];
      FixedHexOfValue(init);
      var h, d := HexValue(init), DigitValue(c);
      DivModUnique(16 * h + d, 16, h, d);
      assert LowerDigit(d) == LowerChar(c);
      assert ToLower(s) == ToLower(init) + [LowerChar(c)];
    }
  }

  /** v needs at most w digits exactly when it is below 16^w. */
  lemma {:induction false} DigitCountBound(v: nat, w: nat)
    requires w >= 1
    ensures DigitCount(v) <= w <==> v < Pow16(w)
  {
    if v >= 16 && w > 1 {
      DigitCountBound(v / 16, w - 1);
    } else if v >= 16 {
      assert Pow16(1) == 16;
    } else {
      PowAtLeast16(w);
    }
  }

  lemma {:induction false} PowAtLeast16(w: nat)
    requires w >= 1
    ensures Pow16(w) >= 16
  {
    if w > 1 {
      PowAtLeast16(w - 1);
    }
  }

  /** format(v, "0<w>x") has exactly w characters when v fits, and more otherwise. */
  lemma FormatHexWidth(v: nat, w: nat)
    requires w >= 1
    ensures v < Pow16(w) ==> FormatHex(v, w) == FixedHex(v, w)
    ensures |FormatHex(v, w)| == w <==> v < Pow16(w)
  {
    DigitCountBound(v, w);
  }

  /** format(v, "0<w>x") is written only with lower-case hex digits. */
  lemma {:induction false} FixedHexLower(v: nat, w: nat)
    ensures forall i :: 0 <= i < w ==> FixedHex(v, w)[i] in "0123456789abcdef"
  {
    if w > 0 {
      FixedHexLower(v / 16, w - 1);
    }
  }

  /** Parsing format(v, "0<w>x") gives back v whenever v fits in w digits. */
  lemma FormatParse(v: nat, w: nat)
    requires w >= 1 && v < Pow16(w)
    ensures ParseHex(FormatHex(v, w)) == Some(v)
  {
    FormatHexWidth(v, w);
    FixedHexValue(v, w);
    DivModUnique(v, Pow16(w), 0, v);
  }

  /** A run of n zero digits. */
  function Zeros(n: nat): (s: string)
    ensures |s| == n && forall i :: 0 <= i < n ==> s[i] == '0'
  {
    seq(n, _ => '0')
  }

  lemma {:induction false} ZerosValue(n: nat)
    ensures AllHex(Zeros(n)) && HexValue(Zeros(n)) == 0
  {
    if n > 0 {
      assert Zeros(n)[..n - 1] == Zeros(n - 1);
      ZerosValue(n - 1);
    }
  }

  lemma {:induction false} Pow16Add(a: nat, b: nat)
    ensures Pow16(a + b) == Pow16(a) * Pow16(b)
  {
    if a > 0 {
      Pow16Add(a - 1, b);
      assert Pow16(a + b) == 16 * Pow16(a - 1 + b);
    }
  }
}
