/**
 * GUIDs as 32 hexadecimal digits in the order they are written, and the
 * .NET "D" text form `xxxxxxxx-xxxx-xxxx-xxxx-xxxxxxxxxxxx` that
 * `Guid.ToString()` produces (lower case) and `Guid.Parse` reads (either case).
 */
module Guids {
  import opened Wrappers

  type Nibble = n: int | 0 <= n < 16

  type Guid = s: seq<Nibble> | |s| == 32 witness EmptyDigits()

  function EmptyDigits(): seq<Nibble> { seq(32, _ => 0) }

  /** `Guid.Empty`: all digits zero. */
  const Empty: Guid := EmptyDigits()

  const LowerHexDigits := "0123456789abcdef"

  function HexDigit(n: Nibble): char { LowerHexDigits[n] }

  /** ASCII lower-casing; every other character is left alone. */
  function ToLower(c: char): char
  {
    if 'A' <= c <= 'Z' then (c as int - 'A' as int + 'a' as int) as char else c
  }

  /** `s` with every ASCII capital lowered; the result is already lower case, so lowering it again changes nothing. */
  function LowerCase(s: string): (r: string)
    ensures |r| == |s| && forall i :: 0 <= i < |s| ==> r[i] == ToLower(s[i])
    ensures forall i :: 0 <= i < |r| ==> ToLower(r[i]) == r[i]
  {
    seq(|s|, i requires 0 <= i < |s| => ToLower(s[i]))
  }

  /** The value of a hexadecimal digit of either case. */
  function HexValue(c: char): (r: Option<Nibble>)
    ensures r.Some? <==> ToLower(c) in LowerHexDigits
    ensures r.Some? ==> HexDigit(r.value) == ToLower(c)
  {
    if '0' <= c <= '9' then Some(c as int - '0' as int)
    else if 'a' <= c <= 'f' then Some(c as int - 'a' as int + 10)
    else if 'A' <= c <= 'F' then Some(c as int - 'A' as int + 10)
    else None
  }

  function Hex(digits: seq<Nibble>): (s: string)
  {
    seq(|digits|, i requires 0 <= i < |digits| => HexDigit(digits[i]))
  }

  /** A run of hexadecimal digits of either case, or None if any character is not one. */
  function ParseHex(s: string): (r: Option<seq<Nibble>>)
    ensures r.Some? <==> forall i :: 0 <= i < |s| ==> HexValue(s[i]).Some?
    ensures r.Some? ==> |r.value| == |s| && Hex(r.value) == LowerCase(s)
  {
    if forall i :: 0 <= i < |s| ==> HexValue(s[i]).Some? then
      Some(seq(|s|, i requires 0 <= i < |s| => HexValue(s[i]).value))
    else
      None
  }

  /** `Guid.ToString()`: the "D" form, lower case, groups of 8-4-4-4-12 digits. */
  function GuidText(g: Guid): (s: string)
    ensures HyphensInPlace(s)
  {
    Hex(g[..8]) + "-" + Hex(g[8..12]) + "-" + Hex(g[12..16]) + "-" + Hex(g[16..20]) + "-" + Hex(g[20..])
  }

  /** The 32 digit characters of a 36-character "D" form, hyphens left out. */
  function DigitsOf(s: string): string
    requires |s| == 36
  {
    s[..8] + s[9..13] + s[14..18] + s[19..23] + s[24..]
  }

  predicate HyphensInPlace(s: string)
  {
    |s| == 36 && s[8] == '-' && s[13] == '-' && s[18] == '-' && s[23] == '-'
  }

  /** `Guid.Parse` restricted to the "D" form; None where .NET throws FormatException. */
  function ParseGuid(s: string): (r: Option<Guid>)
    ensures r.Some? ==> HyphensInPlace(s) && Hex(r.value) == LowerCase(DigitsOf(s))
    ensures HyphensInPlace(s) && (forall i :: 0 <= i < 36 && i !in {8, 13, 18, 23} ==> HexValue(s[i]).Some?) ==> r.Some?
  {
    if HyphensInPlace(s) then
      match ParseHex(DigitsOf(s))
      case Some(digits) => Some(digits)
      case None => None
    else
      None
  }

  /** The text form is 36 characters: lower-case digits with hyphens after 8, 12, 16 and 20 digits. */
  lemma GuidTextShape(g: Guid)
    ensures HyphensInPlace(GuidText(g))
    ensures DigitsOf(GuidText(g)) == Hex(g)
    ensures forall i :: 0 <= i < 36 && i !in {8, 13, 18, 23} ==> GuidText(g)[i] in LowerHexDigits
  {
    var t := GuidText(g);
    assert g == g[..8] + g[8..12] + g[12..16] + g[16..20] + g[20..];
    assert t[..8] == Hex(g[..8]);
    assert t[9..13] == Hex(g[8..12]);
    assert t[14..18] == Hex(g[12..16]);
    assert t[19..23] == Hex(g[16..20]);
    assert t[24..] == Hex(g[20..]);
    forall i | 0 <= i < 36 && i !in {8, 13, 18, 23} ensures t[i] in LowerHexDigits {
      if i < 8 { assert t[i] == t[..8][i]; }
      else if i < 13 { assert t[i] == t[9..13][i - 9]; }
      else if i < 18 { assert t[i] == t[14..18][i - 14]; }
      else if i < 23 { assert t[i] == t[19..23][i - 19]; }
      else { assert t[i] == t[24..][i - 24]; }
    }
  }

  lemma HexInjective(a: seq<Nibble>, b: seq<Nibble>)
    requires Hex(a) == Hex(b)
    ensures a == b
  {
    assert |a| == |Hex(a)| == |b|;
    forall i | 0 <= i < |a| ensures a[i] == b[i] {
      assert HexDigit(a[i]) == Hex(a)[i] == Hex(b)[i] == HexDigit(b[i]);
    }
  }

  /** Hex text is printed in lower case, so lower-casing it changes nothing. */
  lemma LowerCaseOfHex(digits: seq<Nibble>)
    ensures LowerCase(Hex(digits)) == Hex(digits)
  {
  }

  /** Different GUIDs have different text forms. */
  lemma GuidTextInjective(a: Guid, b: Guid)
    requires GuidText(a) == GuidText(b)
    ensures a == b
  {
    ParseGuidText(a);
    ParseGuidText(b);
  }

  /** Reading back the text form gives the same GUID. */
  lemma ParseGuidText(g: Guid)
    ensures ParseGuid(GuidText(g)) == Some(g)
  {
    GuidTextShape(g);
    var t := GuidText(g);
    forall i | 0 <= i < |Hex(g)| ensures HexValue(Hex(g)[i]) == Some(g[i]) {
    }
    var r := ParseHex(DigitsOf(t));
    assert r.Some?;
    LowerCaseOfHex(g);
    HexInjective(r.value, g);
  }

  /** Position, among the 32 digits, of character `i` of a "D" form. */
  function DigitIndex(i: nat): nat
  {
    if i < 8 then i else if i < 13 then i - 1 else if i < 18 then i - 2 else if i < 23 then i - 3 else i - 4
  }

  lemma DigitsOfAt(x: string, i: nat)
    requires |x| == 36 && i < 36 && i !in {8, 13, 18, 23}
    ensures DigitIndex(i) < 32 && x[i] == DigitsOf(x)[DigitIndex(i)]
  {
  }

  /** A successful parse reads a text form of the GUID it returns, in some letter case. */
  lemma ParseGuidSound(s: string, g: Guid)
    requires ParseGuid(s) == Some(g)
    ensures LowerCase(s) == GuidText(g)
  {
    GuidTextShape(g);
    var d, t := DigitsOf(s), GuidText(g);
    assert Hex(g) == LowerCase(d);
    forall i | 0 <= i < 36 ensures ToLower(s[i]) == t[i] {
      if i !in {8, 13, 18, 23} {
        DigitsOfAt(s, i);
        DigitsOfAt(t, i);
      }
    }
  }

  /** Every text form of a GUID, in any letter case, parses to that GUID. */
  lemma ParseGuidComplete(s: string, g: Guid)
    requires LowerCase(s) == GuidText(g)
    ensures ParseGuid(s) == Some(g)
  {
    GuidTextShape(g);
    var t := GuidText(g);
    forall i | i in {8, 13, 18, 23} ensures s[i] == '-' {
      assert ToLower(s[i]) == t[i];
    }
    var d := DigitsOf(s);
    forall k | 0 <= k < 32 ensures ToLower(d[k]) == Hex(g)[k] {
      var i := if k < 8 then k else if k < 12 then k + 1 else if k < 16 then k + 2 else if k < 20 then k + 3 else k + 4;
      DigitsOfAt(s, i);
      DigitsOfAt(t, i);
    }
    assert LowerCase(d) == Hex(g);
    forall k | 0 <= k < |d| ensures HexValue(d[k]).Some? {
      assert ToLower(d[k]) == HexDigit(g[k]);
    }
    HexInjective(ParseHex(d).value, g);
  }

  /**
   * Parsing succeeds exactly on the text forms of GUIDs, in any mix of
   * letter case: `ParseGuid(s) == Some(g)` if and only if lower-casing `s`
   * gives `GuidText(g)`.
   */
  lemma ParseGuidExactly(s: string, g: Guid)
    ensures ParseGuid(s) == Some(g) <==> LowerCase(s) == GuidText(g)
  {
    if ParseGuid(s) == Some(g) { ParseGuidSound(s, g); }
    if LowerCase(s) == GuidText(g) { ParseGuidComplete(s, g); }
  }
}
