/** The text form of a MongoDB ObjectId. An id is a number below 16^24. It is
    written as 24 hexadecimal digits: `toString()` always produces lower case,
    while casting a request string to an ObjectId accepts either case. */
module ObjectIds {
  import opened Common

  /** Number of hexadecimal digits in an ObjectId's text form (12 bytes). */
  const TextLength: nat := 24

  predicate IsHexDigit(c: char) {
    '0' <= c <= '9' || 'a' <= c <= 'f' || 'A' <= c <= 'F'
  }

  predicate IsLowerHexDigit(c: char) {
    '0' <= c <= '9' || 'a' <= c <= 'f'
  }

  predicate AllHex(s: string) {
    forall i | 0 <= i < |s| :: IsHexDigit(s[i])
  }

  predicate AllLowerHex(s: string) {
    forall i | 0 <= i < |s| :: IsLowerHexDigit(s[i])
  }

  function DigitValue(c: char): (d: nat)
    requires IsHexDigit(c)
    ensures d < 16
    ensures '0' <= c <= '9' ==> d < 10
  {
    if '0' <= c <= '9' then (c - '0') as nat
    else if 'a' <= c <= 'f' then (c - 'a') as nat + 10
    else (c - 'A') as nat + 10
  }

  function HexDigit(d: nat): (c: char)
    requires d < 16
    ensures IsLowerHexDigit(c) && DigitValue(c) == d
  {
    if d < 10 then '0' + d as char else 'a' + (d - 10) as char
  }

  /** Lower-case digits are determined by their value. */
  lemma HexDigitOfValue(c: char)
    requires IsLowerHexDigit(c)
    ensures HexDigit(DigitValue(c)) == c
  {
  }

  function Pow16(k: nat): (p: nat)
    ensures p >= 1
  {
    if k == 0 then 1 else 16 * Pow16(k - 1)
  }

  /** The number a string of hexadecimal digits denotes, most significant first. */
  function HexValue(s: string): (v: nat)
    requires AllHex(s)
    ensures v < Pow16(|s|)
    decreases |s|
  {
    if s == [] then 0
    else
      var p := s[..|s| - 1];
      assert AllHex(p);
      var v := HexValue(p);
      assert v * 16 + DigitValue(s[|s| - 1]) < Pow16(|s|) by {
        assert v + 1 <= Pow16(|p|);
        assert (v + 1) * 16 <= Pow16(|p|) * 16;
      }
      v * 16 + DigitValue(s[|s| - 1])
  }

  /** The `width` lowest hexadecimal digits of `n`, in lower case. */
  function HexText(n: nat, width: nat): (r: string)
    ensures |r| == width && AllLowerHex(r) && AllHex(r)
  {
    if width == 0 then [] else HexText(n / 16, width - 1) + [HexDigit(n % 16)]
  }

  lemma {:induction false} HexValueOfText(n: nat, width: nat)
    requires n < Pow16(width)
    ensures HexValue(HexText(n, width)) == n
  {
    if width > 0 {
      var t := HexText(n, width);
      assert t[..width - 1] == HexText(n / 16, width - 1);
      assert n / 16 < Pow16(width - 1);
      HexValueOfText(n / 16, width - 1);
    }
  }

  lemma {:induction false} HexTextOfValue(s: string)
    requires AllLowerHex(s)
    ensures HexText(HexValue(s), |s|) == s
  {
    if s != [] {
      var p := s[..|s| - 1];
      var c := s[|s| - 1];
      assert AllLowerHex(p);
      var v := HexValue(s);
      assert v / 16 == HexValue(p) && v % 16 == DigitValue(c);
      HexTextOfValue(p);
      HexDigitOfValue(c);
      assert s == p + [c];
    }
  }

  /** Casting request text to an ObjectId: exactly 24 hexadecimal digits, in
      either case; anything else is a cast error. */
  function Parse(s: string): (r: Option<nat>)
    ensures r.Some? <==> |s| == TextLength && AllHex(s)
    ensures r.Some? ==> r.value < Pow16(TextLength)
  {
    if |s| == TextLength && AllHex(s) then Some(HexValue(s)) else None
  }

  /** `id.toString()`: always 24 lower-case digits. */
  function ToText(id: nat): (r: string)
    ensures |r| == TextLength && AllLowerHex(r)
  {
    HexText(id, TextLength)
  }

  /** Printing then casting gives the id back. */
  lemma ParseToText(id: nat)
    requires id < Pow16(TextLength)
    ensures Parse(ToText(id)) == Some(id)
  {
    HexValueOfText(id, TextLength);
  }

  /** A lower-case text is the printed form of the id it casts to. */
  lemma ToTextParse(s: string)
    requires Parse(s).Some? && AllLowerHex(s)
    ensures ToText(Parse(s).value) == s
  {
    HexTextOfValue(s);
  }

  /** Replacing the last digit of a printed id by its upper-case form gives a
      different text that casts to the same id. */
  lemma {:induction false} UpperCaseAlias(id: nat)
    requires id < Pow16(TextLength) && id % 16 >= 10
    ensures var t := ToText(id);
            var s := t[..TextLength - 1] + ['A' + (id % 16 - 10) as char];
            s != t && Parse(s) == Some(id)
  {
    var t := ToText(id);
    var u := 'A' + (id % 16 - 10) as char;
    var s := t[..TextLength - 1] + [u];
    assert t[TextLength - 1] == HexDigit(id % 16);
    LastDigitAlias(t, u);
    ParseToText(id);
  }

  /** Swapping the last digit for another spelling of the same value keeps the
      number. */
  lemma LastDigitAlias(t: string, u: char)
    requires |t| > 0 && AllHex(t) && IsHexDigit(u) && DigitValue(u) == DigitValue(t[|t| - 1])
    ensures AllHex(t[..|t| - 1] + [u])
    ensures HexValue(t[..|t| - 1] + [u]) == HexValue(t)
  {
    var s := t[..|t| - 1] + [u];
    assert s[..|s| - 1] == t[..|t| - 1];
  }
}
