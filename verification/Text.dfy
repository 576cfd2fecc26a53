/** The few facts about text the services rely on. */
module Text {
  import opened Collections

  /** White space as `trim` understands it: the Unicode property of that name. */
  predicate IsWhitespace(c: char) {
    || '\U{9}' <= c <= '\U{D}' || c == ' ' || c == '\U{85}' || c == '\U{A0}' || c == '\U{1680}'
    || '\U{2000}' <= c <= '\U{200A}' || c == '\U{2028}' || c == '\U{2029}' || c == '\U{202F}'
    || c == '\U{205F}' || c == '\U{3000}'
  }

  /** Nothing is left after trimming. */
  predicate Blank(s: string) {
    forall i :: 0 <= i < |s| ==> IsWhitespace(s[i])
  }

  /** The 25 code points of that property; a text is blank exactly when it is a run of them. */
  lemma WhitespaceIs(c: char, s: string)
    ensures IsWhitespace(c) <==>
            c as int in {9, 10, 11, 12, 13, 32, 133, 160, 5760, 8192, 8193, 8194, 8195, 8196, 8197, 8198, 8199, 8200,
                         8201, 8202, 8232, 8233, 8239, 8287, 12288}
    ensures Blank([]) && (Blank([c] + s) <==> IsWhitespace(c) && Blank(s))
  {
    var all := [c] + s;
    assert all[0] == c && forall i :: 0 <= i < |s| ==> s[i] == all[i + 1];
  }

  function HexDigit(c: char): Option<nat> {
    if '0' <= c <= '9' then Some((c as int) - ('0' as int))
    else if 'a' <= c <= 'f' then Some((c as int) - ('a' as int) + 10)
    else if 'A' <= c <= 'F' then Some((c as int) - ('A' as int) + 10)
    else None
  }

  function HexDigits(s: string): Option<nat> {
    if s == [] then Some(0)
    else
      var init, last := HexDigits(s[..|s| - 1]), HexDigit(s[|s| - 1]);
      if init.Some? && last.Some? then Some(init.value * 16 + last.value) else None
  }

  /** An unsigned number in base 16: an optional plus sign, at least one digit, below the limit. */
  function ParseHex(s: string, limit: nat): Option<nat> {
    var digits := if s != [] && s[0] == '+' then s[1..] else s;
    if digits == [] then None
    else
      var value := HexDigits(digits);
      if value.Some? && value.value < limit then value else None
  }

  function WithoutHyphens(s: string): string {
    if s == [] then []
    else (if s[0] == '-' then [] else [s[0]]) + WithoutHyphens(s[1..])
  }

  function DigitChar(d: nat): char
    requires d < 10
  {
    ('0' as int + d) as char
  }

  /** A number as it is printed. */
  function Decimal(n: nat): string {
    if n < 10 then [DigitChar(n)] else Decimal(n / 10) + [DigitChar(n % 10)]
  }

  /** The number a string of decimal digits stands for. */
  function DecimalValue(s: string): Option<nat> {
    if s == [] then Some(0)
    else
      var init, last := DecimalValue(s[..|s| - 1]), s[|s| - 1];
      if init.Some? && '0' <= last <= '9' then Some(init.value * 10 + (last as int - '0' as int)) else None
  }

  lemma {:induction false} DecimalRoundTrip(n: nat)
    ensures Decimal(n) != [] && DecimalValue(Decimal(n)) == Some(n)
    ensures forall i :: 0 <= i < |Decimal(n)| ==> '0' <= Decimal(n)[i] <= '9'
    ensures n > 0 ==> Decimal(n)[0] != '0'
  {
    if n >= 10 {
      DecimalRoundTrip(n / 10);
      assert Decimal(n)[..|Decimal(n)| - 1] == Decimal(n / 10);
    } else {
      assert Decimal(n)[..0] == [];
    }
  }

  lemma OneMoreDigit(n: nat, d: nat)
    requires d < 10
    ensures Decimal(n * 10 + d) == if n == 0 then [DigitChar(d)] else Decimal(n) + [DigitChar(d)]
  {
  }

  lemma OneMoreChar(s: string, d: nat)
    requires d < 10 && DecimalValue(s).Some?
    ensures DecimalValue(s + [DigitChar(d)]) == Some(DecimalValue(s).value * 10 + d)
  {
    assert (s + [DigitChar(d)])[..|s|] == s;
  }

  // ---------------------------------------------------------------- base 16

  function HexChar(d: nat): char
    requires d < 16
  {
    if d < 10 then DigitChar(d) else ('a' as int + (d - 10)) as char
  }

  function UpperHexChar(d: nat): char
    requires d < 16
  {
    if d < 10 then DigitChar(d) else ('A' as int + (d - 10)) as char
  }

  /** A digit of base 16, in either case, stands for its place; no other character is one. */
  lemma HexDigitsAre(d: nat, c: char)
    requires d < 16
    ensures HexDigit(HexChar(d)) == Some(d) && HexDigit(UpperHexChar(d)) == Some(d)
    ensures HexDigit(c).Some? ==> HexDigit(c).value < 16
    ensures HexDigit(c) == Some(d) ==> c == HexChar(d) || c == UpperHexChar(d)
  {
  }

  /** A number as it is printed in base 16. */
  function Hexadecimal(n: nat): string {
    if n < 16 then [HexChar(n)] else Hexadecimal(n / 16) + [HexChar(n % 16)]
  }

  lemma OneMoreHexDigit(s: string, d: nat)
    requires d < 16 && HexDigits(s).Some?
    ensures HexDigits(s + [HexChar(d)]) == Some(HexDigits(s).value * 16 + d)
  {
    HexDigitsAre(d, HexChar(d));
    assert (s + [HexChar(d)])[..|s|] == s;
  }

  lemma {:induction false} HexadecimalRoundTrip(n: nat)
    ensures Hexadecimal(n) != [] && HexDigits(Hexadecimal(n)) == Some(n)
    ensures forall i :: 0 <= i < |Hexadecimal(n)| ==> HexDigit(Hexadecimal(n)[i]).Some?
  {
    if n >= 16 {
      HexadecimalRoundTrip(n / 16);
      OneMoreHexDigit(Hexadecimal(n / 16), n % 16);
      HexDigitsAre(n % 16, '0');
    } else {
      OneMoreHexDigit([], n);
      assert [] + [HexChar(n)] == [HexChar(n)];
    }
  }

  lemma ParsedDigits(digits: string, limit: nat)
    requires digits != [] && digits[0] != '+' && HexDigits(digits).Some?
    ensures var n := HexDigits(digits).value;
            && ParseHex(digits, limit) == (if n < limit then Some(n) else None)
            && ParseHex("+" + digits, limit) == (if n < limit then Some(n) else None)
  {
    assert ("+" + digits)[1..] == digits;
  }

  /** A printed number is read back exactly below the limit, a plus sign in front or not. */
  lemma ParseHexReadsBack(n: nat, limit: nat)
    ensures ParseHex(Hexadecimal(n), limit) == if n < limit then Some(n) else None
    ensures ParseHex("+" + Hexadecimal(n), limit) == if n < limit then Some(n) else None
  {
    HexadecimalRoundTrip(n);
    assert HexDigit(Hexadecimal(n)[0]).Some?;
    ParsedDigits(Hexadecimal(n), limit);
  }

  lemma {:induction false} HyphensAreDropped(a: string, b: string)
    ensures WithoutHyphens(a + "-" + b) == WithoutHyphens(a + b)
  {
    if a == [] {
      assert a + "-" + b == "-" + b && ("-" + b)[1..] == b && a + b == b;
    } else {
      assert (a + "-" + b)[1..] == a[1..] + "-" + b && (a + b)[1..] == a[1..] + b;
      HyphensAreDropped(a[1..], b);
    }
  }

  lemma {:induction false} OthersAreKept(s: string)
    requires forall i :: 0 <= i < |s| ==> s[i] != '-'
    ensures WithoutHyphens(s) == s
  {
    if s != [] {
      OthersAreKept(s[1..]);
      assert s == [s[0]] + s[1..];
    }
  }
}
