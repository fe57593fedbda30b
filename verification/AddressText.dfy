/** Addresses as text: `strtoul` with base 0 (C11, section 7.22.1.4), the "0x%016lX" form the debugger
    prints, and the first line of a process's memory map. */
module AddressText {
  import opened Memory

  function IsSpace(c: char): bool {
    c == ' ' || (9 <= c as int <= 13)
  }

  /** The value of a digit; 36 for any other character. */
  function Digit(c: char): nat {
    if '0' <= c <= '9' then c as int - '0' as int
    else if 'a' <= c <= 'z' then c as int - 'a' as int + 10
    else if 'A' <= c <= 'Z' then c as int - 'A' as int + 10
    else 36
  }

  /** The number that the longest run of digits denotes, after `acc`. */
  function Value(s: string, base: nat, acc: nat): nat {
    if s == "" || Digit(s[0]) >= base then acc
    else Value(s[1..], base, acc * base + Digit(s[0]))
  }

  function SkipSpaces(s: string): string {
    if s != "" && IsSpace(s[0]) then SkipSpaces(s[1..]) else s
  }

  /** Prefix "0x" before a hexadecimal digit selects base 16, another leading zero base 8. */
  function Magnitude(s: string): nat {
    if |s| > 2 && s[0] == '0' && (s[1] == 'x' || s[1] == 'X') && Digit(s[2]) < 16 then Value(s[2..], 16, 0)
    else if s != "" && s[0] == '0' then Value(s, 8, 0)
    else Value(s, 10, 0)
  }

  /** strtoul(s, NULL, 0): out of range gives ULONG_MAX, a minus sign negates modulo 2^64. */
  function Strtoul(s: string): Addr {
    var t := SkipSpaces(s);
    var negative := t != "" && t[0] == '-';
    var signed := t != "" && (t[0] == '-' || t[0] == '+');
    var n := Magnitude(if signed then t[1..] else t);
    if n >= ADDRESS_LIMIT then ADDRESS_LIMIT - 1
    else if negative && n > 0 then ADDRESS_LIMIT - n
    else n
  }

  function BeforeDash(s: string): string {
    if s == "" || s[0] == '-' then "" else [s[0]] + BeforeDash(s[1..])
  }

  /** The start of the first mapping in a line of /proc/<pid>/maps. */
  function BaseOf(line: string): Addr {
    Strtoul("0x" + BeforeDash(line))
  }

  // Printing

  function HexDigit(d: nat, upper: bool): char
    requires d < 16
  {
    if d < 10 then '0' + d as char else (if upper then 'A' else 'a') + (d - 10) as char
  }

  lemma DigitsAreTheUsualOnes(d: nat)
    requires d < 16
    ensures HexDigit(d, true) == "0123456789ABCDEF"[d] && HexDigit(d, false) == "0123456789abcdef"[d]
    ensures Digit(HexDigit(d, true)) == Digit(HexDigit(d, false)) == d
  {
  }

  /** The last `w` digits of `n`. */
  function Numeral(n: nat, base: nat, w: nat, upper: bool): (s: string)
    requires 2 <= base <= 16
    ensures |s| == w
  {
    if w == 0 then "" else Numeral(n / base, base, w - 1, upper) + [HexDigit(n % base, upper)]
  }

  function Power(base: nat, w: nat): nat {
    if w == 0 then 1 else Times(base, Power(base, w - 1))
  }

  lemma DividedDigit(n: nat, base: nat, x: nat)
    requires base > 0
    ensures (x + n / base) * base + n % base == x * base + n
  {
  }

  lemma OneMoreDigit(n: nat, base: nat, upper: bool, rest: string, high: nat)
    requires 2 <= base <= 16
    ensures Value([HexDigit(n % base, upper)] + rest, base, high + n / base) == Value(rest, base, high * base + n)
  {
    var s := [HexDigit(n % base, upper)] + rest;
    DigitsAreTheUsualOnes(n % base);
    hide HexDigit, Digit;
    assert s[1..] == rest;
    DividedDigit(n, base, high);
  }

  /** A product as one term. */
  function Times(a: nat, b: nat): nat {
    a * b
  }

  lemma Reassociate(acc: nat, base: nat, power: nat)
    ensures Times(acc, Times(base, power)) == Times(acc, power) * base
  {
  }

  lemma TimesOne(acc: nat)
    ensures Times(acc, 1) == acc && Times(0, acc) == 0
  {
  }

  lemma FewerDigits(n: nat, base: nat, power: nat)
    requires base > 0 && n < Times(base, power)
    ensures n / base < power
  {
  }

  lemma {:induction false} NumeralReadsBack(n: nat, base: nat, w: nat, upper: bool, rest: string, acc: nat)
    requires 2 <= base <= 16 && n < Power(base, w)
    ensures Value(Numeral(n, base, w, upper) + rest, base, acc) == Value(rest, base, Times(acc, Power(base, w)) + n)
    decreases w
  {
    hide HexDigit, Digit, Value, Times;
    if w == 0 {
      TimesOne(acc);
      assert Numeral(n, base, w, upper) + rest == rest;
    } else {
      var d := HexDigit(n % base, upper);
      FewerDigits(n, base, Power(base, w - 1));
      NumeralReadsBack(n / base, base, w - 1, upper, [d] + rest, acc);
      assert Numeral(n, base, w, upper) + rest == Numeral(n / base, base, w - 1, upper) + ([d] + rest);
      OneMoreDigit(n, base, upper, rest, Times(acc, Power(base, w - 1)));
      Reassociate(acc, base, Power(base, w - 1));
    }
  }

  lemma {:induction false} NumeralIsDigits(n: nat, base: nat, w: nat, upper: bool)
    requires 2 <= base <= 16
    ensures forall i | 0 <= i < w :: Digit(Numeral(n, base, w, upper)[i]) < base
    decreases w
  {
    if w > 0 {
      NumeralIsDigits(n / base, base, w - 1, upper);
      DigitsAreTheUsualOnes(n % base);
    }
  }

  // Reading

  datatype Notation = Decimal | Octal | Hexadecimal(capital: bool) {
    function Base(): nat {
      match this
      case Decimal => 10
      case Octal => 8
      case Hexadecimal(_) => 16
    }

    function Prefix(): string {
      match this
      case Decimal => ""
      case Octal => "0"
      case Hexadecimal(capital) => if capital then "0X" else "0x"
    }
  }

  /** No digit of the base follows. */
  predicate Ends(rest: string, base: nat) {
    rest == "" || Digit(rest[0]) >= base
  }

  lemma {:induction false} SkipsSpaces(spaces: string, s: string)
    requires forall i | 0 <= i < |spaces| :: IsSpace(spaces[i])
    requires s == "" || !IsSpace(s[0])
    ensures SkipSpaces(spaces + s) == s
    decreases |spaces|
  {
    if spaces == "" {
      assert spaces + s == s;
    } else {
      assert (spaces + s)[1..] == spaces[1..] + s;
      SkipsSpaces(spaces[1..], s);
    }
  }

  lemma NumeralIsRead(n: nat, base: nat, w: nat, upper: bool, rest: string)
    requires 2 <= base <= 16 && n < Power(base, w) && Ends(rest, base)
    ensures Value(Numeral(n, base, w, upper) + rest, base, 0) == n
  {
    NumeralReadsBack(n, base, w, upper, rest, 0);
    hide Numeral, Times;
    TimesOne(Power(base, w));
  }

  lemma LeadingZero(s: string)
    requires s != "" && s[0] == '0'
    ensures Value(s, 8, 0) == Value(s[1..], 8, 0)
  {
  }

  /** The digits, with a prefix where the notation has one. */
  function Text(notation: Notation, n: nat, w: nat, upper: bool): string {
    notation.Prefix() + Numeral(n, notation.Base(), w, upper)
  }

  lemma NumberIsRead(notation: Notation, n: nat, w: nat, upper: bool, rest: string)
    requires 0 < w && n < Power(notation.Base(), w) && Ends(rest, notation.Base())
    requires notation.Decimal? ==> Numeral(n, 10, w, upper)[0] != '0'
    ensures Magnitude(Text(notation, n, w, upper) + rest) == n
    ensures '0' <= (Text(notation, n, w, upper) + rest)[0] <= '9'
  {
    hide Numeral, Power, Value, Ends;
    var digits := Numeral(n, notation.Base(), w, upper);
    var s := notation.Prefix() + digits + rest;
    NumeralIsDigits(n, notation.Base(), w, upper);
    NumeralIsRead(n, notation.Base(), w, upper, rest);
    match notation {
      case Decimal =>
        assert s == digits + rest;
      case Octal =>
        assert s[1..] == digits + rest;
        LeadingZero(s);
      case Hexadecimal(_) =>
        assert s[2..] == digits + rest;
    }
  }

  /** What strtoul makes of a sign and a magnitude. */
  lemma SignIsRead(spaces: string, sign: string, s: string)
    requires forall i | 0 <= i < |spaces| :: IsSpace(spaces[i])
    requires sign == "" || sign == "+" || sign == "-"
    requires sign == "" ==> s == "" || (!IsSpace(s[0]) && s[0] != '+' && s[0] != '-')
    ensures Strtoul(spaces + sign + s) ==
      if Magnitude(s) >= 0x1_0000_0000_0000_0000 then 0xFFFF_FFFF_FFFF_FFFF
      else if sign == "-" then (0x1_0000_0000_0000_0000 - Magnitude(s)) % 0x1_0000_0000_0000_0000
      else Magnitude(s)
  {
    hide Magnitude;
    assert spaces + sign + s == spaces + (sign + s);
    SkipsSpaces(spaces, sign + s);
    if sign == "" {
      assert sign + s == s;
    } else {
      assert (sign + s)[1..] == s;
    }
  }

  /** Every number in every notation: after white space and a sign, in decimal, octal with 0 or hexadecimal
      with 0x, to the first character that is no digit. From 2^64 on the result is 2^64 - 1, and a minus sign
      negates modulo 2^64. */
  lemma StrtoulReads(spaces: string, sign: string, notation: Notation, n: nat, w: nat, upper: bool, rest: string)
    requires forall i | 0 <= i < |spaces| :: spaces[i] == ' ' || 9 <= spaces[i] as int <= 13
    requires sign == "" || sign == "+" || sign == "-"
    requires 0 < w && n < Power(notation.Base(), w) && Ends(rest, notation.Base())
    requires notation.Decimal? ==> Numeral(n, 10, w, upper)[0] != '0'
    ensures Strtoul(spaces + sign + Text(notation, n, w, upper) + rest) ==
      if n >= 0x1_0000_0000_0000_0000 then 0xFFFF_FFFF_FFFF_FFFF
      else if sign == "-" then (0x1_0000_0000_0000_0000 - n) % 0x1_0000_0000_0000_0000
      else n
  {
    hide Text, Magnitude, Power, Numeral, Strtoul;
    var s := Text(notation, n, w, upper) + rest;
    NumberIsRead(notation, n, w, upper, rest);
    SignIsRead(spaces, sign, s);
    assert spaces + sign + s == spaces + sign + Text(notation, n, w, upper) + rest;
  }

  /** Nothing, no decimal digit first, a zero with no octal digit after it, or 0x with no hexadecimal digit
      after it. */
  predicate HasNoNumber(s: string) {
    || Ends(s, 10)
    || (s[0] == '0' && Ends(s[1..], 8) && !(|s| > 1 && (s[1] == 'x' || s[1] == 'X')))
    || (|s| > 1 && s[0] == '0' && (s[1] == 'x' || s[1] == 'X') && Ends(s[2..], 16))
  }

  lemma NoNumberIsZero(s: string)
    requires HasNoNumber(s)
    ensures Magnitude(s) == 0
  {
    if s != "" && s[0] == '0' {
      assert Value(s, 8, 0) == Value(s[1..], 8, 0);
    }
  }

  /** Where no number is, zero is read. */
  lemma StrtoulOfNoNumber(spaces: string, sign: string, s: string)
    requires forall i | 0 <= i < |spaces| :: spaces[i] == ' ' || 9 <= spaces[i] as int <= 13
    requires sign == "" || sign == "+" || sign == "-"
    requires sign == "" ==> s == "" || (!IsSpace(s[0]) && s[0] != '+' && s[0] != '-')
    requires HasNoNumber(s)
    ensures Strtoul(spaces + sign + s) == 0
  {
    hide Strtoul, Magnitude, HasNoNumber;
    NoNumberIsZero(s);
    SignIsRead(spaces, sign, s);
  }

  lemma PrefixedHexIsRead(n: nat, w: nat, upper: bool)
    requires 0 < w && n < Power(16, w) && n < ADDRESS_LIMIT
    ensures Strtoul("0x" + Numeral(n, 16, w, upper)) == n
  {
    hide Power, Numeral, Strtoul;
    StrtoulReads("", "", Hexadecimal(false), n, w, upper, "");
    assert "" + "" + Text(Hexadecimal(false), n, w, upper) + "" == "0x" + Numeral(n, 16, w, upper);
  }

  /** Every 64-bit address printed as "0x%016lX" parses back to itself. */
  lemma PrintedAddressRoundTrip(a: Addr)
    ensures Strtoul("0x" + Numeral(a, 16, 16, true)) == a
  {
    assert Power(16, 4) == 0x1_0000;
    assert Power(16, 8) == 0x1_0000_0000;
    assert Power(16, 12) == 0x1_0000_0000_0000;
    assert Power(16, 16) == ADDRESS_LIMIT;
    PrefixedHexIsRead(a, 16, true);
  }

  lemma {:induction false} CutsBeforeDash(s: string, rest: string)
    requires forall i | 0 <= i < |s| :: s[i] != '-'
    ensures BeforeDash(s + "-" + rest) == s
    decreases |s|
  {
    if s != "" {
      assert (s + "-" + rest)[1..] == s[1..] + "-" + rest;
      CutsBeforeDash(s[1..], rest);
    }
  }

  /** A line of /proc/<pid>/maps for a mapping that starts at `base`: its digits, a dash, anything. */
  ghost predicate IsMapsLine(line: string, base: Addr) {
    exists w: nat, rest: string :: 0 < w && base < Power(16, w) && line == Numeral(base, 16, w, false) + "-" + rest
  }

  /** Whatever follows the dash and however many digits are printed, the first line of the memory map
      gives the base address. */
  lemma MapsLineGivesBase(line: string, base: Addr)
    requires IsMapsLine(line, base)
    ensures BaseOf(line) == base
  {
    var w: nat, rest: string :| 0 < w && base < Power(16, w) && line == Numeral(base, 16, w, false) + "-" + rest;
    NumeralIsDigits(base, 16, w, false);
    CutsBeforeDash(Numeral(base, 16, w, false), rest);
    PrefixedHexIsRead(base, w, false);
  }
}
