/** The pieces of the Java library that the core leans on for its text formats:
    `String.split("\\s")`, `Integer.parseInt`, `Integer.toString`,
    `Integer.toHexString`, `Character.getNumericValue` and
    `BufferedReader.readLine`.  Only ASCII digits and letters are given a
    numeric value here (see README, "Left out"). */
module Text {
  import opened Wrappers
  import opened Int32

  // ---------------------------------------------------------------------------
  // String.split("\\s")
  // ---------------------------------------------------------------------------

  /** The characters matched by the regular expression `\s`. */
  predicate IsSpace(c: char) {
    c == ' ' || c == '\t' || c == '\n' || c == '\U{000B}' || c == '\U{000C}' || c == '\r'
  }

  predicate NoSpace(s: string) {
    forall i | 0 <= i < |s| :: !IsSpace(s[i])
  }

  /** The pieces between consecutive `\s` matches, empty pieces included. */
  function Fields(s: string): (r: seq<string>)
    ensures |r| >= 1
    ensures forall k | 0 <= k < |r| :: NoSpace(r[k])
  {
    if s == [] then [[]]
    else
      var rest := Fields(s[1..]);
      if IsSpace(s[0]) then [[]] + rest
      else [[s[0]] + rest[0]] + rest[1..]
  }

  /** Removes the empty strings at the end of a list of pieces. */
  function DropTrailingEmpty(fs: seq<string>): (r: seq<string>)
    ensures |r| <= |fs| && r == fs[..|r|]
    ensures r == [] || r[|r| - 1] != []
    ensures forall k | |r| <= k < |fs| :: fs[k] == []
  {
    if fs != [] && fs[|fs| - 1] == [] then DropTrailingEmpty(fs[..|fs| - 1]) else fs
  }

  /** `s.split("\\s")`: an input without any match comes back whole (so "" gives [""]);
      otherwise the pieces between matches with the trailing empty ones removed. */
  function Split(s: string): (r: seq<string>)
    ensures forall k | 0 <= k < |r| :: NoSpace(r[k])
    ensures NoSpace(s) ==> r == [s]
    ensures s != [] ==> r == [] || r[|r| - 1] != []
  {
    if s == [] then [s]
    else if NoSpace(s) then FieldsOfWord(s); DropTrailingEmpty(Fields(s))
    else DropTrailingEmpty(Fields(s))
  }

  lemma {:induction false} FieldsOfWord(a: string)
    requires NoSpace(a)
    ensures Fields(a) == [a]
  {
    if a != [] {
      FieldsOfWord(a[1..]);
      assert [a[0]] + a[1..] == a;
    }
  }

  lemma {:induction false} FieldsOfSpaced(a: string, t: string)
    requires NoSpace(a)
    ensures Fields(a + [' '] + t) == [a] + Fields(t)
  {
    var s := a + [' '] + t;
    if a == [] {
      assert s[1..] == t;
    } else {
      assert s[1..] == a[1..] + [' '] + t;
      FieldsOfSpaced(a[1..], t);
      assert [a[0]] + a[1..] == a;
    }
  }

  /** Three space-free words joined by single blanks split back into the three words. */
  lemma SplitThree(a: string, b: string, c: string)
    requires NoSpace(a) && NoSpace(b) && NoSpace(c) && c != []
    ensures Split(a + " " + b + " " + c) == [a, b, c]
  {
    FieldsOfSpaced(a, b + " " + c);
    FieldsOfSpaced(b, c);
    FieldsOfWord(c);
    assert a + " " + b + " " + c == a + [' '] + (b + [' '] + c);
  }

  /** Two words followed by a trailing blank split into the two words: `split` drops
      the empty piece after the last blank. */
  lemma SplitTwoTrailing(a: string, b: string)
    requires NoSpace(a) && NoSpace(b) && b != []
    ensures Split(a + " " + b + " ") == [a, b]
  {
    var t: string := [];
    assert b + " " == b + [' '] + t;
    assert a + " " + b + " " == a + [' '] + (b + " ");
    FieldsOfSpaced(a, b + " ");
    FieldsOfSpaced(b, t);
    assert Fields(t) == [[]];
    var fs := Fields(a + " " + b + " ");
    assert fs == [a, b, []];
    assert DropTrailingEmpty(fs) == DropTrailingEmpty([a, b]);
  }

  // ---------------------------------------------------------------------------
  // Digits, Integer.parseInt, Integer.toString, Integer.toHexString
  // ---------------------------------------------------------------------------

  /** The lower-case digit Java prints for a digit value below 16. */
  function DigitChar(d: nat): char
    requires d < 16
  {
    if d < 10 then ('0' as int + d) as char else ('a' as int + d - 10) as char
  }

  /** `Character.digit(c, base)` restricted to ASCII: 0-9, then a-z or A-Z from 10,
      accepted when below the base. */
  function DigitValue(c: char, base: nat): (r: Option<nat>)
    ensures r.Some? ==> r.value < base
  {
    var v :=
      if '0' <= c <= '9' then c as int - '0' as int
      else if 'a' <= c <= 'z' then c as int - 'a' as int + 10
      else if 'A' <= c <= 'Z' then c as int - 'A' as int + 10
      else -1;
    if 0 <= v < base then Some(v) else None
  }

  lemma DigitCharValue(d: nat, base: nat)
    requires d < base <= 16
    ensures DigitValue(DigitChar(d), base) == Some(d)
  {
  }

  /** A digit character is neither a sign, nor a blank, nor a line break. */
  predicate IsDigitChar(c: char) {
    ('0' <= c <= '9') || ('a' <= c <= 'z') || ('A' <= c <= 'Z')
  }

  /** The digits of `n` in `base`, most significant first, no leading zeros. */
  function Digits(n: nat, base: nat): (r: string)
    requires 2 <= base <= 16
    ensures |r| >= 1
    ensures forall i | 0 <= i < |r| :: IsDigitChar(r[i])
    decreases n
  {
    if n < base then [DigitChar(n)]
    else
      DivMod(n, base);
      Digits(n / base, base) + [DigitChar(n % base)]
  }

  lemma DivMod(n: nat, base: nat)
    requires 2 <= base <= n
    ensures 0 <= n / base < n && n % base < base
    ensures n == (n / base) * base + n % base
  {
  }

  /** The value of a string of digits read left to right; None for a non-digit. */
  function DigitsValue(s: string, base: nat): Option<nat>
    decreases |s|
  {
    if s == [] then Some(0)
    else
      match DigitsValue(s[..|s| - 1], base)
      case None => None
      case Some(v) =>
        match DigitValue(s[|s| - 1], base)
        case None => None
        case Some(d) => Some(v * base + d)
  }

  lemma {:induction false} DigitsRoundTrip(n: nat, base: nat)
    requires 2 <= base <= 16
    ensures DigitsValue(Digits(n, base), base) == Some(n)
    decreases n
  {
    var s := Digits(n, base);
    if n < base {
      DigitCharValue(n, base);
      assert s[..0] == [];
    } else {
      var q, d := n / base, n % base;
      DivMod(n, base);
      DigitsRoundTrip(q, base);
      DigitCharValue(d, base);
      assert s == Digits(q, base) + [DigitChar(d)];
      assert s[..|s| - 1] == Digits(q, base);
      assert s[|s| - 1] == DigitChar(d);
      assert DigitsValue(s, base) == Some(q * base + d);
    }
  }

  /** A string of digits has a value exactly when each of its characters is a
      digit of the base. */
  lemma {:induction false} DigitsValueSome(s: string, base: nat)
    ensures DigitsValue(s, base).Some? <==> forall i | 0 <= i < |s| :: DigitValue(s[i], base).Some?
    decreases |s|
  {
    if s != [] {
      var init := s[..|s| - 1];
      DigitsValueSome(init, base);
      assert forall i | 0 <= i < |init| :: init[i] == s[i];
    }
  }

  /** The characters after the sign. */
  function Unsigned(s: string): string {
    if s != [] && (s[0] == '-' || s[0] == '+') then s[1..] else s
  }

  /** `Integer.parseInt(s, base)`: an optional '-' or '+', at least one digit, and a
      value that fits in an int; None where Java throws NumberFormatException. */
  function ParseInt(s: string, base: nat): (r: Option<int32>)
    ensures r.Some? ==> Unsigned(s) != []
    ensures r.Some? ==> forall i | 0 <= i < |Unsigned(s)| :: DigitValue(Unsigned(s)[i], base).Some?
    ensures r.Some? && r.value < 0 ==> s != [] && s[0] == '-'
  {
    DigitsValueSome(Unsigned(s), base);
    if s == [] then None
    else
      var negative := s[0] == '-';
      var body := Unsigned(s);
      if body == [] then None
      else
        match DigitsValue(body, base)
        case None => None
        case Some(v) =>
          var n: int := if negative then -(v as int) else v;
          if MIN <= n <= MAX then Some(n) else None
  }

  /** `Integer.toString(n)`, also what string concatenation prints for an int. */
  function Decimal(n: int): (r: string)
    ensures IsWord(r)
    ensures r[0] == '-' <==> n < 0
  {
    Signed(n, 10)
  }

  /** `Integer.toString(n, 16)`: signed, lower-case. */
  function SignedHex(n: int): (r: string)
    ensures IsWord(r)
    ensures r[0] == '-' <==> n < 0
  {
    Signed(n, 16)
  }

  /** A minus sign for a negative number, then the digits of its magnitude. */
  function Signed(n: int, base: nat): (r: string)
    requires 2 <= base <= 16
    ensures IsWord(r)
    ensures r[0] == '-' <==> n < 0
  {
    if n < 0 then
      var d := Digits(-n, base);
      assert forall i | 1 <= i < |"-" + d| :: ("-" + d)[i] == d[i - 1];
      "-" + d
    else Digits(n, base)
  }

  /** `Integer.toHexString(n)`: the 32-bit two's-complement pattern as unsigned hex,
      so never with a sign. */
  function HexString(n: int32): (r: string)
    ensures IsWord(r)
    ensures forall i | 0 <= i < |r| :: IsDigitChar(r[i])
  {
    Digits(if n < 0 then n + MODULUS else n, 16)
  }

  /** A printed number is a non-empty word without blanks or line breaks. */
  predicate IsWord(s: string) {
    s != [] && NoSpace(s) && NoLineBreak(s)
  }

  /** Parsing what Integer.toString prints gives the number back. */
  lemma DecimalRoundTrip(n: int32)
    ensures ParseInt(Decimal(n), 10) == Some(n)
  {
    var s := Decimal(n);
    if n < 0 {
      DigitsRoundTrip(-(n as int), 10);
      assert s[1..] == Digits(-(n as int), 10);
    } else {
      DigitsRoundTrip(n, 10);
    }
  }

  /** A colour in 0..15 prints as one lower-case hex digit under both hex printers. */
  lemma HexDigitText(n: int)
    requires 0 <= n < 16
    ensures SignedHex(n) == [DigitChar(n)]
    ensures HexString(n) == [DigitChar(n)]
    ensures ParseInt([DigitChar(n)], 16) == Some(n)
  {
    DigitCharValue(n, 16);
    var s := [DigitChar(n)];
    assert s[0] != '-' && s[0] != '+';
    assert s[..0] == [];
    assert DigitsValue(s, 16) == Some(n);
  }

  /** A non-negative int printed by toHexString parses back with radix 16. */
  lemma HexStringRoundTrip(n: int32)
    requires n >= 0
    ensures ParseInt(HexString(n), 16) == Some(n)
  {
    DigitsRoundTrip(n, 16);
  }

  // ---------------------------------------------------------------------------
  // Character.getNumericValue
  // ---------------------------------------------------------------------------

  /** `Character.getNumericValue(c)` on ASCII: digits 0-9, letters a-z and A-Z 10-35,
      anything else -1. */
  function NumericValue(c: char): (r: int)
    ensures -1 <= r < 36
    ensures r >= 0 <==> IsDigitChar(c)
  {
    match DigitValue(c, 36)
    case Some(v) => v
    case None => -1
  }

  lemma NumericValueOfDigit(d: nat)
    requires d < 16
    ensures NumericValue(DigitChar(d)) == d
  {
  }

  // ---------------------------------------------------------------------------
  // BufferedReader.readLine and the "\n"-terminated lines a StringBuilder builds
  // ---------------------------------------------------------------------------

  predicate IsLineBreak(c: char) {
    c == '\n' || c == '\r'
  }

  predicate NoLineBreak(s: string) {
    forall i | 0 <= i < |s| :: !IsLineBreak(s[i])
  }

  lemma NoLineBreakConcat(a: string, b: string)
    requires NoLineBreak(a) && NoLineBreak(b)
    ensures NoLineBreak(a + b)
  {
    assert forall i | |a| <= i < |a + b| :: (a + b)[i] == b[i - |a|];
  }

  /** The index of the first line terminator, or |s| when there is none. */
  function LineEnd(s: string): (k: nat)
    ensures k <= |s|
    ensures NoLineBreak(s[..k])
    ensures k < |s| ==> IsLineBreak(s[k])
  {
    if s == [] || IsLineBreak(s[0]) then 0
    else
      var k := 1 + LineEnd(s[1..]);
      assert s[..k] == [s[0]] + s[1..][..k - 1];
      k
  }

  /** The successive results of `readLine` until it returns null: lines end at
      "\n", "\r" or "\r\n", and a last line without a terminator still counts. */
  function ReadLines(s: string): (r: seq<string>)
    ensures forall k | 0 <= k < |r| :: NoLineBreak(r[k])
    ensures NoLineBreak(s) ==> r == (if s == [] then [] else [s])
    decreases |s|
  {
    if s == [] then []
    else
      var k := LineEnd(s);
      if k == |s| then [s]
      else if s[k] == '\r' && k + 1 < |s| && s[k + 1] == '\n' then [s[..k]] + ReadLines(s[k + 2..])
      else [s[..k]] + ReadLines(s[k + 1..])
  }

  /** Lines each followed by "\n", as `toString` builds them. */
  function JoinLines(lines: seq<string>): string
  {
    if lines == [] then [] else lines[0] + "\n" + JoinLines(lines[1..])
  }

  lemma {:induction false} LineEndOf(l: string, rest: string)
    requires NoLineBreak(l)
    ensures LineEnd(l + "\n" + rest) == |l|
  {
    if l != [] {
      assert (l + "\n" + rest)[1..] == l[1..] + "\n" + rest;
      LineEndOf(l[1..], rest);
    }
  }

  /** Reading back lines that hold no terminator gives the same lines. */
  lemma {:induction false} ReadJoinLines(lines: seq<string>)
    requires forall k | 0 <= k < |lines| :: NoLineBreak(lines[k])
    ensures ReadLines(JoinLines(lines)) == lines
  {
    if lines != [] {
      var l, rest := lines[0], JoinLines(lines[1..]);
      var s := l + "\n" + rest;
      LineEndOf(l, rest);
      assert s[..|l|] == l;
      assert s[|l| + 1..] == rest;
      ReadJoinLines(lines[1..]);
    }
  }
}
