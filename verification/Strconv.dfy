/** The parts of Go's strconv and strings packages that the text parsers use. */
module Strconv {
  import opened Types

  /** A parsed number, or why there is none. */
  datatype Number = Good(value: int) | Syntax | OutOfRange

  function DigitValue(c: char): Option<nat> {
    if '0' <= c <= '9' then Some(c as int - '0' as int)
    else if 'a' <= c <= 'z' then Some(c as int - 'a' as int + 10)
    else if 'A' <= c <= 'Z' then Some(c as int - 'A' as int + 10)
    else None
  }

  /** The first n characters as digits of a base; the leftmost fault decides. */
  function ParseDigits(s: string, n: nat, base: nat, max: nat): Number
    requires n <= |s|
  {
    if n == 0 then Good(0)
    else
      match ParseDigits(s, n - 1, base, max)
      case Syntax => Syntax
      case OutOfRange => OutOfRange
      case Good(v) =>
        match DigitValue(s[n - 1])
        case None => Syntax
        case Some(d) => if d >= base then Syntax else if v * base + d > max then OutOfRange else Good(v * base + d)
  }

  function ParseUint(s: string, base: nat, max: nat): Number {
    if s == "" then Syntax else ParseDigits(s, |s|, base, max)
  }

  /** The value Go returns beside an error: 0 for bad syntax, the largest value when out of range. */
  function UintOrDefault(s: string, base: nat, max: nat): nat {
    match ParseUint(s, base, max)
    case Good(v) => if v >= 0 then v else 0
    case Syntax => 0
    case OutOfRange => max
  }

  function Unsigned(s: string): string {
    if s != "" && (s[0] == '+' || s[0] == '-') then s[1..] else s
  }

  predicate Negative(s: string) {
    s != "" && s[0] == '-'
  }

  /** Signed numbers of a given bit width; cutoff is 2^(width - 1). */
  function ParseInt(s: string, base: nat, cutoff: nat): Number
    requires cutoff > 0
  {
    match ParseUint(Unsigned(s), base, 2 * cutoff - 1)
    case Syntax => Syntax
    case OutOfRange => OutOfRange
    case Good(v) =>
      if Negative(s) then (if v > cutoff then OutOfRange else Good(-v))
      else if v >= cutoff then OutOfRange else Good(v)
  }

  function IntOrDefault(s: string, base: nat, cutoff: nat): int
    requires cutoff > 0
  {
    match ParseInt(s, base, cutoff)
    case Good(v) => v
    case Syntax => 0
    case OutOfRange => if Negative(s) then 0 - cutoff else cutoff - 1
  }

  /** unicode.IsSpace. */
  predicate IsSpace(c: char) {
    var n := c as int;
    || 9 <= n <= 13 || n == 0x20 || n == 0x85 || n == 0xA0 || n == 0x1680 || 0x2000 <= n <= 0x200A
    || n == 0x2028 || n == 0x2029 || n == 0x202F || n == 0x205F || n == 0x3000
  }

  /** The length of the leading run of characters that are not white space. */
  function WordLength(s: string): (n: nat)
    ensures n <= |s| && (n < |s| ==> IsSpace(s[n])) && forall i :: 0 <= i < n ==> !IsSpace(s[i])
  {
    if s == "" || IsSpace(s[0]) then 0 else 1 + WordLength(s[1..])
  }

  /** strings.Fields: the maximal runs of characters that are not white space. */
  function Fields(s: string): seq<string> {
    if s == "" then []
    else if IsSpace(s[0]) then Fields(s[1..])
    else
      var n := WordLength(s);
      [s[..n]] + Fields(s[n..])
  }

  function TrimLeft(s: string): string {
    if s != "" && IsSpace(s[0]) then TrimLeft(s[1..]) else s
  }

  function TrimRight(s: string): string {
    if s != "" && IsSpace(s[|s| - 1]) then TrimRight(s[..|s| - 1]) else s
  }

  function TrimSpace(s: string): string {
    TrimRight(TrimLeft(s))
  }

  /** The position of the first c in s; the length if there is none. */
  function IndexOf(s: string, c: char): (n: nat)
    ensures n <= |s| && (n < |s| ==> s[n] == c) && forall i :: 0 <= i < n ==> s[i] != c
  {
    if s == "" || s[0] == c then 0 else 1 + IndexOf(s[1..], c)
  }

  /** strings.Split on one character. */
  function Split(s: string, c: char): (parts: seq<string>)
    ensures parts != []
    decreases |s|
  {
    var n := IndexOf(s, c);
    if n == |s| then [s] else [s[..n]] + Split(s[n + 1..], c)
  }

  function DigitChar(d: nat): char
    requires d < 16
  {
    if d < 10 then ('0' as int + d) as char else ('A' as int + d - 10) as char
  }

  /** Decimal digits, most significant first. */
  function Decimal(n: nat): string {
    if n < 10 then [DigitChar(n)] else Decimal(n / 10) + [DigitChar(n % 10)]
  }

  /** Exactly width hexadecimal digits in upper case, with zeros in front if need be. */
  function Hex(n: nat, width: nat): string {
    if width == 0 then "" else Hex(n / 16, width - 1) + [DigitChar(n % 16)]
  }

  // ----- Numbers read back what was printed

  /** 16 to the power of width. */
  function HexLimit(width: nat): nat {
    if width == 0 then 1 else 16 * HexLimit(width - 1)
  }

  lemma DigitsOfDigit(d: nat)
    requires d < 16
    ensures DigitValue(DigitChar(d)) == Some(d) && !IsSpace(DigitChar(d))
    ensures !IsPunctuation(DigitChar(d)) && (DigitChar(d) == '0' <==> d == 0)
  {}

  /** Digits are printed in upper case and read in either case. */
  lemma DigitNames(d: nat)
    requires d < 16
    ensures DigitChar(d) == "0123456789ABCDEF"[d]
    ensures DigitValue("0123456789abcdef"[d]) == DigitValue("0123456789ABCDEF"[d]) == Some(d)
  {}

  lemma {:induction false} ParseSamePrefix(s: string, t: string, n: nat, base: nat, max: nat)
    requires n <= |s| && n <= |t| && s[..n] == t[..n]
    ensures ParseDigits(s, n, base, max) == ParseDigits(t, n, base, max)
  {
    if n > 0 {
      assert s[n - 1] == s[..n][n - 1] == t[..n][n - 1] == t[n - 1];
      assert s[..n - 1] == s[..n][..n - 1] == t[..n][..n - 1] == t[..n - 1];
      ParseSamePrefix(s, t, n - 1, base, max);
    }
  }

  lemma ParseOneMore(s: string, d: nat, base: nat, max: nat, v: nat)
    requires d < base <= 16 && ParseDigits(s, |s|, base, max) == Good(v) && v * base + d <= max
    ensures ParseDigits(s + [DigitChar(d)], |s| + 1, base, max) == Good(v * base + d)
  {
    var longer := s + [DigitChar(d)];
    DigitsOfDigit(d);
    assert longer[..|s|] == s[..|s|];
    ParseSamePrefix(longer, s, |s|, base, max);
  }

  lemma {:induction false} DecimalReadsBack(n: nat, max: nat)
    requires n <= max
    ensures ParseDigits(Decimal(n), |Decimal(n)|, 10, max) == Good(n)
    decreases n
  {
    if n < 10 {
      ParseOneMore("", n, 10, max, 0);
      assert "" + [DigitChar(n)] == [DigitChar(n)];
    } else {
      DecimalReadsBack(n / 10, max);
      ParseOneMore(Decimal(n / 10), n % 10, 10, max, n / 10);
    }
  }

  /** What is larger than the largest number allowed is out of range, however large. */
  lemma {:induction false} DecimalOverflows(n: nat, max: nat)
    requires n > max
    ensures ParseDigits(Decimal(n), |Decimal(n)|, 10, max) == OutOfRange
    decreases n
  {
    DigitsOfDigit(n % 10);
    if n < 10 {
      assert ParseDigits(Decimal(n), 0, 10, max) == Good(0);
    } else {
      var front := Decimal(n / 10);
      assert Decimal(n)[..|front|] == front[..|front|];
      ParseSamePrefix(Decimal(n), front, |front|, 10, max);
      if n / 10 > max {
        DecimalOverflows(n / 10, max);
      } else {
        DecimalReadsBack(n / 10, max);
      }
    }
  }

  /** Beside an error, a number that is too large counts as the largest, and text that is no number as 0. */
  lemma DecimalClamps(n: nat, max: nat)
    ensures UintOrDefault(Decimal(n), 10, max) == if n <= max then n else max
  {
    DecimalIsPlain(n);
    if n <= max {
      DecimalReadsBack(n, max);
    } else {
      DecimalOverflows(n, max);
    }
  }

  /** The same for signed numbers: -cutoff and cutoff - 1 are the ends. */
  lemma SignedDecimalClamps(n: nat, cutoff: nat)
    requires cutoff > 0
    ensures IntOrDefault(Decimal(n), 10, cutoff) == if n < cutoff then n else cutoff - 1
    ensures IntOrDefault("-" + Decimal(n), 10, cutoff) == if n <= cutoff then 0 - n else 0 - cutoff
  {
    DecimalIsPlain(n);
    PlainHasNoSign(Decimal(n));
    var minus := "-" + Decimal(n);
    assert Negative(minus) && Unsigned(minus) == Decimal(n) by {
      assert minus[1..] == Decimal(n);
    }
    if n <= 2 * cutoff - 1 {
      DecimalReadsBack(n, 2 * cutoff - 1);
    } else {
      DecimalOverflows(n, 2 * cutoff - 1);
    }
  }

  /** Text that starts with no digit of the base is no number. */
  lemma {:induction false} NoDigitIsSyntax(s: string, n: nat, base: nat, max: nat)
    requires 0 < n <= |s| && (DigitValue(s[0]) == None || DigitValue(s[0]).value >= base)
    ensures ParseDigits(s, n, base, max) == Syntax
  {
    if n > 1 {
      NoDigitIsSyntax(s, n - 1, base, max);
    }
  }

  lemma BadTextCountsAsZero(s: string, base: nat, max: nat)
    requires s == "" || DigitValue(s[0]) == None || DigitValue(s[0]).value >= base
    ensures UintOrDefault(s, base, max) == 0
  {
    if s != "" {
      NoDigitIsSyntax(s, |s|, base, max);
    }
  }

  lemma {:induction false} HexReadsBack(n: nat, width: nat, max: nat)
    requires n < HexLimit(width) && n <= max
    ensures |Hex(n, width)| == width
    ensures ParseDigits(Hex(n, width), width, 16, max) == Good(n)
  {
    if width > 0 {
      HexReadsBack(n / 16, width - 1, max);
      ParseOneMore(Hex(n / 16, width - 1), n % 16, 16, max, n / 16);
    }
  }

  predicate IsPunctuation(c: char) {
    c == ':' || c == '.' || c == '%' || c == '+' || c == '-'
  }

  /** Neither white space nor punctuation: what numbers and hexadecimal addresses are made of. */
  predicate Plain(s: string) {
    forall i :: 0 <= i < |s| ==> !IsSpace(s[i]) && !IsPunctuation(s[i])
  }

  lemma {:induction false} DecimalIsPlain(n: nat)
    ensures Plain(Decimal(n)) && Decimal(n) != ""
    decreases n
  {
    DigitsOfDigit(n % 10);
    if n >= 10 {
      DecimalIsPlain(n / 10);
    }
  }

  lemma {:induction false} DecimalHasNoLeadingZero(n: nat)
    requires n > 0
    ensures Decimal(n) != "" && Decimal(n)[0] != '0'
    decreases n
  {
    if n < 10 {
      DigitsOfDigit(n);
    } else {
      DecimalHasNoLeadingZero(n / 10);
    }
  }

  lemma {:induction false} HexIsPlain(n: nat, width: nat)
    ensures Plain(Hex(n, width)) && |Hex(n, width)| == width
  {
    if width > 0 {
      DigitsOfDigit(n % 16);
      HexIsPlain(n / 16, width - 1);
    }
  }

  /** An unsigned reading of printed digits, in any of Go's functions. */
  lemma PlainHasNoSign(s: string)
    requires Plain(s)
    ensures Unsigned(s) == s && !Negative(s)
  {}

  // ----- Words and lines

  predicate Blank(s: string) {
    forall i :: 0 <= i < |s| ==> IsSpace(s[i])
  }

  predicate Word(s: string) {
    s != "" && forall i :: 0 <= i < |s| ==> !IsSpace(s[i])
  }

  lemma {:induction false} FieldsSkipBlank(blank: string, s: string)
    requires Blank(blank)
    ensures Fields(blank + s) == Fields(s)
  {
    if blank == "" {
      assert blank + s == s;
    } else {
      assert (blank + s)[1..] == blank[1..] + s;
      FieldsSkipBlank(blank[1..], s);
    }
  }

  lemma {:induction false} WordLengthIs(word: string, rest: string)
    requires forall i :: 0 <= i < |word| ==> !IsSpace(word[i])
    requires rest == "" || IsSpace(rest[0])
    ensures WordLength(word + rest) == |word|
  {
    if word == "" {
      assert word + rest == rest;
    } else {
      assert (word + rest)[1..] == word[1..] + rest;
      WordLengthIs(word[1..], rest);
    }
  }

  lemma FieldsTakeWord(word: string, rest: string)
    requires Word(word) && (rest == "" || IsSpace(rest[0]))
    ensures Fields(word + rest) == [word] + Fields(rest)
  {
    WordLengthIs(word, rest);
    assert (word + rest)[0] == word[0];
    assert (word + rest)[..|word|] == word;
    assert (word + rest)[|word|..] == rest;
  }

  /** Printable ASCII, the blank apart. */
  predicate Printable(s: string) {
    forall i :: 0 <= i < |s| ==> 33 <= s[i] as int <= 126
  }

  /** Words with the same one character before each. */
  function Spaced(space: char, words: seq<string>): string {
    if words == [] then "" else [space] + (words[0] + Spaced(space, words[1..]))
  }

  /** Blanks, tabs and line ends separate, and no printable character does. */
  lemma {:induction false} FieldsOfSpaced(space: char, words: seq<string>)
    requires space == ' ' || space == '\t' || space == '\n' || space == '\r'
    requires forall i :: 0 <= i < |words| ==> words[i] != "" && Printable(words[i])
    ensures Fields(Spaced(space, words)) == words
  {
    if words != [] {
      var rest := Spaced(space, words[1..]);
      FieldsOfSpaced(space, words[1..]);
      FieldsSkipBlank([space], words[0] + rest);
      FieldsTakeWord(words[0], rest);
      assert words == [words[0]] + words[1..];
    }
  }

  lemma {:induction false} FieldsDropBlank(s: string, c: char)
    requires IsSpace(c)
    ensures Fields(s + [c]) == Fields(s)
    decreases |s|
  {
    if s == "" {
      FieldsSkipBlank([c], "");
      assert s + [c] == [c] + "" == [c];
    } else if IsSpace(s[0]) {
      assert (s + [c])[1..] == s[1..] + [c];
      FieldsDropBlank(s[1..], c);
    } else {
      var n := WordLength(s);
      assert s == s[..n] + s[n..];
      assert s + [c] == s[..n] + (s[n..] + [c]);
      FieldsTakeWord(s[..n], s[n..] + [c]);
      FieldsTakeWord(s[..n], s[n..]);
      FieldsDropBlank(s[n..], c);
    }
  }

  lemma {:induction false} FieldsOfTrimLeft(s: string)
    ensures Fields(TrimLeft(s)) == Fields(s)
  {
    if s != "" && IsSpace(s[0]) {
      FieldsOfTrimLeft(s[1..]);
    }
  }

  lemma {:induction false} FieldsOfTrimRight(s: string)
    ensures Fields(TrimRight(s)) == Fields(s)
  {
    if s != "" && IsSpace(s[|s| - 1]) {
      FieldsOfTrimRight(s[..|s| - 1]);
      FieldsDropBlank(s[..|s| - 1], s[|s| - 1]);
      assert s == s[..|s| - 1] + [s[|s| - 1]];
    }
  }

  /** Trimming a line does not change its fields. */
  lemma FieldsOfTrim(s: string)
    ensures Fields(TrimSpace(s)) == Fields(s)
  {
    FieldsOfTrimLeft(s);
    FieldsOfTrimRight(TrimLeft(s));
  }

  lemma IndexOfFirst(head: string, c: char, rest: string)
    requires forall i :: 0 <= i < |head| ==> head[i] != c
    ensures IndexOf(head + [c] + rest, c) == |head|
    ensures IndexOf(head, c) == |head|
  {
    var s := head + [c] + rest;
    assert s[|head|] == c;
    assert forall i :: 0 <= i < |head| ==> s[i] == head[i];
  }

  /** Splitting after the first separator. */
  lemma SplitFirst(head: string, c: char, rest: string)
    requires forall i :: 0 <= i < |head| ==> head[i] != c
    ensures Split(head + [c] + rest, c) == [head] + Split(rest, c)
    ensures Split(head, c) == [head]
  {
    IndexOfFirst(head, c, rest);
    assert (head + [c] + rest)[..|head|] == head;
    assert (head + [c] + rest)[|head| + 1..] == rest;
  }
}
