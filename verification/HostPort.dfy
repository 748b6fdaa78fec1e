/** The parts of Go's net, strconv and strings packages that address handling relies on. */
module HostPort {
  import opened Wrappers

  // ---- Searching ----

  /** The position of the first c, or the length. */
  function First(s: string, c: char): (i: nat)
    ensures i <= |s| && (forall j :: 0 <= j < i ==> s[j] != c) && (i < |s| ==> s[i] == c)
  {
    if s == "" || s[0] == c then 0 else 1 + First(s[1..], c)
  }

  /** The position of the last c, or -1. */
  function Last(s: string, c: char): (i: int)
    ensures -1 <= i < |s| && (i >= 0 ==> s[i] == c) && (forall j :: i < j < |s| ==> s[j] != c)
  {
    if s == "" then -1 else if s[|s| - 1] == c then |s| - 1 else Last(s[..|s| - 1], c)
  }

  lemma LastUnique(s: string, c: char, i: nat)
    requires i < |s| && s[i] == c && c !in s[i + 1..]
    ensures Last(s, c) == i
  {
    forall k | i < k < |s| ensures s[k] != c { assert s[k] == s[i + 1..][k - i - 1]; }
  }

  lemma FirstUnique(s: string, c: char, i: nat)
    requires i < |s| && c !in s[..i] && s[i] == c
    ensures First(s, c) == i
  {
    forall k | 0 <= k < i ensures s[k] != c { assert s[k] == s[..i][k]; }
  }

  // ---- net.SplitHostPort ----

  datatype AddrError = MissingPort | TooManyColons | MissingBracket | UnexpectedOpen | UnexpectedClose

  function CheckBrackets(s: string, j: nat, k: nat, host: string, port: string): Result<(string, string), AddrError>
    requires j <= |s| && k <= |s|
  {
    if '[' in s[j..] then Failure(UnexpectedOpen)
    else if ']' in s[k..] then Failure(UnexpectedClose)
    else Success((host, port))
  }

  /** An address that begins with a bracket, with its last colon at i. */
  function SplitBracketed(s: string, i: nat): Result<(string, string), AddrError>
    requires i < |s| && s[0] == '['
  {
    var end := First(s, ']');
    if end == |s| then Failure(MissingBracket)
    else if end + 1 == |s| then Failure(MissingPort)
    else if end + 1 == i then CheckBrackets(s, 1, end + 1, s[1..end], s[i + 1..])
    else if s[end + 1] == ':' then Failure(TooManyColons)
    else Failure(MissingPort)
  }

  function SplitHostPort(s: string): Result<(string, string), AddrError> {
    var i := Last(s, ':');
    if i < 0 then Failure(MissingPort)
    else if s[0] == '[' then SplitBracketed(s, i)
    else if ':' in s[..i] then Failure(TooManyColons)
    else CheckBrackets(s, 0, 0, s[..i], s[i + 1..])
  }

  // ---- Decimal numbers ----

  const INT64_LIMIT := 0x8000_0000_0000_0000

  predicate IsInt64(n: int) { -INT64_LIMIT <= n < INT64_LIMIT }

  predicate IsDigit(c: char) { '0' <= c <= '9' }

  function DecimalNat(n: nat): (s: string)
    ensures s != "" && forall c :: c in s ==> IsDigit(c)
  {
    (if n < 10 then "" else DecimalNat(n / 10)) + ['0' + (n % 10) as char]
  }

  /** What %d prints. */
  function Decimal(n: int): string { if n < 0 then "-" + DecimalNat(-n) else DecimalNat(n) }

  /** The number a string of digits spells, if it is one. */
  function Digits(s: string): Option<nat> {
    if s == "" || !IsDigit(s[|s| - 1]) then None
    else if |s| == 1 then Some((s[0] - '0') as nat)
    else
      match Digits(s[..|s| - 1])
      case None => None
      case Some(n) => Some(n * 10 + (s[|s| - 1] - '0') as nat)
  }

  /** strconv.Atoi: a sign, digits, and a value that fits 64 bits. */
  function Atoi(s: string): Option<int> {
    var digits := if s != "" && (s[0] == '-' || s[0] == '+') then s[1..] else s;
    match Digits(digits)
    case None => None
    case Some(n) =>
      var v: int := if s[0] == '-' then -(n as int) else n;
      if IsInt64(v) then Some(v) else None
  }

  // ---- What a string of digits spells ----

  ghost function Pow10(n: nat): nat { if n == 0 then 1 else 10 * Pow10(n - 1) }

  /** Each digit times its power of ten. */
  ghost function PlaceValue(s: string): int {
    if s == "" then 0 else (s[0] as int - '0' as int) * Pow10(|s| - 1) + PlaceValue(s[1..])
  }

  lemma {:induction false} PlaceValueSnoc(s: string, c: char)
    ensures PlaceValue(s + [c]) == PlaceValue(s) * 10 + (c as int - '0' as int)
  {
    if s == "" {
      assert s + [c] == [c];
      assert PlaceValue([c][1..]) == 0;
    } else {
      assert (s + [c])[1..] == s[1..] + [c];
      PlaceValueSnoc(s[1..], c);
      var first, p := s[0] as int - '0' as int, Pow10(|s| - 1);
      assert Pow10(|s|) == 10 * p;
      assert first * (10 * p) == first * p * 10;
    }
  }

  ghost predicate AllDigits(s: string) { s != "" && forall c :: c in s ==> IsDigit(c) }

  lemma {:induction false} DigitsSpell(s: string)
    ensures Digits(s).Some? <==> AllDigits(s)
    ensures Digits(s).Some? ==> Digits(s).value == PlaceValue(s)
  {
    if s != "" {
      var front, c := s[..|s| - 1], s[|s| - 1];
      assert s == front + [c];
      PlaceValueSnoc(front, c);
      if front != "" {
        DigitsSpell(front);
      } else {
        assert PlaceValue(front) == 0;
      }
    }
  }

  ghost predicate SpelledAs(s: string, sign: string, digits: string, n: int) {
    && s == sign + digits && (sign == "" || sign == "+" || sign == "-") && AllDigits(digits)
    && n == if sign == "-" then -PlaceValue(digits) else PlaceValue(digits)
  }

  /** The string is a decimal numeral for n: digits, with at most one sign before them. */
  ghost predicate Spells(s: string, n: int) { exists sign, digits :: SpelledAs(s, sign, digits, n) }

  /** Parsing succeeds exactly on decimal numerals of 64-bit numbers, and gives the number. */
  lemma AtoiIff(s: string, n: int)
    ensures Atoi(s) == Some(n) <==> Spells(s, n) && -9223372036854775808 <= n <= 9223372036854775807
  {
    var signed := s != "" && (s[0] == '-' || s[0] == '+');
    var sign, digits := if signed then s[..1] else "", if signed then s[1..] else s;
    assert s == sign + digits;
    DigitsSpell(digits);
    if Digits(digits).Some? {
      assert SpelledAs(s, sign, digits, if sign == "-" then -PlaceValue(digits) else PlaceValue(digits));
    }
    forall g, e | SpelledAs(s, g, e, n) ensures g == sign && e == digits {
      OneReading(s, g, e, n);
    }
  }

  lemma OneReading(s: string, sign: string, digits: string, n: int)
    requires SpelledAs(s, sign, digits, n)
    ensures s != ""
    ensures if s[0] == '-' || s[0] == '+' then sign == s[..1] && digits == s[1..] else sign == "" && digits == s
  {
    assert digits[0] in digits;
  }

  lemma {:induction false} DigitsOfDecimal(n: nat)
    ensures Digits(DecimalNat(n)) == Some(n)
  {
    var s := DecimalNat(n);
    if n >= 10 {
      DigitsOfDecimal(n / 10);
      assert s[..|s| - 1] == DecimalNat(n / 10);
    }
  }

  /** Printing a 64-bit number and parsing it back. */
  lemma AtoiOfDecimal(n: int)
    requires IsInt64(n)
    ensures Atoi(Decimal(n)) == Some(n)
  {
    if n < 0 {
      DigitsOfDecimal(-n);
      assert Decimal(n)[1..] == DecimalNat(-n);
    } else {
      DigitsOfDecimal(n);
      assert DecimalNat(n)[0] in DecimalNat(n);
    }
  }

  /** A printed number has no colon, bracket or white space in it. */
  lemma DecimalCharacters(n: int, c: char)
    requires c in Decimal(n)
    ensures c == '-' || IsDigit(c)
  {
  }
}
