/** Decimal numbers as std::from_chars reads them and std::to_string prints them. */
module Decimal {
  import opened Common

  predicate IsDigit(c: char) { '0' <= c <= '9' }

  predicate AllDigits(s: string) {
    forall i :: 0 <= i < |s| ==> IsDigit(s[i])
  }

  /** The number a run of digits denotes; leading zeros are allowed. */
  function Value(s: string): nat
    requires AllDigits(s)
  {
    if s == "" then 0
    else 10 * Value(s[..|s| - 1]) + (s[|s| - 1] as int - '0' as int)
  }

  /** Whole-text unsigned read: no sign, no blanks, at least one digit, no overflow. */
  function ParseUnsigned(text: string, max: nat): (r: Option<nat>)
    ensures r.Some? ==> text != "" && IsDigit(text[0]) && r.value <= max
  {
    if text != "" && AllDigits(text) && Value(text) <= max
    then Some(Value(text)) else None
  }

  /** Whole-text read into a signed 32-bit integer: an optional minus, then digits. */
  function ParseInt32(text: string): (r: Option<int>)
    ensures r.Some? ==> -(MAX_INT32 + 1) <= r.value <= MAX_INT32
  {
    if text != "" && text[0] == '-' then
      match ParseUnsigned(text[1..], MAX_INT32 + 1)
      case Some(magnitude) => Some(0 - magnitude)
      case None => None
    else
      ParseUnsigned(text, MAX_INT32)
  }

  function Print(n: nat): (s: string)
    ensures s != "" && AllDigits(s)
  {
    if n < 10 then [('0' as int + n) as char]
    else Print(n / 10) + [('0' as int + n % 10) as char]
  }

  lemma {:induction false} ValueOfPrint(n: nat)
    ensures Value(Print(n)) == n
  {
    if n < 10 {
      assert Print(n)[..0] == "";
    } else {
      ValueOfPrint(n / 10);
      assert Print(n)[..|Print(n)| - 1] == Print(n / 10);
    }
  }

  /** Reading inverts printing for every number within the bound, and fails beyond it. */
  lemma ParseInvertsPrint(n: nat, max: nat)
    ensures ParseUnsigned(Print(n), max) == if n <= max then Some(n) else None
  {
    ValueOfPrint(n);
  }

  lemma ParseInt32InvertsPrint(n: nat)
    ensures ParseInt32(Print(n)) == if n <= MAX_INT32 then Some(n) else None
  {
    ParseInvertsPrint(n, MAX_INT32);
  }

  /** A text reads as a number exactly when it is a run of digits that denotes one within the bound. */
  lemma ParseUnsignedExactly(text: string, max: nat, n: nat)
    ensures ParseUnsigned(text, max) == Some(n)
       <==> text != "" && AllDigits(text) && Value(text) == n <= max
    ensures AllDigits(text) <==> forall c :: c in text ==> '0' <= c <= '9'
  {
    assert forall i :: 0 <= i < |text| ==> text[i] in text;
  }

  /** Digits count by place: each further one multiplies by ten and adds its own value, '0' being character 48. */
  lemma ValueByPlace(text: string, c: char)
    requires AllDigits(text) && '0' <= c <= '9'
    ensures Value(text + [c]) == 10 * Value(text) + (c as int - 48) && Value("") == 0
  {
    assert (text + [c])[..|text|] == text;
  }

  /** A signed read takes one leading minus and nothing else, down to -2147483648 and up to 2147483647. */
  lemma ParseInt32Exactly(text: string)
    ensures match ParseUnsigned(text, 2147483648)
            case Some(n) => ParseInt32("-" + text) == Some(0 - n)
            case None => ParseInt32("-" + text) == None
    ensures match ParseUnsigned(text, 2147483647)
            case Some(n) => ParseInt32(text) == Some(n)
            case None => ParseInt32(text).Some? ==> text != "" && text[0] == '-'
  {
    assert ("-" + text)[1..] == text;
  }
}
