/** Decimal text of integers: `to_string` and `parse`. */
module Decimal {
  import opened Bytes

  const MINUS: byte := 45
  const PLUS: byte := 43

  predicate IsDigit(b: byte) {
    48 <= b <= 57
  }

  predicate AllDigits(s: seq<byte>) {
    forall i :: 0 <= i < |s| ==> IsDigit(s[i])
  }

  function Digits(n: nat): (s: seq<byte>)
    ensures s != [] && AllDigits(s)
  {
    if n < 10 then [48 + n] else Digits(n / 10) + [48 + n % 10]
  }

  function Render(n: int): seq<byte> {
    if n < 0 then [MINUS] + Digits(-n) else Digits(n)
  }

  function Value(s: seq<byte>): nat
    requires AllDigits(s)
  {
    if s == [] then 0 else 10 * Value(s[..|s| - 1]) + (s[|s| - 1] - 48)
  }

  lemma ValueSnoc(s: seq<byte>, d: byte)
    requires AllDigits(s) && IsDigit(d)
    ensures AllDigits(s + [d]) && Value(s + [d]) == 10 * Value(s) + (d - 48)
  {
    assert (s + [d])[..|s|] == s;
  }

  /** At least one digit and nothing else. */
  function ParseDigits(s: seq<byte>): Option<nat> {
    if s != [] && AllDigits(s) then Some(Value(s)) else None
  }

  /** An optional sign and digits, as `parse` of a signed type reads them before its range check. */
  function ParseSigned(s: seq<byte>): Option<int> {
    if s != [] && s[0] == MINUS then
      match ParseDigits(s[1..])
      case None => None
      case Some(n) => var v: int := n; Some(-v)
    else if s != [] && s[0] == PLUS then
      match ParseDigits(s[1..])
      case None => None
      case Some(n) => Some(n)
    else
      match ParseDigits(s)
      case None => None
      case Some(n) => Some(n)
  }

  /** `parse::<i64>`. */
  function ParseI64(s: seq<byte>): Option<i64> {
    match ParseSigned(s)
    case None => None
    case Some(n) => if -0x8000_0000_0000_0000 <= n < 0x8000_0000_0000_0000 then Some(n) else None
  }

  /** `parse::<u64>`: a plus sign is allowed, a minus sign is not. */
  function ParseU64(s: seq<byte>): Option<u64> {
    match ParseDigits(if s != [] && s[0] == PLUS then s[1..] else s)
    case None => None
    case Some(n) => if n < 0x1_0000_0000_0000_0000 then Some(n) else None
  }

  lemma {:induction false} ValueOfDigits(n: nat)
    ensures Value(Digits(n)) == n
  {
    if n >= 10 {
      ValueOfDigits(n / 10);
      assert Digits(n)[..|Digits(n)| - 1] == Digits(n / 10);
    }
  }

  lemma ParseRender(n: int)
    ensures ParseSigned(Render(n)) == Some(n)
  {
    if n < 0 {
      assert Render(n)[1..] == Digits(-n);
      ValueOfDigits(-n);
    } else {
      ValueOfDigits(n);
    }
  }

  lemma I64RoundTrip(n: i64)
    ensures ParseI64(Render(n)) == Some(n)
  {
    ParseRender(n);
  }

  lemma U64RoundTrip(n: u64)
    ensures ParseU64(Digits(n)) == Some(n)
  {
    ValueOfDigits(n);
  }

  // ----------------------------------------------------- the text, character by character

  /** ASCII digits, the last one the units, no needless zero in front, and a minus sign before negative numbers. */
  lemma {:induction false} TextOfNumbers(n: nat)
    ensures n < 10 ==> Digits(n) == [48 + n]
    ensures n >= 10 ==> Digits(n) == Digits(n / 10) + [48 + n % 10] && Digits(n)[0] != 48
    ensures Render(n) == Digits(n) && (n > 0 ==> Render(-(n as int)) == [45] + Digits(n))
  {
    if n >= 10 {
      TextOfNumbers(n / 10);
    }
  }

  /** Each further digit counts ten times what stood before, plus itself. */
  lemma ValueOfText(s: seq<byte>, d: nat)
    requires d < 10 && forall i :: 0 <= i < |s| ==> 48 <= s[i] <= 57
    ensures AllDigits(s) && AllDigits(s + [48 + d]) && Value([]) == 0 && Value(s + [48 + d]) == 10 * Value(s) + d
  {
    ValueSnoc(s, 48 + d);
  }

  /** Digits with at most one sign, and nothing else; what does not fit 64 bits is no number. */
  lemma WhatParses(s: seq<byte>)
    ensures (s == [] || !AllDigits(s)) ==>
              ParseI64([45] + s) == None && ParseI64([43] + s) == None && ParseU64([43] + s) == None
              && (s == [] || (s[0] != 45 && s[0] != 43) ==> ParseI64(s) == None && ParseU64(s) == None)
    ensures s != [] && AllDigits(s) ==>
              && ParseI64(s) == ParseI64([43] + s) == (if Value(s) < 9223372036854775808 then Some(Value(s)) else None)
              && ParseI64([45] + s) == (if Value(s) <= 9223372036854775808 then Some(-(Value(s) as int)) else None)
              && ParseU64(s) == ParseU64([43] + s) == (if Value(s) < 18446744073709551616 then Some(Value(s)) else None)
    ensures ParseU64([45] + s) == None
  {
    hide ParseI64, ParseU64;
    ReadsSigned(s);
    ReadsUnsigned(s);
  }

  lemma ReadsSigned(s: seq<byte>)
    ensures (s == [] || !AllDigits(s)) ==>
              ParseI64([45] + s) == None && ParseI64([43] + s) == None
              && (s == [] || (s[0] != 45 && s[0] != 43) ==> ParseI64(s) == None)
    ensures s != [] && AllDigits(s) ==>
              && ParseI64(s) == (if Value(s) < 9223372036854775808 then Some(Value(s)) else None)
              && ParseI64([43] + s) == (if Value(s) < 9223372036854775808 then Some(Value(s)) else None)
              && ParseI64([45] + s) == (if Value(s) <= 9223372036854775808 then Some(-(Value(s) as int)) else None)
  {
    hide Value, AllDigits, ParseSigned;
    SignsRead(s);
    if s != [] && AllDigits(s) {
      DigitFirst(s);
    }
  }

  lemma ReadsUnsigned(s: seq<byte>)
    ensures (s == [] || !AllDigits(s)) ==>
              ParseU64([43] + s) == None && (s == [] || (s[0] != 45 && s[0] != 43) ==> ParseU64(s) == None)
    ensures s != [] && AllDigits(s) ==>
              && ParseU64(s) == (if Value(s) < 18446744073709551616 then Some(Value(s)) else None)
              && ParseU64([43] + s) == (if Value(s) < 18446744073709551616 then Some(Value(s)) else None)
    ensures ParseU64([45] + s) == None
  {
    hide Value, AllDigits;
    NoSignedDigits(s);
    assert ([43] + s)[1..] == s;
    if s != [] && AllDigits(s) {
      DigitFirst(s);
    }
  }

  lemma SignsRead(s: seq<byte>)
    ensures ParseSigned([45] + s) == match ParseDigits(s) case None => None case Some(n) => Some(-(n as int))
    ensures ParseSigned([43] + s) == match ParseDigits(s) case None => None case Some(n) => Some(n)
    ensures s == [] || (s[0] != 45 && s[0] != 43) ==>
              ParseSigned(s) == match ParseDigits(s) case None => None case Some(n) => Some(n)
  {
    hide Value, AllDigits;
    assert ([45] + s)[1..] == s && ([43] + s)[1..] == s;
  }

  lemma DigitFirst(s: seq<byte>)
    requires s != [] && AllDigits(s)
    ensures 48 <= s[0] <= 57
  {}

  lemma NoSignedDigits(s: seq<byte>)
    ensures ParseDigits([45] + s) == None
  {
    assert ([45] + s)[0] == 45;
  }
}
