/**
 * Entity identifiers and their public string form.
 *
 * Every entity id is a 64-bit TSID. It crosses the HTTP boundary only as the TSID's canonical
 * text: 13 characters of Crockford's base-32 alphabet "0123456789ABCDEFGHJKMNPQRSTVWXYZ",
 * most significant digit first (the first digit carries the top 4 bits, so it is at most 'F').
 * Generating fresh ids is clock-based and is a parameter of the operations that need one.
 */
module Ids {
  import opened Wrappers

  const TwoTo64: int := 0x1_0000_0000_0000_0000

  /** A TSID, read as an unsigned 64-bit number. */
  type Id = x: int | 0 <= x < TwoTo64

  const TwoTo63: int := 0x8000_0000_0000_0000

  /** The signed Java `long` with the same 64 bits as `id`: what `Long.toString` prints. */
  function AsLong(id: Id): (v: int)
    ensures -TwoTo63 <= v < TwoTo63
    ensures v == id || v == id - TwoTo64
    ensures v >= 0 <==> id < TwoTo63
  {
    if id < TwoTo63 then id else id - TwoTo64
  }

  /** Number of base-32 digits in the canonical text of an id. */
  const IdLength: nat := 13

  function Pow32(n: nat): (p: nat)
    ensures p >= 1
  {
    if n == 0 then 1 else 32 * Pow32(n - 1)
  }

  /** The Crockford digit for a 5-bit value (no I, L, O or U). */
  function Digit(v: nat): (c: char)
    requires v < 32
  {
    if v < 10 then (v + '0' as int) as char
    else if v < 18 then (v - 10 + 'A' as int) as char
    else if v < 20 then (v - 18 + 'J' as int) as char
    else if v < 22 then (v - 20 + 'M' as int) as char
    else if v < 27 then (v - 22 + 'P' as int) as char
    else (v - 27 + 'V' as int) as char
  }

  /** The value of a canonical Crockford digit, or None for any other char. */
  function DigitValue(c: char): (r: Option<nat>)
    ensures r.Some? ==> r.value < 32
  {
    if '0' <= c <= '9' then Some(c as int - '0' as int)
    else if 'A' <= c <= 'H' then Some(c as int - 'A' as int + 10)
    else if 'J' <= c <= 'K' then Some(c as int - 'J' as int + 18)
    else if 'M' <= c <= 'N' then Some(c as int - 'M' as int + 20)
    else if 'P' <= c <= 'T' then Some(c as int - 'P' as int + 22)
    else if 'V' <= c <= 'Z' then Some(c as int - 'V' as int + 27)
    else None
  }

  lemma DigitRoundTrip(v: nat)
    requires v < 32
    ensures DigitValue(Digit(v)) == Some(v)
  {
  }

  lemma DigitValueRoundTrip(c: char)
    requires DigitValue(c).Some?
    ensures Digit(DigitValue(c).value) == c
  {
  }

  predicate AllDigits(s: string) {
    forall i :: 0 <= i < |s| ==> DigitValue(s[i]).Some?
  }

  /** The n-digit base-32 text of x, most significant digit first. */
  function Encode(x: nat, n: nat): (s: string)
    requires x < Pow32(n)
    ensures |s| == n
  {
    if n == 0 then [] else Encode(x / 32, n - 1) + [Digit(x % 32)]
  }

  /** The number a string of canonical digits denotes. */
  function Decode(s: string): (x: nat)
    requires AllDigits(s)
  {
    if s == [] then 0 else Decode(s[..|s| - 1]) * 32 + DigitValue(s[|s| - 1]).value
  }

  lemma {:induction false} EncodeAllDigits(x: nat, n: nat)
    requires x < Pow32(n)
    ensures AllDigits(Encode(x, n))
  {
    if n > 0 {
      EncodeAllDigits(x / 32, n - 1);
      DigitRoundTrip(x % 32);
    }
  }

  lemma {:induction false} DecodeEncode(x: nat, n: nat)
    requires x < Pow32(n)
    ensures AllDigits(Encode(x, n)) && Decode(Encode(x, n)) == x
  {
    EncodeAllDigits(x, n);
    if n > 0 {
      var s := Encode(x, n);
      assert s[..|s| - 1] == Encode(x / 32, n - 1);
      DecodeEncode(x / 32, n - 1);
      DigitRoundTrip(x % 32);
    }
  }

  lemma {:induction false} EncodeDecode(s: string)
    requires AllDigits(s)
    ensures Decode(s) < Pow32(|s|) && Encode(Decode(s), |s|) == s
  {
    if s != [] {
      var init := s[..|s| - 1];
      EncodeDecode(init);
      var d := DigitValue(s[|s| - 1]).value;
      DigitValueRoundTrip(s[|s| - 1]);
      assert Decode(s) / 32 == Decode(init) && Decode(s) % 32 == d;
      assert s == init + [s[|s| - 1]];
    }
  }

  /** `IdHelper.toString`: the canonical 13-character text of an id. */
  function ToString(id: Id): (s: string)
    ensures |s| == IdLength
  {
    assert TwoTo64 < Pow32(IdLength);
    Encode(id, IdLength)
  }

  /** `IdHelper.toLong`: parse canonical id text; None where the TSID parser throws. */
  function FromString(s: string): (r: Option<Id>)
    ensures r.Some? ==> |s| == IdLength && AllDigits(s) && r.value == Decode(s)
    ensures |s| != IdLength ==> r.None?
  {
    if |s| == IdLength && AllDigits(s) && Decode(s) < TwoTo64 then Some(Decode(s)) else None
  }

  /** Decoding inverts encoding: the public form of every id parses back to that id. */
  lemma FromStringToString(id: Id)
    ensures FromString(ToString(id)) == Some(id)
  {
    assert TwoTo64 < Pow32(IdLength);
    DecodeEncode(id, IdLength);
  }

  /** Parsing accepts only canonical text: what parses to an id is that id's public form. */
  lemma ToStringFromString(s: string)
    requires FromString(s).Some?
    ensures ToString(FromString(s).value) == s
  {
    EncodeDecode(s);
  }

  /** Distinct ids have distinct public forms, so the string encoding is injective. */
  lemma ToStringInjective(a: Id, b: Id)
    requires ToString(a) == ToString(b)
    ensures a == b
  {
    FromStringToString(a);
    FromStringToString(b);
  }
}
