/** Lower-case hexadecimal, the form in which digests cross the service boundary. */
module Hex {
  import opened Hashing

  predicate IsDigit(c: char) {
    '0' <= c <= '9' || 'a' <= c <= 'f'
  }

  function Digit(v: nat): (c: char)
    requires v < 16
    ensures IsDigit(c)
  {
    if v < 10 then '0' + v as char else 'a' + (v - 10) as char
  }

  function DigitValue(c: char): (v: nat)
    requires IsDigit(c)
    ensures v < 16 && Digit(v) == c
  {
    if c <= '9' then (c - '0') as nat else (c - 'a') as nat + 10
  }

  function Encode(b: Bytes): (s: string)
    ensures |s| == 2 * |b|
    ensures forall i :: 0 <= i < |s| ==> IsDigit(s[i])
  {
    if b == [] then ""
    else [Digit(b[0] as int / 16), Digit(b[0] as int % 16)] + Encode(b[1..])
  }

  /** `bytes.fromhex` on text already known to be an even run of lower-case digits. */
  function Decode(s: string): (b: Bytes)
    requires |s| % 2 == 0 && forall i :: 0 <= i < |s| ==> IsDigit(s[i])
    ensures |b| == |s| / 2
  {
    if s == "" then []
    else [(16 * DigitValue(s[0]) + DigitValue(s[1])) as byte] + Decode(s[2..])
  }

  /** `normalize_receipt_digest`: exactly 64 lower-case hexadecimal digits, else an error. */
  function Normalize(s: string): (d: Option<Digest>)
    ensures d.Some? <==> |s| == 64 && forall i :: 0 <= i < |s| ==> IsDigit(s[i])
  {
    if |s| == 64 && forall i :: 0 <= i < |s| ==> IsDigit(s[i]) then Some(Digest(Decode(s))) else None
  }

  lemma {:induction false} DecodeEncode(b: Bytes)
    ensures Decode(Encode(b)) == b
  {
    if b != [] {
      DecodeEncode(b[1..]);
      assert Encode(b)[2..] == Encode(b[1..]);
    }
  }

  lemma {:induction false} EncodeDecode(s: string)
    requires |s| % 2 == 0 && forall i :: 0 <= i < |s| ==> IsDigit(s[i])
    ensures Encode(Decode(s)) == s
  {
    if s != "" {
      var b := Decode(s);
      var hi, lo := DigitValue(s[0]), DigitValue(s[1]);
      assert b[0] as int == 16 * hi + lo && b[1..] == Decode(s[2..]);
      hide Decode, DigitValue, Digit;
      EncodeDecode(s[2..]);
      assert b[0] as int / 16 == hi && b[0] as int % 16 == lo;
      assert s == [s[0], s[1]] + s[2..];
    }
  }

  /** Accepted receipt digests and 32-byte strings are in bijection. */
  lemma DigestBijection(s: string, d: Digest)
    ensures Normalize(s) == Some(d) <==> s == Encode(d.raw)
  {
    DecodeEncode(d.raw);
    if Normalize(s).Some? {
      EncodeDecode(s);
    }
  }
}
