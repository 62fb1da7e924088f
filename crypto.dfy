/**
 * The cryptographic services the node uses as black boxes, and the hex-to-binary
 * expansion that the proof-of-work predicate reads block hashes through.
 *
 * SHA-256 (FIPS 180-4) is modelled as an arbitrary function from the hashed
 * string to its hex digest, and ECDSA verification over secp256k1 (SEC 1,
 * section 4.1.4) as an arbitrary predicate over (public key in hex, message,
 * signature in hex). Every operation that hashes or verifies takes a `Crypto`
 * value, so no property proved here depends on what the functions compute.
 */
module Crypto {
  import opened Basics

  datatype Crypto = Crypto(
    sha256: string -> string,
    verify: (string, string, string) -> bool)

  predicate IsHexDigit(ch: char)
  {
    '0' <= ch <= '9' || 'a' <= ch <= 'f' || 'A' <= ch <= 'F'
  }

  function HexDigitValue(ch: char): (v: nat)
    requires IsHexDigit(ch)
    ensures v < 16
    ensures v == 0 <==> ch == '0'
  {
    if '0' <= ch <= '9' then ch as int - '0' as int
    else if 'a' <= ch <= 'f' then ch as int - 'a' as int + 10
    else ch as int - 'A' as int + 10
  }

  /** The four binary digits of a hex digit's value, most significant first. */
  function Bits4(v: nat): (r: string)
    requires v < 16
    ensures |r| == 4 && forall j :: 0 <= j < 4 ==> r[j] == '0' || r[j] == '1'
    ensures 8 * BitValue(r[0]) + 4 * BitValue(r[1]) + 2 * BitValue(r[2]) + BitValue(r[3]) == v
    ensures v == 0 <==> r == "0000"
  {
    [Bit(v / 8), Bit(v / 4 % 2), Bit(v / 2 % 2), Bit(v % 2)]
  }

  function Bit(b: nat): char
  {
    if b == 0 then '0' else '1'
  }

  /** The value a binary digit stands for. */
  function BitValue(ch: char): nat
  {
    if ch == '1' then 1 else 0
  }

  /**
   * The standard expansion of a hex string to a string of binary digits, four
   * per hex digit; None when some character is not a hex digit. The source's
   * util/hexToBinary is not part of this model: this is the behaviour assumed
   * of it.
   */
  function HexToBinary(h: string): (r: Option<string>)
    ensures r.Some? <==> forall i :: 0 <= i < |h| ==> IsHexDigit(h[i])
    ensures r.Some? ==> |r.value| == 4 * |h|
    ensures r.Some? ==> forall i :: 0 <= i < |h| ==> r.value[4 * i..4 * i + 4] == Bits4(HexDigitValue(h[i]))
  {
    if h == [] then Some("")
    else if !IsHexDigit(h[0]) then None
    else match HexToBinary(h[1..])
      case None => None
      case Some(rest) =>
        var b := Bits4(HexDigitValue(h[0])) + rest;
        assert forall i :: 1 <= i < |h| ==> b[4 * i..4 * i + 4] == rest[4 * (i - 1)..4 * (i - 1) + 4];
        Some(b)
  }

  /** A hash whose first k hex digits are '0' has at least 4k leading zero bits. */
  lemma {:induction false} ZeroHexDigitsGiveZeroBits(h: string, k: nat)
    requires HexToBinary(h).Some?
    requires k <= |h| && forall i :: 0 <= i < k ==> h[i] == '0'
    ensures forall j :: 0 <= j < 4 * k ==> HexToBinary(h).value[j] == '0'
  {
    if k > 0 {
      var rest := HexToBinary(h[1..]).value;
      assert HexToBinary(h).value == "0000" + rest;
      ZeroHexDigitsGiveZeroBits(h[1..], k - 1);
      forall j | 0 <= j < 4 * k
        ensures HexToBinary(h).value[j] == '0'
      {
        if j >= 4 {
          assert HexToBinary(h).value[j] == rest[j - 4];
        }
      }
    }
  }
}
