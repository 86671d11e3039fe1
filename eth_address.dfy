/**
 * Chain addresses and their text forms, as the pool handler uses them:
 * the `ethereum_address` request validator, `common.HexToAddress` on a
 * validated path parameter, the EIP-55 mixed-case rendering `Address.String()`
 * and `strings.ToLower` of that rendering, which is the cache key and the
 * indexer's address variable.
 *
 * Keccak-256, from which EIP-55 picks the case of each letter, is not modelled:
 * the case pattern is a parameter, and the lemmas hold for every pattern.
 */
module EthAddress {

  newtype uint8 = x: int | 0 <= x < 256

  const AddressLength: nat := 20
  const HexAddressLength: nat := 42

  /** A 20-byte account or contract address (go-ethereum's `common.Address`). */
  type Address = b: seq<uint8> | |b| == 20 witness seq(20, _ => 0)

  predicate IsHexDigit(c: char) {
    '0' <= c <= '9' || 'a' <= c <= 'f' || 'A' <= c <= 'F'
  }

  predicate IsUpper(c: char) {
    'A' <= c <= 'Z'
  }

  function HexValue(c: char): (v: nat)
    requires IsHexDigit(c)
    ensures v < 16
  {
    if '0' <= c <= '9' then c as int - '0' as int
    else if 'a' <= c <= 'f' then c as int - 'a' as int + 10
    else c as int - 'A' as int + 10
  }

  /** The lower-case digit of a nibble; `HexValue` reads it back. */
  function LowerHexDigit(v: nat): (c: char)
    requires v < 16
    ensures IsHexDigit(c) && HexValue(c) == v && !IsUpper(c)
  {
    if v < 10 then ('0' as int + v) as char else ('a' as int + v - 10) as char
  }

  /** ASCII lower-casing of one character (what `strings.ToLower` does to hex text). */
  function LowerChar(c: char): char {
    if IsUpper(c) then (c as int + 32) as char else c
  }

  function UpperChar(c: char): char {
    if 'a' <= c <= 'z' then (c as int - 32) as char else c
  }

  /** `strings.ToLower`, restricted to the ASCII text it is applied to here. */
  function ToLower(s: string): (r: string)
    ensures |r| == |s| && forall i :: 0 <= i < |s| ==> !IsUpper(r[i])
  {
    seq(|s|, i requires 0 <= i < |s| => LowerChar(s[i]))
  }

  /**
   * The `ethereum_address` validator: `Address.UnmarshalText` accepts a `0x` or
   * `0X` prefix followed by exactly 40 hexadecimal digits of either case.
   */
  predicate IsHexAddress(s: string) {
    && |s| == HexAddressLength
    && s[0] == '0' && (s[1] == 'x' || s[1] == 'X')
    && forall i :: 2 <= i < HexAddressLength ==> IsHexDigit(s[i])
  }

  /** `common.HexToAddress` on text that passed `IsHexAddress`: byte i is digits 2+2i and 3+2i. */
  function HexToAddress(s: string): Address
    requires IsHexAddress(s)
  {
    seq(AddressLength, i requires 0 <= i < AddressLength =>
      (HexValue(s[2 + 2 * i]) * 16 + HexValue(s[3 + 2 * i])) as uint8)
  }

  /** Nibble j of the address, most significant first. */
  function Nibble(a: Address, j: nat): (v: nat)
    requires j < 40
    ensures v < 16
  {
    if j % 2 == 0 then a[j / 2] as int / 16 else a[j / 2] as int % 16
  }

  /** `0x` and the 40 lower-case digits: the canonical key form of an address. */
  function LowerHex(a: Address): (s: string)
    ensures |s| == HexAddressLength
  {
    "0x" + seq(40, j requires 0 <= j < 40 => LowerHexDigit(Nibble(a, j)))
  }

  /**
   * `Address.String()`: the EIP-55 rendering, where `upper[j]` (taken from the
   * Keccak-256 hash of the lower-case digits) says whether digit j is a capital.
   */
  function Checksummed(a: Address, upper: seq<bool>): (s: string)
    ensures |s| == HexAddressLength
  {
    "0x" + seq(40, j requires 0 <= j < 40 =>
      if j < |upper| && upper[j] then UpperChar(LowerHexDigit(Nibble(a, j)))
      else LowerHexDigit(Nibble(a, j)))
  }

  /** The cache key and indexer variable `strings.ToLower(address.String())`; see `KeyIgnoresChecksumCase`. */
  function AddressKey(a: Address): string {
    LowerHex(a)
  }

  lemma ByteFromNibbles(b: uint8)
    ensures (b as int / 16) * 16 + b as int % 16 == b as int
    ensures b as int / 16 < 16
  {
  }

  lemma NibblesOfByte(hi: nat, lo: nat)
    requires hi < 16 && lo < 16
    ensures (hi * 16 + lo) / 16 == hi && (hi * 16 + lo) % 16 == lo
  {
  }

  lemma LowerDigitOfHexValue(c: char)
    requires IsHexDigit(c)
    ensures LowerHexDigit(HexValue(c)) == LowerChar(c)
  {
  }

  /** The lower-case key form parses back to the address it came from. */
  lemma LowerHexParsesBack(a: Address)
    ensures IsHexAddress(LowerHex(a))
    ensures HexToAddress(LowerHex(a)) == a
  {
    var s := LowerHex(a);
    forall i | 0 <= i < AddressLength
      ensures HexToAddress(s)[i] == a[i]
    {
      assert s[2 + 2 * i] == LowerHexDigit(Nibble(a, 2 * i));
      assert s[3 + 2 * i] == LowerHexDigit(Nibble(a, 2 * i + 1));
      ByteFromNibbles(a[i]);
    }
  }

  /** Parsing validated text and printing the key form is lower-casing the text. */
  lemma KeyOfParsedText(s: string)
    requires IsHexAddress(s)
    ensures LowerHex(HexToAddress(s)) == ToLower(s)
  {
    var a := HexToAddress(s);
    forall k | 0 <= k < HexAddressLength
      ensures LowerHex(a)[k] == ToLower(s)[k]
    {
      if k >= 2 {
        NibbleOfParsedText(s, k - 2);
        LowerDigitOfHexValue(s[k]);
      }
    }
  }

  lemma NibbleOfParsedText(s: string, j: nat)
    requires IsHexAddress(s) && j < 40
    ensures Nibble(HexToAddress(s), j) == HexValue(s[2 + j])
  {
    var i := j / 2;
    var hi, lo := HexValue(s[2 + 2 * i]), HexValue(s[3 + 2 * i]);
    assert HexToAddress(s)[i] as int == hi * 16 + lo;
    NibblesOfByte(hi, lo);
  }

  /** Two validated texts that differ only in letter case denote the same address. */
  lemma HexToAddressIgnoresCase(s: string, t: string)
    requires IsHexAddress(s) && IsHexAddress(t)
    requires ToLower(s) == ToLower(t)
    ensures HexToAddress(s) == HexToAddress(t)
  {
    KeyOfParsedText(s);
    KeyOfParsedText(t);
    LowerHexParsesBack(HexToAddress(s));
    LowerHexParsesBack(HexToAddress(t));
  }

  /** Lower-casing the EIP-55 rendering gives the key form, whatever the case pattern. */
  lemma KeyIgnoresChecksumCase(a: Address, upper: seq<bool>)
    ensures ToLower(Checksummed(a, upper)) == AddressKey(a)
  {
    var s := Checksummed(a, upper);
    forall j | 0 <= j < HexAddressLength
      ensures ToLower(s)[j] == LowerHex(a)[j]
    {
    }
  }

  /** The EIP-55 rendering is valid address text and parses back to the same address. */
  lemma ChecksummedParsesBack(a: Address, upper: seq<bool>)
    ensures IsHexAddress(Checksummed(a, upper))
    ensures HexToAddress(Checksummed(a, upper)) == a
  {
    var s := Checksummed(a, upper);
    assert IsHexAddress(s);
    forall i | 0 <= i < AddressLength
      ensures HexToAddress(s)[i] == a[i]
    {
      assert HexValue(s[2 + 2 * i]) == Nibble(a, 2 * i);
      assert HexValue(s[3 + 2 * i]) == Nibble(a, 2 * i + 1);
      ByteFromNibbles(a[i]);
    }
  }

  /** Every key starts with the digit `0`, so it never equals a request path. */
  lemma KeyStartsWithZero(a: Address)
    ensures |AddressKey(a)| > 0 && AddressKey(a)[0] == '0'
  {
  }
}
