/** HashService.hash: the SHA-256 digest of a string, rendered in lower-case
    hexadecimal and cut to 62 characters (the longest bucket name it is meant for).
    The digest itself and the UTF-8 encoding are parameters. */
module Hashing {
  import opened Common

  /** A Java `byte`: a signed two's-complement value. */
  newtype int8 = x: int | -128 <= x < 128

  /** What `MessageDigest.getInstance("SHA-256").digest()` returns: 32 bytes. */
  type Sha256Digest = d: seq<int8> | |d| == 32 witness seq(32, _ => 0 as int8)

  /** Length of the returned string: `hexString.substring(0, 62)`. */
  const HASH_LENGTH: nat := 62

  predicate IsLowerHexDigit(c: char) {
    '0' <= c <= '9' || 'a' <= c <= 'f'
  }

  /** The value 0..255 that the `x` conversion prints for a byte: a negative byte is
      taken modulo 2^8. */
  function Unsigned(b: int8): (u: int)
    ensures 0 <= u < 256
    ensures (u - b as int) % 256 == 0
  {
    if b < 0 then b as int + 256 else b as int
  }

  function HexDigit(v: int): (c: char)
    requires 0 <= v < 16
    ensures IsLowerHexDigit(c) && HexValue(c) == v
  {
    if v < 10 then ('0' as int + v) as char else ('a' as int + v - 10) as char
  }

  function HexValue(c: char): (v: int)
    requires IsLowerHexDigit(c)
    ensures 0 <= v < 16
  {
    if c <= '9' then c as int - '0' as int else c as int - 'a' as int + 10
  }

  /** `String.format("%02x", b)`: two lower-case hex digits, zero-padded. */
  function FormatByte(b: int8): (s: string)
    ensures |s| == 2 && IsLowerHexDigit(s[0]) && IsLowerHexDigit(s[1])
    ensures HexValue(s[0]) * 16 + HexValue(s[1]) == Unsigned(b)
  {
    var u := Unsigned(b);
    [HexDigit(u / 16), HexDigit(u % 16)]
  }

  /** `hex` is the `%02x` rendering of `bytes`, byte by byte, in order. */
  ghost predicate Renders(hex: string, bytes: seq<int8>) {
    && |hex| == 2 * |bytes|
    && forall i :: 0 <= i < |bytes| ==> hex[2 * i] == FormatByte(bytes[i])[0] && hex[2 * i + 1] == FormatByte(bytes[i])[1]
  }

  /** The loop over the digest bytes that appends each one, formatted, to a StringBuilder. */
  method HexString(bytes: seq<int8>) returns (hex: string)
    ensures Renders(hex, bytes)
    ensures forall k :: 0 <= k < |hex| ==> IsLowerHexDigit(hex[k])
  {
    hex := "";
    for n := 0 to |bytes|
      invariant |hex| == 2 * n
      invariant forall i :: 0 <= i < n ==> hex[2 * i] == FormatByte(bytes[i])[0] && hex[2 * i + 1] == FormatByte(bytes[i])[1]
      invariant forall k :: 0 <= k < |hex| ==> IsLowerHexDigit(hex[k])
    {
      hex := hex + FormatByte(bytes[n]);
    }
  }

  /** HashService.hash. `sha256` is None when the runtime has no SHA-256 provider
      (`MessageDigest.getInstance` throws); `utf8` is `String.getBytes(UTF_8)`. */
  method Hash(stringToHash: string, sha256: Option<seq<int8> -> Sha256Digest>, utf8: string -> seq<int8>)
    returns (r: Result<string>)
    ensures sha256.None? <==> r == Err(NoSuchAlgorithm)
    ensures sha256.Some? ==> r.Ok? && |r.value| == HASH_LENGTH
    ensures sha256.Some? ==> forall k :: 0 <= k < |r.value| ==> IsLowerHexDigit(r.value[k])
    ensures sha256.Some? ==> Renders(r.value, sha256.value(utf8(stringToHash))[..HASH_LENGTH / 2])
  {
    if sha256.None? {
      return Err(NoSuchAlgorithm);
    }
    var md := sha256.value;
    var bytes := utf8(stringToHash);
    var hash := md(bytes);
    var hexString := HexString(hash);
    var truncatedHash := hexString[..HASH_LENGTH];
    r := Ok(truncatedHash);
  }

  /** The signed byte whose unsigned value is `u`. */
  function ToByte(u: int): (b: int8)
    requires 0 <= u < 256
    ensures Unsigned(b) == u
  {
    if u < 128 then u as int8 else (u - 256) as int8
  }

  /** Reads a `%02x` rendering back: the inverse of the rendering loop. */
  function DecodeHex(hex: string): (bytes: seq<int8>)
    requires |hex| % 2 == 0
    requires forall k :: 0 <= k < |hex| ==> IsLowerHexDigit(hex[k])
    ensures |bytes| == |hex| / 2
    decreases |hex|
  {
    if hex == [] then [] else [ToByte(HexValue(hex[0]) * 16 + HexValue(hex[1]))] + DecodeHex(hex[2..])
  }

  lemma UnsignedInjective(a: int8, b: int8)
    requires Unsigned(a) == Unsigned(b)
    ensures a == b
  {
  }

  /** Every character of a rendering is a lower-case hex digit. */
  lemma RenderingIsLowerHex(hex: string, bytes: seq<int8>)
    requires Renders(hex, bytes)
    ensures forall k :: 0 <= k < |hex| ==> IsLowerHexDigit(hex[k])
  {
    forall k | 0 <= k < |hex| ensures IsLowerHexDigit(hex[k]) {
      var i := k / 2;
      if k == 2 * i {
        assert hex[2 * i] == FormatByte(bytes[i])[0];
      } else {
        assert hex[2 * i + 1] == FormatByte(bytes[i])[1];
      }
    }
  }

  /** Past its first two characters, a rendering renders the remaining bytes. */
  lemma RenderingTail(hex: string, bytes: seq<int8>)
    requires Renders(hex, bytes) && bytes != []
    ensures Renders(hex[2..], bytes[1..])
  {
    forall i | 0 <= i < |bytes[1..]|
      ensures hex[2..][2 * i] == FormatByte(bytes[1..][i])[0] && hex[2..][2 * i + 1] == FormatByte(bytes[1..][i])[1]
    {
      assert bytes[1..][i] == bytes[i + 1];
      assert hex[2..][2 * i] == hex[2 * (i + 1)];
    }
  }

  /** Decoding a rendering gives back the bytes: no information is lost per byte. */
  lemma {:induction false} DecodeRendering(hex: string, bytes: seq<int8>)
    requires Renders(hex, bytes)
    ensures forall k :: 0 <= k < |hex| ==> IsLowerHexDigit(hex[k])
    ensures DecodeHex(hex) == bytes
    decreases |bytes|
  {
    RenderingIsLowerHex(hex, bytes);
    if bytes != [] {
      var b := bytes[0];
      assert hex[0] == FormatByte(b)[0] && hex[1] == FormatByte(b)[1];
      UnsignedInjective(ToByte(HexValue(hex[0]) * 16 + HexValue(hex[1])), b);
      RenderingTail(hex, bytes);
      DecodeRendering(hex[2..], bytes[1..]);
    }
  }

  /** A rendering is determined by the bytes: equal inputs give equal hashes. */
  lemma RenderingDeterministic(h1: string, h2: string, bytes: seq<int8>)
    requires Renders(h1, bytes) && Renders(h2, bytes)
    ensures h1 == h2
  {
    forall k | 0 <= k < |h1| ensures h1[k] == h2[k] {
      var i := k / 2;
      if k == 2 * i {
        assert h1[2 * i] == FormatByte(bytes[i])[0] == h2[2 * i];
      } else {
        assert h1[2 * i + 1] == FormatByte(bytes[i])[1] == h2[2 * i + 1];
      }
    }
  }

  /** Two inputs with the same hash have digests that agree on their first 31 bytes,
      the part the 62-character prefix still shows. */
  lemma SameHashSameDigestPrefix(hash: string, d1: Sha256Digest, d2: Sha256Digest)
    requires Renders(hash, d1[..HASH_LENGTH / 2]) && Renders(hash, d2[..HASH_LENGTH / 2])
    ensures d1[..HASH_LENGTH / 2] == d2[..HASH_LENGTH / 2]
  {
    DecodeRendering(hash, d1[..HASH_LENGTH / 2]);
    DecodeRendering(hash, d2[..HASH_LENGTH / 2]);
  }
}
