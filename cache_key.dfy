/**
 * The textual form of a cache key: `md5(...).hexdigest()`, the lower-case
 * hexadecimal rendering of a 16-byte digest. The digest function itself is a
 * collaborator of the thumbnailer and stays abstract.
 */
module CacheKey {

  type Byte = x: int | 0 <= x < 256

  /** An MD5 digest: always 16 bytes. */
  type Digest = s: seq<Byte> | |s| == 16 witness seq(16, i => 0)

  function HexChar(d: nat): char
    requires d < 16
  {
    if d < 10 then ('0' as int + d) as char else ('a' as int + d - 10) as char
  }

  predicate IsHexChar(c: char) {
    '0' <= c <= '9' || 'a' <= c <= 'f'
  }

  function HexValue(c: char): nat
    requires IsHexChar(c)
  {
    if c <= '9' then c as int - '0' as int else c as int - 'a' as int + 10
  }

  /** `hexdigest()`: two lower-case hex digits per byte, high nibble first. */
  function HexDigest(bytes: seq<Byte>): string
    decreases |bytes|
  {
    if |bytes| == 0 then ""
    else [HexChar(bytes[0] / 16), HexChar(bytes[0] % 16)] + HexDigest(bytes[1..])
  }

  /** Reads a hex rendering back into bytes. */
  function UnHex(s: string): seq<Byte>
    requires |s| % 2 == 0
    requires forall k :: 0 <= k < |s| ==> IsHexChar(s[k])
    decreases |s|
  {
    if |s| == 0 then []
    else [16 * HexValue(s[0]) + HexValue(s[1])] + UnHex(s[2..])
  }

  lemma HexCharRoundTrip(d: nat)
    requires d < 16
    ensures IsHexChar(HexChar(d)) && HexValue(HexChar(d)) == d
  {
  }

  /** The hex form has two lower-case hex digits per byte and decodes back to the bytes. */
  lemma {:induction false} HexDigestRoundTrip(bytes: seq<Byte>)
    ensures |HexDigest(bytes)| == 2 * |bytes|
    ensures forall k :: 0 <= k < |HexDigest(bytes)| ==> IsHexChar(HexDigest(bytes)[k])
    ensures UnHex(HexDigest(bytes)) == bytes
    decreases |bytes|
  {
    if |bytes| > 0 {
      HexDigestRoundTrip(bytes[1..]);
      HexCharRoundTrip(bytes[0] / 16);
      HexCharRoundTrip(bytes[0] % 16);
      var h := HexDigest(bytes);
      assert h[2..] == HexDigest(bytes[1..]);
      assert forall k :: 2 <= k < |h| ==> h[k] == HexDigest(bytes[1..])[k - 2];
      assert [bytes[0]] + bytes[1..] == bytes;
    }
  }

  /** Distinct digests have distinct hex forms. */
  lemma HexDigestInjective(a: seq<Byte>, b: seq<Byte>)
    ensures HexDigest(a) == HexDigest(b) <==> a == b
  {
    HexDigestRoundTrip(a);
    HexDigestRoundTrip(b);
  }
}
