/**
 * SHA-256 as the core sees it: an uninterpreted function from bytes to a
 * 32-byte digest (FIPS 180-4 itself is not part of this model), the
 * lower-case hexadecimal rendering `joinToString("") { "%02x".format(it) }`,
 * and the concatenation of streamed chunks.
 */
module Digest {
  import opened Text

  type byte = x: int | 0 <= x < 256

  type Sha256Digest = d: seq<byte> | |d| == 32 witness seq(32, _ => 0)

  /** The hash function, supplied by the caller of every operation that digests bytes. */
  type HashFunction = seq<byte> -> Sha256Digest

  /** The `%x` digit of a nibble. */
  function HexChar(k: int): (c: char)
    requires 0 <= k < 16
    ensures IsLowerHex(c)
  {
    if k < 10 then ('0' as int + k) as char else ('a' as int + k - 10) as char
  }

  predicate IsLowerHex(c: char) {
    '0' <= c <= '9' || 'a' <= c <= 'f'
  }

  /** Two lower-case hexadecimal digits per byte, most significant nibble first. */
  function Hex(d: seq<byte>): (r: string)
    ensures |r| == 2 * |d|
    ensures forall i :: 0 <= i < |r| ==> IsLowerHex(r[i])
    ensures forall i :: 0 <= i < |d| ==> r[2 * i] == HexChar(d[i] / 16) && r[2 * i + 1] == HexChar(d[i] % 16)
  {
    if d == [] then []
    else [HexChar(d[0] / 16), HexChar(d[0] % 16)] + Hex(d[1..])
  }

  /** The rendering loses nothing: distinct digests render as distinct texts. */
  lemma {:induction false} HexInjective(a: seq<byte>, b: seq<byte>)
    requires Hex(a) == Hex(b)
    ensures a == b
  {
    if a != [] {
      assert |b| == |a|;
      var ha, hb := Hex(a), Hex(b);
      assert HexChar(a[0] / 16) == ha[0] == hb[0] == HexChar(b[0] / 16);
      assert HexChar(a[0] % 16) == ha[1] == hb[1] == HexChar(b[0] % 16);
      assert a[0] == 16 * (a[0] / 16) + a[0] % 16 && b[0] == 16 * (b[0] / 16) + b[0] % 16;
      assert Hex(a[1..]) == ha[2..] == hb[2..] == Hex(b[1..]);
      HexInjective(a[1..], b[1..]);
      assert a == [a[0]] + a[1..] && b == [b[0]] + b[1..];
    }
  }

  /** The text `MessageDigest.digest()` renders for `bytes`. */
  function HexDigest(sha: HashFunction, bytes: seq<byte>): (r: string)
    ensures |r| == 64
    ensures HasNoUpper(r)
  {
    Hex(sha(bytes))
  }

  /**
   * Equal rendered digests mean equal SHA-256 digests, so two byte strings that
   * both pass the check against one expected digest have the same SHA-256.
   */
  lemma HexDigestInjective(sha: HashFunction, x: seq<byte>, y: seq<byte>, expected: string)
    ensures HexDigest(sha, x) == HexDigest(sha, y) ==> sha(x) == sha(y)
    ensures Matches(sha, x, expected) && Matches(sha, y, expected) ==> sha(x) == sha(y)
  {
    if HexDigest(sha, x) == HexDigest(sha, y) {
      HexInjective(sha(x), sha(y));
    }
    if Matches(sha, x, expected) && Matches(sha, y, expected) {
      EqualsIgnoreCaseLower(HexDigest(sha, x), expected);
      EqualsIgnoreCaseLower(HexDigest(sha, y), expected);
      HexInjective(sha(x), sha(y));
    }
  }

  /** `bytes` digests to `expected`, compared ignoring case as the downloader does. */
  predicate Matches(sha: HashFunction, bytes: seq<byte>, expected: string) {
    EqualsIgnoreCase(HexDigest(sha, bytes), expected)
  }

  /** The bytes of a sequence of chunks, in order. */
  function Flatten(chunks: seq<seq<byte>>): seq<byte> {
    if chunks == [] then [] else Flatten(chunks[..|chunks| - 1]) + chunks[|chunks| - 1]
  }

  /** Streaming is a pure memory optimisation: splitting a chunk sequence anywhere concatenates the same bytes. */
  lemma {:induction false} FlattenAppend(a: seq<seq<byte>>, b: seq<seq<byte>>)
    ensures Flatten(a + b) == Flatten(a) + Flatten(b)
  {
    if b != [] {
      var b' := b[..|b| - 1];
      assert (a + b)[..|a + b| - 1] == a + b';
      FlattenAppend(a, b');
    } else {
      assert a + b == a;
    }
  }

  /** Any two chunkings of the same bytes give the same digest, one big chunk included. */
  lemma StreamingEquivalence(sha: HashFunction, chunks: seq<seq<byte>>, chunks': seq<seq<byte>>)
    requires Flatten(chunks) == Flatten(chunks')
    ensures HexDigest(sha, Flatten(chunks)) == HexDigest(sha, Flatten(chunks'))
    ensures HexDigest(sha, Flatten(chunks)) == HexDigest(sha, Flatten([Flatten(chunks')]))
  {
    var one := [Flatten(chunks')];
    assert one[..0] == [];
    assert Flatten(one[..0]) == [];
    assert Flatten(one) == Flatten(chunks');
  }

  /** Because the rendering is lower case, the case-insensitive check is equality with the lower-cased expectation. */
  lemma MatchesLowercase(sha: HashFunction, bytes: seq<byte>, expected: string)
    ensures Matches(sha, bytes, expected) <==> HexDigest(sha, bytes) == Lowercase(expected)
  {
    EqualsIgnoreCaseLower(HexDigest(sha, bytes), expected);
  }
}
