/**
 The length-prefixed framing under every evidence digest: a header and each row are written as
 an eight-byte big-endian length followed by the bytes. SHA-256 is represented by its preimage.
 */
module Framing {
  type Byte = b: int | 0 <= b < 256
  type Bytes = seq<Byte>

  function Pow256(n: nat): (p: nat)
    ensures p > 0
  {
    if n == 0 then 1 else 256 * Pow256(n - 1)
  }

  /** `n.to_bytes(width, "big")`. */
  function BigEndian(n: nat, width: nat): (bytes: Bytes)
    requires n < Pow256(width)
    ensures |bytes| == width
  {
    if width == 0 then [] else BigEndian(n / 256, width - 1) + [n % 256]
  }

  /** The number that bytes denote, the most significant first. */
  function Denoted(bytes: Bytes): nat {
    if bytes == [] then 0 else Denoted(bytes[..|bytes| - 1]) * 256 + bytes[|bytes| - 1]
  }

  lemma {:induction false} BigEndianDenotes(n: nat, width: nat)
    requires n < Pow256(width)
    ensures Denoted(BigEndian(n, width)) == n
  {
    if width > 0 {
      BigEndianDenotes(n / 256, width - 1);
      assert BigEndian(n, width)[..width - 1] == BigEndian(n / 256, width - 1);
    }
  }

  lemma {:induction false} BigEndianInjective(m: nat, n: nat, width: nat)
    requires m < Pow256(width) && n < Pow256(width)
    requires BigEndian(m, width) == BigEndian(n, width)
    ensures m == n
  {
    BigEndianDenotes(m, width);
    BigEndianDenotes(n, width);
  }

  /** `to_bytes(8, "big")` raises on a longer row, so a digest exists only for framable rows. */
  predicate Framable(rows: seq<Bytes>) {
    forall i :: 0 <= i < |rows| ==> |rows[i]| < Pow256(8)
  }

  function Frame(row: Bytes): Bytes
    requires |row| < Pow256(8)
  {
    BigEndian(|row|, 8) + row
  }

  /** Everything the hasher is fed for `rows` (the header is row 0). */
  function Stream(rows: seq<Bytes>): Bytes
    requires Framable(rows)
  {
    if rows == [] then [] else Frame(rows[0]) + Stream(rows[1..])
  }

  lemma {:induction false} SplitEqually(p: Bytes, q: Bytes, r: Bytes, s: Bytes)
    requires |p| == |q| && p + r == q + s
    ensures p == q && r == s
  {
    assert (p + r)[..|p|] == p && (q + s)[..|q|] == q;
    assert (p + r)[|p|..] == r && (q + s)[|q|..] == s;
  }

  lemma {:induction false} HeaderInjective(a: Bytes, b: Bytes, r: Bytes, s: Bytes, width: nat)
    requires |a| < Pow256(width) && |b| < Pow256(width)
    requires BigEndian(|a|, width) + (a + r) == BigEndian(|b|, width) + (b + s)
    ensures a == b && r == s
  {
    SplitEqually(BigEndian(|a|, width), BigEndian(|b|, width), a + r, b + s);
    BigEndianInjective(|a|, |b|, width);
    SplitEqually(a, b, r, s);
  }

  lemma {:induction false} FrameThen(row: Bytes, rest: Bytes, width: nat, header: Bytes)
    requires |row| < Pow256(width) && header == BigEndian(|row|, width)
    ensures (header + row) + rest == header + (row + rest)
  {
  }

  /** A framed row can be told from what follows it. */
  lemma {:induction false} FrameInjective(a: Bytes, b: Bytes, r: Bytes, s: Bytes)
    requires |a| < Pow256(8) && |b| < Pow256(8) && Frame(a) + r == Frame(b) + s
    ensures a == b && r == s
  {
    FrameThen(a, r, 8, BigEndian(|a|, 8));
    FrameThen(b, s, 8, BigEndian(|b|, 8));
    HeaderInjective(a, b, r, s, 8);
  }

  /** No two different row lists feed the hasher the same bytes. */
  lemma {:induction false} StreamInjective(a: seq<Bytes>, b: seq<Bytes>)
    requires Framable(a) && Framable(b)
    requires Stream(a) == Stream(b)
    ensures a == b
  {
    if a != [] && b != [] {
      FrameInjective(a[0], b[0], Stream(a[1..]), Stream(b[1..]));
      StreamInjective(a[1..], b[1..]);
      assert a == [a[0]] + a[1..] && b == [b[0]] + b[1..];
    }
  }

  /** A digest as the model compares it: the count and the bytes hashed. */
  datatype Digest = Digest(rowCount: nat, preimage: Bytes)

  /** The loop of the digest functions: header first, then every row, counting the rows. */
  method SemanticDigest(header: Bytes, rows: seq<Bytes>) returns (digest: Digest)
    requires Framable([header] + rows)
    ensures digest == DigestOf(header, rows)
  {
    assert ([header] + rows)[0] == header && ([header] + rows)[1..] == rows;
    assert forall i :: 0 <= i < |rows| ==> rows[i] == ([header] + rows)[i + 1];
    var preimage := Frame(header);
    var count := 0;
    for i := 0 to |rows|
      invariant count == i
      invariant Framable(rows[i..])
      invariant preimage + Stream(rows[i..]) == Stream([header] + rows)
    {
      assert rows[i..][0] == rows[i];
      assert rows[i..][1..] == rows[i + 1..];
      preimage := preimage + Frame(rows[i]);
      count := count + 1;
    }
    assert preimage + [] == preimage;
    digest := Digest(count, preimage);
  }

  function DigestOf(header: Bytes, rows: seq<Bytes>): Digest
    requires Framable([header] + rows)
  {
    Digest(|rows|, Stream([header] + rows))
  }

  /** Equal digests were taken of the same header and the same rows: header text can never pass for a row. */
  lemma {:induction false} DigestBindsRows(h1: Bytes, r1: seq<Bytes>, h2: Bytes, r2: seq<Bytes>)
    requires Framable([h1] + r1) && Framable([h2] + r2)
    requires DigestOf(h1, r1).preimage == DigestOf(h2, r2).preimage
    ensures h1 == h2 && r1 == r2
  {
    StreamInjective([h1] + r1, [h2] + r2);
    assert ([h1] + r1)[0] == ([h2] + r2)[0];
    assert ([h1] + r1)[1..] == r1 && ([h2] + r2)[1..] == r2;
  }
}
