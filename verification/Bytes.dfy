/** Bytes, byte strings, and the fixed-width integers the wire formats pack into them. */
module Bytes {

  type byte = b: int | 0 <= b < 256

  type Data = seq<byte>

  const U32_LIMIT := 0x1_0000_0000
  const I32_LIMIT := 0x8000_0000

  type u32 = n: nat | n < U32_LIMIT
  type i32 = s: int | -I32_LIMIT <= s < I32_LIMIT

  /** `struct.pack("<I", n)`. */
  function PackU32(n: nat): (b: Data)
    requires n < U32_LIMIT
    ensures |b| == 4
  {
    [n % 256, n / 0x100 % 256, n / 0x1_0000 % 256, n / 0x100_0000]
  }

  /** `struct.unpack("<I", b)` on exactly four bytes. */
  function UnpackU32(b: Data): (n: nat)
    requires |b| == 4
    ensures n < U32_LIMIT
  {
    var b0: int, b1: int, b2: int, b3: int := b[0], b[1], b[2], b[3];
    b0 + 0x100 * b1 + 0x1_0000 * b2 + 0x100_0000 * b3
  }

  /** The unsigned little-endian word at `offset`. */
  function ReadU32(b: Data, offset: nat): (n: nat)
    requires offset + 4 <= |b|
    ensures n < U32_LIMIT
  {
    UnpackU32(b[offset..offset + 4])
  }

  lemma UnpackPack(n: nat)
    requires n < U32_LIMIT
    ensures UnpackU32(PackU32(n)) == n
  {
    var q := n / 0x100;
    var r := n / 0x1_0000;
    assert q / 0x100 == r;
    assert r / 0x100 == n / 0x100_0000;
  }

  lemma ReadPacked(before: Data, n: nat, after: Data)
    requires n < U32_LIMIT
    ensures ReadU32(before + PackU32(n) + after, |before|) == n
  {
    var field := PackU32(n);
    assert (before + field + after)[|before|..|before| + 4] == field;
    UnpackPack(n);
  }

  /** A 32-bit field read as signed, `struct.unpack("<i", …)`. */
  function AsSigned(n: nat): (s: int)
    requires n < U32_LIMIT
    ensures -I32_LIMIT <= s < I32_LIMIT
  {
    if n < I32_LIMIT then n else n - U32_LIMIT
  }

  /** `s & 0xFFFF_FFFF` on a Python integer: the residue, also of a negative one. */
  function Mask32(s: int): (n: nat)
    ensures n < U32_LIMIT
  {
    s % U32_LIMIT
  }

  /** Masking undoes a signed read of an unsigned field. */
  lemma MaskRecovers(n: nat)
    requires n < U32_LIMIT
    ensures Mask32(AsSigned(n)) == n
  {
  }

  /** Concatenation of a list of byte strings, `b"".join(parts)`. */
  function Flatten(parts: seq<Data>): Data
  {
    if parts == [] then [] else parts[0] + Flatten(parts[1..])
  }

  lemma {:induction false} FlattenAppend(xs: seq<Data>, ys: seq<Data>)
    ensures Flatten(xs + ys) == Flatten(xs) + Flatten(ys)
  {
    if xs == [] {
      assert xs + ys == ys;
    } else {
      assert (xs + ys)[1..] == xs[1..] + ys;
      FlattenAppend(xs[1..], ys);
    }
  }

  /** Fixed-size slices of `body`, the last one possibly shorter: `[body[i:i+n] for i in range(0, len(body), n)]`. */
  function Slices(body: Data, n: nat): (parts: seq<Data>)
    requires n > 0
    ensures body == [] <==> parts == []
  {
    if body == [] then []
    else if |body| <= n then [body]
    else [body[..n]] + Slices(body[n..], n)
  }

  lemma {:induction false} FlattenSlices(body: Data, n: nat)
    requires n > 0
    ensures Flatten(Slices(body, n)) == body
    ensures forall i | 0 <= i < |Slices(body, n)| :: 0 < |Slices(body, n)[i]| <= n
  {
    if |body| > n {
      FlattenSlices(body[n..], n);
    } else if body != [] {
      assert Flatten([body]) == body + Flatten([]);
    }
  }

  lemma {:induction false} SlicesCount(body: Data, n: nat)
    requires n > 0
    ensures |body| > n ==> |Slices(body, n)| >= 2
    ensures n * |Slices(body, n)| >= |body|
    ensures body != [] ==> n * (|Slices(body, n)| - 1) < |body|
  {
    if |body| > n {
      SlicesCount(body[n..], n);
    }
  }

  lemma TimesMonotone(n: nat, a: nat, b: nat)
    requires a <= b
    ensures n * a <= n * b
  {
  }

  /** `k` slices are enough exactly when they can hold it all. */
  lemma SlicesEnough(body: Data, n: nat, k: nat)
    requires n > 0
    ensures |Slices(body, n)| <= k <==> |body| <= k * n
  {
    hide Slices;
    SlicesCount(body, n);
    var count := |Slices(body, n)|;
    if count <= k {
      TimesMonotone(n, count, k);
    } else {
      SomeSlices(body, n);
      TimesMonotone(n, k, count - 1);
    }
  }

  lemma SomeSlices(body: Data, n: nat)
    requires n > 0 && Slices(body, n) != []
    ensures body != []
  {
  }
}
