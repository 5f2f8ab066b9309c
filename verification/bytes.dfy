/** Bytes, 32-byte digests and the hash function. SHA-256 is a parameter: every result holds
    for every function from byte strings to digests, and security claims name the two
    preimages that collide instead of assuming that none do. */
module Bytes {

  type byte = b: int | 0 <= b < 256

  predicate ByteLt(x: byte, y: byte) { x < y }

  type Bytes32 = d: seq<byte> | |d| == 32 witness Zeros(32)

  /** A `[u8; 32]`. */
  datatype Digest = Digest(bytes: Bytes32)

  function Zeros(n: nat): (zs: seq<byte>)
    ensures |zs| == n
  {
    seq(n, i => 0)
  }

  /** `[0; 32]`. */
  const ZEROS: Digest := Digest(Zeros(32))

  /** A byte string fed to the hasher. */
  datatype Message = Message(bytes: seq<byte>)

  type HashFn = Message -> Digest

  /** Two messages offered as a collision. */
  datatype Preimages = Preimages(first: Message, second: Message)

  predicate IsCollision(h: HashFn, c: Preimages) {
    c.first != c.second && h(c.first) == h(c.second)
  }

  /** `tag || left || right`, the preimage of every two-part node. */
  function NodePre(tag: byte, left: Digest, right: Digest): Message {
    Message([tag] + left.bytes + right.bytes)
  }

  lemma NodePreInjective(t1: byte, l1: Digest, r1: Digest, t2: byte, l2: Digest, r2: Digest)
    requires NodePre(t1, l1, r1) == NodePre(t2, l2, r2)
    ensures t1 == t2 && l1 == l2 && r1 == r2
  {
    var a, b := NodePre(t1, l1, r1).bytes, NodePre(t2, l2, r2).bytes;
    assert a[0] == t1 && b[0] == t2;
    assert a[1..33] == l1.bytes && b[1..33] == l2.bytes;
    assert a[33..] == r1.bytes && b[33..] == r2.bytes;
  }

  // ----- Length prefixes -----

  /** `n.to_le_bytes()` cut to `width` bytes. */
  function LittleEndian(n: nat, width: nat): (bs: seq<byte>)
    ensures |bs| == width
  {
    if width == 0 then [] else [n % 256] + LittleEndian(n / 256, width - 1)
  }

  function Pow256(k: nat): nat {
    if k == 0 then 1 else 256 * Pow256(k - 1)
  }

  lemma {:induction false} LittleEndianInjective(a: nat, b: nat, width: nat)
    requires a < Pow256(width) && b < Pow256(width)
    requires LittleEndian(a, width) == LittleEndian(b, width)
    ensures a == b
  {
    if width > 0 {
      assert LittleEndian(a, width)[0] == a % 256 && LittleEndian(b, width)[0] == b % 256;
      assert LittleEndian(a, width)[1..] == LittleEndian(a / 256, width - 1);
      assert LittleEndian(b, width)[1..] == LittleEndian(b / 256, width - 1);
      LittleEndianInjective(a / 256, b / 256, width - 1);
    }
  }

  const U64_BOUND: nat := 0x1_0000_0000_0000_0000
  const U64_MAX: nat := U64_BOUND - 1

  type U64 = n: nat | n < U64_BOUND

  function SaturatingAdd(a: nat, b: nat): U64 { if a + b > U64_MAX then U64_MAX else a + b }

  /** UTF-8 text: its length fits the `u64` that prefixes it. */
  type Text = t: seq<byte> | |t| < U64_BOUND

  /** `u64le(len) || text`. */
  function Prefixed(t: Text): (bs: seq<byte>)
    ensures |bs| == 8 + |t|
  {
    LittleEndian(|t|, 8) + t
  }

  /** Length prefixing is uniquely decodable: what follows cannot move the boundary. */
  lemma PrefixedSplits(t1: Text, rest1: seq<byte>, t2: Text, rest2: seq<byte>)
    requires Prefixed(t1) + rest1 == Prefixed(t2) + rest2
    ensures t1 == t2 && rest1 == rest2
  {
    var a, b := Prefixed(t1) + rest1, Prefixed(t2) + rest2;
    assert a[..8] == LittleEndian(|t1|, 8) && b[..8] == LittleEndian(|t2|, 8);
    assert Pow256(8) == U64_BOUND by {
      assert Pow256(4) == 0x1_0000_0000;
      assert Pow256(6) == 0x1_0000_0000_0000;
    }
    LittleEndianInjective(|t1|, |t2|, 8);
    assert a[8..8 + |t1|] == t1 && b[8..8 + |t2|] == t2;
    assert a[8 + |t1|..] == rest1 && b[8 + |t2|..] == rest2;
  }
}
