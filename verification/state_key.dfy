/** State keys (`crates/statechronicle-accumulator/src/key.rs`): derivation, bit addressing
    and the agreement of byte order with bit order. */
module StateKeys {
  import opened Bytes
  import opened Ordering

  /** An SMT key is any 32 bytes. */
  type Key = Digest

  const KEY_BITS: nat := 256

  const KEY_DOMAIN_PREFIX: byte := 0x00
  const KEY_RESOURCE_TAG: byte := 0x01
  const KEY_SUBJECT_TAG: byte := 0x02

  // ----- Derivation -----

  function ResourcePre(tenant: Text, resource: Text): seq<byte> {
    [KEY_DOMAIN_PREFIX] + (Prefixed(tenant) + ([KEY_RESOURCE_TAG] + (Prefixed(resource) + [])))
  }

  function SubjectPre(tenant: Text, resource: Text, subject: Text): seq<byte> {
    [KEY_DOMAIN_PREFIX]
    + (Prefixed(tenant)
       + ([KEY_RESOURCE_TAG] + (Prefixed(resource) + ([KEY_SUBJECT_TAG] + (Prefixed(subject) + [])))))
  }

  /** What a state key names: a resource, or a resource held by a subject. */
  datatype KeyScope = ForResource(tenant: Text, resource: Text)
                    | ForSubject(tenant: Text, resource: Text, subject: Text)

  function ScopePre(s: KeyScope): seq<byte> {
    match s
    case ForResource(t, r) => ResourcePre(t, r)
    case ForSubject(t, r, u) => SubjectPre(t, r, u)
  }

  function KeyFor(h: HashFn, s: KeyScope): Key { h(Message(ScopePre(s))) }

  /** `for_resource`: the pieces are fed to the hasher one at a time. */
  method ForResourceKey(h: HashFn, tenant: Text, resource: Text) returns (key: Key)
    ensures key == KeyFor(h, ForResource(tenant, resource))
  {
    var fed: seq<byte> := [KEY_DOMAIN_PREFIX];
    fed := fed + LittleEndian(|tenant|, 8);
    fed := fed + tenant;
    fed := fed + [KEY_RESOURCE_TAG];
    fed := fed + LittleEndian(|resource|, 8);
    fed := fed + resource;
    assert fed == ResourcePre(tenant, resource);
    key := h(Message(fed));
  }

  lemma SubjectPieces(tl: seq<byte>, t: seq<byte>, rl: seq<byte>, r: seq<byte>, ul: seq<byte>, u: seq<byte>)
    ensures [KEY_DOMAIN_PREFIX] + tl + t + [KEY_RESOURCE_TAG] + rl + r + [KEY_SUBJECT_TAG] + ul + u ==
            [KEY_DOMAIN_PREFIX] + ((tl + t) + ([KEY_RESOURCE_TAG] + ((rl + r) + ([KEY_SUBJECT_TAG] + ((ul + u) + [])))))
  {
    var tail := [KEY_SUBJECT_TAG] + ((ul + u) + []);
    var head := [KEY_DOMAIN_PREFIX] + tl + t + [KEY_RESOURCE_TAG];
    assert head + rl + r + [KEY_SUBJECT_TAG] + ul + u == head + (rl + r) + tail;
    assert head + (rl + r) + tail == [KEY_DOMAIN_PREFIX] + ((tl + t) + ([KEY_RESOURCE_TAG] + ((rl + r) + tail)));
  }

  /** `for_subject_held`. */
  method ForSubjectKey(h: HashFn, tenant: Text, resource: Text, subject: Text) returns (key: Key)
    ensures key == KeyFor(h, ForSubject(tenant, resource, subject))
  {
    var fed: seq<byte> := [KEY_DOMAIN_PREFIX];
    fed := fed + LittleEndian(|tenant|, 8);
    fed := fed + tenant;
    fed := fed + [KEY_RESOURCE_TAG];
    fed := fed + LittleEndian(|resource|, 8);
    fed := fed + resource;
    fed := fed + [KEY_SUBJECT_TAG];
    fed := fed + LittleEndian(|subject|, 8);
    fed := fed + subject;
    SubjectPieces(LittleEndian(|tenant|, 8), tenant, LittleEndian(|resource|, 8), resource,
                  LittleEndian(|subject|, 8), subject);
    key := h(Message(fed));
  }

  function AfterResource(s: KeyScope): seq<byte> {
    match s
    case ForResource(t, r) => []
    case ForSubject(t, r, u) => [KEY_SUBJECT_TAG] + (Prefixed(u) + [])
  }

  /** The preimage encoding is injective across both kinds of key. */
  lemma ScopePreInjective(a: KeyScope, b: KeyScope)
    requires ScopePre(a) == ScopePre(b)
    ensures a == b
  {
    var restA := [KEY_RESOURCE_TAG] + (Prefixed(a.resource) + AfterResource(a));
    var restB := [KEY_RESOURCE_TAG] + (Prefixed(b.resource) + AfterResource(b));
    assert ScopePre(a)[1..] == Prefixed(a.tenant) + restA;
    assert ScopePre(b)[1..] == Prefixed(b.tenant) + restB;
    PrefixedSplits(a.tenant, restA, b.tenant, restB);
    assert restA[1..] == Prefixed(a.resource) + AfterResource(a);
    assert restB[1..] == Prefixed(b.resource) + AfterResource(b);
    PrefixedSplits(a.resource, AfterResource(a), b.resource, AfterResource(b));
    if a.ForSubject? && b.ForSubject? {
      assert AfterResource(a)[1..] == Prefixed(a.subject) + [];
      assert AfterResource(b)[1..] == Prefixed(b.subject) + [];
      PrefixedSplits(a.subject, [], b.subject, []);
    }
  }

  /** Two scopes with one key are the same scope, or their preimages collide. */
  lemma KeysNameOneScope(h: HashFn, a: KeyScope, b: KeyScope)
    requires KeyFor(h, a) == KeyFor(h, b)
    ensures a == b || IsCollision(h, Preimages(Message(ScopePre(a)), Message(ScopePre(b))))
  {
    if ScopePre(a) == ScopePre(b) { ScopePreInjective(a, b); }
  }

  // ----- Bits -----

  // Halving, parity and the split of a bit position are written by repeated subtraction, which
  // keeps division out of every proof that routes on a key; `ShiftsAreDivisions` gives them
  // their usual form.

  /** `n >> 1`. */
  function Half(n: nat): nat { if n < 2 then 0 else 1 + Half(n - 2) }

  /** `n & 1 == 1`. */
  predicate Odd(n: nat) { if n < 2 then n == 1 else Odd(n - 2) }

  /** `position >> 3`. */
  function ByteIndex(position: nat): nat { if position < 8 then 0 else 1 + ByteIndex(position - 8) }

  /** `position & 7`. */
  function BitIndex(position: nat): (j: nat)
    ensures j < 8
  {
    if position < 8 then position else BitIndex(position - 8)
  }

  lemma {:induction false} ShiftsAreDivisions(n: nat)
    ensures Half(n) == n / 2 && (Odd(n) <==> n % 2 == 1)
    ensures ByteIndex(n) == n / 8 && BitIndex(n) == n % 8
  {
    if n >= 2 { ShiftsAreDivisions(n - 2); }
    if n >= 8 { ShiftsAreDivisions(n - 8); }
  }

  /** `byte >> shift`. */
  function Shr(b: nat, shift: nat): nat {
    if shift == 0 then b else Half(Shr(b, shift - 1))
  }

  /** Bit `j` of a byte, counted from the most significant. */
  predicate ByteBit(b: byte, j: nat)
    requires j < 8
  {
    Odd(Shr(b, 7 - j))
  }

  function ByteBits(b: byte): (bits: seq<bool>)
    ensures |bits| == 8
  {
    seq(8, j requires 0 <= j < 8 => ByteBit(b, j))
  }

  function BitsOf(bs: seq<byte>): seq<bool> {
    if bs == [] then [] else ByteBits(bs[0]) + BitsOf(bs[1..])
  }

  lemma {:induction false} BitsOfLength(bs: seq<byte>)
    ensures |BitsOf(bs)| == 8 * |bs|
  {
    if bs != [] { BitsOfLength(bs[1..]); }
  }

  lemma {:induction false} BitsOfIndex(bs: seq<byte>, i: nat, j: nat)
    requires i < |bs| && j < 8
    ensures 8 * i + j < |BitsOf(bs)| && BitsOf(bs)[8 * i + j] == ByteBit(bs[i], j)
  {
    if i > 0 { BitsOfIndex(bs[1..], i - 1, j); }
  }

  /** The key as a root-to-leaf path, most significant bit first. */
  function Bits(key: Key): (bits: seq<bool>)
    ensures |bits| == KEY_BITS
  {
    BitsOfLength(key.bytes);
    BitsOf(key.bytes)
  }

  /** The bit of a key at `position`; out of range it reads as clear. */
  predicate BitAt(key: Key, position: nat) {
    position < KEY_BITS && Bits(key)[position]
  }

  lemma BitAtByte(key: Key, i: nat, j: nat)
    requires i < 32 && j < 8
    ensures BitAt(key, 8 * i + j) == ByteBit(key.bytes[i], j)
  {
    BitsOfIndex(key.bytes, i, j);
  }

  /** `StateKey::bit_at`: pick the byte, shift, mask. */
  method BitAtByShift(key: Key, position: nat) returns (bit: bool)
    ensures bit == BitAt(key, position)
  {
    ShiftsAreDivisions(position);
    var byteIndex, bitInByte := ByteIndex(position), BitIndex(position);
    if byteIndex >= 32 { return false; }
    var shift := 7 - bitInByte;
    BitAtByte(key, byteIndex, bitInByte);
    bit := Odd(Shr(key.bytes[byteIndex], shift));
  }

  function Pow2(k: nat): nat {
    if k == 0 then 1 else 2 * Pow2(k - 1)
  }

  /** The number a bit string writes, most significant bit first. */
  function NumberOf(bits: seq<bool>): (n: nat)
    ensures n < Pow2(|bits|)
  {
    if bits == [] then 0
    else 2 * NumberOf(bits[..|bits| - 1]) + (if bits[|bits| - 1] then 1 else 0)
  }

  /** The bytes a path writes, eight bits to a byte. */
  function BytesAt(path: seq<bool>): (bs: seq<byte>)
    ensures 8 * |bs| <= |path| < 8 * |bs| + 8
  {
    if |path| < 8 then []
    else
      assert Pow2(3) == 8 && Pow2(6) == 64 && Pow2(8) == 256;
      [NumberOf(path[..8]) as byte] + BytesAt(path[8..])
  }

  /** The one key that lies at the end of a full path. */
  function KeyAt(path: seq<bool>): Key
    requires |path| == KEY_BITS
  {
    Digest(BytesAt(path))
  }

  lemma {:induction false} BytesAtIndex(path: seq<bool>, i: nat)
    requires 8 * i + 8 <= |path|
    ensures i < |BytesAt(path)| && BytesAt(path)[i] == NumberOf(path[8 * i..8 * i + 8])
  {
    hide NumberOf, Pow2;
    assert BytesAt(path)[0] == NumberOf(path[..8]) && BytesAt(path)[1..] == BytesAt(path[8..]);
    hide BytesAt;
    if i > 0 {
      var at := 8 * i - 8;
      BytesAtIndex(path[8..], i - 1);
      TailSlice(path, 8, at, at + 8);
    }
  }

  lemma TailSlice<T>(s: seq<T>, k: nat, from: nat, to: nat)
    requires from <= to && k + to <= |s|
    ensures s[k..][from..to] == s[k + from..k + to]
  {
  }

  lemma {:induction false} ShrNumber(bits: seq<bool>, s: nat)
    requires s <= |bits|
    ensures Shr(NumberOf(bits), s) == NumberOf(bits[..|bits| - s])
  {
    if s == 0 {
      assert bits[..|bits|] == bits;
    } else {
      ShrNumber(bits, s - 1);
      var kept := bits[..|bits| - s + 1];
      assert kept[..|kept| - 1] == bits[..|bits| - s];
      ShiftsAreDivisions(NumberOf(kept));
    }
  }

  lemma {:induction false} ShrMonotone(x: nat, y: nat, s: nat)
    requires x <= y
    ensures Shr(x, s) <= Shr(y, s)
  {
    if s > 0 {
      ShrMonotone(x, y, s - 1);
      ShiftsAreDivisions(Shr(x, s - 1));
      ShiftsAreDivisions(Shr(y, s - 1));
    }
  }

  lemma HalfBound(n: nat, bound: nat)
    requires n < 2 * bound
    ensures Half(n) < bound
  {
    ShiftsAreDivisions(n);
  }

  lemma {:induction false} ShrBound(n: nat, s: nat, k: nat)
    requires n < Pow2(s + k)
    ensures Shr(n, s) < Pow2(k)
  {
    if s > 0 {
      ShrBound(n, s - 1, k + 1);
      hide Half;
      HalfBound(Shr(n, s - 1), Pow2(k));
    }
  }

  lemma ShrAll(b: byte)
    ensures Shr(b, 8) == 0
  {
    assert Pow2(3) == 8 && Pow2(6) == 64 && Pow2(8 + 0) == 256;
    ShrBound(b, 8, 0);
  }

  /** Bytes whose first `j` bits agree have the same top `j`-bit number. */
  lemma {:induction false} TopBits(x: byte, y: byte, j: nat)
    requires j <= 8 && forall i :: 0 <= i < j ==> ByteBit(x, i) == ByteBit(y, i)
    ensures Shr(x, 8 - j) == Shr(y, 8 - j)
  {
    if j == 0 {
      ShrAll(x);
      ShrAll(y);
    } else {
      TopBits(x, y, j - 1);
      assert ByteBit(x, j - 1) == ByteBit(y, j - 1);
      ShiftsAreDivisions(Shr(x, 8 - j));
      ShiftsAreDivisions(Shr(y, 8 - j));
    }
  }

  lemma BytesAgree(a: Key, b: Key, k: nat)
    requires k < 32 && forall p :: 8 * k <= p < 8 * k + 8 ==> BitAt(a, p) == BitAt(b, p)
    ensures a.bytes[k] == b.bytes[k]
  {
    forall j | 0 <= j < 8 ensures ByteBit(a.bytes[k], j) == ByteBit(b.bytes[k], j) {
      BitAtByte(a, k, j);
      BitAtByte(b, k, j);
    }
    TopBits(a.bytes[k], b.bytes[k], 8);
  }

  lemma BitsInjective(a: Key, b: Key)
    requires Bits(a) == Bits(b)
    ensures a == b
  {
    forall p: nat | p < KEY_BITS ensures BitAt(a, p) == BitAt(b, p) {
      assert Bits(a)[p] == Bits(b)[p];
    }
    forall k | 0 <= k < 32 ensures a.bytes[k] == b.bytes[k] { BytesAgree(a, b, k); }
  }

  lemma OddIsLastBit(n: nat, bit: bool)
    ensures Odd(2 * n + if bit then 1 else 0) <==> bit
  {
    ShiftsAreDivisions(2 * n + if bit then 1 else 0);
  }

  lemma NumberBit(bits: seq<bool>, j: nat)
    requires |bits| == 8 && j < 8
    ensures Odd(Shr(NumberOf(bits), 7 - j)) <==> bits[j]
  {
    ShrNumber(bits, 7 - j);
    var kept := bits[..j + 1];
    assert kept[j] == bits[j] && |bits| - (7 - j) == j + 1;
    hide Shr, Odd;
    OddIsLastBit(NumberOf(kept[..j]), kept[j]);
  }

  /** Full paths and keys are in bijection. */
  lemma KeyOfPath(path: seq<bool>)
    requires |path| == KEY_BITS
    ensures Bits(KeyAt(path)) == path
  {
    forall p | 0 <= p < KEY_BITS ensures Bits(KeyAt(path))[p] == path[p] {
      var i, j := p / 8, p % 8;
      var bits := path[8 * i..8 * i + 8];
      BytesAtIndex(path, i);
      BitAtByte(KeyAt(path), i, j);
      NumberBit(bits, j);
      assert bits[j] == path[p];
    }
  }

  lemma PathOfKey(key: Key)
    ensures KeyAt(Bits(key)) == key
  {
    KeyOfPath(Bits(key));
    BitsInjective(KeyAt(Bits(key)), key);
  }

  // ----- Order -----

  /** `Ord for StateKey`: byte-lexicographic. */
  predicate KeyLe(a: Key, b: Key) { LexLe(ByteLt, a.bytes, b.bytes) }

  lemma KeyLeIsTotalOrder()
    ensures TotalOrder(KeyLe) && StrictOrder(ByteLt)
  {
    forall a: Key, b: Key ensures KeyLe(a, b) || KeyLe(b, a)
      ensures KeyLe(a, b) && KeyLe(b, a) ==> a == b
    {
      LexTotal(ByteLt, a.bytes, b.bytes);
    }
    forall a: Key, b: Key, c: Key | KeyLe(a, b) && KeyLe(b, c) ensures KeyLe(a, c) {
      LexTransitive(ByteLt, a.bytes, b.bytes, c.bytes);
    }
  }

  /** Byte order is bit order: among keys that share their first `n` bits, the smaller key
      never has bit `n` set where the larger has it clear. */
  lemma KeyOrderIsBitOrder(a: Key, b: Key, n: nat)
    requires n < KEY_BITS && KeyLe(a, b) && Bits(a)[..n] == Bits(b)[..n]
    ensures BitAt(a, n) ==> BitAt(b, n)
  {
    var i, j := n / 8, n % 8;
    forall p: nat | p < n ensures BitAt(a, p) == BitAt(b, p) {
      assert Bits(a)[..n][p] == Bits(b)[..n][p];
    }
    forall k | 0 <= k < i ensures a.bytes[k] == b.bytes[k] { BytesAgree(a, b, k); }
    KeyLeIsTotalOrder();
    LexAt(ByteLt, a.bytes, b.bytes, i);
    forall k | 0 <= k < j ensures ByteBit(a.bytes[i], k) == ByteBit(b.bytes[i], k) {
      BitAtByte(a, i, k);
      BitAtByte(b, i, k);
      assert BitAt(a, 8 * i + k) == BitAt(b, 8 * i + k);
    }
    TopBits(a.bytes[i], b.bytes[i], j);
    BitAtByte(a, i, j);
    BitAtByte(b, i, j);
    ShiftsAreDivisions(Shr(a.bytes[i], 7 - j));
    ShiftsAreDivisions(Shr(b.bytes[i], 7 - j));
    ShrMonotone(a.bytes[i], b.bytes[i], 7 - j);
  }
}
