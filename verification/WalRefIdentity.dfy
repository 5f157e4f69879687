/**
  The byte identity of a WAL part reference, shared by compaction ids and fingerprints:
  NUL-terminated strings, little-endian numbers, and a tail of fingerprint and hash.
 */
module WalRefIdentity {
  import opened Basics
  import opened Texts
  import opened SortedKeys

  datatype WalRef = WalRef(
    segmentId: Bytes,
    source: Bytes,
    start: nat,
    len: nat,
    sinkRef: Bytes,
    namespace: Bytes,
    partition: Bytes,
    time: Option<int>,
    schemaFingerprint: Bytes,
    cdcMetaHash: Option<Bytes>)

  const I64_MAX: int := 0x7FFF_FFFF_FFFF_FFFF
  const HASH_BYTES: nat := 32

  function LittleEndian(n: nat, width: nat): (bytes: Bytes)
    ensures |bytes| == width
  {
    if width == 0 then [] else [n % 256] + LittleEndian(n / 256, width - 1)
  }

  /** Two's complement of a 64-bit signed number. */
  function Unsigned(t: int): nat {
    t % (U64_MAX + 1)
  }

  /** The fields fit their Rust types. */
  predicate Typed(r: WalRef) {
    && r.start <= U64_MAX && r.len <= U64_MAX
    && (r.time.Some? ==> -I64_MAX - 1 <= r.time.value <= I64_MAX)
    && (r.cdcMetaHash.Some? ==> |r.cdcMetaHash.value| == HASH_BYTES)
  }

  function TimeOf(r: WalRef): int {
    if r.time.None? then 0 else r.time.value
  }

  /** Everything after the strings: a fingerprint, and the hash of a CDC part. */
  function Tail(r: WalRef): Bytes {
    r.schemaFingerprint + if r.cdcMetaHash.Some? then r.cdcMetaHash.value else []
  }

  /** `out` grows field by field, as in the source. */
  function Identity(r: WalRef): Bytes {
    r.segmentId + ([0] + (r.source + ([0] + (
      LittleEndian(r.start, 8) + (LittleEndian(r.len, 8) + (
        r.sinkRef + ([0] + (r.namespace + ([0] + (r.partition + ([0] + (
          LittleEndian(Unsigned(TimeOf(r)), 8) + Tail(r)))))))))))))
  }

  // ---- reading an identity back ----

  predicate NulFree(text: Bytes) {
    forall i | 0 <= i < |text| :: text[i] != 0
  }

  /** A NUL-terminated field ends at its first NUL, whatever follows. */
  lemma FieldSplit(a: Bytes, ra: Bytes, x: Bytes, b: Bytes, rb: Bytes, y: Bytes)
    requires NulFree(a) && NulFree(b) && (a + ([0] + ra)) + x == (b + ([0] + rb)) + y
    ensures a == b && ra + x == rb + y
  {
    var whole := (a + ([0] + ra)) + x;
    assert whole[|a|] == 0 && whole[|b|] == 0;
    assert |a| == |b|;
    assert a == whole[..|a|] && b == whole[..|b|] && ra + x == whole[|a| + 1..] && rb + y == whole[|b| + 1..];
  }

  lemma WidthSplit(a: Bytes, x: Bytes, b: Bytes, y: Bytes)
    requires |a| == |b| && a + x == b + y
    ensures a == b && x == y
  {
    assert a == (a + x)[..|a|] && b == (b + y)[..|b|] && x == (a + x)[|a|..] && y == (b + y)[|b|..];
  }

  function Limit(width: nat): nat {
    if width == 0 then 1 else 256 * Limit(width - 1)
  }

  lemma {:induction false} LittleEndianInjective(m: nat, n: nat, width: nat)
    requires m < Limit(width) && n < Limit(width) && LittleEndian(m, width) == LittleEndian(n, width)
    ensures m == n
  {
    if width > 0 {
      var a, b := LittleEndian(m, width), LittleEndian(n, width);
      assert a[0] == m % 256 && b[0] == n % 256;
      assert a[1..] == LittleEndian(m / 256, width - 1) && b[1..] == LittleEndian(n / 256, width - 1);
      LittleEndianInjective(m / 256, n / 256, width - 1);
    }
  }

  lemma Limit64()
    ensures Limit(8) == U64_MAX + 1
  {
    assert Limit(2) == 0x1_0000;
    assert Limit(4) == 0x1_0000_0000;
    assert Limit(6) == 0x1_0000_0000_0000;
  }

  lemma BytesSplit(m: nat, ra: Bytes, x: Bytes, n: nat, rb: Bytes, y: Bytes, width: nat)
    requires m < Limit(width) && n < Limit(width)
    requires (LittleEndian(m, width) + ra) + x == (LittleEndian(n, width) + rb) + y
    ensures m == n && ra + x == rb + y
  {
    var a, b := LittleEndian(m, width), LittleEndian(n, width);
    assert (a + ra) + x == a + (ra + x) && (b + rb) + y == b + (rb + y);
    WidthSplit(a, ra + x, b, rb + y);
    LittleEndianInjective(m, n, width);
  }

  lemma NumberSplit(m: nat, ra: Bytes, x: Bytes, n: nat, rb: Bytes, y: Bytes)
    requires m <= U64_MAX && n <= U64_MAX && (LittleEndian(m, 8) + ra) + x == (LittleEndian(n, 8) + rb) + y
    ensures m == n && ra + x == rb + y
  {
    Limit64();
    BytesSplit(m, ra, x, n, rb, y, 8);
  }

  lemma UnsignedInjective(t: int, u: int)
    requires -I64_MAX - 1 <= t <= I64_MAX && -I64_MAX - 1 <= u <= I64_MAX && Unsigned(t) == Unsigned(u)
    ensures t == u
  {
  }

  predicate NulFreeRef(r: WalRef) {
    NulFree(r.segmentId) && NulFree(r.source) && NulFree(r.sinkRef) && NulFree(r.namespace) && NulFree(r.partition)
  }

  /** Everything before the tail, with the time read the way the identity reads it: a missing time is zero. */
  function Head(r: WalRef): WalRef {
    r.(time := Some(TimeOf(r)), schemaFingerprint := [], cdcMetaHash := None)
  }

  function TimeAndTail(r: WalRef): Bytes {
    LittleEndian(Unsigned(TimeOf(r)), 8) + Tail(r)
  }

  /** From the sink reference on. */
  function SecondHalf(r: WalRef): Bytes {
    r.sinkRef + ([0] + (r.namespace + ([0] + (r.partition + ([0] + TimeAndTail(r))))))
  }

  lemma SecondHalfSplit(a: WalRef, b: WalRef, x: Bytes, y: Bytes)
    requires Typed(a) && Typed(b) && NulFreeRef(a) && NulFreeRef(b) && SecondHalf(a) + x == SecondHalf(b) + y
    ensures a.sinkRef == b.sinkRef && a.namespace == b.namespace && a.partition == b.partition
    ensures TimeOf(a) == TimeOf(b) && Tail(a) + x == Tail(b) + y
  {
    var pa, pb := a.partition + ([0] + TimeAndTail(a)), b.partition + ([0] + TimeAndTail(b));
    FieldSplit(a.sinkRef, a.namespace + ([0] + pa), x, b.sinkRef, b.namespace + ([0] + pb), y);
    FieldSplit(a.namespace, pa, x, b.namespace, pb, y);
    FieldSplit(a.partition, TimeAndTail(a), x, b.partition, TimeAndTail(b), y);
    NumberSplit(Unsigned(TimeOf(a)), Tail(a), x, Unsigned(TimeOf(b)), Tail(b), y);
    UnsignedInjective(TimeOf(a), TimeOf(b));
  }

  /** Identities followed by anything: the fields before the tail can be read off the front. */
  lemma IdentitySplit(a: WalRef, b: WalRef, x: Bytes, y: Bytes)
    requires Typed(a) && Typed(b) && NulFreeRef(a) && NulFreeRef(b) && Identity(a) + x == Identity(b) + y
    ensures Head(a) == Head(b) && Tail(a) + x == Tail(b) + y
  {
    var ya, yb := LittleEndian(a.len, 8) + SecondHalf(a), LittleEndian(b.len, 8) + SecondHalf(b);
    var xa, xb := LittleEndian(a.start, 8) + ya, LittleEndian(b.start, 8) + yb;
    FieldSplit(a.segmentId, a.source + ([0] + xa), x, b.segmentId, b.source + ([0] + xb), y);
    FieldSplit(a.source, xa, x, b.source, xb, y);
    NumberSplit(a.start, ya, x, b.start, yb, y);
    NumberSplit(a.len, SecondHalf(a), x, b.len, SecondHalf(b), y);
    SecondHalfSplit(a, b, x, y);
  }

  /** References with NUL-free strings share an identity exactly when their heads and their tails agree. */
  lemma IdentityExactly(a: WalRef, b: WalRef)
    requires Typed(a) && Typed(b) && NulFreeRef(a) && NulFreeRef(b)
    ensures Identity(a) == Identity(b) <==> Head(a) == Head(b) && Tail(a) == Tail(b)
  {
    if Identity(a) == Identity(b) {
      IdentitySplit(a, b, [], []);
      assert Tail(a) + [] == Tail(a) && Tail(b) + [] == Tail(b);
    }
  }

  /** The strings hold no NUL and the fingerprint has the given length. */
  predicate Readable(r: WalRef, width: nat) {
    Typed(r) && NulFreeRef(r) && |r.schemaFingerprint| == width
  }

  function Canon(r: WalRef): WalRef {
    r.(time := Some(TimeOf(r)))
  }

  /** With fingerprints of one length, identities are equal if and only if the references agree up to a missing time. */
  lemma IdentityInjective(a: WalRef, b: WalRef, width: nat)
    requires Readable(a, width) && Readable(b, width)
    ensures Identity(a) == Identity(b) <==> Canon(a) == Canon(b)
  {
    IdentityExactly(a, b);
    if Tail(a) == Tail(b) {
      var x := if a.cdcMetaHash.Some? then a.cdcMetaHash.value else [];
      var y := if b.cdcMetaHash.Some? then b.cdcMetaHash.value else [];
      WidthSplit(a.schemaFingerprint, x, b.schemaFingerprint, y);
    }
  }

  predicate Ascii(text: Bytes) {
    forall i | 0 <= i < |text| :: text[i] < 128
  }

  /**
    The length matters: a CDC part and a plain part whose longer fingerprint ends in the hash share an
    identity. The hash is ASCII here, so that the longer fingerprint is a Rust string.
   */
  lemma LengthsMustMatch(r: WalRef)
    requires Typed(r) && r.cdcMetaHash.Some? && Ascii(r.schemaFingerprint) && Ascii(r.cdcMetaHash.value)
    ensures var other := r.(schemaFingerprint := r.schemaFingerprint + r.cdcMetaHash.value, cdcMetaHash := None);
            other != r && Typed(other) && Ascii(other.schemaFingerprint) && Identity(other) == Identity(r)
  {
    var other := r.(schemaFingerprint := r.schemaFingerprint + r.cdcMetaHash.value, cdcMetaHash := None);
    assert Tail(other) == Tail(r);
  }

  // ---- canonical lists ----

  /** The sorted identities that the fingerprint of a list of references hashes. */
  function CanonicalIdentities(refs: seq<WalRef>): seq<Bytes> {
    Sort(Keys(refs, Identity), Self)
  }

  /** The order in which the apply envelope lists its references. */
  function EnvelopeRefs(refs: seq<WalRef>): seq<WalRef> {
    Sort(refs, Identity)
  }

  ghost predicate AllReadable(refs: seq<WalRef>, width: nat) {
    forall i | 0 <= i < |refs| :: Readable(refs[i], width)
  }

  /**
    Two lists of readable references have the same canonical identities if and only if they hold the
    same references equally often, up to a missing time.
   */
  lemma CanonicalExactly(a: seq<WalRef>, b: seq<WalRef>, width: nat)
    requires AllReadable(a, width) && AllReadable(b, width)
    ensures CanonicalIdentities(a) == CanonicalIdentities(b) <==> multiset(Keys(a, Canon)) == multiset(Keys(b, Canon))
  {
    SortedExactly(Keys(a, Identity), Keys(b, Identity));
    forall r, q | r in a + b && q in a + b ensures Identity(r) == Identity(q) <==> Canon(r) == Canon(q) {
      IdentityInjective(r, q, width);
    }
    SameMultisets(a, b, Identity, Canon);
  }

  /** The envelope lists the given references, in the order of the identities its fingerprint hashes. */
  lemma EnvelopeFollowsFingerprint(refs: seq<WalRef>)
    ensures multiset(EnvelopeRefs(refs)) == multiset(refs)
    ensures Keys(EnvelopeRefs(refs), Identity) == CanonicalIdentities(refs)
  {
    SortPermutes(refs, Identity);
    SortKeys(refs, Identity);
  }
}
