/**
  The bytes hashed into the fingerprint of a list of WAL references: a label, then each canonical
  identity followed by the byte 0xff.
 */
module WalRefFingerprint {
  import opened Basics
  import opened Texts
  import opened SortedKeys
  import opened WalRefIdentity

  const SEPARATOR: Byte := 0xff

  /** "grouped-wal-refs-v2". */
  const LABEL: Bytes := [103, 114, 111, 117, 112, 101, 100, 45, 119, 97, 108, 45, 114, 101, 102, 115, 45, 118, 50]

  function Stream(ids: seq<Bytes>): Bytes {
    if ids == [] then [] else ids[0] + ([SEPARATOR] + Stream(ids[1..]))
  }

  function Hashed(refs: seq<WalRef>): Bytes {
    LABEL + Stream(CanonicalIdentities(refs))
  }

  /** Readable references that all carry a hash, or all carry none. */
  ghost predicate Uniform(refs: seq<WalRef>, width: nat, cdc: bool) {
    forall i | 0 <= i < |refs| :: Readable(refs[i], width) && refs[i].cdcMetaHash.Some? == cdc
  }

  lemma FirstSplit(a: WalRef, b: WalRef, width: nat, x: Bytes, y: Bytes)
    requires Readable(a, width) && Readable(b, width) && a.cdcMetaHash.Some? == b.cdcMetaHash.Some?
    requires Identity(a) + ([SEPARATOR] + x) == Identity(b) + ([SEPARATOR] + y)
    ensures Identity(a) == Identity(b) && x == y
  {
    IdentitySplit(a, b, [SEPARATOR] + x, [SEPARATOR] + y);
    WidthSplit(Tail(a), [SEPARATOR] + x, Tail(b), [SEPARATOR] + y);
    assert x == ([SEPARATOR] + x)[1..] && y == ([SEPARATOR] + y)[1..];
    IdentityExactly(a, b);
  }

  lemma StreamFirst(refs: seq<WalRef>)
    requires refs != []
    ensures Keys(refs, Identity) == [Identity(refs[0])] + Keys(refs[1..], Identity)
    ensures Stream(Keys(refs, Identity)) == Identity(refs[0]) + ([SEPARATOR] + Stream(Keys(refs[1..], Identity)))
  {
    assert Keys(refs, Identity)[1..] == Keys(refs[1..], Identity);
  }

  lemma OnlyEmptyIsSilent(refs: seq<WalRef>)
    ensures Stream(Keys(refs, Identity)) == [] <==> refs == []
  {
    if refs != [] { StreamFirst(refs); }
  }

  lemma {:induction false} StreamSplits(a: seq<WalRef>, b: seq<WalRef>, width: nat, cdc: bool)
    requires Uniform(a, width, cdc) && Uniform(b, width, cdc)
    requires Stream(Keys(a, Identity)) == Stream(Keys(b, Identity))
    ensures Keys(a, Identity) == Keys(b, Identity)
  {
    OnlyEmptyIsSilent(a);
    OnlyEmptyIsSilent(b);
    if a == [] {
      assert b == [];
    } else {
      StreamFirst(a);
      StreamFirst(b);
      FirstSplit(a[0], b[0], width, Stream(Keys(a[1..], Identity)), Stream(Keys(b[1..], Identity)));
      StreamSplits(a[1..], b[1..], width, cdc);
    }
  }

  lemma SortedUniform(refs: seq<WalRef>, width: nat, cdc: bool)
    requires Uniform(refs, width, cdc)
    ensures Uniform(EnvelopeRefs(refs), width, cdc)
  {
    var sorted := EnvelopeRefs(refs);
    SortPermutes(refs, Identity);
    forall i | 0 <= i < |sorted| ensures Readable(sorted[i], width) && sorted[i].cdcMetaHash.Some? == cdc {
      assert sorted[i] in multiset(refs);
    }
  }

  /**
    With fingerprints of one length, and a hash on every reference or on none, the hashed bytes are
    equal if and only if the lists hold the same references equally often, up to a missing time.
   */
  lemma HashedExactly(a: seq<WalRef>, b: seq<WalRef>, width: nat, cdc: bool)
    requires Uniform(a, width, cdc) && Uniform(b, width, cdc)
    ensures Hashed(a) == Hashed(b) <==> multiset(Keys(a, Canon)) == multiset(Keys(b, Canon))
  {
    CanonicalExactly(a, b, width);
    if Hashed(a) == Hashed(b) {
      WidthSplit(LABEL, Stream(CanonicalIdentities(a)), LABEL, Stream(CanonicalIdentities(b)));
      SortedUniform(a, width, cdc);
      SortedUniform(b, width, cdc);
      EnvelopeFollowsFingerprint(a);
      EnvelopeFollowsFingerprint(b);
      StreamSplits(EnvelopeRefs(a), EnvelopeRefs(b), width, cdc);
    }
  }

  // ---- lists that mix references with and without a hash ----

  /** `n` letters b. */
  function Letters(n: nat): Bytes {
    seq(n, i => 98)
  }

  function Number(bytes: Bytes): nat {
    if bytes == [] then 0 else bytes[0] + 256 * Number(bytes[1..])
  }

  lemma {:induction false} NumberBytes(bytes: Bytes)
    ensures LittleEndian(Number(bytes), |bytes|) == bytes && Number(bytes) < Limit(|bytes|)
  {
    if bytes != [] {
      NumberBytes(bytes[1..]);
      assert bytes == [bytes[0]] + bytes[1..];
    }
  }

  function Signed(n: nat): int {
    if n <= I64_MAX then n else n - U64_MAX - 1
  }

  /** `e` is written as eight letters, `st` as a separator and seven letters. */
  ghost predicate Written(e: nat, st: nat) {
    && e <= U64_MAX && st <= U64_MAX
    && LittleEndian(e, 8) == Letters(8) && LittleEndian(st, 8) == [SEPARATOR] + Letters(7)
  }

  lemma Numbers() returns (e: nat, st: nat)
    ensures Written(e, st)
  {
    var eight, seven := Letters(8), [SEPARATOR] + Letters(7);
    NumberBytes(eight);
    NumberBytes(seven);
    Limit64();
    e, st := Number(eight), Number(seven);
  }

  lemma SignedBack(n: nat)
    requires n <= U64_MAX
    ensures -I64_MAX - 1 <= Signed(n) <= I64_MAX && Unsigned(Signed(n)) == n
  {
  }

  function Meta(): (meta: Bytes)
    ensures |meta| == HASH_BYTES
  {
    [SEPARATOR] + (Letters(29) + [0, 0])
  }

  function Plain(width: nat): WalRef {
    WalRef([97], [], 0, 0, [], [], [], None, Letters(width), None)
  }

  function WithMeta(width: nat): WalRef {
    Plain(width).(cdcMetaHash := Some(Meta()))
  }

  function Short(width: nat, e: nat): WalRef {
    WalRef(Letters(15), [], e, e, [], Letters(30), [], None, Letters(width), None)
  }

  /** The end of `Short`, as the fingerprint and hash of `Long`. */
  function LongTail(width: nat, e: nat): (tail: Bytes)
    ensures |tail| == width + HASH_BYTES
  {
    Letters(22) + ([0, 0] + TimeAndTail(Short(width, e)))
  }

  function Long(width: nat, e: nat, st: nat): WalRef {
    WalRef(Letters(29), [], st, e, [], [], Letters(16), Some(Signed(e)), LongTail(width, e)[..width], Some(LongTail(width, e)[width..]))
  }

  lemma LettersJoin(m: nat, n: nat)
    ensures Letters(m) + Letters(n) == Letters(m + n)
  {
  }

  lemma Regroup(a: Bytes, b: Bytes, z: Bytes)
    ensures a + (b + z) == (a + b) + z
    ensures [0, 0] + z == [0] + ([0] + z)
  {
  }

  lemma LongEnds(width: nat, e: nat, st: nat)
    requires Written(e, st)
    ensures TimeAndTail(Long(width, e, st)) == Letters(8) + LongTail(width, e)
  {
    SignedBack(e);
    assert Tail(Long(width, e, st)) == LongTail(width, e);
  }

  lemma LettersThenZeros(m: nat, n: nat, z: Bytes)
    ensures Letters(m) + (Letters(n) + ([0, 0] + z)) == Letters(m + n) + ([0] + ([0] + z))
  {
    LettersJoin(m, n);
    Regroup(Letters(m), Letters(n), [0, 0] + z);
    Regroup([], [], z);
  }

  lemma LongTime(width: nat, e: nat, st: nat)
    requires Written(e, st)
    ensures TimeAndTail(Long(width, e, st)) == Letters(30) + ([0] + ([0] + TimeAndTail(Short(width, e))))
  {
    LongEnds(width, e, st);
    LettersThenZeros(8, 22, TimeAndTail(Short(width, e)));
  }

  lemma ShortHalf(width: nat, e: nat)
    ensures SecondHalf(Short(width, e)) == [0] + (Letters(30) + ([0] + ([0] + TimeAndTail(Short(width, e)))))
  {
  }

  lemma LongHalf(width: nat, e: nat, st: nat)
    requires Written(e, st)
    ensures SecondHalf(Long(width, e, st)) == [0] + ([0] + (Letters(16) + SecondHalf(Short(width, e))))
  {
    LongTime(width, e, st);
    ShortHalf(width, e);
  }

  /** The first half of an identity whose source is empty. */
  lemma NoSource(r: WalRef)
    requires r.source == []
    ensures Identity(r) == r.segmentId + ([0] + ([0] + (LittleEndian(r.start, 8) + (LittleEndian(r.len, 8) + SecondHalf(r)))))
  {
  }

  lemma ShortBytes(width: nat, e: nat, st: nat)
    requires Written(e, st)
    ensures Identity(Short(width, e)) == Letters(15) + ([0] + ([0] + (Letters(16) + SecondHalf(Short(width, e)))))
  {
    NoSource(Short(width, e));
    LettersJoin(8, 8);
    Regroup(Letters(8), Letters(8), SecondHalf(Short(width, e)));
  }

  lemma Shift(half: Bytes)
    ensures ([SEPARATOR] + Letters(7)) + (Letters(8) + half) == [SEPARATOR] + (Letters(15) + half)
  {
    LettersJoin(7, 8);
    Regroup(Letters(7), Letters(8), half);
  }

  /** `Long` is the hash of `WithMeta`, the separator, and `Short`. */
  lemma LongBytes(width: nat, e: nat, st: nat)
    requires Written(e, st)
    ensures Identity(Long(width, e, st)) == Letters(29) + ([0] + ([0] + ([SEPARATOR] + Identity(Short(width, e)))))
  {
    NoSource(Long(width, e, st));
    LongHalf(width, e, st);
    ShortBytes(width, e, st);
    Shift(SecondHalf(Long(width, e, st)));
  }

  lemma MetaBytes(width: nat)
    ensures Identity(WithMeta(width)) == Identity(Plain(width)) + Meta()
  {
    assert Tail(WithMeta(width)) == Tail(Plain(width)) + Meta();
  }

  lemma TwoSorted(a: WalRef, b: WalRef)
    requires Identity(a) != [] && Identity(b) != [] && Identity(a)[0] < Identity(b)[0]
    ensures CanonicalIdentities([a, b]) == [Identity(a), Identity(b)]
  {
    SortTwo(Identity(a), Identity(b));
    assert Keys([a, b], Identity) == [Identity(a), Identity(b)];
  }

  lemma SortTwo(x: Bytes, y: Bytes)
    requires x != [] && y != [] && x[0] < y[0]
    ensures Sort([x, y], Self) == [x, y]
  {
    var none: seq<Bytes> := [];
    assert [x, y][..1] == [x] && [x][..0] == none && [x][1..] == none;
    assert Sort([x], Self) == [x];
    assert Insert(none, y, Self) == [y];
    assert Insert([x], y, Self) == [x] + [y];
  }

  lemma TwoStream(x: Bytes, y: Bytes)
    ensures Stream([x, y]) == x + ([SEPARATOR] + (y + [SEPARATOR]))
  {
    var none: seq<Bytes> := [];
    assert [x, y][1..] == [y] && [y][1..] == none;
    assert Stream([y]) == y + [SEPARATOR];
  }

  lemma SameStream(p: Bytes, meta: Bytes, short: Bytes, long: Bytes)
    requires meta + ([SEPARATOR] + short) == [SEPARATOR] + long
    ensures (p + meta) + ([SEPARATOR] + (short + [SEPARATOR])) == p + ([SEPARATOR] + (long + [SEPARATOR]))
  {
    assert (p + meta) + ([SEPARATOR] + (short + [SEPARATOR])) == p + (meta + ([SEPARATOR] + short)) + [SEPARATOR];
    assert p + ([SEPARATOR] + (long + [SEPARATOR])) == p + ([SEPARATOR] + long) + [SEPARATOR];
  }

  lemma FirstByte(r: WalRef)
    requires r.segmentId != []
    ensures Identity(r) != [] && Identity(r)[0] == r.segmentId[0]
  {
  }

  lemma MetaAndShort(short: Bytes)
    ensures Meta() + ([SEPARATOR] + short) == [SEPARATOR] + (Letters(29) + ([0] + ([0] + ([SEPARATOR] + short))))
  {
  }

  lemma Collide(width: nat, e: nat, st: nat)
    requires Written(e, st)
    ensures Hashed([WithMeta(width), Short(width, e)]) == Hashed([Plain(width), Long(width, e, st)])
  {
    var p, m, short, long := Plain(width), WithMeta(width), Short(width, e), Long(width, e, st);
    FirstByte(p);
    FirstByte(m);
    FirstByte(short);
    FirstByte(long);
    TwoSorted(m, short);
    TwoSorted(p, long);
    TwoStream(Identity(m), Identity(short));
    TwoStream(Identity(p), Identity(long));
    assert Meta() + ([SEPARATOR] + Identity(short)) == [SEPARATOR] + Identity(long) by {
      LongBytes(width, e, st);
      MetaAndShort(Identity(short));
    }
    MetaBytes(width);
    SameStream(Identity(p), Meta(), Identity(short), Identity(long));
  }

  /** The reference is readable and its strings are ASCII, so the code can receive it. */
  ghost predicate Proper(r: WalRef, width: nat) {
    && Readable(r, width) && Ascii(r.segmentId) && Ascii(r.source) && Ascii(r.sinkRef) && Ascii(r.namespace)
    && Ascii(r.partition) && Ascii(r.schemaFingerprint)
  }

  lemma {:induction false} ZeroBytes(n: nat)
    ensures Ascii(LittleEndian(0, n))
  {
    if n > 0 { ZeroBytes(n - 1); }
  }

  lemma LettersPlain(n: nat)
    ensures Ascii(Letters(n)) && NulFree(Letters(n))
  {
  }

  lemma AsciiJoin(a: Bytes, b: Bytes)
    requires Ascii(a) && Ascii(b)
    ensures Ascii(a + b)
  {
  }

  lemma TailIsAscii(width: nat, e: nat)
    ensures Ascii(LongTail(width, e)) && Ascii(LongTail(width, e)[..width])
  {
    LettersPlain(22);
    ShortTailIsAscii(width, e);
    AsciiJoin([0, 0], TimeAndTail(Short(width, e)));
    AsciiJoin(Letters(22), [0, 0] + TimeAndTail(Short(width, e)));
  }

  lemma ShortTailIsAscii(width: nat, e: nat)
    ensures Ascii(TimeAndTail(Short(width, e)))
  {
    ZeroBytes(8);
    LettersPlain(width);
    ShortTail(width, e);
    AsciiJoin(LittleEndian(0, 8), Letters(width));
  }

  lemma ShortTail(width: nat, e: nat)
    ensures TimeAndTail(Short(width, e)) == LittleEndian(0, 8) + Letters(width)
  {
    assert Tail(Short(width, e)) == Letters(width);
  }

  lemma AllProper(width: nat, e: nat, st: nat)
    requires Written(e, st)
    ensures Proper(Plain(width), width) && Proper(WithMeta(width), width)
    ensures Proper(Short(width, e), width) && Proper(Long(width, e, st), width)
  {
    SignedBack(e);
    TailIsAscii(width, e);
    forall n: nat ensures Ascii(Letters(n)) && NulFree(Letters(n)) { LettersPlain(n); }
  }

  /**
    Mixed lists can collide: for every fingerprint length there are two lists of proper references, each
    with one CDC part and one plain part, that hash the same bytes and share no reference.
   */
  lemma MixedListsCollide(width: nat) returns (a: seq<WalRef>, b: seq<WalRef>)
    ensures |a| == |b| == 2 && (forall i | 0 <= i < 2 :: Proper(a[i], width) && Proper(b[i], width))
    ensures a[0].cdcMetaHash.Some? && a[1].cdcMetaHash.None? && b[0].cdcMetaHash.None? && b[1].cdcMetaHash.Some?
    ensures Hashed(a) == Hashed(b) && forall i, j | 0 <= i < 2 && 0 <= j < 2 :: Canon(a[i]) != Canon(b[j])
  {
    var e, st := Numbers();
    a, b := [WithMeta(width), Short(width, e)], [Plain(width), Long(width, e, st)];
    AllProper(width, e, st);
    Collide(width, e, st);
    assert a[0].segmentId == b[0].segmentId == [97] && |a[1].segmentId| == 15 && |b[1].segmentId| == 29;
  }

  // ---- exactly when the bytes determine the references ----

  /** Readable references, with a hash only where `cdc` allows it and without one only where `plain` does. */
  ghost predicate Drawn(refs: seq<WalRef>, width: nat, cdc: bool, plain: bool) {
    forall i | 0 <= i < |refs| :: Readable(refs[i], width) && if refs[i].cdcMetaHash.Some? then cdc else plain
  }

  ghost predicate ToldApart(a: seq<WalRef>, b: seq<WalRef>) {
    Hashed(a) == Hashed(b) <==> multiset(Keys(a, Canon)) == multiset(Keys(b, Canon))
  }

  ghost predicate DrawnToldApart(a: seq<WalRef>, b: seq<WalRef>, width: nat, cdc: bool, plain: bool) {
    Drawn(a, width, cdc, plain) && Drawn(b, width, cdc, plain) ==> ToldApart(a, b)
  }

  /**
    With fingerprints of one length, the hashed bytes determine which references a list holds, if and
    only if references with a hash and references without one are not allowed in the same lists.
   */
  lemma DeterminedExactly(width: nat, cdc: bool, plain: bool)
    ensures (forall a, b :: DrawnToldApart(a, b, width, cdc, plain)) <==> !(cdc && plain)
  {
    if cdc && plain {
      var a, b := MixedListsCollide(width);
      MultisetsDiffer(a, b);
      assert !DrawnToldApart(a, b, width, cdc, plain);
    } else {
      forall a, b ensures DrawnToldApart(a, b, width, cdc, plain) {
        if Drawn(a, width, cdc, plain) && Drawn(b, width, cdc, plain) { HashedExactly(a, b, width, cdc); }
      }
    }
  }

  lemma MultisetsDiffer(a: seq<WalRef>, b: seq<WalRef>)
    requires |a| == |b| == 2 && forall i, j | 0 <= i < 2 && 0 <= j < 2 :: Canon(a[i]) != Canon(b[j])
    ensures multiset(Keys(a, Canon)) != multiset(Keys(b, Canon))
  {
    assert Keys(a, Canon)[0] == Canon(a[0]);
    assert Keys(b, Canon) == [Canon(b[0]), Canon(b[1])];
    assert Canon(a[0]) in multiset(Keys(a, Canon)) && Canon(a[0]) !in multiset(Keys(b, Canon));
  }
}
