/**
  The layout of a WAL reference's identity, as a reader of the bytes sees it: which field comes where,
  how strings end and how numbers are written.
 */
module WalRefReader {
  import opened Basics
  import opened Texts
  import opened SortedKeys
  import opened WalRefIdentity
  import opened WalRefFingerprint

  /** What a reader has taken from the front of some bytes, and the bytes left. */
  datatype Taken<T> = Taken(value: T, rest: Bytes)

  /** A string up to the first NUL, which is dropped. */
  function TakeText(bytes: Bytes): Option<Taken<Bytes>> {
    if bytes == [] then None
    else if bytes[0] == 0 then Some(Taken([], bytes[1..]))
    else
      match TakeText(bytes[1..])
      case None => None
      case Some(Taken(text, rest)) => Some(Taken([bytes[0]] + text, rest))
  }

  /** Eight bytes, the least significant first. */
  function TakeNumber(bytes: Bytes): Option<Taken<nat>> {
    if |bytes| < 8 then None else Some(Taken(Number(bytes[..8]), bytes[8..]))
  }

  function SignedOf(n: nat): int {
    if n < 0x8000_0000_0000_0000 then n else n - 0x1_0000_0000_0000_0000
  }

  datatype Part = Part(segmentId: Bytes, source: Bytes, start: nat, len: nat)

  datatype Place = Place(sinkRef: Bytes, namespace: Bytes, partition: Bytes, time: int)

  function TakePart(bytes: Bytes): Option<Taken<Part>> {
    match TakeText(bytes)
    case None => None
    case Some(Taken(segmentId, afterSegment)) =>
      match TakeText(afterSegment)
      case None => None
      case Some(Taken(source, afterSource)) =>
        match TakeNumber(afterSource)
        case None => None
        case Some(Taken(start, afterStart)) =>
          match TakeNumber(afterStart)
          case None => None
          case Some(Taken(len, rest)) => Some(Taken(Part(segmentId, source, start, len), rest))
  }

  function TakePlace(bytes: Bytes): Option<Taken<Place>> {
    match TakeText(bytes)
    case None => None
    case Some(Taken(sinkRef, afterSink)) =>
      match TakeText(afterSink)
      case None => None
      case Some(Taken(namespace, afterNamespace)) =>
        match TakeText(afterNamespace)
        case None => None
        case Some(Taken(partition, afterPartition)) =>
          match TakeNumber(afterPartition)
          case None => None
          case Some(Taken(time, rest)) => Some(Taken(Place(sinkRef, namespace, partition, SignedOf(time)), rest))
  }

  /** A fingerprint of `width` bytes, then nothing or a hash of 32 bytes. */
  function ReadIdentity(bytes: Bytes, width: nat): Option<WalRef> {
    match TakePart(bytes)
    case None => None
    case Some(Taken(Part(segmentId, source, start, len), afterPart)) =>
      match TakePlace(afterPart)
      case None => None
      case Some(Taken(Place(sinkRef, namespace, partition, time), tail)) =>
        if |tail| != width && |tail| != width + 32 then None
        else
          var hash := if |tail| == width then None else Some(tail[width..]);
          Some(WalRef(segmentId, source, start, len, sinkRef, namespace, partition, Some(time), tail[..width], hash))
  }

  // ---- reading back what was written ----

  lemma {:induction false} TextTaken(text: Bytes, rest: Bytes)
    requires NulFree(text)
    ensures TakeText(text + ([0] + rest)) == Some(Taken(text, rest))
  {
    var bytes := text + ([0] + rest);
    if text == [] {
      assert bytes == [0] + rest && bytes[1..] == rest;
    } else {
      assert bytes[1..] == text[1..] + ([0] + rest) && bytes[0] == text[0];
      TextTaken(text[1..], rest);
      assert text == [text[0]] + text[1..];
    }
  }

  lemma {:induction false} NumberRead(n: nat, width: nat)
    requires n < Limit(width)
    ensures Number(LittleEndian(n, width)) == n
  {
    if width > 0 {
      NumberRead(n / 256, width - 1);
      assert LittleEndian(n, width)[1..] == LittleEndian(n / 256, width - 1);
    }
  }

  lemma NumberTaken(n: nat, rest: Bytes)
    requires n <= U64_MAX
    ensures TakeNumber(LittleEndian(n, 8) + rest) == Some(Taken(n, rest))
  {
    Limit64();
    NumberRead(n, 8);
    assert (LittleEndian(n, 8) + rest)[..8] == LittleEndian(n, 8) && (LittleEndian(n, 8) + rest)[8..] == rest;
  }

  lemma SignedRead(t: int)
    requires -I64_MAX - 1 <= t <= I64_MAX
    ensures SignedOf(Unsigned(t)) == t && Unsigned(t) <= U64_MAX
  {
  }

  lemma PartTaken(r: WalRef, rest: Bytes)
    requires Typed(r) && NulFreeRef(r)
    ensures TakePart(r.segmentId + ([0] + (r.source + ([0] + (LittleEndian(r.start, 8) + (LittleEndian(r.len, 8) + rest)))))) ==
            Some(Taken(Part(r.segmentId, r.source, r.start, r.len), rest))
  {
    var afterStart := LittleEndian(r.len, 8) + rest;
    var afterSource := LittleEndian(r.start, 8) + afterStart;
    var afterSegment := r.source + ([0] + afterSource);
    TextTaken(r.segmentId, afterSegment);
    TextTaken(r.source, afterSource);
    NumberTaken(r.start, afterStart);
    NumberTaken(r.len, rest);
  }

  lemma PlaceTaken(r: WalRef, rest: Bytes)
    requires Typed(r) && NulFreeRef(r)
    ensures TakePlace(r.sinkRef + ([0] + (r.namespace + ([0] + (r.partition + ([0] + (
                        LittleEndian(Unsigned(TimeOf(r)), 8) + rest))))))) ==
            Some(Taken(Place(r.sinkRef, r.namespace, r.partition, TimeOf(r)), rest))
  {
    var afterPartition := LittleEndian(Unsigned(TimeOf(r)), 8) + rest;
    var afterNamespace := r.partition + ([0] + afterPartition);
    var afterSink := r.namespace + ([0] + afterNamespace);
    TextTaken(r.sinkRef, afterSink);
    TextTaken(r.namespace, afterNamespace);
    TextTaken(r.partition, afterPartition);
    SignedRead(TimeOf(r));
    NumberTaken(Unsigned(TimeOf(r)), rest);
  }

  /**
    Reading an identity gives back the reference: segment, source, start and length, then sink, namespace,
    partition and time, then the fingerprint and the hash; a missing time reads as zero.
   */
  lemma IdentityReadsBack(r: WalRef, width: nat)
    requires Readable(r, width)
    ensures ReadIdentity(Identity(r), width) == Some(r.(time := Some(if r.time.Some? then r.time.value else 0)))
  {
    var place := r.sinkRef + ([0] + (r.namespace + ([0] + (r.partition + ([0] + (
      LittleEndian(Unsigned(TimeOf(r)), 8) + Tail(r)))))));
    PartTaken(r, place);
    PlaceTaken(r, Tail(r));
    var hash := if r.cdcMetaHash.Some? then r.cdcMetaHash.value else [];
    assert Tail(r) == r.schemaFingerprint + hash && Tail(r)[..width] == r.schemaFingerprint && Tail(r)[width..] == hash;
  }

  // ---- the hashed bytes ----

  lemma {:induction false} StreamConcat(a: seq<Bytes>, b: seq<Bytes>)
    ensures Stream(a + b) == Stream(a) + Stream(b)
  {
    if a == [] {
      assert a + b == b;
    } else {
      StreamConcat(a[1..], b);
      assert (a + b)[0] == a[0] && (a + b)[1..] == a[1..] + b;
      ThreeParts(a[0], [SEPARATOR], Stream(a[1..]), Stream(b));
    }
  }

  lemma ThreeParts(x: Bytes, y: Bytes, z: Bytes, w: Bytes)
    ensures x + (y + (z + w)) == (x + (y + z)) + w
  {
  }

  /**
    The sorted identities are those of the references, and the hashed bytes are "grouped-wal-refs-v2" and then
    each identity with the byte 0xff behind it: here is what stands before and after any one of them.
   */
  lemma HashedLayout(refs: seq<WalRef>, front: seq<Bytes>, id: Bytes, back: seq<Bytes>)
    requires CanonicalIdentities(refs) == front + ([id] + back)
    ensures multiset(front + ([id] + back)) == multiset(Keys(refs, Identity)) && Sorted(front + ([id] + back))
    ensures Hashed(refs) ==
            [103, 114, 111, 117, 112, 101, 100, 45, 119, 97, 108, 45, 114, 101, 102, 115, 45, 118, 50]
            + (Stream(front) + ((id + [255]) + Stream(back)))
  {
    SortPermutes(Keys(refs, Identity), Self);
    SortSorts(Keys(refs, Identity));
    StreamConcat(front, [id] + back);
    StreamConcat([id], back);
    OneStream(id);
  }

  lemma OneStream(id: Bytes)
    ensures Stream([id]) == id + [255]
  {
    assert [id][1..] == [] && Stream([]) == [];
  }
}
