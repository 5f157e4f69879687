/**
  The `skippr.wal-slices` snapshot property: a printer and a parser for sets of slice
  references, and the bounded walk that collects them along a snapshot's ancestry.
  Texts are UTF-8 byte strings, so byte order is the order of Rust strings.
 */
module WalSlices {
  import opened Basics
  import opened Texts
  import opened OrderTokens

  const COMMA: Byte := 44
  const AT: Byte := 64
  const DOT: Byte := 46

  /** '/', '\\', NUL, '#', ',' and '@'. */
  const RESERVED: set<Byte> := {47, 92, 0, 35, 44, 64}

  datatype Slice = Slice(segment: Bytes, start: nat)

  datatype SliceError = Malformed(part: Bytes) | InvalidSegment(segment: Bytes) | AncestryTooLong

  predicate ValidSegment(segment: Bytes) {
    segment != [] && segment != [DOT] && segment != [DOT, DOT] && forall b | b in segment :: b !in RESERVED
  }

  /** What the types of the source guarantee of a reference: a checked segment id and a 64-bit start. */
  predicate Valid(r: Slice) {
    ValidSegment(r.segment) && r.start <= U64_MAX
  }

  // ---- ordered sets ----

  predicate Before(a: Slice, b: Slice) {
    Less(a.segment, b.segment) || (a.segment == b.segment && a.start < b.start)
  }

  lemma BeforeTotal(a: Slice, b: Slice)
    ensures Before(a, b) || a == b || Before(b, a)
    ensures Before(a, b) ==> !Before(b, a) && a != b
  {
    Trichotomy(a.segment, b.segment);
    if Less(a.segment, b.segment) { Asymmetric(a.segment, b.segment); }
    if Less(b.segment, a.segment) { Asymmetric(b.segment, a.segment); }
  }

  lemma BeforeTransitive(a: Slice, b: Slice, c: Slice)
    requires Before(a, b) && Before(b, c)
    ensures Before(a, c)
  {
    if Less(a.segment, b.segment) && Less(b.segment, c.segment) { Transitive(a.segment, b.segment, c.segment); }
  }

  ghost predicate Ascending(refs: seq<Slice>) {
    forall i, j | 0 <= i < j < |refs| :: Before(refs[i], refs[j])
  }

  /** Insertion into an ordered set kept as an ascending list. */
  function Insert(refs: seq<Slice>, r: Slice): seq<Slice> {
    if refs == [] then [r]
    else if r == refs[0] then refs
    else if Before(r, refs[0]) then [r] + refs
    else [refs[0]] + Insert(refs[1..], r)
  }

  /** The `BTreeSet` of the given references, in order. */
  function Ordered(refs: seq<Slice>): seq<Slice> {
    if refs == [] then [] else Insert(Ordered(refs[..|refs| - 1]), refs[|refs| - 1])
  }

  function SetOf(refs: seq<Slice>): set<Slice> {
    set r | r in refs
  }

  lemma {:induction false} InsertMembers(refs: seq<Slice>, r: Slice)
    ensures forall x :: x in Insert(refs, r) <==> x == r || x in refs
  {
    if refs != [] && r != refs[0] && !Before(r, refs[0]) { InsertMembers(refs[1..], r); }
  }

  lemma PrependAscending(r: Slice, refs: seq<Slice>)
    requires Ascending(refs) && forall x | x in refs :: Before(r, x)
    ensures Ascending([r] + refs)
  {
    assert forall i | 0 <= i < |refs| :: refs[i] in refs;
  }

  lemma {:induction false} InsertAscending(refs: seq<Slice>, r: Slice)
    requires Ascending(refs)
    ensures Ascending(Insert(refs, r))
  {
    if refs != [] && r != refs[0] {
      BeforeTotal(r, refs[0]);
      if Before(r, refs[0]) {
        forall x | x in refs ensures Before(r, x) { if x != refs[0] { BeforeTransitive(r, refs[0], x); } }
        PrependAscending(r, refs);
      } else {
        InsertAscending(refs[1..], r);
        InsertMembers(refs[1..], r);
        PrependAscending(refs[0], Insert(refs[1..], r));
      }
    }
  }

  lemma {:induction false} OrderedIsTheSet(refs: seq<Slice>)
    ensures Ascending(Ordered(refs)) && SetOf(Ordered(refs)) == SetOf(refs)
  {
    if refs != [] {
      var n := |refs| - 1;
      OrderedIsTheSet(refs[..n]);
      InsertAscending(Ordered(refs[..n]), refs[n]);
      InsertMembers(Ordered(refs[..n]), refs[n]);
      forall x ensures x in Ordered(refs) <==> x in refs {
        assert x in Ordered(refs[..n]) <==> x in SetOf(Ordered(refs[..n]));
        assert x in refs[..n] <==> x in SetOf(refs[..n]);
        assert x in refs <==> x in refs[..n] || x == refs[n];
      }
    }
  }

  lemma FirstIsLeast(a: seq<Slice>, b: seq<Slice>)
    requires Ascending(a) && Ascending(b) && SetOf(a) == SetOf(b) && a != []
    ensures b != [] && a[0] == b[0]
  {
    assert a[0] in SetOf(b);
    assert b[0] in SetOf(a);
    if a[0] != b[0] {
      BeforeTotal(a[0], b[0]);
    }
  }

  lemma {:induction false} AscendingUnique(a: seq<Slice>, b: seq<Slice>)
    requires Ascending(a) && Ascending(b) && SetOf(a) == SetOf(b)
    ensures a == b
  {
    if a != [] {
      FirstIsLeast(a, b);
      TailSet(a);
      TailSet(b);
      AscendingUnique(a[1..], b[1..]);
      assert a == [a[0]] + a[1..] && b == [b[0]] + b[1..];
    } else if b != [] {
      FirstIsLeast(b, a);
    }
  }

  lemma TailSet(a: seq<Slice>)
    requires Ascending(a) && a != []
    ensures Ascending(a[1..]) && SetOf(a[1..]) == SetOf(a) - {a[0]}
  {
    BeforeTotal(a[0], a[0]);
    forall x ensures x in SetOf(a[1..]) <==> x in SetOf(a) && x != a[0] {}
  }

  // ---- the printer ----

  function Display(r: Slice): Bytes {
    r.segment + [AT] + Show(r.start)
  }

  function Displays(refs: seq<Slice>): seq<Bytes> {
    seq(|refs|, i requires 0 <= i < |refs| => Display(refs[i]))
  }

  function Encode(refs: seq<Slice>): Bytes {
    Join(Displays(Ordered(refs)), [COMMA])
  }

  // ---- the parser ----

  function ParsePart(part: Bytes): Result<Slice, SliceError> {
    match RSplitOnce(part, AT)
    case None => Err(Malformed(part))
    case Some((segment, start)) =>
      if segment == [] then Err(Malformed(part))
      else
        match ParseU64(start)
        case None => Err(Malformed(part))
        case Some(n) => if ValidSegment(segment) then Ok(Slice(segment, n)) else Err(InvalidSegment(segment))
  }

  /** Parse the non-empty parts in order, stopping at the first error. */
  function ParseParts(parts: seq<Bytes>): Result<set<Slice>, SliceError> {
    if parts == [] then Ok({})
    else if parts[0] == [] then ParseParts(parts[1..])
    else
      match ParsePart(parts[0])
      case Err(e) => Err(e)
      case Ok(r) =>
        match ParseParts(parts[1..])
        case Err(e) => Err(e)
        case Ok(rest) => Ok({r} + rest)
  }

  function Decode(value: Bytes): Result<set<Slice>, SliceError> {
    if value == [] then Ok({}) else ParseParts(Split(value, COMMA))
  }

  // ---- what the parser accepts ----

  ghost predicate Found(parts: seq<Bytes>, r: Slice) {
    exists p | p in parts && p != [] :: ParsePart(p) == Ok(r)
  }

  lemma {:induction false} ParsePartsExactly(parts: seq<Bytes>)
    ensures ParseParts(parts).Ok? <==> forall p | p in parts && p != [] :: ParsePart(p).Ok?
    ensures ParseParts(parts).Ok? ==> forall r :: r in ParseParts(parts).value <==> Found(parts, r)
    decreases |parts|
  {
    if parts != [] {
      var first, rest := parts[0], parts[1..];
      ParsePartsExactly(rest);
      assert parts == [first] + rest;
      forall r ensures Found(parts, r) <==> (first != [] && ParsePart(first) == Ok(r)) || Found(rest, r) {}
    }
  }

  /** A part names a reference: a valid segment, the last '@', an unsigned decimal that fits 64 bits. */
  ghost predicate Names(part: Bytes, r: Slice) {
    Valid(r) && exists digits :: Named(part, r, digits)
  }

  ghost predicate Named(part: Bytes, r: Slice, digits: Bytes) {
    part == r.segment + [AT] + digits && ParseU64(digits) == Some(r.start)
  }

  ghost predicate Readable(part: Bytes) {
    exists r :: Names(part, r)
  }

  ghost predicate NamedIn(parts: seq<Bytes>, r: Slice) {
    exists p | p in parts && p != [] :: Names(p, r)
  }

  lemma ParseNames(part: Bytes, r: Slice)
    ensures ParsePart(part) == Ok(r) <==> Names(part, r)
  {
    if ParsePart(part) == Ok(r) {
      assert Named(part, r, RSplitOnce(part, AT).value.1);
    }
    if Names(part, r) {
      var digits :| Named(part, r, digits);
      NoAtInNumber(digits);
      RSplitUnique(r.segment, digits, AT);
    }
  }

  lemma NoAtInNumber(text: Bytes)
    requires ParseU64(text).Some?
    ensures AT !in text
  {
    var digits := StripPlus(text);
    forall i | 0 <= i < |text| ensures text[i] != AT {
      if text[0] != PLUS { assert IsDigit(digits[i]); } else if i > 0 { assert IsDigit(digits[i - 1]); }
    }
  }

  /**
    A text decodes if and only if every non-empty part between commas names a reference, and then to
    exactly the references named.
   */
  lemma DecodeExactly(value: Bytes)
    ensures Decode(value).Ok? <==> forall p | p in Split(value, COMMA) && p != [] :: Readable(p)
    ensures Decode(value).Ok? ==> forall r :: r in Decode(value).value <==> NamedIn(Split(value, COMMA), r)
  {
    var parts := Split(value, COMMA);
    ParsePartsExactly(parts);
    forall p | p in parts ensures ParsePart(p).Ok? <==> Readable(p) {
      if ParsePart(p).Ok? { ParseNames(p, ParsePart(p).value); }
      if Readable(p) { var r :| Names(p, r); ParseNames(p, r); }
    }
    forall r ensures Found(parts, r) <==> NamedIn(parts, r) {
      forall p | p in parts ensures ParsePart(p) == Ok(r) <==> Names(p, r) { ParseNames(p, r); }
    }
  }

  /** The segment and the number of a part, read at its last '@'. */
  ghost predicate SplitsAt(part: Bytes, segment: Bytes, start: Bytes) {
    part == segment + [64] + start && 64 !in start
  }

  /** A path component: not empty, '.' or '..', and without '/', '\\', NUL, '#', ',' or '@'. */
  ghost predicate PathComponent(segment: Bytes) {
    && segment != [] && segment != [46] && segment != [46, 46]
    && 47 !in segment && 92 !in segment && 0 !in segment && 35 !in segment && 44 !in segment && 64 !in segment
  }

  lemma SplitsOnce(part: Bytes, segment: Bytes, start: Bytes)
    ensures SplitsAt(part, segment, start) <==> RSplitOnce(part, AT) == Some((segment, start))
  {
    if SplitsAt(part, segment, start) { RSplitUnique(segment, start, AT); }
  }

  ghost predicate IsNumber(text: Bytes, n: nat) {
    exists digits :: Reads(text, n, digits)
  }

  /** A part is malformed without an '@', with nothing before the last one, or without a 64-bit number after it. */
  lemma MalformedExactly(part: Bytes)
    ensures ParsePart(part) == Err(Malformed(part)) <==>
            forall segment, start | SplitsAt(part, segment, start) :: segment == [] || forall n :: !IsNumber(start, n)
  {
    forall segment, start { SplitsOnce(part, segment, start); }
    var split := RSplitOnce(part, AT);
    if split.Some? {
      assert SplitsAt(part, split.value.0, split.value.1);
      forall n: nat ensures IsNumber(split.value.1, n) <==> ParseU64(split.value.1) == Some(n) { ParsesNumber(split.value.1, n); }
    }
  }

  /** A part with a number and something before the '@' that is no path component is an invalid segment. */
  lemma InvalidExactly(part: Bytes, segment: Bytes)
    ensures ParsePart(part) == Err(InvalidSegment(segment)) <==>
            segment != [] && !PathComponent(segment) && exists start, n :: SplitsAt(part, segment, start) && IsNumber(start, n)
  {
    forall start { SplitsOnce(part, segment, start); }
    ComponentExactly(segment);
    var split := RSplitOnce(part, AT);
    if split.Some? {
      forall n: nat ensures IsNumber(split.value.1, n) <==> ParseU64(split.value.1) == Some(n) { ParsesNumber(split.value.1, n); }
    }
  }

  /** A part names a reference when it is a path component, an '@' and a 64-bit number. */
  lemma NamesExactly(part: Bytes, r: Slice)
    ensures ParsePart(part) == Ok(r) <==>
            PathComponent(r.segment) && exists start :: SplitsAt(part, r.segment, start) && IsNumber(start, r.start)
  {
    forall start { SplitsOnce(part, r.segment, start); }
    ComponentExactly(r.segment);
    var split := RSplitOnce(part, AT);
    if split.Some? { ParsesNumber(split.value.1, r.start); }
  }

  lemma ComponentExactly(segment: Bytes)
    ensures ValidSegment(segment) <==> PathComponent(segment)
  {
  }

  /** The first part that is not empty and does not name a reference decides the error. */
  lemma {:induction false} FirstErrorDecides(parts: seq<Bytes>, i: nat, e: SliceError)
    requires i < |parts| && parts[i] != [] && ParsePart(parts[i]) == Err(e)
    requires forall j | 0 <= j < i && parts[j] != [] :: ParsePart(parts[j]).Ok?
    ensures ParseParts(parts) == Err(e)
    decreases |parts|
  {
    if i > 0 {
      forall j | 0 <= j < i - 1 && parts[1..][j] != [] ensures ParsePart(parts[1..][j]).Ok? { assert parts[1..][j] == parts[j + 1]; }
      FirstErrorDecides(parts[1..], i - 1, e);
    }
  }

  lemma DecodeFails(value: Bytes, i: nat, e: SliceError)
    requires var parts := Split(value, COMMA);
             && i < |parts| && parts[i] != [] && ParsePart(parts[i]) == Err(e)
             && forall j | 0 <= j < i && parts[j] != [] :: ParsePart(parts[j]).Ok?
    ensures Decode(value) == Err(e)
  {
    FirstErrorDecides(Split(value, COMMA), i, e);
  }

  // ---- round trips ----

  lemma ParseDisplay(r: Slice)
    requires Valid(r)
    ensures ParsePart(Display(r)) == Ok(r)
    ensures Display(r) != [] && COMMA !in Display(r)
  {
    assert AT !in Show(r.start) && COMMA !in Show(r.start);
    RSplitUnique(r.segment, Show(r.start), AT);
    ParseShow(r.start);
  }

  lemma DisplaysFound(refs: seq<Slice>)
    requires forall r | r in refs :: Valid(r)
    ensures forall p | p in Displays(refs) :: p != [] && COMMA !in p && ParsePart(p).Ok? && ParsePart(p).value in refs
    ensures forall r | r in refs :: Found(Displays(refs), r)
  {
    var parts := Displays(refs);
    forall p | p in parts ensures p != [] && COMMA !in p && ParsePart(p).Ok? && ParsePart(p).value in refs {
      var i :| 0 <= i < |refs| && parts[i] == p;
      assert refs[i] in refs;
      ParseDisplay(refs[i]);
    }
    forall r | r in refs ensures Found(parts, r) {
      var i :| 0 <= i < |refs| && refs[i] == r;
      ParseDisplay(refs[i]);
      assert parts[i] in parts;
    }
  }

  lemma PartsDenote(parts: seq<Bytes>, refs: seq<Slice>)
    requires forall p | p in parts :: p != [] && ParsePart(p).Ok? && ParsePart(p).value in refs
    requires forall r | r in refs :: Found(parts, r)
    ensures ParseParts(parts) == Ok(SetOf(refs))
  {
    ParsePartsExactly(parts);
    var denoted := ParseParts(parts).value;
    forall r ensures r in denoted <==> r in SetOf(refs) {
      if Found(parts, r) { var p :| p in parts && p != [] && ParsePart(p) == Ok(r); }
    }
    assert denoted == SetOf(refs);
  }

  lemma ParseDisplays(refs: seq<Slice>)
    requires forall r | r in refs :: Valid(r)
    ensures ParseParts(Displays(refs)) == Ok(SetOf(refs))
  {
    DisplaysFound(refs);
    PartsDenote(Displays(refs), refs);
  }

  lemma {:induction false} JoinNonEmpty(parts: seq<Bytes>)
    requires parts != [] && parts[0] != []
    ensures Join(parts, [COMMA]) != []
  {
  }

  /** Decoding an encoding gives back the set of references, for every list of valid references. */
  lemma DecodeEncode(refs: seq<Slice>)
    requires forall r | r in refs :: Valid(r)
    ensures Decode(Encode(refs)) == Ok(SetOf(refs))
  {
    var ordered := Ordered(refs);
    OrderedIsTheSet(refs);
    forall r | r in ordered ensures Valid(r) { assert r in SetOf(refs); }
    if ordered == [] {
      assert SetOf(refs) == {};
    } else {
      DisplaysFound(ordered);
      assert forall i | 0 <= i < |ordered| :: Displays(ordered)[i] in Displays(ordered);
      JoinNonEmpty(Displays(ordered));
      SplitJoin(Displays(ordered), COMMA);
      ParseDisplays(ordered);
    }
  }

  /** Two lists of valid references have the same encoding if and only if they hold the same set. */
  lemma EncodeIsCanonical(a: seq<Slice>, b: seq<Slice>)
    requires (forall r | r in a :: Valid(r)) && (forall r | r in b :: Valid(r))
    ensures Encode(a) == Encode(b) <==> SetOf(a) == SetOf(b)
  {
    if SetOf(a) == SetOf(b) {
      OrderedIsTheSet(a);
      OrderedIsTheSet(b);
      AscendingUnique(Ordered(a), Ordered(b));
    }
    DecodeEncode(a);
    DecodeEncode(b);
  }

  lemma {:induction false} ParsedAreValid(parts: seq<Bytes>)
    ensures ParseParts(parts).Ok? ==> forall r | r in ParseParts(parts).value :: Valid(r)
  {
    if parts != [] { ParsedAreValid(parts[1..]); }
  }

  /**
    Whatever text decodes, writing the result back, in any enumeration of the set, gives a text that
    decodes to the same set and that writing back leaves as it is.
   */
  lemma EncodeDecode(value: Bytes, refs: seq<Slice>)
    requires Decode(value).Ok? && SetOf(refs) == Decode(value).value
    ensures Decode(Encode(refs)) == Decode(value)
    ensures forall again | SetOf(again) == Decode(Encode(refs)).value :: Encode(again) == Encode(refs)
  {
    ParsedAreValid(Split(value, COMMA));
    forall r | r in refs ensures Valid(r) { assert r in SetOf(refs); }
    DecodeEncode(refs);
    forall again | SetOf(again) == SetOf(refs) ensures Encode(again) == Encode(refs) {
      forall r | r in again ensures Valid(r) { assert r in SetOf(again); }
      EncodeIsCanonical(again, refs);
    }
  }

  // ---- the text itself ----

  /** Encoding writes the references in ascending order, each as its segment, '@' and its number, with commas between. */
  lemma EncodeExample()
    ensures var a, b := [115, 101, 103, 45, 97], [115, 101, 103, 45, 98];  // "seg-a", "seg-b"
            Encode([Slice(b, 0), Slice(a, 100), Slice(a, 0), Slice(b, 0)]) ==
            a + [64, 48] + [44] + (a + [64, 49, 48, 48]) + [44] + (b + [64, 48])  // "seg-a@0,seg-a@100,seg-b@0"
  {
    var a, b := [115, 101, 103, 45, 97], [115, 101, 103, 45, 98];
    var x, y, z := Slice(a, 0), Slice(a, 100), Slice(b, 0);
    Alphabetical(a, b);
    ThreeInOrder(x, y, z);
    ShowHundred();
    JoinThree(Display(x), Display(y), Display(z));
    assert Displays([x, y, z]) == [Display(x), Display(y), Display(z)];
  }

  lemma Alphabetical(a: Bytes, b: Bytes)
    requires |a| == |b| == 5 && a[..4] == b[..4] && a[4] < b[4]
    ensures Less(a, b)
  {
    assert LowerFrom(a, b, 4);
    LessExactly(a, b);
  }

  lemma ThreeInOrder(x: Slice, y: Slice, z: Slice)
    requires Before(x, y) && Before(y, z) && Before(x, z)
    ensures Ordered([z, y, x, z]) == [x, y, z]
  {
    OrderedIsTheSet([z, y, x, z]);
    assert Ascending([x, y, z]);
    AscendingUnique(Ordered([z, y, x, z]), [x, y, z]);
  }

  lemma ShowHundred()
    ensures Show(0) == [48] && Show(100) == [49, 48, 48]
  {
    assert Show(10) == Show(1) + [48] && Show(100) == Show(10) + [48];
  }

  lemma JoinThree(p: Bytes, q: Bytes, r: Bytes)
    ensures Join([p, q, r], [COMMA]) == p + [44] + q + [44] + r
  {
    JoinLast([p], [COMMA], q);
    JoinLast([p, q], [COMMA], r);
    assert [p] + [q] == [p, q] && [p, q] + [r] == [p, q, r];
  }
}
