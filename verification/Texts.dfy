/** UTF-8 byte strings: joining and splitting on a separator, and unsigned decimal numbers. */
module Texts {
  import opened Basics

  type Bytes = seq<Byte>

  function Join(parts: seq<Bytes>, separator: Bytes): Bytes
    decreases |parts|
  {
    if parts == [] then []
    else if |parts| == 1 then parts[0]
    else Join(parts[..|parts| - 1], separator) + separator + parts[|parts| - 1]
  }

  /** The pieces between separators; one empty piece for an empty text. */
  function Split(text: Bytes, separator: Byte): (parts: seq<Bytes>)
    ensures parts != []
    decreases |text|
  {
    if text == [] then [[]] else
      var n := |text| - 1;
      var parts := Split(text[..n], separator);
      if text[n] == separator then parts + [[]]
      else parts[..|parts| - 1] + [parts[|parts| - 1] + [text[n]]]
  }

  lemma {:induction false} SplitLast(text: Bytes, separator: Byte, last: Bytes)
    requires separator !in last
    ensures Split(text + [separator] + last, separator) == Split(text, separator) + [last]
    decreases |last|
  {
    var whole := text + [separator] + last;
    if last == [] {
      assert whole[..|whole| - 1] == text;
    } else {
      var n := |last| - 1;
      SplitLast(text, separator, last[..n]);
      assert whole[..|whole| - 1] == text + [separator] + last[..n];
      assert last[..n] + [last[n]] == last;
    }
  }

  lemma {:induction false} SplitWhole(text: Bytes, separator: Byte)
    requires separator !in text
    ensures Split(text, separator) == [text]
    decreases |text|
  {
    if text != [] {
      var n := |text| - 1;
      SplitWhole(text[..n], separator);
      assert text[..n] + [text[n]] == text;
    }
  }

  lemma JoinLast(parts: seq<Bytes>, separator: Bytes, last: Bytes)
    requires parts != []
    ensures Join(parts + [last], separator) == Join(parts, separator) + separator + last
  {
    assert (parts + [last])[..|parts|] == parts;
  }

  /** Splitting undoes joining for pieces that do not contain the separator. */
  lemma {:induction false} SplitJoin(parts: seq<Bytes>, separator: Byte)
    requires parts != [] && forall i | 0 <= i < |parts| :: separator !in parts[i]
    ensures Split(Join(parts, [separator]), separator) == parts
    decreases |parts|
  {
    var n := |parts| - 1;
    if n == 0 {
      SplitWhole(parts[0], separator);
    } else {
      var init := parts[..n];
      assert parts == init + [parts[n]];
      SplitJoin(init, separator);
      JoinLast(init, [separator], parts[n]);
      SplitLast(Join(init, [separator]), separator, parts[n]);
    }
  }

  lemma JoinEnds(init: seq<Bytes>, separator: Byte, last: Bytes, b: Byte)
    ensures Join(init + [last + [b]], [separator]) == Join(init + [last], [separator]) + [b]
  {
    if init == [] {
      assert init + [last + [b]] == [last + [b]] && init + [last] == [last];
    } else {
      JoinLast(init, [separator], last + [b]);
      JoinLast(init, [separator], last);
      var front := Join(init, [separator]) + [separator];
      assert front + (last + [b]) == (front + last) + [b];
    }
  }

  /** One more byte that is not the separator lengthens the last piece. */
  lemma JoinGrown(parts: seq<Bytes>, init: seq<Bytes>, last: Bytes, separator: Byte, b: Byte)
    requires parts == init + [last]
    ensures Join(init + [last + [b]], [separator]) == Join(parts, [separator]) + [b]
  {
    JoinEnds(init, separator, last, b);
  }

  lemma FreePieces(parts: seq<Bytes>, init: seq<Bytes>, last: Bytes, separator: Byte)
    requires forall p | p in parts :: separator !in p
    requires (init == parts && last == []) || (init <= parts && separator !in last)
    ensures forall p | p in init + [last] :: separator !in p
  {
  }

  /** Joining undoes splitting, and no piece contains the separator. */
  lemma {:induction false} JoinSplit(text: Bytes, separator: Byte)
    ensures Join(Split(text, separator), [separator]) == text
    ensures forall p | p in Split(text, separator) :: separator !in p
    decreases |text|
  {
    if text != [] {
      var n := |text| - 1;
      var parts := Split(text[..n], separator);
      JoinSplit(text[..n], separator);
      assert text == text[..n] + [text[n]];
      if text[n] == separator {
        JoinLast(parts, [separator], []);
        FreePieces(parts, parts, [], separator);
      } else {
        var m := |parts| - 1;
        assert parts[m] in parts;
        JoinGrown(parts, parts[..m], parts[m], separator, text[n]);
        FreePieces(parts, parts[..m], parts[m] + [text[n]], separator);
      }
    }
  }

  /** The pieces of a text are the only ones without the separator that join to it. */
  lemma SplitExactly(text: Bytes, separator: Byte, parts: seq<Bytes>)
    ensures Split(text, separator) == parts <==>
            parts != [] && Join(parts, [separator]) == text && forall i | 0 <= i < |parts| :: separator !in parts[i]
  {
    JoinSplit(text, separator);
    if parts != [] && Join(parts, [separator]) == text && forall i | 0 <= i < |parts| :: separator !in parts[i] {
      SplitJoin(parts, separator);
    }
  }

  /** The text before and after the last separator. */
  function RSplitOnce(text: Bytes, separator: Byte): (r: Option<(Bytes, Bytes)>)
    ensures r.None? <==> separator !in text
    ensures r.Some? ==> text == r.value.0 + [separator] + r.value.1 && separator !in r.value.1
    decreases |text|
  {
    if text == [] then None else
      var n := |text| - 1;
      if text[n] == separator then Some((text[..n], []))
      else
        match RSplitOnce(text[..n], separator)
        case None => None
        case Some((before, after)) => Some((before, after + [text[n]]))
  }

  lemma {:induction false} RSplitUnique(before: Bytes, after: Bytes, separator: Byte)
    requires separator !in after
    ensures RSplitOnce(before + [separator] + after, separator) == Some((before, after))
    decreases |after|
  {
    var text := before + [separator] + after;
    if after == [] {
      assert text[..|text| - 1] == before;
    } else {
      var n := |after| - 1;
      RSplitUnique(before, after[..n], separator);
      assert text[..|text| - 1] == before + [separator] + after[..n];
      assert after[..n] + [after[n]] == after;
    }
  }

  // ---- unsigned decimals ----

  const ZERO: Byte := 48  // '0'
  const PLUS: Byte := 43  // '+'

  predicate IsDigit(b: Byte) {
    ZERO <= b <= ZERO + 9
  }

  function Show(n: nat): (text: Bytes)
    ensures text != [] && AllDigits(text)
  {
    if n < 10 then [ZERO + n] else Show(n / 10) + [ZERO + n % 10]
  }

  function Value(digits: Bytes): nat
    requires AllDigits(digits)
    decreases |digits|
  {
    if digits == [] then 0
    else
      assert IsDigit(digits[|digits| - 1]);
      Value(digits[..|digits| - 1]) * 10 + (digits[|digits| - 1] - ZERO)
  }

  predicate AllDigits(text: Bytes) {
    forall i | 0 <= i < |text| :: IsDigit(text[i])
  }

  function StripPlus(text: Bytes): Bytes {
    if text != [] && text[0] == PLUS then text[1..] else text
  }

  /** Rust's `parse::<u64>`: an optional plus sign, at least one digit, no overflow. */
  function ParseU64(text: Bytes): (n: Option<nat>)
    ensures n.Some? ==> n.value <= U64_MAX
  {
    var digits := StripPlus(text);
    if digits == [] || !AllDigits(digits) then None
    else if Value(digits) > U64_MAX then None
    else Some(Value(digits))
  }

  lemma {:induction false} ValueShow(n: nat)
    ensures Value(Show(n)) == n
  {
    if n >= 10 {
      ValueShow(n / 10);
      var text := Show(n);
      assert text[..|text| - 1] == Show(n / 10);
    }
  }

  lemma ParseShow(n: nat)
    requires n <= U64_MAX
    ensures ParseU64(Show(n)) == Some(n)
  {
    ValueShow(n);
    assert IsDigit(Show(n)[0]);
  }

  function Pow10(n: nat): nat {
    if n == 0 then 1 else 10 * Pow10(n - 1)
  }

  /** The number a row of ASCII digits denotes, by place value from the left. */
  function Places(digits: Bytes): int {
    if digits == [] then 0 else (digits[0] - 48) * Pow10(|digits| - 1) + Places(digits[1..])
  }

  lemma {:induction false} PlacesLast(digits: Bytes, d: Byte)
    ensures Places(digits + [d]) == Places(digits) * 10 + (d - 48)
  {
    if digits == [] {
      assert (digits + [d])[1..] == [];
      assert Pow10(0) == 1;
    } else {
      var whole := digits + [d];
      assert whole[1..] == digits[1..] + [d] && whole[0] == digits[0];
      PlacesLast(digits[1..], d);
      var first: int := digits[0];
      PlaceUp(first - 48, |digits|);
    }
  }

  lemma PlaceUp(d: int, n: nat)
    requires n > 0
    ensures d * Pow10(n) == d * Pow10(n - 1) * 10
  {
  }

  lemma {:induction false} ValueIsPlaces(digits: Bytes)
    requires AllDigits(digits)
    ensures Value(digits) == Places(digits)
    decreases |digits|
  {
    if digits != [] {
      var n := |digits| - 1;
      ValueIsPlaces(digits[..n]);
      PlacesLast(digits[..n], digits[n]);
      assert digits == digits[..n] + [digits[n]];
    }
  }

  /** A number is ASCII digits, at least one, after an optional plus sign, and is at most 2^64 - 1. */
  ghost predicate Reads(text: Bytes, n: nat, digits: Bytes) {
    && (text == digits || text == [43] + digits) && digits != []
    && (forall i | 0 <= i < |digits| :: 48 <= digits[i] <= 57)
    && Places(digits) == n < 0x1_0000_0000_0000_0000
  }

  lemma ParsesNumber(text: Bytes, n: nat)
    ensures ParseU64(text) == Some(n) <==> exists digits :: Reads(text, n, digits)
  {
    if ParseU64(text) == Some(n) {
      var digits := StripPlus(text);
      ValueIsPlaces(digits);
      if text[0] == PLUS { assert text == [43] + digits; }
      assert Reads(text, n, digits);
    }
    if digits :| Reads(text, n, digits) {
      assert StripPlus(text) == digits by {
        if text == [43] + digits { assert text[1..] == digits; }
      }
      assert AllDigits(digits);
      ValueIsPlaces(digits);
    }
  }
}
