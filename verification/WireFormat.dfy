/**
 The RouterOS API encoding, as the TypeScript API server and the Go agent each write it out.
 Bytes are integers 0..255; a shift by eight is a division by 256, a mask is a remainder,
 and an `or` of disjoint bits is a sum.
 */
module WireFormat {
  import opened Wrappers
  import opened Arithmetic

  type byte = x: int | 0 <= x < 256
  type Bytes = seq<byte>
  type Sentence = seq<Bytes>

  const TWO_31: int := 0x8000_0000
  const WIDE: int := 0x1000_0000  // first length that needs the five-byte form

  // ---------- Length prefixes, TypeScript ----------

  function TsEncodeLength(len: nat): Bytes {
    if len < 0x80 then [len]
    else if len < 0x4000 then [(len / 0x100) % 0x40 + 0x80, len % 0x100]
    else if len < 0x20_0000 then [(len / 0x1_0000) % 0x20 + 0xc0, (len / 0x100) % 0x100, len % 0x100]
    else if len < WIDE then
      [(len / 0x100_0000) % 0x10 + 0xe0, (len / 0x1_0000) % 0x100, (len / 0x100) % 0x100, len % 0x100]
    else
      [0xf0, (len / 0x100_0000) % 0x100, (len / 0x1_0000) % 0x100, (len / 0x100) % 0x100, len % 0x100]
  }

  /** The value a JavaScript bit operation leaves: 32 bits, signed. */
  function ToInt32(v: int): int
    requires 0 <= v < 2 * TWO_31
  {
    if v < TWO_31 then v else v - 2 * TWO_31
  }

  datatype Length = Length(value: int, width: nat)

  function At(s: Bytes, i: nat): int
    requires i < |s|
  {
    s[i]
  }

  /** `null` in the source is `None`: the prefix is not complete yet. */
  function TsDecodeLength(buf: Bytes, offset: nat): Option<Length> {
    if offset >= |buf| then None else
      var b := At(buf, offset);
      if b < 0x80 then Some(Length(b, 1))
      else if offset + 1 >= |buf| then None
      else if b < 0xc0 then Some(Length(b % 0x40 * 0x100 + At(buf, offset + 1), 2))
      else if offset + 2 >= |buf| then None
      else if b < 0xe0 then Some(Length(b % 0x20 * 0x1_0000 + At(buf, offset + 1) * 0x100 + At(buf, offset + 2), 3))
      else if offset + 3 >= |buf| then None
      else if b < 0xf0 then
        Some(Length(b % 0x10 * 0x100_0000 + At(buf, offset + 1) * 0x1_0000 + At(buf, offset + 2) * 0x100
                    + At(buf, offset + 3), 4))
      else if offset + 4 >= |buf| then None
      else
        Some(Length(ToInt32(At(buf, offset + 1) * 0x100_0000 + At(buf, offset + 2) * 0x1_0000
                            + At(buf, offset + 3) * 0x100 + At(buf, offset + 4)), 5))
  }

  // ---------- Length prefixes, Go ----------

  function BigEndian(v: nat, width: nat): (r: Bytes)
    ensures |r| == width
  {
    if width == 0 then [] else BigEndian(v / 0x100, width - 1) + [v % 0x100]
  }

  /** `None` is the "word too long" error. */
  function GoEncodeLength(n: nat): Option<Bytes> {
    if n < 0x80 then Some([n])
    else if n < 0x4000 then Some(BigEndian(n + 0x8000, 2))
    else if n < 0x20_0000 then Some(BigEndian(n + 0xC0_0000, 3))
    else if n < WIDE then Some(BigEndian(n + 0xE000_0000, 4))
    else None
  }

  datatype ReadError = Eof | UnsupportedPrefix

  datatype LengthRead = Got(length: Length) | Bad(error: ReadError)

  /** The length prefix at the front of the unread stream `s`. */
  function GoDecodeLength(s: Bytes): LengthRead {
    if |s| < 1 then Bad(Eof)
    else if At(s, 0) < 0x80 then Got(Length(At(s, 0), 1))
    else if At(s, 0) < 0xC0 then
      if |s| < 2 then Bad(Eof) else Got(Length(At(s, 0) % 0x40 * 0x100 + At(s, 1), 2))
    else if At(s, 0) < 0xE0 then
      if |s| < 3 then Bad(Eof) else Got(Length(At(s, 0) % 0x20 * 0x1_0000 + At(s, 1) * 0x100 + At(s, 2), 3))
    else if At(s, 0) < 0xF0 then
      if |s| < 4 then Bad(Eof)
      else Got(Length(At(s, 0) % 0x10 * 0x100_0000 + At(s, 1) * 0x1_0000 + At(s, 2) * 0x100 + At(s, 3), 4))
    else Bad(UnsupportedPrefix)
  }

  // ---------- Words and sentences ----------

  function TsEncodeWord(word: Bytes): Bytes {
    TsEncodeLength(|word|) + word
  }

  function TsEncodeSentence(words: Sentence): Bytes {
    if words == [] then TsEncodeLength(0) else TsEncodeWord(words[0]) + TsEncodeSentence(words[1..])
  }

  function TsEncodeAll(sentences: seq<Sentence>): Bytes {
    if sentences == [] then [] else TsEncodeSentence(sentences[0]) + TsEncodeAll(sentences[1..])
  }

  function GoEncodeWord(word: Bytes): Option<Bytes> {
    var length := GoEncodeLength(|word|);
    if length.None? then None else Some(length.value + word)
  }

  /** The buffer `sendSentence` hands to the connection; nothing when a word is too long. */
  function GoEncodeSentence(words: Sentence): Option<Bytes> {
    if words == [] then Some([0]) else
      var first := GoEncodeWord(words[0]);
      var others := GoEncodeSentence(words[1..]);
      if first.None? || others.None? then None else Some(first.value + others.value)
  }

  // ---------- The two tokenisers ----------

  datatype Item = End | Word(data: Bytes)

  /**
   The next item and the bytes it takes up, or why there is none: `Starved` when bytes are
   missing, `Refused` when the reader gives up (Go: an unsupported prefix; TypeScript: a
   five-byte length whose top bit makes it negative, see `NegativeLengthMovesBack`).
   */
  datatype Token = Token(item: Item, size: nat) | Starved | Refused

  function Cut(s: Bytes, length: Length): (t: Token)
    requires 0 < length.width <= |s|
    ensures t.Token? ==> 0 < t.size <= |s|
  {
    if length.value < 0 then Refused
    else if length.value == 0 then Token(End, length.width)
    else if length.width + length.value > |s| then Starved
    else Token(Word(s[length.width..length.width + length.value]), length.width + length.value)
  }

  function TsToken(s: Bytes): (t: Token)
    ensures t.Token? ==> 0 < t.size <= |s|
  {
    var length := TsDecodeLength(s, 0);
    if length.None? then Starved else Cut(s, length.value)
  }

  function GoToken(s: Bytes): (t: Token)
    ensures t.Token? ==> 0 < t.size <= |s|
  {
    match GoDecodeLength(s)
    case Got(length) => Cut(s, length)
    case Bad(Eof) => Starved
    case Bad(UnsupportedPrefix) => Refused
  }

  datatype Dialect = Ts | Go

  /**
   What the TypeScript loop does when a five-byte length reads as negative: it moves its offset by
   prefix and length together, which fails to advance for all but the four largest lengths. The
   model stops there instead.
   */
  lemma NegativeLengthMovesBack(s: Bytes)
    requires |s| >= 5 && s[0] >= 0xf0
    ensures var v := At(s, 1) * 0x100_0000 + At(s, 2) * 0x1_0000 + At(s, 3) * 0x100 + At(s, 4);
            var length := TsDecodeLength(s, 0).value;
            && (TsToken(s) == Refused <==> v >= TWO_31)
            && (length.width + length.value <= 0 <==> TWO_31 <= v <= 2 * TWO_31 - 5)
  {
  }

  function NextToken(d: Dialect, s: Bytes): (t: Token)
    ensures t.Token? ==> 0 < t.size <= |s|
  {
    if d.Ts? then TsToken(s) else GoToken(s)
  }

  /** All items at the front of `s`, and the bytes from which no further item can be taken. */
  datatype Scan = Scan(items: seq<Item>, rest: Bytes)

  function Before(items: seq<Item>, scan: Scan): Scan {
    Scan(items + scan.items, scan.rest)
  }

  function Tokenise(d: Dialect, s: Bytes): Scan
    decreases |s|
  {
    var t := NextToken(d, s);
    if t.Token? then Before([t.item], Tokenise(d, s[t.size..])) else Scan([], s)
  }

  // ---------- Items to sentences ----------

  /** Sentences completed by `items` when `current` holds the words already collected. */
  function Sentences(current: Sentence, items: seq<Item>): seq<Sentence>
    decreases |items|
  {
    if items == [] then [] else
      match items[0]
      case End => (if current == [] then [] else [current]) + Sentences([], items[1..])
      case Word(w) => Sentences(current + [w], items[1..])
  }

  /** The words collected for the sentence that `items` leave unfinished. */
  function Unfinished(current: Sentence, items: seq<Item>): Sentence
    decreases |items|
  {
    if items == [] then current else
      match items[0]
      case End => Unfinished([], items[1..])
      case Word(w) => Unfinished(current + [w], items[1..])
  }

  lemma {:induction false} SentencesConcat(current: Sentence, a: seq<Item>, b: seq<Item>)
    ensures Sentences(current, a + b) == Sentences(current, a) + Sentences(Unfinished(current, a), b)
    ensures Unfinished(current, a + b) == Unfinished(Unfinished(current, a), b)
    decreases |a|
  {
    if a == [] {
      assert a + b == b;
    } else {
      assert (a + b)[0] == a[0] && (a + b)[1..] == a[1..] + b;
      match a[0]
      case End => SentencesConcat([], a[1..], b);
      case Word(w) => SentencesConcat(current + [w], a[1..], b);
    }
  }

  function AsItems(words: Sentence): seq<Item> {
    if words == [] then [End] else [Word(words[0])] + AsItems(words[1..])
  }

  function AllAsItems(sentences: seq<Sentence>): seq<Item> {
    if sentences == [] then [] else AsItems(sentences[0]) + AllAsItems(sentences[1..])
  }

  // ---------- Tokenising a stream piece by piece ----------

  lemma LengthStable(a: Bytes, b: Bytes)
    ensures TsDecodeLength(a, 0).Some? ==> TsDecodeLength(a + b, 0) == TsDecodeLength(a, 0)
    ensures GoDecodeLength(a) != Bad(Eof) ==> GoDecodeLength(a + b) == GoDecodeLength(a)
  {
    assert forall i: nat :: i < |a| ==> At(a + b, i) == At(a, i);
  }

  lemma CutStable(a: Bytes, b: Bytes, length: Length)
    requires 0 < length.width <= |a|
    ensures !Cut(a, length).Starved? ==> Cut(a + b, length) == Cut(a, length)
  {
    if 0 < length.value && length.width + length.value <= |a| {
      assert (a + b)[length.width..length.width + length.value] == a[length.width..length.width + length.value];
    }
  }

  /** More bytes behind a complete item do not change it; a reader that gave up stays so. */
  lemma TokenStable(d: Dialect, a: Bytes, b: Bytes)
    ensures !NextToken(d, a).Starved? ==> NextToken(d, a + b) == NextToken(d, a)
  {
    LengthStable(a, b);
    match d
    case Ts =>
      if TsDecodeLength(a, 0).Some? { CutStable(a, b, TsDecodeLength(a, 0).value); }
    case Go =>
      if GoDecodeLength(a).Got? { CutStable(a, b, GoDecodeLength(a).length); }
  }

  lemma TokeniseStep(d: Dialect, s: Bytes, item: Item, tail: Bytes)
    requires NextToken(d, s).Token? && NextToken(d, s).item == item && s[NextToken(d, s).size..] == tail
    ensures Tokenise(d, s) == Before([item], Tokenise(d, tail))
  {
  }

  lemma BeforeBefore(a: seq<Item>, b: seq<Item>, scan: Scan)
    ensures Before(a, Before(b, scan)) == Before(a + b, scan)
  {
    assert a + (b + scan.items) == a + b + scan.items;
  }

  /** Tokenising a prefix first, then its leftover bytes with the remainder, loses nothing. */
  lemma {:induction false} TokeniseConcat(d: Dialect, a: Bytes, b: Bytes)
    ensures Tokenise(d, a + b) == Before(Tokenise(d, a).items, Tokenise(d, Tokenise(d, a).rest + b))
    decreases |a|
  {
    var t := NextToken(d, a);
    if t.Token? {
      TokenStable(d, a, b);
      assert (a + b)[t.size..] == a[t.size..] + b;
      TokeniseStep(d, a, t.item, a[t.size..]);
      TokeniseStep(d, a + b, t.item, a[t.size..] + b);
      TokeniseConcat(d, a[t.size..], b);
      BeforeBefore([t.item], Tokenise(d, a[t.size..]).items, Tokenise(d, Tokenise(d, a).rest + b));
    }
  }

  /** The leftover bytes hold no item. */
  lemma {:induction false} TokeniseRest(d: Dialect, s: Bytes)
    ensures Tokenise(d, Tokenise(d, s).rest) == Scan([], Tokenise(d, s).rest)
    decreases |s|
  {
    var t := NextToken(d, s);
    if t.Token? {
      TokeniseRest(d, s[t.size..]);
    }
  }

  /** No decoder yields an empty word: a zero length always reads as the end of a sentence. */
  lemma {:induction false} TokenisedWordsNonempty(d: Dialect, s: Bytes)
    ensures Word([]) !in Tokenise(d, s).items
    decreases |s|
  {
    var t := NextToken(d, s);
    if t.Token? {
      TokenisedWordsNonempty(d, s[t.size..]);
    }
  }

  /** Every decoded sentence has a word, and every word a byte. */
  lemma {:induction false} SentencesNonempty(current: Sentence, items: seq<Item>)
    requires [] !in current && Word([]) !in items
    ensures forall s :: s in Sentences(current, items) ==> s != [] && [] !in s
    decreases |items|
  {
    if items != [] {
      match items[0]
      case End => SentencesNonempty([], items[1..]);
      case Word(w) => SentencesNonempty(current + [w], items[1..]);
    }
  }

  // ---------- Round trip and interoperability ----------

  /** The first length the decoder cannot represent: 2^31 in TypeScript, 2^28 in Go. */
  function Limit(d: Dialect): int {
    if d.Ts? then TWO_31 else WIDE
  }

  /** The decoder can read every word back, none of them being taken for the end of the sentence. */
  ghost predicate Fits(d: Dialect, words: Sentence) {
    forall w :: w in words ==> 0 < |w| < Limit(d)
  }

  ghost predicate AllFit(d: Dialect, sentences: seq<Sentence>) {
    forall s :: s in sentences ==> Fits(d, s)
  }

  lemma BigEndianBytes(v: nat)
    ensures BigEndian(v, 2) == [v / 0x100 % 0x100, v % 0x100]
    ensures BigEndian(v, 3) == [v / 0x1_0000 % 0x100, v / 0x100 % 0x100, v % 0x100]
    ensures BigEndian(v, 4) == [v / 0x100_0000 % 0x100, v / 0x1_0000 % 0x100, v / 0x100 % 0x100, v % 0x100]
  {
    assert v / 0x100 / 0x100 == v / 0x1_0000;
    assert v / 0x1_0000 / 0x100 == v / 0x100_0000;
    var a, b, c := v / 0x100, v / 0x1_0000, v / 0x100_0000;
    assert BigEndian(c, 1) == [c % 0x100];
    assert BigEndian(b, 2) == [c % 0x100, b % 0x100];
    assert BigEndian(a, 3) == [c % 0x100, b % 0x100, a % 0x100];
    assert BigEndian(b, 1) == [b % 0x100];
    assert BigEndian(a, 2) == [b % 0x100, a % 0x100];
    assert BigEndian(a, 1) == [a % 0x100];
  }

  /** Setting high bits above `n` leaves its low bytes alone and adds to the top one. */
  lemma HighBits(n: nat, top: nat, unit: nat, marker: nat)
    requires unit > 0 && n / unit == top
    ensures (n + marker * unit) / unit == top + marker
    ensures (n + marker * unit) % unit == n % unit
  {
    var low := n % unit;
    assert n == unit * top + low;
    assert n + marker * unit == unit * (top + marker) + low by {
      assert unit * (top + marker) == unit * top + marker * unit;
    }
    Quotient(n + marker * unit, unit, top + marker, low);
  }

  lemma TwoByteInterop(n: nat)
    requires 0x80 <= n < 0x4000
    ensures BigEndian(n + 0x8000, 2) == TsEncodeLength(n)
  {
    BigEndianBytes(n + 0x8000);
    HighBits(n, n / 0x100, 0x100, 0x80);
  }

  lemma ThreeByteInterop(n: nat)
    requires 0x4000 <= n < 0x20_0000
    ensures BigEndian(n + 0xC0_0000, 3) == TsEncodeLength(n)
  {
    BigEndianBytes(n + 0xC0_0000);
    HighBits(n, n / 0x100, 0x100, 0xC000);
    HighBits(n, n / 0x1_0000, 0x1_0000, 0xC0);
    HighBits(n / 0x100, n / 0x1_0000, 0x100, 0xC0);
  }

  lemma FourByteLow(n: nat)
    ensures var v := n + 0xE000_0000;
            v % 0x100 == n % 0x100 && v / 0x100 == n / 0x100 + 0xE0_0000
  {
    HighBits(n, n / 0x100, 0x100, 0xE0_0000);
  }

  lemma FourByteMiddle(n: nat)
    ensures var v := n + 0xE000_0000;
            v / 0x100 % 0x100 == n / 0x100 % 0x100 && v / 0x1_0000 % 0x100 == n / 0x1_0000 % 0x100
  {
    FourByteLow(n);
    var a, b := n / 0x100, n / 0x1_0000;
    HighBits(a, a / 0x100, 0x100, 0xE000);
    HighBits(n, b, 0x1_0000, 0xE000);
    HighBits(b, b / 0x100, 0x100, 0xE0);
  }

  lemma FourByteTop(n: nat)
    ensures (n + 0xE000_0000) / 0x100_0000 == n / 0x100_0000 + 0xE0
  {
    HighBits(n, n / 0x100_0000, 0x100_0000, 0xE0);
  }

  lemma FourByteInterop(n: nat)
    requires 0x20_0000 <= n < WIDE
    ensures BigEndian(n + 0xE000_0000, 4) == TsEncodeLength(n)
  {
    BigEndianBytes(n + 0xE000_0000);
    hide BigEndian;
    FourByteLow(n);
    FourByteMiddle(n);
    FourByteTop(n);
  }

  /** The two encoders agree on every length Go accepts, and Go refuses exactly the others. */
  lemma LengthInterop(n: nat)
    ensures GoEncodeLength(n) == if n < WIDE then Some(TsEncodeLength(n)) else None
  {
    if 0x80 <= n < 0x4000 {
      TwoByteInterop(n);
    } else if 0x4000 <= n < 0x20_0000 {
      ThreeByteInterop(n);
    } else if 0x20_0000 <= n < WIDE {
      FourByteInterop(n);
    }
  }

  /** Go writes a sentence exactly when all words fit, and then the bytes TypeScript writes. */
  lemma {:induction false} SentenceInterop(words: Sentence)
    ensures GoEncodeSentence(words)
         == if forall w :: w in words ==> |w| < WIDE then Some(TsEncodeSentence(words)) else None
  {
    if words != [] {
      LengthInterop(|words[0]|);
      SentenceInterop(words[1..]);
      assert forall w :: w in words <==> w == words[0] || w in words[1..];
    }
  }

  /** The bytes of a number put it together again. */
  lemma DigitsTwo(n: nat)
    ensures n == n / 0x100 * 0x100 + n % 0x100
    ensures n < 0x4000 ==> n / 0x100 % 0x40 == n / 0x100 && (n / 0x100 + 0x80) % 0x40 == n / 0x100
  {
  }

  lemma DigitsThree(n: nat)
    ensures n == n / 0x1_0000 * 0x1_0000 + n / 0x100 % 0x100 * 0x100 + n % 0x100
    ensures n < 0x20_0000 ==> n / 0x1_0000 % 0x20 == n / 0x1_0000 && (n / 0x1_0000 + 0xc0) % 0x20 == n / 0x1_0000
  {
    assert n / 0x100 / 0x100 == n / 0x1_0000;
    DigitsTwo(n);
    DigitsTwo(n / 0x100);
  }

  lemma DigitsFour(n: nat)
    ensures n == n / 0x100_0000 * 0x100_0000 + n / 0x1_0000 % 0x100 * 0x1_0000 + n / 0x100 % 0x100 * 0x100 + n % 0x100
    ensures n < WIDE ==> n / 0x100_0000 % 0x10 == n / 0x100_0000 && (n / 0x100_0000 + 0xe0) % 0x10 == n / 0x100_0000
    ensures n < TWO_31 ==> n / 0x100_0000 % 0x100 == n / 0x100_0000
  {
    assert n / 0x1_0000 / 0x100 == n / 0x100_0000;
    DigitsThree(n);
    DigitsTwo(n / 0x1_0000);
  }

  lemma LengthReadsBack(n: nat)
    requires n < TWO_31
    ensures TsDecodeLength(TsEncodeLength(n), 0) == Some(Length(n, |TsEncodeLength(n)|))
    ensures n < WIDE ==> GoDecodeLength(TsEncodeLength(n)) == Got(Length(n, |TsEncodeLength(n)|))
  {
    var e := TsEncodeLength(n);
    if 0x80 <= n < 0x4000 {
      DigitsTwo(n);
    } else if 0x4000 <= n < 0x20_0000 {
      DigitsThree(n);
    } else if 0x20_0000 <= n {
      DigitsFour(n);
    }
  }

  /** Bytes as one big-endian number. */
  function NumberOf(s: Bytes): nat {
    if s == [] then 0 else NumberOf(s[..|s| - 1]) * 0x100 + s[|s| - 1]
  }

  /** The prefix is the length in big-endian order with the marker of its form in front, and as short as can be. */
  lemma PrefixIsBigEndian(n: nat)
    requires n < 2 * TWO_31
    ensures var e := TsEncodeLength(n);
            if n < 0x80 then |e| == 1 && NumberOf(e) == n
            else if n < 0x4000 then |e| == 2 && NumberOf(e) == 0x8000 + n
            else if n < 0x20_0000 then |e| == 3 && NumberOf(e) == 0xC0_0000 + n
            else if n < 0x1000_0000 then |e| == 4 && NumberOf(e) == 0xE000_0000 + n
            else |e| == 5 && NumberOf(e) == 0xF0_0000_0000 + n
  {
    var e := TsEncodeLength(n);
    assert e[..|e| - 1][..] == e[..|e| - 1];
    NumberOfBytes(e);
    if 0x80 <= n < 0x4000 {
      DigitsTwo(n);
    } else if 0x4000 <= n < 0x20_0000 {
      DigitsThree(n);
    } else if 0x20_0000 <= n {
      DigitsFour(n);
    }
  }

  lemma NumberOfBytes(e: Bytes)
    requires 1 <= |e| <= 5
    ensures |e| == 1 ==> NumberOf(e) == e[0]
    ensures |e| == 2 ==> NumberOf(e) == e[0] as int * 0x100 + e[1] as int
    ensures |e| == 3 ==> NumberOf(e) == e[0] as int * 0x1_0000 + e[1] as int * 0x100 + e[2] as int
    ensures |e| == 4 ==>
      NumberOf(e) == e[0] as int * 0x100_0000 + e[1] as int * 0x1_0000 + e[2] as int * 0x100 + e[3] as int
    ensures |e| == 5 ==>
      NumberOf(e) == e[0] as int * 0x1_0000_0000 + e[1] as int * 0x100_0000 + e[2] as int * 0x1_0000
                     + e[3] as int * 0x100 + e[4] as int
    decreases |e|
  {
    if |e| > 1 {
      NumberOfBytes(e[..|e| - 1]);
    }
  }

  /** A written length reads back, whatever bytes follow. */
  lemma LengthRoundTrip(n: nat, tail: Bytes)
    requires n < TWO_31
    ensures TsDecodeLength(TsEncodeLength(n) + tail, 0) == Some(Length(n, |TsEncodeLength(n)|))
    ensures n < WIDE ==> GoDecodeLength(TsEncodeLength(n) + tail) == Got(Length(n, |TsEncodeLength(n)|))
  {
    LengthReadsBack(n);
    LengthStable(TsEncodeLength(n), tail);
  }

  /** A written word is the next token, whatever bytes follow; the empty word ends a sentence. */
  lemma WordRoundTrip(d: Dialect, w: Bytes, tail: Bytes)
    requires |w| < Limit(d)
    ensures NextToken(d, TsEncodeWord(w) + tail) == Token(if w == [] then End else Word(w), |TsEncodeWord(w)|)
    ensures (TsEncodeWord(w) + tail)[|TsEncodeWord(w)|..] == tail
  {
    var e := TsEncodeLength(|w|);
    assert TsEncodeWord(w) + tail == e + (w + tail);
    LengthRoundTrip(|w|, w + tail);
    assert (e + (w + tail))[|e|..|e| + |w|] == w;
  }

  lemma TokeniseWord(d: Dialect, w: Bytes, tail: Bytes)
    requires |w| < Limit(d)
    ensures Tokenise(d, TsEncodeWord(w) + tail) == Before([if w == [] then End else Word(w)], Tokenise(d, tail))
  {
    WordRoundTrip(d, w, tail);
    TokeniseStep(d, TsEncodeWord(w) + tail, if w == [] then End else Word(w), tail);
  }

  lemma {:induction false} TokeniseSentence(d: Dialect, words: Sentence, tail: Bytes)
    requires Fits(d, words)
    ensures Tokenise(d, TsEncodeSentence(words) + tail) == Before(AsItems(words), Tokenise(d, tail))
  {
    if words == [] {
      assert TsEncodeSentence(words) == TsEncodeWord([]);
      TokeniseWord(d, [], tail);
    } else {
      var others := TsEncodeSentence(words[1..]) + tail;
      assert TsEncodeSentence(words) + tail == TsEncodeWord(words[0]) + others;
      assert words[0] in words;
      TokeniseWord(d, words[0], others);
      TokeniseSentence(d, words[1..], tail);
      BeforeBefore([Word(words[0])], AsItems(words[1..]), Tokenise(d, tail));
    }
  }

  lemma {:induction false} TokeniseAll(d: Dialect, sentences: seq<Sentence>, tail: Bytes)
    requires AllFit(d, sentences)
    ensures Tokenise(d, TsEncodeAll(sentences) + tail) == Before(AllAsItems(sentences), Tokenise(d, tail))
  {
    if sentences == [] {
      assert TsEncodeAll(sentences) + tail == tail;
    } else {
      var others := TsEncodeAll(sentences[1..]) + tail;
      assert TsEncodeAll(sentences) + tail == TsEncodeSentence(sentences[0]) + others;
      assert sentences[0] in sentences;
      TokeniseSentence(d, sentences[0], others);
      TokeniseAll(d, sentences[1..], tail);
      BeforeBefore(AsItems(sentences[0]), AllAsItems(sentences[1..]), Tokenise(d, tail));
    }
  }

  lemma {:induction false} SentencesOfSentence(current: Sentence, words: Sentence, tail: seq<Item>)
    ensures Sentences(current, AsItems(words) + tail)
         == (if current + words == [] then [] else [current + words]) + Sentences([], tail)
    ensures Unfinished(current, AsItems(words) + tail) == Unfinished([], tail)
    decreases |words|
  {
    var items := AsItems(words) + tail;
    if words == [] {
      assert items[0] == End && items[1..] == tail;
      assert current + words == current;
    } else {
      assert items[0] == Word(words[0]) && items[1..] == AsItems(words[1..]) + tail;
      assert current + words == current + [words[0]] + words[1..];
      SentencesOfSentence(current + [words[0]], words[1..], tail);
    }
  }

  function NonemptyOnly(sentences: seq<Sentence>): seq<Sentence> {
    if sentences == [] then []
    else (if sentences[0] == [] then [] else [sentences[0]]) + NonemptyOnly(sentences[1..])
  }

  lemma {:induction false} SentencesOfAll(sentences: seq<Sentence>)
    ensures Sentences([], AllAsItems(sentences)) == NonemptyOnly(sentences)
    ensures Unfinished([], AllAsItems(sentences)) == []
  {
    if sentences != [] {
      SentencesOfSentence([], sentences[0], AllAsItems(sentences[1..]));
      assert [] + sentences[0] == sentences[0];
      SentencesOfAll(sentences[1..]);
    }
  }

  lemma {:induction false} NonemptyOnlyId(sentences: seq<Sentence>)
    requires [] !in sentences
    ensures NonemptyOnly(sentences) == sentences
  {
    if sentences != [] {
      NonemptyOnlyId(sentences[1..]);
      assert sentences == [sentences[0]] + sentences[1..];
    }
  }

  /** What a decoder that collects complete sentences makes of `s`. */
  function Decode(d: Dialect, s: Bytes): (seq<Sentence>, Bytes) {
    var scan := Tokenise(d, s);
    (Sentences([], scan.items), scan.rest)
  }

  /** The sentence lists the protocol can carry: no empty sentence, no empty word. */
  ghost predicate Canonical(sentences: seq<Sentence>) {
    forall s :: s in sentences ==> s != [] && [] !in s
  }

  /**
   Encoding and decoding give the list back exactly when it is canonical, for all words whose
   length the decoder can represent.
   */
  lemma RoundTrip(d: Dialect, sentences: seq<Sentence>)
    requires forall s, w :: s in sentences && w in s ==> |w| < Limit(d)
    ensures Decode(d, TsEncodeAll(sentences)) == (sentences, []) <==> Canonical(sentences)
  {
    var bytes := TsEncodeAll(sentences);
    if Canonical(sentences) {
      forall s | s in sentences ensures Fits(d, s) {
        forall w | w in s ensures |w| > 0 { assert [] !in s; }
      }
      TokeniseAll(d, sentences, []);
      assert bytes + [] == bytes;
      assert AllAsItems(sentences) + [] == AllAsItems(sentences);
      SentencesOfAll(sentences);
      NonemptyOnlyId(sentences);
    } else {
      TokenisedWordsNonempty(d, bytes);
      SentencesNonempty([], Tokenise(d, bytes).items);
    }
  }

  /** No two canonical lists share an encoding. */
  lemma EncodingInjective(a: seq<Sentence>, b: seq<Sentence>)
    requires Canonical(a) && Canonical(b)
    requires forall s, w :: s in a + b && w in s ==> |w| < TWO_31
    requires TsEncodeAll(a) == TsEncodeAll(b)
    ensures a == b
  {
    assert forall s :: s in a ==> s in a + b;
    assert forall s :: s in b ==> s in a + b;
    RoundTrip(Ts, a);
    RoundTrip(Ts, b);
  }

  // ---------- Reply tags ----------

  function Ascii(s: string): Bytes {
    seq(|s|, i requires 0 <= i < |s| => s[i] as int % 256)
  }

  const DONE: Bytes := Ascii("!done")
  const RE: Bytes := Ascii("!re")
  const TRAP: Bytes := Ascii("!trap")
  const FATAL: Bytes := Ascii("!fatal")

  lemma TagsDiffer()
    ensures RE !in {DONE, TRAP, FATAL} && DONE != TRAP && DONE != FATAL && TRAP != FATAL
  {
    assert |RE| == 3 && |DONE| == 5 && |TRAP| == 5 && |FATAL| == 6;
    assert DONE[1] == 100 && TRAP[1] == 116;
  }
}
