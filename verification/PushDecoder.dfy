/**
 The TypeScript decoder: `decodeWords` over one buffer, and the socket handler that calls it
 once per chunk and keeps the bytes it left over.
 */
module PushDecoder {
  import opened Sequences
  import opened WireFormat

  // ---------- One buffer ----------

  /** The loop of `decodeWords` at `offset`, with what it has collected so far. */
  ghost predicate Reached(buf: Bytes, offset: nat, sentences: seq<Sentence>, current: Sentence) {
    && offset <= |buf|
    && Sentences([], Tokenise(Ts, buf).items) == sentences + Sentences(current, Tokenise(Ts, buf[offset..]).items)
    && Tokenise(Ts, buf).rest == Tokenise(Ts, buf[offset..]).rest
  }

  /** The token at `offset`, from the length the loop decodes there. */
  lemma TokenAt(buf: Bytes, offset: nat)
    requires offset < |buf|
    ensures match TsDecodeLength(buf, offset)
            case None => TsToken(buf[offset..]) == Starved
            case Some(Length(v, w)) =>
              && 0 < w <= |buf| - offset
              && TsToken(buf[offset..])
              == if v < 0 then Refused
                 else if v == 0 then Token(End, w)
                 else if offset + w + v > |buf| then Starved
                 else Token(Word(buf[offset + w..offset + w + v]), w + v)
  {
    hide TsDecodeLength;
    var s := buf[offset..];
    LengthAt(buf, offset);
    match TsDecodeLength(buf, offset)
    case None =>
    case Some(Length(v, w)) =>
      if 0 < v && offset + w + v <= |buf| {
        assert s[w..w + v] == buf[offset + w..offset + w + v];
      }
  }

  lemma LengthAt(buf: Bytes, offset: nat)
    requires offset < |buf|
    ensures TsDecodeLength(buf, offset) == TsDecodeLength(buf[offset..], 0)
    ensures TsDecodeLength(buf, offset).Some? ==> 0 < TsDecodeLength(buf, offset).value.width <= |buf| - offset
  {
    var s := buf[offset..];
    assert forall i: nat :: i < |s| ==> At(s, i) == At(buf, offset + i);
  }

  lemma PastToken(buf: Bytes, offset: nat, sentences: seq<Sentence>, current: Sentence)
    requires Reached(buf, offset, sentences, current)
    requires TsToken(buf[offset..]).Token?
    ensures var t := TsToken(buf[offset..]);
            match t.item
            case End => Reached(buf, offset + t.size, if current == [] then sentences else sentences + [current], [])
            case Word(w) => Reached(buf, offset + t.size, sentences, current + [w])
  {
    hide TsToken;
    var t := TsToken(buf[offset..]);
    assert buf[offset..][t.size..] == buf[offset + t.size..];
    TokeniseStep(Ts, buf[offset..], t.item, buf[offset + t.size..]);
  }

  lemma NothingAtEnd()
    ensures TsToken([]) == Starved
  {
  }

  lemma PastLastToken(buf: Bytes, offset: nat, sentences: seq<Sentence>, current: Sentence)
    requires Reached(buf, offset, sentences, current)
    requires !TsToken(buf[offset..]).Token?
    ensures Decode(Ts, buf) == (sentences, buf[offset..])
  {
    assert Tokenise(Ts, buf[offset..]) == Scan([], buf[offset..]);
    assert sentences + Sentences(current, []) == sentences;
  }

  /**
   `decodeWords`. `refused` reports a five-byte length of 2^31 or more; the source does not
   return in general from there (see `NegativeLengthMovesBack`).
   */
  method DecodeWords(buf: Bytes) returns (sentences: seq<Sentence>, remaining: Bytes, refused: bool)
    ensures (sentences, remaining) == Decode(Ts, buf)
    ensures refused <==> TsToken(remaining) == Refused
  {
    hide TsToken, TsDecodeLength, Cut, Tokenise, NextToken;
    sentences := [];
    refused := false;
    var current: Sentence := [];
    var offset := 0;
    assert buf[0..] == buf;
    while offset < |buf|
      invariant Reached(buf, offset, sentences, current)
      invariant !refused
    {
      TokenAt(buf, offset);
      var result := TsDecodeLength(buf, offset);
      if result.None? { break; }
      var wordLen, lenBytes := result.value.value, result.value.width;
      if wordLen < 0 {
        refused := true;
        break;
      }
      if wordLen == 0 || offset + lenBytes + wordLen <= |buf| {
        PastToken(buf, offset, sentences, current);
      }
      offset := offset + lenBytes;
      if wordLen == 0 {
        if |current| > 0 {
          sentences := sentences + [current];
          current := [];
        }
        continue;
      }
      if offset + wordLen > |buf| {
        offset := offset - lenBytes;
        break;
      }
      current := current + [buf[offset..offset + wordLen]];
      offset := offset + wordLen;
    }
    NothingAtEnd();
    PastLastToken(buf, offset, sentences, current);
    remaining := buf[offset..];
  }

  // ---------- A stream in chunks ----------

  /** The connection's receive state: `buf` in the handler, carried from chunk to chunk. */
  class Receiver {
    var buf: Bytes

    constructor ()
      ensures buf == []
    {
      buf := [];
    }

    method OnData(chunk: Bytes) returns (sentences: seq<Sentence>)
      modifies this
      ensures (sentences, buf) == Decode(Ts, old(buf) + chunk)
    {
      var refused;
      sentences, buf, refused := DecodeWords(buf + chunk);
    }
  }

  /** The items each chunk completes, starting from the leftover bytes `buf`. */
  function ChunkItems(buf: Bytes, chunks: seq<Bytes>): seq<seq<Item>>
    decreases |chunks|
  {
    if chunks == [] then [] else
      var scan := Tokenise(Ts, buf + chunks[0]);
      [scan.items] + ChunkItems(scan.rest, chunks[1..])
  }

  /** What the handler emits: each chunk's items are grouped afresh. */
  function Regrouped(parts: seq<seq<Item>>): seq<Sentence> {
    if parts == [] then [] else Sentences([], parts[0]) + Regrouped(parts[1..])
  }

  function Emitted(buf: Bytes, chunks: seq<Bytes>): seq<Sentence> {
    Regrouped(ChunkItems(buf, chunks))
  }

  /** The whole stream through the handler, one chunk after the other. */
  method ReceiveAll(chunks: seq<Bytes>) returns (sentences: seq<Sentence>)
    ensures sentences == Emitted([], chunks)
  {
    var receiver := new Receiver();
    sentences := [];
    for i := 0 to |chunks|
      invariant Emitted([], chunks) == sentences + Emitted(receiver.buf, chunks[i..])
    {
      var more := receiver.OnData(chunks[i]);
      assert chunks[i..][1..] == chunks[i + 1..];
      sentences := sentences + more;
    }
    assert sentences + [] == sentences;
  }

  /** However the stream is cut, the chunks' items together are the stream's items. */
  lemma {:induction false} ChunkItemsComplete(buf: Bytes, chunks: seq<Bytes>)
    requires Tokenise(Ts, buf) == Scan([], buf)
    ensures Flatten(ChunkItems(buf, chunks)) == Tokenise(Ts, buf + Flatten(chunks)).items
    decreases |chunks|
  {
    hide NextToken;
    if chunks == [] {
      assert buf + Flatten(chunks) == buf;
    } else {
      var scan := Tokenise(Ts, buf + chunks[0]);
      TokeniseRest(Ts, buf + chunks[0]);
      ChunkItemsComplete(scan.rest, chunks[1..]);
      assert buf + Flatten(chunks) == buf + chunks[0] + Flatten(chunks[1..]);
      TokeniseConcat(Ts, buf + chunks[0], Flatten(chunks[1..]));
    }
  }

  function CountWords(sentences: seq<Sentence>): nat {
    if sentences == [] then 0 else |sentences[0]| + CountWords(sentences[1..])
  }

  function WordsIn(items: seq<Item>): nat {
    if items == [] then 0 else (if items[0].Word? then 1 else 0) + WordsIn(items[1..])
  }

  /** Words the handler forgets: those of a sentence begun in a chunk and not ended in it. */
  function Forgotten(parts: seq<seq<Item>>): nat {
    if parts == [] then 0 else |Unfinished([], parts[0])| + Forgotten(parts[1..])
  }

  lemma {:induction false} CountWordsConcat(a: seq<Sentence>, b: seq<Sentence>)
    ensures CountWords(a + b) == CountWords(a) + CountWords(b)
  {
    if a == [] {
      assert a + b == b;
    } else {
      assert (a + b)[1..] == a[1..] + b;
      CountWordsConcat(a[1..], b);
    }
  }

  lemma CountWordsCons(first: Sentence, others: seq<Sentence>)
    ensures CountWords([first] + others) == |first| + CountWords(others)
  {
    assert ([first] + others)[1..] == others;
  }

  lemma {:induction false} WordsInConcat(a: seq<Item>, b: seq<Item>)
    ensures WordsIn(a + b) == WordsIn(a) + WordsIn(b)
  {
    if a == [] {
      assert a + b == b;
    } else {
      assert (a + b)[1..] == a[1..] + b;
      WordsInConcat(a[1..], b);
    }
  }

  /** Every word ends up in a sentence or is left unfinished. */
  lemma {:induction false} WordsAccounted(current: Sentence, items: seq<Item>)
    ensures CountWords(Sentences(current, items)) + |Unfinished(current, items)| == |current| + WordsIn(items)
    decreases |items|
  {
    if items != [] {
      match items[0]
      case End =>
        WordsAccounted([], items[1..]);
        var others := Sentences([], items[1..]);
        if current == [] { assert [] + others == others; } else { CountWordsCons(current, others); }
      case Word(w) =>
        WordsAccounted(current + [w], items[1..]);
    }
  }

  lemma {:induction false} RegroupedAccounted(parts: seq<seq<Item>>)
    ensures CountWords(Regrouped(parts)) + Forgotten(parts) == WordsIn(Flatten(parts))
    decreases |parts|
  {
    if parts != [] {
      WordsAccounted([], parts[0]);
      CountWordsConcat(Sentences([], parts[0]), Regrouped(parts[1..]));
      WordsInConcat(parts[0], Flatten(parts[1..]));
      RegroupedAccounted(parts[1..]);
    }
  }

  /** Words emitted plus words forgotten at chunk boundaries are the words of the stream. */
  lemma WordConservation(chunks: seq<Bytes>)
    ensures CountWords(Emitted([], chunks)) + Forgotten(ChunkItems([], chunks))
         == WordsIn(Tokenise(Ts, Flatten(chunks)).items)
  {
    ChunkItemsComplete([], chunks);
    assert [] + Flatten(chunks) == Flatten(chunks);
    RegroupedAccounted(ChunkItems([], chunks));
  }

  /**
   No chunk that leaves complete words of an unfinished sentence behind is followed by a
   chunk in which a sentence ends.
   */
  ghost predicate LossFree(parts: seq<seq<Item>>) {
    forall k :: 0 <= k < |parts| && Unfinished([], parts[k]) != [] ==> End !in Flatten(parts[k + 1..])
  }

  lemma {:induction false} NoEndNoSentence(current: Sentence, items: seq<Item>)
    requires End !in items
    ensures Sentences(current, items) == []
    ensures |Unfinished(current, items)| == |current| + |items|
    decreases |items|
  {
    if items != [] {
      NoEndNoSentence(current + [items[0].data], items[1..]);
    }
  }

  lemma {:induction false} NoEndNothingRegrouped(parts: seq<seq<Item>>)
    requires End !in Flatten(parts)
    ensures Regrouped(parts) == []
    decreases |parts|
  {
    if parts != [] {
      assert forall x :: x in parts[0] ==> x in Flatten(parts);
      assert forall x :: x in Flatten(parts[1..]) ==> x in Flatten(parts);
      NoEndNoSentence([], parts[0]);
      NoEndNothingRegrouped(parts[1..]);
    }
  }

  /** Words at hand only lengthen the first sentence to end. */
  lemma {:induction false} HeldWordsCount(current: Sentence, items: seq<Item>)
    requires End in items
    ensures CountWords(Sentences(current, items)) == |current| + CountWords(Sentences([], items))
    decreases |items|
  {
    match items[0]
    case End =>
      var others := Sentences([], items[1..]);
        if current == [] { assert [] + others == others; } else { CountWordsCons(current, others); }
    case Word(w) =>
      assert items == [items[0]] + items[1..];
      HeldWordsCount(current + [w], items[1..]);
      HeldWordsCount([w], items[1..]);
      assert [] + [w] == [w];
  }

  /** Grouping afresh never yields more words than grouping at once. */
  lemma {:induction false} RegroupedAtMost(parts: seq<seq<Item>>)
    ensures CountWords(Regrouped(parts)) <= CountWords(Sentences([], Flatten(parts)))
    decreases |parts|
  {
    if parts != [] {
      var held, others := Unfinished([], parts[0]), Flatten(parts[1..]);
      SentencesConcat([], parts[0], others);
      CountWordsConcat(Sentences([], parts[0]), Sentences(held, others));
      CountWordsConcat(Sentences([], parts[0]), Regrouped(parts[1..]));
      RegroupedAtMost(parts[1..]);
      if End in others {
        HeldWordsCount(held, others);
      } else {
        NoEndNoSentence([], others);
      }
    }
  }

  lemma LossFreeTail(parts: seq<seq<Item>>)
    requires parts != []
    ensures LossFree(parts) <==>
            (Unfinished([], parts[0]) == [] || End !in Flatten(parts[1..])) && LossFree(parts[1..])
  {
    assert forall k :: 0 <= k < |parts| - 1 ==> parts[1..][k] == parts[k + 1] && parts[1..][k + 1..] == parts[k + 2..];
    if LossFree(parts[1..]) && (Unfinished([], parts[0]) == [] || End !in Flatten(parts[1..])) {
      forall k | 0 <= k < |parts| && Unfinished([], parts[k]) != [] ensures End !in Flatten(parts[k + 1..]) {
        if k > 0 { assert parts[k] == parts[1..][k - 1]; }
      }
    }
    if LossFree(parts) {
      assert Unfinished([], parts[0]) == [] || End !in Flatten(parts[0 + 1..]);
      forall k | 0 <= k < |parts[1..]| && Unfinished([], parts[1..][k]) != []
        ensures End !in Flatten(parts[1..][k + 1..])
      {
        assert parts[1..][k] == parts[k + 1];
      }
    }
  }

  lemma {:induction false} RegroupedExact(parts: seq<seq<Item>>)
    ensures Regrouped(parts) == Sentences([], Flatten(parts)) <==> LossFree(parts)
    decreases |parts|
  {
    if parts != [] {
      var first, held, others := Sentences([], parts[0]), Unfinished([], parts[0]), Flatten(parts[1..]);
      SentencesConcat([], parts[0], others);
      assert Sentences([], Flatten(parts)) == first + Sentences(held, others);
      LossFreeTail(parts);
      RegroupedExact(parts[1..]);
      SameTail(first, Regrouped(parts[1..]), Sentences(held, others));
      if held == [] {
      } else if End in others {
        HeldWordsCount(held, others);
        RegroupedAtMost(parts[1..]);
      } else {
        NoEndNoSentence(held, others);
        NoEndNoSentence([], others);
        NoEndNothingRegrouped(parts[1..]);
      }
    }
  }

  /**
   Chunk by chunk gives the same sentences as all at once exactly when no boundary that forgets
   words is followed by the end of a sentence. For every stream and every way of cutting it.
   */
  lemma ChunkingExact(chunks: seq<Bytes>)
    ensures Emitted([], chunks) == Decode(Ts, Flatten(chunks)).0 <==> LossFree(ChunkItems([], chunks))
  {
    ChunkItemsComplete([], chunks);
    assert [] + Flatten(chunks) == Flatten(chunks);
    RegroupedExact(ChunkItems([], chunks));
  }

  /** For a stream of complete sentences: exactly when no chunk leaves a complete word behind. */
  lemma CompleteStreamChunking(sentences: seq<Sentence>, chunks: seq<Bytes>)
    requires Canonical(sentences) && AllFit(Ts, sentences)
    requires Flatten(chunks) == TsEncodeAll(sentences)
    ensures Emitted([], chunks) == sentences
       <==> forall part :: part in ChunkItems([], chunks) ==> Unfinished([], part) == []
  {
    var parts := ChunkItems([], chunks);
    RoundTrip(Ts, sentences);
    ChunkingExact(chunks);
    ChunkItemsComplete([], chunks);
    assert [] + Flatten(chunks) == Flatten(chunks);
    TokeniseAll(Ts, sentences, []);
    assert TsEncodeAll(sentences) + [] == TsEncodeAll(sentences);
    assert AllAsItems(sentences) + [] == AllAsItems(sentences);
    SentencesOfAll(sentences);
    assert Unfinished([], Flatten(parts)) == [];
    if LossFree(parts) {
      forall k | 0 <= k < |parts| ensures Unfinished([], parts[k]) == [] {
        SplitAt(parts, k);
        FinishedLater(Flatten(parts[..k]), parts[k], Flatten(parts[k + 1..]));
      }
    } else {
      var k :| 0 <= k < |parts| && Unfinished([], parts[k]) != [] && End in Flatten(parts[k + 1..]);
      assert parts[k] in parts;
    }
  }

  /** So it does happen: a boundary behind the first word of a sentence changes what is emitted. */
  lemma BoundaryForgetsWord(a: Bytes, b: Bytes)
    requires 0 < |a| < TWO_31 && 0 < |b| < TWO_31
    ensures var chunks := [TsEncodeWord(a), TsEncodeSentence([b])];
            Flatten(chunks) == TsEncodeAll([[a, b]]) && Emitted([], chunks) != [[a, b]]
  {
    hide TsEncodeWord, Tokenise;
    var first, second := TsEncodeWord(a), TsEncodeSentence([b]);
    var chunks := [first, second];
    assert Flatten(chunks) == first + second == TsEncodeAll([[a, b]]) by {
      FlattenConcat([first], [second]);
      assert [first] + [second] == chunks && [a, b][1..] == [b];
    }
    TokeniseWord(Ts, a, []);
    EmptyTokenised();
    assert first + [] == first && [] + first == first;
    var part := ChunkItems([], chunks)[0];
    WordOnly([], a);
    assert part == [Word(a)] && part in ChunkItems([], chunks);
    CompleteStreamChunking([[a, b]], chunks);
  }

  /** When the whole stream finishes its sentences, words left at a boundary see a later end. */
  lemma FinishedLater(before: seq<Item>, part: seq<Item>, after: seq<Item>)
    requires Unfinished([], before + (part + after)) == []
    ensures Unfinished([], part) == [] || End in after
  {
    var held := Unfinished([], before);
    SentencesConcat([], before, part + after);
    SentencesConcat(held, part, after);
    UnfinishedSuffix(held, [], part);
    if End !in after {
      NoEndNoSentence(Unfinished(held, part), after);
    }
  }

  lemma SplitAt(parts: seq<seq<Item>>, k: nat)
    requires k < |parts|
    ensures Flatten(parts) == Flatten(parts[..k]) + (parts[k] + Flatten(parts[k + 1..]))
  {
    assert parts == parts[..k] + parts[k..];
    FlattenConcat(parts[..k], parts[k..]);
    assert parts[k..][1..] == parts[k + 1..];
  }

  /** Starting with more words never leaves fewer. */
  lemma {:induction false} UnfinishedSuffix(longer: Sentence, shorter: Sentence, items: seq<Item>)
    requires |shorter| <= |longer|
    ensures |Unfinished(shorter, items)| <= |Unfinished(longer, items)|
    decreases |items|
  {
    if items != [] && items[0].Word? {
      UnfinishedSuffix(longer + [items[0].data], shorter + [items[0].data], items[1..]);
    }
  }

  // ---------- A decoder that loses nothing ----------

  /**
   The bytes to keep if the decoder goes back to the start of the sentence it could not finish:
   `begun` are the bytes of that sentence already taken in, `s` the unread ones.
   */
  function Rewind(begun: Bytes, s: Bytes): Bytes
    decreases |s|
  {
    match TsToken(s)
    case Token(End, n) => Rewind([], s[n..])
    case Token(Word(_), n) => Rewind(begun + s[..n], s[n..])
    case _ => begun + s
  }

  /** The handler's loop with that one change: it keeps `Rewind([], buf)` between chunks. */
  function RewindingEmitted(buf: Bytes, chunks: seq<Bytes>): seq<Sentence>
    decreases |chunks|
  {
    if chunks == [] then [] else
      Decode(Ts, buf + chunks[0]).0 + RewindingEmitted(Rewind([], buf + chunks[0]), chunks[1..])
  }

  /** Bytes that hold some words and nothing else. */
  ghost predicate OnlyWords(s: Bytes, words: Sentence) {
    && Sentences([], Tokenise(Ts, s).items) == []
    && Unfinished([], Tokenise(Ts, s).items) == words
  }

  lemma {:induction false} RewindKeepsWords(begun: Bytes, s: Bytes)
    requires Tokenise(Ts, begun).rest == []
    requires OnlyWords(begun, Unfinished([], Tokenise(Ts, begun).items))
    ensures var kept := Rewind(begun, s);
            && Tokenise(Ts, kept).rest == Tokenise(Ts, s).rest
            && OnlyWords(kept, Unfinished(Unfinished([], Tokenise(Ts, begun).items), Tokenise(Ts, s).items))
    decreases |s|
  {
    hide TsToken;
    var t := TsToken(s);
    var words := Unfinished([], Tokenise(Ts, begun).items);
    match t
    case Token(End, n) =>
      TokeniseStep(Ts, s, End, s[n..]);
      NothingAtEnd();
      RewindKeepsWords([], s[n..]);
    case Token(Word(w), n) =>
      TokeniseStep(Ts, s, Word(w), s[n..]);
      ReadAlone(s);
      WordAppended(begun, s[..n], w);
      RewindKeepsWords(begun + s[..n], s[n..]);
    case _ =>
      TokeniseConcat(Ts, begun, s);
      assert [] + s == s;
      assert Tokenise(Ts, begun).items + [] == Tokenise(Ts, begun).items;
  }

  lemma PrefixLength(s: Bytes, n: nat)
    requires TsDecodeLength(s, 0).Some? && TsDecodeLength(s, 0).value.width <= n <= |s|
    ensures TsDecodeLength(s[..n], 0) == TsDecodeLength(s, 0)
  {
    assert forall i: nat :: i < n ==> At(s[..n], i) == At(s, i);
  }

  /** The bytes of the next item are that item and nothing else. */
  lemma ReadAlone(s: Bytes)
    requires TsToken(s).Token?
    ensures TsToken(s[..TsToken(s).size]) == TsToken(s)
  {
    hide TsDecodeLength;
    var n, width := TsToken(s).size, TsDecodeLength(s, 0).value.width;
    PrefixLength(s, n);
    assert s[..n][width..n] == s[width..n];
  }

  lemma WordAppended(begun: Bytes, word: Bytes, w: Bytes)
    requires Tokenise(Ts, begun).rest == [] && TsToken(word) == Token(Word(w), |word|)
    ensures Tokenise(Ts, begun + word).rest == []
    ensures var items := Tokenise(Ts, begun).items;
            && Sentences([], Tokenise(Ts, begun + word).items) == Sentences([], items)
            && Unfinished([], Tokenise(Ts, begun + word).items) == Unfinished([], items) + [w]
  {
    hide NextToken;
    var items := Tokenise(Ts, begun).items;
    TokeniseConcat(Ts, begun, word);
    assert [] + word == word;
    OneWord(word, w);
    SentencesConcat([], items, [Word(w)]);
    WordOnly(Unfinished([], items), w);
    assert Sentences([], items) + [] == Sentences([], items);
  }

  lemma WordOnly(current: Sentence, w: Bytes)
    ensures Sentences(current, [Word(w)]) == [] && Unfinished(current, [Word(w)]) == current + [w]
  {
    assert [Word(w)][1..] == [];
  }

  lemma OneWord(word: Bytes, w: Bytes)
    requires TsToken(word) == Token(Word(w), |word|)
    ensures Tokenise(Ts, word) == Scan([Word(w)], [])
  {
    hide TsToken;
    NothingAtEnd();
    TokeniseStep(Ts, word, Word(w), []);
  }

  /** What was rewound, read on together with more bytes, yields what the whole stream yields. */
  lemma RewindConcat(a: Bytes, b: Bytes)
    ensures Decode(Ts, a + b).0 == Decode(Ts, a).0 + Decode(Ts, Rewind([], a) + b).0
    ensures Decode(Ts, Rewind([], a)).0 == []
  {
    hide NextToken, Rewind;
    var kept := Rewind([], a);
    NothingAtEnd();
    assert Tokenise(Ts, []) == Scan([], []) by { EmptyTokenised(); }
    RewindKeepsWords([], a);
    TokeniseConcat(Ts, a, b);
    TokeniseConcat(Ts, kept, b);
    var more := Tokenise(Ts, Tokenise(Ts, a).rest + b).items;
    SentencesConcat([], Tokenise(Ts, a).items, more);
    SentencesConcat([], Tokenise(Ts, kept).items, more);
  }

  lemma EmptyTokenised()
    ensures Tokenise(Ts, []) == Scan([], [])
  {
  }

  /**
   Keeping the bytes of the unfinished sentence makes the handler indifferent to chunking:
   from any kept bytes, for every stream and every way of cutting it.
   */
  lemma {:induction false} RewindingChunkInvariant(kept: Bytes, chunks: seq<Bytes>)
    requires Decode(Ts, kept).0 == []
    ensures RewindingEmitted(kept, chunks) == Decode(Ts, kept + Flatten(chunks)).0
    decreases |chunks|
  {
    hide Rewind, Decode;
    if chunks == [] {
      assert kept + Flatten(chunks) == kept;
    } else {
      var a, b := kept + chunks[0], Flatten(chunks[1..]);
      assert kept + Flatten(chunks) == a + b;
      RewindConcat(a, b);
      RewindingChunkInvariant(Rewind([], a), chunks[1..]);
    }
  }

  /** From the start of a connection: the rewinding handler emits what one decoding of the stream would. */
  lemma RewindingExact(chunks: seq<Bytes>)
    ensures RewindingEmitted([], chunks) == Decode(Ts, Flatten(chunks)).0
  {
    hide RewindingEmitted;
    EmptyTokenised();
    RewindingChunkInvariant([], chunks);
    assert [] + Flatten(chunks) == Flatten(chunks);
  }
}
