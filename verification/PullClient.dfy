/** The Go agent's API client: a reader that pulls words off the connection, and `Execute`. */
module PullClient {
  import opened Wrappers
  import opened WireFormat
  import opened Attributes

  // ---------- Reading, as functions of the unread bytes ----------

  /** A value or an error, and the bytes still unread afterwards. */
  datatype Read<+T> = Ok(value: T, rest: Bytes) | Err(error: ReadError, rest: Bytes)

  /** `readWord`: an empty word for the end of a sentence. A short read uses the stream up. */
  function ReadWordSpec(s: Bytes): (r: Read<Bytes>)
    ensures r.Ok? ==> |r.rest| < |s|
  {
    match GoDecodeLength(s)
    case Bad(Eof) => Err(Eof, [])
    case Bad(UnsupportedPrefix) => Err(UnsupportedPrefix, s[1..])
    case Got(Length(n, w)) =>
      if w + n > |s| then Err(Eof, []) else Ok(s[w..w + n], s[w + n..])
  }

  function ReadSentenceSpec(s: Bytes): (r: Read<Sentence>)
    ensures r.Ok? ==> |r.rest| < |s|
    decreases |s|
  {
    match ReadWordSpec(s)
    case Err(e, rest) => Err(e, rest)
    case Ok(word, rest) =>
      if word == [] then Ok([], rest) else Prepend([word], ReadSentenceSpec(rest))
  }

  function Prepend(words: Sentence, read: Read<Sentence>): (r: Read<Sentence>)
    ensures r.Ok? <==> read.Ok?
    ensures r.rest == read.rest
  {
    match read
    case Ok(more, rest) => Ok(words + more, rest)
    case Err(e, rest) => Err(e, rest)
  }

  lemma PrependPrepend(a: Sentence, b: Sentence, read: Read<Sentence>)
    ensures Prepend(a, Prepend(b, read)) == Prepend(a + b, read)
    ensures Prepend([], read) == read
  {
    if read.Ok? {
      assert a + (b + read.value) == a + b + read.value;
      assert [] + read.value == read.value;
    }
  }

  lemma ReadSentenceStep(s: Bytes)
    ensures match ReadWordSpec(s)
            case Err(e, rest) => ReadSentenceSpec(s) == Err(e, rest)
            case Ok(word, rest) =>
              ReadSentenceSpec(s) == if word == [] then Ok([], rest) else Prepend([word], ReadSentenceSpec(rest))
  {
  }

  /** The sentences repeated reading yields before its first error. */
  function ReadAllSpec(s: Bytes): seq<Sentence>
    decreases |s|
  {
    match ReadSentenceSpec(s)
    case Err(_, _) => []
    case Ok(words, rest) => [words] + ReadAllSpec(rest)
  }

  // ---------- Replies ----------

  const MESSAGE_PREFIX: Bytes := Ascii("=message=")

  datatype Reply =
    | Rows(rows: seq<Attrs>)
    | Trap(message: Bytes)
    | Fatal(message: Bytes)
    | ReadFailed(cause: ReadError)
    | SendFailed
    | NotConnected

  /** `extractAttribute(sentence, "message")`: the first word with that prefix, or empty. */
  function MessageOf(sentence: Sentence): Bytes {
    if sentence == [] then []
    else if MESSAGE_PREFIX <= sentence[0] then sentence[0][|MESSAGE_PREFIX|..]
    else MessageOf(sentence[1..])
  }

  /** It is the first word with that prefix that counts, and its text behind the prefix. */
  lemma {:induction false} MessageOfFirst(sentence: Sentence, i: nat)
    requires forall j :: 0 <= j < i && j < |sentence| ==> !(Ascii("=message=") <= sentence[j])
    ensures i >= |sentence| ==> MessageOf(sentence) == []
    ensures i < |sentence| && Ascii("=message=") <= sentence[i] ==>
              sentence[i] == Ascii("=message=") + MessageOf(sentence)
  {
    assert MESSAGE_PREFIX == Ascii("=message=");
    hide MESSAGE_PREFIX, Ascii;
    if sentence != [] && i > 0 {
      assert forall j :: 0 <= j < i - 1 && j < |sentence[1..]| ==> sentence[1..][j] == sentence[j + 1];
      MessageOfFirst(sentence[1..], i - 1);
    }
  }

  /** The reply loop of `Execute`, with the rows collected so far. */
  function ReplySpec(s: Bytes, rows: seq<Attrs>): (Reply, Bytes)
    decreases |s|
  {
    match ReadSentenceSpec(s)
    case Err(e, rest) => (ReadFailed(e), rest)
    case Ok(sentence, rest) =>
      if sentence == [] then ReplySpec(rest, rows)
      else if sentence[0] == DONE then (Rows(rows), rest)
      else if sentence[0] == RE then ReplySpec(rest, rows + [Collect(Go, sentence[1..])])
      else if sentence[0] == TRAP then (Trap(MessageOf(sentence)), rest)
      else if sentence[0] == FATAL then (Fatal(MessageOf(sentence)), rest)
      else ReplySpec(rest, rows)
  }

  // ---------- Requests ----------

  /** How a write goes: the connection takes all bytes, or fails when it has taken some. */
  datatype Io = Complete | Broken(taken: nat)

  /** What reaches the connection. */
  function Written(bytes: Bytes, io: Io): (w: Bytes)
    ensures w <= bytes && (io.Complete? ==> w == bytes)
  {
    if io.Broken? && io.taken < |bytes| then bytes[..io.taken] else bytes
  }

  // ---------- The client ----------

  class Client {
    var connected: bool
    var incoming: Bytes  // unread bytes of the connection, to its end
    var outgoing: Bytes  // bytes written to it

    constructor (incoming: Bytes)
      ensures connected && this.incoming == incoming && outgoing == []
    {
      connected, this.incoming, outgoing := true, incoming, [];
    }

    method ReadByte() returns (r: Result<byte, ReadError>)
      modifies this`incoming
      ensures if old(incoming) == [] then r == Failure(Eof) && incoming == []
              else r == Success(old(incoming)[0]) && incoming == old(incoming)[1..]
    {
      if |incoming| == 0 { return Failure(Eof); }
      r := Success(incoming[0]);
      incoming := incoming[1..];
    }

    /** `io.ReadFull`: all `n` bytes, or an error with the stream used up. */
    method ReadFull(n: nat) returns (r: Result<Bytes, ReadError>)
      modifies this`incoming
      ensures if |old(incoming)| < n then r == Failure(Eof) && incoming == []
              else r == Success(old(incoming)[..n]) && incoming == old(incoming)[n..]
    {
      if |incoming| < n {
        incoming := [];
        return Failure(Eof);
      }
      r := Success(incoming[..n]);
      incoming := incoming[n..];
    }

    /** The length switch of `readWord`; a short read of it uses the stream up. */
    method ReadLength() returns (r: Result<Length, ReadError>)
      modifies this`incoming
      ensures match GoDecodeLength(old(incoming))
              case Got(length) => r == Success(length) && incoming == old(incoming)[length.width..]
              case Bad(Eof) => r == Failure(Eof) && incoming == []
              case Bad(UnsupportedPrefix) => r == Failure(UnsupportedPrefix) && incoming == old(incoming)[1..]
    {
      var first := ReadByte();
      if first.Failure? { return Failure(first.error); }
      var b: int := first.value;
      if b < 0x80 {
        return Success(Length(b, 1));
      } else if b < 0xC0 {
        var second := ReadByte();
        if second.Failure? { return Failure(second.error); }
        return Success(Length(b % 0x40 * 0x100 + second.value, 2));
      } else if b < 0xE0 {
        var buf := ReadFull(2);
        if buf.Failure? { return Failure(buf.error); }
        return Success(Length(b % 0x20 * 0x1_0000 + At(buf.value, 0) * 0x100 + At(buf.value, 1), 3));
      } else if b < 0xF0 {
        var buf := ReadFull(3);
        if buf.Failure? { return Failure(buf.error); }
        return Success(Length(b % 0x10 * 0x100_0000 + At(buf.value, 0) * 0x1_0000
                              + At(buf.value, 1) * 0x100 + At(buf.value, 2), 4));
      } else {
        return Failure(UnsupportedPrefix);
      }
    }

    method ReadWord() returns (r: Result<Bytes, ReadError>)
      modifies this`incoming
      ensures match ReadWordSpec(old(incoming))
              case Ok(word, rest) => r == Success(word) && incoming == rest
              case Err(e, rest) => r == Failure(e) && incoming == rest
    {
      ghost var s := incoming;
      var length := ReadLength();
      if length.Failure? { return Failure(length.error); }
      var Length(n, w) := length.value;
      if n == 0 {
        assert s[w..w] == [];
        return Success([]);
      }
      r := ReadFull(n);
      assert w + n <= |s| ==> s[w..][..n] == s[w..w + n] && s[w..][n..] == s[w + n..];
    }

    method ReadSentence() returns (r: Result<Sentence, ReadError>)
      modifies this`incoming
      ensures match ReadSentenceSpec(old(incoming))
              case Ok(words, rest) => r == Success(words) && incoming == rest
              case Err(e, rest) => r == Failure(e) && incoming == rest
    {
      hide ReadWordSpec, ReadSentenceSpec;
      var sentence: Sentence := [];
      PrependPrepend([], [], ReadSentenceSpec(incoming));
      while true
        invariant ReadSentenceSpec(old(incoming)) == Prepend(sentence, ReadSentenceSpec(incoming))
        decreases |incoming|
      {
        ReadSentenceStep(incoming);
        var word := ReadWord();
        if word.Failure? { return Failure(word.error); }
        if word.value == [] {
          assert sentence + [] == sentence;
          return Success(sentence);
        }
        PrependPrepend(sentence, [word.value], ReadSentenceSpec(incoming));
        sentence := sentence + [word.value];
      }
    }

    /** Nothing is written when a word is too long; a write that fails may have written a part. */
    method SendSentence(words: Sentence, io: Io) returns (ok: bool)
      modifies this`outgoing
      ensures ok <==> io.Complete? && GoEncodeSentence(words).Some?
      ensures match GoEncodeSentence(words)
              case Some(bytes) => outgoing == old(outgoing) + Written(bytes, io)
              case None => outgoing == old(outgoing)
    {
      var buf: Bytes := [];
      var i := 0;
      assert words[0..] == words;
      assert match GoEncodeSentence(words) case Some(bytes) => buf + bytes == bytes case None => true;
      while i < |words|
        invariant 0 <= i <= |words|
        invariant outgoing == old(outgoing)
        invariant GoEncodeSentence(words) ==
                  match GoEncodeSentence(words[i..])
                  case Some(others) => Some(buf + others)
                  case None => None
      {
        hide GoEncodeWord;
        assert words[i..][1..] == words[i + 1..];
        var word := GoEncodeWord(words[i]);
        if word.None? { return false; }
        ghost var others := GoEncodeSentence(words[i + 1..]);
        assert others.Some? ==> buf + (word.value + others.value) == buf + word.value + others.value;
        buf := buf + word.value;
        i := i + 1;
      }
      buf := buf + [0];
      outgoing := outgoing + Written(buf, io);
      ok := io.Complete?;
    }

    /**
     `Execute`. `order` is the order in which this call iterates over `params`. When it has sent
     its sentence, the reply is read off the stream as `ReplySpec` says.
     */
    method Execute(command: Bytes, params: Attrs, order: seq<Bytes>, io: Io) returns (reply: Reply)
      requires Enumerates(order, params)
      modifies this`incoming, this`outgoing
      ensures var request := GoEncodeSentence([command] + AttrWords(order, params));
              if !connected then reply == NotConnected && incoming == old(incoming) && outgoing == old(outgoing)
              else if request.None? then
                reply == SendFailed && incoming == old(incoming) && outgoing == old(outgoing)
              else if io.Broken? then
                reply == SendFailed && incoming == old(incoming)
                && outgoing == old(outgoing) + Written(request.value, io)
              else (reply, incoming) == ReplySpec(old(incoming), []) && outgoing == old(outgoing) + request.value
    {
      if !connected { return NotConnected; }
      var sent := SendSentence([command] + AttrWords(order, params), io);
      if !sent { return SendFailed; }
      var results: seq<Attrs> := [];
      while true
        invariant outgoing == old(outgoing) + GoEncodeSentence([command] + AttrWords(order, params)).value
        invariant ReplySpec(old(incoming), []) == ReplySpec(incoming, results)
        decreases |incoming|
      {
        hide ReadSentenceSpec, Collect;
        var sentence := ReadSentence();
        if sentence.Failure? { return ReadFailed(sentence.error); }
        var words := sentence.value;
        if |words| == 0 { continue; }
        if words[0] == DONE {
          return Rows(results);
        } else if words[0] == RE {
          var row := ParseRow(words);
          results := results + [row];
        } else if words[0] == TRAP {
          return Trap(MessageOf(words));
        } else if words[0] == FATAL {
          return Fatal(MessageOf(words));
        }
      }
    }
  }

  // ---------- Against the TypeScript decoder ----------

  /** Reading a word is taking Go's next token. */
  lemma ReadWordIsToken(s: Bytes)
    ensures match GoToken(s)
            case Token(item, n) =>
              ReadWordSpec(s) == Ok(if item.End? then [] else item.data, s[n..]) && (item.Word? ==> item.data != [])
            case _ => ReadWordSpec(s).Err?
  {
    match GoDecodeLength(s)
    case Bad(_) =>
    case Got(Length(n, w)) =>
      assert n == 0 ==> s[w..w + n] == [];
  }

  /** Every token Go takes, TypeScript takes too; the converse fails only at a prefix of 0xF0 or more. */
  lemma GoTokenIsTsToken(s: Bytes)
    ensures GoToken(s).Token? ==> TsToken(s) == GoToken(s)
    ensures GoToken(s) == Refused <==> s != [] && s[0] >= 0xF0
    ensures GoToken(s).Starved? ==> TsToken(s).Starved?
  {
  }

  lemma {:induction false} ReadAllIsTokens(s: Bytes)
    ensures NonemptyOnly(ReadAllSpec(s)) == Sentences([], Tokenise(Go, s).items)
    decreases |s|
  {
    hide GoToken;
    ReadSentenceIsTokens([], s);
    match ReadSentenceSpec(s)
    case Err(_, _) =>
    case Ok(words, rest) =>
      assert [] + words == words;
      ReadAllIsTokens(rest);
      assert ReadAllSpec(s)[1..] == ReadAllSpec(rest);
  }

  lemma {:induction false} ReadSentenceIsTokens(current: Sentence, s: Bytes)
    ensures var later := Sentences(current, Tokenise(Go, s).items);
            match ReadSentenceSpec(s)
            case Ok(words, rest) =>
              later == (if current + words == [] then [] else [current + words])
                       + Sentences([], Tokenise(Go, rest).items)
            case Err(_, _) => later == []
    decreases |s|
  {
    hide GoToken, ReadWordSpec;
    ReadWordIsToken(s);
    match GoToken(s)
    case Token(item, n) =>
      TokeniseStep(Go, s, item, s[n..]);
      match item {
        case End =>
          assert current + [] == current;
        case Word(w) =>
          ReadSentenceIsTokens(current + [w], s[n..]);
          if ReadSentenceSpec(s[n..]).Ok? {
            var words := ReadSentenceSpec(s[n..]).value;
            assert current + [w] + words == current + ([w] + words);
          }
      }
    case _ =>
  }

  /** The first place where Go refuses a prefix, or the end of what TypeScript can tokenise. */
  lemma {:induction false} GoTokensArePrefix(s: Bytes)
    ensures Tokenise(Ts, s)
         == Before(Tokenise(Go, s).items, Tokenise(Ts, Tokenise(Go, s).rest))
    ensures GoToken(Tokenise(Go, s).rest) != Refused ==> Tokenise(Ts, s) == Tokenise(Go, s)
    decreases |s|
  {
    hide GoToken, TsToken;
    GoTokenIsTsToken(s);
    var t := GoToken(s);
    match t
    case Token(item, n) =>
      TokeniseStep(Go, s, item, s[n..]);
      TokeniseStep(Ts, s, item, s[n..]);
      GoTokensArePrefix(s[n..]);
      BeforeBefore([item], Tokenise(Go, s[n..]).items, Tokenise(Ts, Tokenise(Go, s).rest));
    case _ =>
      assert Before([], Tokenise(Ts, s)) == Tokenise(Ts, s);
  }

  /**
   On every byte stream the non-empty sentences Go reads before its first error come first among
   those TypeScript decodes, and they are all of them unless Go stopped at a prefix of 0xF0 or more.
   */
  lemma PullIsPrefixOfPush(s: Bytes)
    ensures NonemptyOnly(ReadAllSpec(s)) <= Decode(Ts, s).0
    ensures var stop := Tokenise(Go, s).rest;
            stop == [] || stop[0] < 0xF0 ==> NonemptyOnly(ReadAllSpec(s)) == Decode(Ts, s).0
  {
    hide GoToken, TsToken;
    ReadAllIsTokens(s);
    GoTokensArePrefix(s);
    GoTokenIsTsToken(Tokenise(Go, s).rest);
    SentencesConcat([], Tokenise(Go, s).items, Tokenise(Ts, Tokenise(Go, s).rest).items);
  }

  /** A word of 2^28 bytes or more: TypeScript writes and reads it, Go stops at its prefix. */
  lemma LongWordOnlyTs(w: Bytes)
    requires WIDE <= |w| < TWO_31
    ensures Decode(Ts, TsEncodeAll([[w]])) == ([[w]], [])
    ensures ReadAllSpec(TsEncodeAll([[w]])) == []
  {
    RoundTrip(Ts, [[w]]);
    var s := TsEncodeAll([[w]]);
    assert s[0] == 0xf0 by {
      assert TsEncodeAll([[w]]) == TsEncodeSentence([w]) + TsEncodeAll([[w]][1..]);
      assert TsEncodeSentence([w]) == TsEncodeWord(w) + TsEncodeSentence([w][1..]);
      assert TsEncodeWord(w)[0] == 0xf0;
    }
    assert GoDecodeLength(s) == Bad(UnsupportedPrefix);
  }

  /**
   What `Execute` writes, read by the other side's decoder and attribute parser: one sentence, whose
   first word is the command and whose attributes are the parameters, in whatever order they went out.
   */
  lemma RequestReadsBack(command: Bytes, params: Attrs, order: seq<Bytes>)
    requires Enumerates(order, params) && (forall k :: k in params ==> PlainKey(Ts, k))
    requires command != [] && command[0] != EQ
    ensures var words := [command] + AttrWords(order, params);
            match GoEncodeSentence(words)
            case Some(request) =>
              && Decode(Ts, request) == ([words], [])
              && words[0] == command && Collect(Ts, words) == params
            case None => exists w :: w in words && |w| >= WIDE
  {
    hide GoEncodeSentence, Decode, Collect, TsEncodeSentence;
    var words := [command] + AttrWords(order, params);
    SentenceInterop(words);
    if forall w :: w in words ==> |w| < WIDE {
      AttrWordsNonempty(order, params);
      RoundTrip(Ts, [words]);
      OneSentence(words);
      CollectSkipsHead(Ts, command, AttrWords(order, params));
      AttrsRoundTrip(Ts, order, params);
    }
  }

  lemma OneSentence(words: Sentence)
    ensures TsEncodeAll([words]) == TsEncodeSentence(words)
  {
    hide TsEncodeSentence;
    assert [words][1..] == [];
    assert TsEncodeSentence(words) + [] == TsEncodeSentence(words);
  }

  lemma {:induction false} AttrWordsNonempty(order: seq<Bytes>, params: Attrs)
    requires forall k :: k in order ==> k in params
    ensures [] !in AttrWords(order, params)
  {
    if order != [] { AttrWordsNonempty(order[..|order| - 1], params); }
  }

  /** A sentence's bytes without the one that ends it. */
  function EncodeWords(words: Sentence): Bytes {
    if words == [] then [] else TsEncodeWord(words[0]) + EncodeWords(words[1..])
  }

  lemma {:induction false} SentenceBytes(words: Sentence)
    ensures TsEncodeSentence(words) == EncodeWords(words) + [0]
  {
    hide TsEncodeWord;
    if words != [] {
      SentenceBytes(words[1..]);
      assert TsEncodeWord(words[0]) + (EncodeWords(words[1..]) + [0]) == EncodeWords(words) + [0];
    }
  }

  lemma {:induction false} EncodeWordsConcat(a: Sentence, b: Sentence)
    ensures EncodeWords(a + b) == EncodeWords(a) + EncodeWords(b)
    decreases |a|
  {
    hide TsEncodeWord;
    if a == [] {
      assert a + b == b;
    } else {
      assert (a + b)[1..] == a[1..] + b;
      EncodeWordsConcat(a[1..], b);
    }
  }

  /**
   What a broken send leaves behind: a request cut behind one of its words runs into the next
   request, and the router reads the two as one sentence.
   */
  lemma BrokenSendJoins(words: Sentence, k: nat, next: Sentence)
    requires 0 < k <= |words| && next != [] && Fits(Go, words) && Fits(Go, next)
    ensures GoEncodeSentence(words).Some? && GoEncodeSentence(next).Some?
    ensures var cut := Written(GoEncodeSentence(words).value, Broken(|EncodeWords(words[..k])|));
            Decode(Ts, cut + GoEncodeSentence(next).value) == ([words[..k] + next], [])
  {
    hide GoEncodeSentence, Decode, TsEncodeSentence, EncodeWords;
    SentenceInterop(words);
    SentenceInterop(next);
    var front, joined := EncodeWords(words[..k]), words[..k] + next;
    assert TsEncodeSentence(words) == front + (EncodeWords(words[k..]) + [0]) by {
      SentenceBytes(words);
      EncodeWordsConcat(words[..k], words[k..]);
      assert words[..k] + words[k..] == words;
    }
    assert front + TsEncodeSentence(next) == TsEncodeSentence(joined) by {
      SentenceBytes(next);
      SentenceBytes(joined);
      EncodeWordsConcat(words[..k], next);
    }
    assert Fits(Go, joined) by {
      assert forall w :: w in joined ==> w in words || w in next;
    }
    RoundTrip(Ts, [joined]);
    OneSentence(joined);
  }

  // ---------- Every cut ----------

  /** ASCII without NUL. */
  ghost predicate Ascii7(s: Bytes) {
    forall i :: 0 <= i < |s| ==> 0 < s[i] < 0x80
  }

  /** Words of at most 127 such bytes: their length bytes are of that kind too. */
  ghost predicate Short(words: Sentence) {
    forall w :: w in words ==> 0 < |w| < 0x80 && Ascii7(w)
  }

  lemma {:induction false} ShortBytes(words: Sentence)
    requires Short(words)
    ensures Ascii7(EncodeWords(words))
  {
    if words != [] {
      assert words[0] in words;
      ShortBytes(words[1..]);
    }
  }

  /** The first sentence to end starts with the words at hand. */
  lemma {:induction false} StartsWithHeld(current: Sentence, items: seq<Item>)
    ensures Sentences(current, items) != [] && current != [] ==> current <= Sentences(current, items)[0]
    decreases |items|
  {
    if items != [] && items[0].Word? {
      StartsWithHeld(current + [items[0].data], items[1..]);
    }
  }

  /** What the decoder does at such a byte. */
  lemma ShortToken(s: Bytes)
    requires s != [] && 0 < s[0] < 0x80
    ensures var n: int := s[0];
            TsToken(s) == if 1 + n > |s| then Starved else Token(Word(s[1..1 + n]), 1 + n)
  {
  }

  lemma ShortSentence(words: Sentence)
    requires words != [] && |words[0]| < 0x80
    ensures TsEncodeSentence(words) == [|words[0]|] + words[0] + TsEncodeSentence(words[1..])
  {
    hide TsEncodeSentence;
    assert TsEncodeWord(words[0]) == [|words[0]|] + words[0];
    SentenceCons(words);
  }

  lemma SentenceCons(words: Sentence)
    requires words != []
    ensures TsEncodeSentence(words) == TsEncodeWord(words[0]) + TsEncodeSentence(words[1..])
  {
  }

  /** The word read at the end of the words to come is one too many. */
  lemma ExtraWord(current: Sentence, w: Bytes, items: seq<Item>)
    ensures Sentences(current + [w], items) != [current]
  {
    StartsWithHeld(current + [w], items);
  }

  /** A word read that is not the next one to come spoils the sentence. */
  lemma OtherWord(current: Sentence, w: Bytes, words: Sentence, items: seq<Item>)
    requires words != [] && Sentences(current + [w], items) == [current + words]
    ensures words[0] == w && current + words == current + [w] + words[1..]
  {
    StartsWithHeld(current + [w], items);
    assert (current + words)[|current|] == words[0] && (current + [w])[|current|] == w;
  }

  ghost predicate ReadAs(s: Bytes, current: Sentence, sentence: Sentence) {
    Tokenise(Ts, s).rest == [] && Sentences(current, Tokenise(Ts, s).items) == [sentence]
  }

  lemma ReadAsStep(s: Bytes, current: Sentence, sentence: Sentence)
    requires s != [] && 0 < s[0] < 0x80 && ReadAs(s, current, sentence)
    ensures var n: int := s[0];
            && 1 + n <= |s|
            && ReadAs(s[1 + n..], current + [s[1..1 + n]], sentence)
  {
    ShortToken(s);
    hide TsToken;
    var n: int := s[0];
    if 1 + n <= |s| { TokeniseStep(Ts, s, Word(s[1..1 + n]), s[1 + n..]); }
  }

  /**
   A decoder that is some ASCII bytes behind the start of a word never catches up: it does not read
   the words to come and then the end.
   */
  lemma {:induction false} StaysBehind(current: Sentence, tail: Bytes, words: Sentence)
    requires tail != [] && Ascii7(tail) && Short(words)
    ensures !ReadAs(tail + TsEncodeSentence(words), current, current + words)
    decreases |words|
  {
    var s := tail + TsEncodeSentence(words);
    var n: int := tail[0];
    assert s[0] == tail[0];
    assert 0 < tail[0] < 0x80;
    assert words == [] ==> current + words == current;
    hide TsEncodeSentence, Tokenise, Sentences, Short, Ascii7;
    if ReadAs(s, current, current + words) {
      ReadAsStep(s, current, current + words);
      var w, rest := s[1..1 + n], s[1 + n..];
      if words == [] {
        ExtraWord(current, w, Tokenise(Ts, rest).items);
        assert false;
      } else {
        OtherWord(current, w, words, Tokenise(Ts, rest).items);
        hide ReadAs;
        NextTail(tail, words);
        StaysBehind(current + [w], (tail + ([tail[0]] + words[0]))[1 + n..], words[1..]);
        assert false;
      }
    }
  }

  /** As far behind as before, one word on. */
  lemma NextTail(tail: Bytes, words: Sentence)
    requires tail != [] && Ascii7(tail) && Short(words) && words != [] && |words[0]| == tail[0] as int
    ensures var skipped := 1 + tail[0] as int;
            var behind := (tail + ([tail[0]] + words[0]))[skipped..];
            && behind != [] && Ascii7(behind) && Short(words[1..])
            && (tail + TsEncodeSentence(words))[skipped..] == behind + TsEncodeSentence(words[1..])
  {
    assert words[0] in words;
    ShortSentence(words);
    hide TsEncodeSentence;
    var skipped := 1 + tail[0] as int;
    var known, rest := tail + ([tail[0]] + words[0]), TsEncodeSentence(words[1..]);
    assert tail + TsEncodeSentence(words) == known + rest;
    assert forall i :: 0 <= i < |known| ==> 0 < known[i] < 0x80;
  }

  /**
   Between requests of short ASCII words: wherever the write of one breaks off, short of its end, the
   next one is read as sent if and only if nothing of the broken one went out.
   */
  lemma BrokenSendReadable(words: Sentence, taken: nat, next: Sentence)
    requires Short(words) && Short(next) && next != [] && taken < |TsEncodeSentence(words)|
    ensures GoEncodeSentence(words) == Some(TsEncodeSentence(words))
    ensures Decode(Ts, Written(TsEncodeSentence(words), Broken(taken)) + TsEncodeSentence(next)) == ([next], [])
       <==> taken == 0
  {
    hide GoEncodeSentence, TsEncodeSentence, EncodeWords, Tokenise;
    SentenceInterop(words);
    SentenceBytes(words);
    ShortBytes(words);
    var cut := Written(TsEncodeSentence(words), Broken(taken));
    assert cut == EncodeWords(words)[..taken];
    if taken == 0 {
      assert cut + TsEncodeSentence(next) == TsEncodeSentence(next);
      assert Fits(Ts, next);
      RoundTrip(Ts, [next]);
      OneSentence(next);
    } else {
      StaysBehind([], cut, next);
      assert [] + next == next;
    }
  }

  /**
   With longer words a cut can do no harm: the first byte of the two-byte length of a word of 128 to
   255 bytes, alone, turns the next request's one-byte length into a two-byte form of the same length.
   */
  lemma LoneLengthByteHarmless(words: Sentence, next: Sentence)
    requires Fits(Go, words) && words != [] && 0x80 <= |words[0]| <= 0xff
    requires Fits(Go, next) && next != [] && |next[0]| < 0x80
    ensures GoEncodeSentence(words).Some?
    ensures Decode(Ts, Written(GoEncodeSentence(words).value, Broken(1)) + TsEncodeSentence(next)) == ([next], [])
  {
    SentenceInterop(words);
    LongFirstByte(words);
    hide GoEncodeSentence, TsEncodeSentence, Tokenise;
    assert Written(TsEncodeSentence(words), Broken(1)) == [0x80];
    LoneByteThen(next);
  }

  lemma LongFirstByte(words: Sentence)
    requires words != [] && 0x80 <= |words[0]| <= 0xff
    ensures |TsEncodeSentence(words)| > 1 && TsEncodeSentence(words)[0] == 0x80
  {
    hide TsEncodeSentence;
    SentenceCons(words);
    assert TsEncodeWord(words[0])[0] == 0x80;
  }

  lemma LoneByteThen(next: Sentence)
    requires Fits(Go, next) && next != [] && |next[0]| < 0x80
    ensures Decode(Ts, [0x80] + TsEncodeSentence(next)) == ([next], [])
  {
    LoneByteBytes(next);
    assert Fits(Ts, next) && next[0] in next;
    hide TsEncodeSentence, TsEncodeWord, Tokenise, Fits;
    LoneByteTokens(next[0], TsEncodeSentence(next[1..]));
    SentenceCons(next);
    OneSentence(next);
    RoundTrip(Ts, [next]);
  }

  lemma LoneByteBytes(next: Sentence)
    requires next != [] && |next[0]| < 0x80
    ensures [0x80] + TsEncodeSentence(next) == [0x80, |next[0]|] + next[0] + TsEncodeSentence(next[1..])
  {
    ShortSentence(next);
    hide TsEncodeSentence;
    assert [0x80] + ([|next[0]|] + next[0] + TsEncodeSentence(next[1..]))
        == [0x80, |next[0]|] + next[0] + TsEncodeSentence(next[1..]);
  }

  lemma LoneByteTokens(first: Bytes, rest: Bytes)
    requires 0 < |first| < 0x80
    ensures Tokenise(Ts, [0x80, |first|] + first + rest) == Tokenise(Ts, TsEncodeWord(first) + rest)
  {
    TwoByteToken(first, rest);
    hide Tokenise, TsEncodeWord, TsToken;
    var s := [0x80, |first|] + first + rest;
    assert s[2 + |first|..] == rest;
    TokeniseStep(Ts, s, Word(first), rest);
    TokeniseWord(Ts, first, rest);
  }

  lemma TwoByteToken(first: Bytes, rest: Bytes)
    requires 0 < |first| < 0x80
    ensures TsToken([0x80, |first|] + first + rest) == Token(Word(first), 2 + |first|)
  {
    var s := [0x80, |first|] + first + rest;
    assert s[2..2 + |first|] == first;
  }
}
