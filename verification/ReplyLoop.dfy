/** Which reply belongs to which call of `Execute`, when the calls are made one after the other. */
module ReplyLoop {
  import opened Wrappers
  import opened WireFormat
  import opened Attributes
  import opened PullClient

  lemma ReadEncodedWord(w: Bytes, tail: Bytes)
    requires |w| < WIDE
    ensures ReadWordSpec(TsEncodeWord(w) + tail) == Ok(w, tail)
  {
    hide GoToken, ReadWordSpec;
    WordRoundTrip(Go, w, tail);
    ReadWordIsToken(TsEncodeWord(w) + tail);
    assert NextToken(Go, TsEncodeWord(w) + tail) == GoToken(TsEncodeWord(w) + tail);
  }

  /** Reading a written sentence gives its words and stops right behind it. */
  lemma {:induction false} ReadEncodedSentence(words: Sentence, tail: Bytes)
    requires Fits(Go, words)
    ensures ReadSentenceSpec(TsEncodeSentence(words) + tail) == Ok(words, tail)
  {
    hide ReadWordSpec, ReadSentenceSpec;
    var s := TsEncodeSentence(words) + tail;
    ReadSentenceStep(s);
    if words == [] {
      assert TsEncodeSentence(words) == TsEncodeWord([]);
      ReadEncodedWord([], tail);
    } else {
      assert words[0] in words;
      assert s == TsEncodeWord(words[0]) + (TsEncodeSentence(words[1..]) + tail);
      ReadEncodedWord(words[0], TsEncodeSentence(words[1..]) + tail);
      ReadEncodedSentence(words[1..], tail);
      assert [words[0]] + words[1..] == words;
    }
  }

  // ---------- The reply grammar ----------

  predicate IsLast(sentence: Sentence) {
    sentence != [] && sentence[0] in {DONE, TRAP, FATAL}
  }

  /** What the router sends for one command: rows and other sentences, then one that ends the reply. */
  datatype Block = Block(body: seq<Sentence>, last: Sentence) {
    ghost predicate Valid() {
      && AllFit(Go, body) && Fits(Go, last)
      && IsLast(last)
      && forall s :: s in body ==> !IsLast(s)
    }

    function Encode(): Bytes {
      TsEncodeAll(body) + TsEncodeSentence(last)
    }

    /** The reply a call owes its caller for this block: its rows, or its error. */
    function Reply(): Reply {
      ReplyAfter(RowsOf(body))
    }

    function ReplyAfter(rows: seq<Attrs>): Reply {
      if last == [] || last[0] == DONE then Rows(rows)
      else if last[0] == TRAP then Trap(MessageOf(last))
      else Fatal(MessageOf(last))
    }
  }

  /** The attribute maps of the row sentences, in order. */
  function RowsOf(body: seq<Sentence>): seq<Attrs> {
    if body == [] then []
    else (if body[0] != [] && body[0][0] == RE then [Collect(Go, body[0][1..])] else []) + RowsOf(body[1..])
  }

  /** One turn of the reply loop, on a written sentence. */
  lemma ReplyStep(sentence: Sentence, tail: Bytes, rows: seq<Attrs>)
    requires Fits(Go, sentence)
    ensures var reply := ReplySpec(TsEncodeSentence(sentence) + tail, rows);
            if IsLast(sentence) then reply == (Block([], sentence).ReplyAfter(rows), tail)
            else reply == ReplySpec(tail, rows + RowsOf([sentence]))
  {
    hide ReadSentenceSpec, TsEncodeSentence, Collect, MessageOf;
    ReadEncodedSentence(sentence, tail);
    TagsDiffer();
    assert RowsOf([sentence]) == if sentence != [] && sentence[0] == RE then [Collect(Go, sentence[1..])] else [];
    assert rows + [] == rows;
  }

  lemma RowsOfCons(first: Sentence, others: seq<Sentence>, rows: seq<Attrs>)
    ensures rows + RowsOf([first]) + RowsOf(others) == rows + RowsOf([first] + others)
    ensures rows + RowsOf([]) == rows
  {
    hide Collect;
    assert RowsOf([first]) + RowsOf(others) == RowsOf([first] + others) by {
      assert [first][1..] == [] && ([first] + others)[1..] == others;
    }
  }

  lemma {:induction false} ReplyThroughBody(body: seq<Sentence>, tail: Bytes, rows: seq<Attrs>)
    requires AllFit(Go, body) && forall s :: s in body ==> !IsLast(s)
    ensures ReplySpec(TsEncodeAll(body) + tail, rows) == ReplySpec(tail, rows + RowsOf(body))
    decreases |body|
  {
    hide ReplySpec, TsEncodeSentence, RowsOf, IsLast;
    if body == [] {
      assert TsEncodeAll(body) + tail == tail;
      RowsOfCons([], [], rows);
    } else {
      var first, others := body[0], TsEncodeAll(body[1..]) + tail;
      assert first in body;
      assert TsEncodeAll(body) + tail == TsEncodeSentence(first) + others;
      ReplyStep(first, others, rows);
      ReplyThroughBody(body[1..], tail, rows + RowsOf([first]));
      assert [first] + body[1..] == body;
      RowsOfCons(first, body[1..], rows);
    }
  }

  /** A call whose unread stream starts with a block gets that block's reply and consumes just it. */
  lemma ReplyConsumesBlock(b: Block, tail: Bytes)
    requires b.Valid()
    ensures ReplySpec(b.Encode() + tail, []) == (b.Reply(), tail)
  {
    hide ReplySpec, TsEncodeSentence;
    var end := TsEncodeSentence(b.last) + tail;
    assert b.Encode() + tail == TsEncodeAll(b.body) + end;
    ReplyThroughBody(b.body, end, []);
    assert [] + RowsOf(b.body) == RowsOf(b.body);
    ReplyStep(b.last, tail, RowsOf(b.body));
  }

  /**
   The same with everything written out: a call whose stream starts with sentences none of which ends a
   reply, and then one that does, gets the rows for `!done` and the text of the error for `!trap` and
   `!fatal`, and leaves what follows.
   */
  lemma ReplyByTag(body: seq<Sentence>, last: Sentence, tail: Bytes)
    requires AllFit(Go, body) && Fits(Go, last) && last != []
    requires forall s :: s in body ==> s == [] || s[0] !in {Ascii("!done"), Ascii("!trap"), Ascii("!fatal")}
    ensures var got := ReplySpec(TsEncodeAll(body) + TsEncodeSentence(last) + tail, []);
            && (last[0] == Ascii("!done") ==> got == (Rows(RowsOf(body)), tail))
            && (last[0] == Ascii("!trap") ==> got == (Trap(MessageOf(last)), tail))
            && (last[0] == Ascii("!fatal") ==> got == (Fatal(MessageOf(last)), tail))
  {
    TagsDiffer();
    hide ReplySpec, TsEncodeSentence, TsEncodeAll, Ascii, RowsOf;
    if last[0] in {DONE, TRAP, FATAL} {
      ReplyConsumesBlock(Block(body, last), tail);
    }
  }

  /** A row as the router writes it: the tag, and one word for each attribute in some order. */
  datatype Row = Row(order: seq<Bytes>, attrs: Attrs) {
    ghost predicate Valid() {
      && Enumerates(order, attrs)
      && (forall k :: k in attrs ==> EQ !in k)
      && (forall k :: k in attrs ==> |k| + |attrs[k]| + 2 < WIDE)
    }

    ghost function Sentence(): Sentence
      requires Valid()
    {
      [Ascii("!re")] + AttrWords(order, attrs)
    }
  }

  ghost predicate AllValid(rows: seq<Row>) {
    forall r :: r in rows ==> r.Valid()
  }

  ghost function RowSentences(rows: seq<Row>): seq<Sentence>
    requires AllValid(rows)
  {
    if rows == [] then [] else [rows[0].Sentence()] + RowSentences(rows[1..])
  }

  function AttrsOf(rows: seq<Row>): seq<Attrs> {
    seq(|rows|, i requires 0 <= i < |rows| => rows[i].attrs)
  }

  lemma {:induction false} AttrWordsFit(order: seq<Bytes>, attrs: Attrs)
    requires forall k :: k in order ==> k in attrs && |k| + |attrs[k]| + 2 < WIDE
    ensures Fits(Go, AttrWords(order, attrs))
  {
    if order != [] { AttrWordsFit(order[..|order| - 1], attrs); }
  }

  lemma RowRead(row: Row)
    requires row.Valid()
    ensures Fits(Go, row.Sentence()) && !IsLast(row.Sentence())
    ensures RowsOf([row.Sentence()]) == [row.attrs]
  {
    TagsDiffer();
    AttrWordsFit(row.order, row.attrs);
    AttrsRoundTrip(Go, row.order, row.attrs);
    var s := row.Sentence();
    assert s[0] == RE && s[1..] == AttrWords(row.order, row.attrs) && |s[0]| == 3;
    assert forall w :: w in s ==> w == s[0] || w in s[1..];
    hide Collect, AttrWords;
    var one: seq<Sentence> := [s];
    assert one[1..] == [] && RowsOf(one) == [Collect(Go, s[1..])] + RowsOf([]);
  }

  lemma {:induction false} RowsRead(rows: seq<Row>)
    requires AllValid(rows)
    ensures AllFit(Go, RowSentences(rows)) && (forall s :: s in RowSentences(rows) ==> !IsLast(s))
    ensures RowsOf(RowSentences(rows)) == AttrsOf(rows)
  {
    hide RowsOf, IsLast, Fits, Row.Sentence, Row.Valid;
    if rows == [] {
      NoRows();
    } else {
      assert rows[0] in rows;
      RowRead(rows[0]);
      RowsRead(rows[1..]);
      RowsOfFirst(rows[0].Sentence(), RowSentences(rows[1..]));
    }
  }

  lemma NoRows()
    ensures RowsOf([]) == []
  {
  }

  lemma RowsOfFirst(first: Sentence, others: seq<Sentence>)
    ensures RowsOf([first] + others) == RowsOf([first]) + RowsOf(others)
  {
    hide RowsOf;
    RowsOfCons(first, others, []);
    assert [] + RowsOf([first]) + RowsOf(others) == RowsOf([first]) + RowsOf(others);
    assert [] + RowsOf([first] + others) == RowsOf([first] + others);
  }

  /**
   What the router sends is what the caller gets: rows written as `!re` sentences, attributes in any
   order, and then `!done`, come out of the call as the same attribute maps in the same order.
   */
  lemma RowsComeBack(rows: seq<Row>, tail: Bytes)
    requires AllValid(rows)
    ensures ReplySpec(TsEncodeAll(RowSentences(rows)) + TsEncodeSentence([Ascii("!done")]) + tail, [])
         == (Rows(AttrsOf(rows)), tail)
  {
    RowsRead(rows);
    TagsDiffer();
    var done: Sentence := [DONE];
    assert |DONE| == 5;
    assert Fits(Go, done) && IsLast(done);
    hide ReplySpec, TsEncodeSentence, TsEncodeAll, RowsOf, RowSentences, Fits, IsLast;
    var block := Block(RowSentences(rows), done);
    ReplyConsumesBlock(block, tail);
  }

  // ---------- When a call consumes just its reply ----------

  /** The sentences form one block: the only one that ends a reply is the last. */
  ghost predicate OneReply(group: seq<Sentence>) {
    && group != [] && IsLast(group[|group| - 1])
    && forall i :: 0 <= i < |group| - 1 ==> !IsLast(group[i])
  }

  lemma {:induction false} EncodeAllConcat(a: seq<Sentence>, b: seq<Sentence>)
    ensures TsEncodeAll(a + b) == TsEncodeAll(a) + TsEncodeAll(b)
    decreases |a|
  {
    hide TsEncodeSentence;
    if a == [] {
      assert a + b == b;
    } else {
      assert (a + b)[1..] == a[1..] + b;
      EncodeAllConcat(a[1..], b);
    }
  }

  lemma EncodeAllOne(sentence: Sentence)
    ensures TsEncodeAll([sentence]) == TsEncodeSentence(sentence)
    ensures |TsEncodeSentence(sentence)| > 0
  {
    OneSentence(sentence);
    SentenceBytes(sentence);
  }

  /** A call that gets a reply has read something. */
  lemma {:induction false} ReplyShrinks(s: Bytes, rows: seq<Attrs>)
    ensures !ReplySpec(s, rows).0.ReadFailed? ==> |ReplySpec(s, rows).1| < |s|
    decreases |s|
  {
    hide ReadSentenceSpec, Collect, MessageOf;
    match ReadSentenceSpec(s)
    case Err(_, _) =>
    case Ok(sentence, rest) =>
      ReplyShrinks(rest, rows);
      if sentence != [] { ReplyShrinks(rest, rows + [Collect(Go, sentence[1..])]); }
  }

  /** Up to the sentence that ends the reply, and no further. */
  lemma ReplyEndsAt(group: seq<Sentence>, k: nat, tail: Bytes)
    requires AllFit(Go, group) && k < |group| && IsLast(group[k]) && forall i :: 0 <= i < k ==> !IsLast(group[i])
    ensures ReplySpec(TsEncodeAll(group) + tail, [])
         == (Block(group[..k], group[k]).Reply(), TsEncodeAll(group[k + 1..]) + tail)
  {
    hide ReplySpec, TsEncodeAll, TsEncodeSentence, Block.Reply, Block.Valid;
    var b, rest := Block(group[..k], group[k]), TsEncodeAll(group[k + 1..]) + tail;
    FrontIsBlock(group, k);
    assert group == group[..k] + ([group[k]] + group[k + 1..]);
    EncodeAllConcat(group[..k], [group[k]] + group[k + 1..]);
    EncodeAllConcat([group[k]], group[k + 1..]);
    EncodeAllOne(group[k]);
    assert TsEncodeAll(group) + tail == b.Encode() + rest;
    ReplyConsumesBlock(b, rest);
  }

  lemma FrontIsBlock(group: seq<Sentence>, k: nat)
    requires AllFit(Go, group) && k < |group| && IsLast(group[k]) && forall i :: 0 <= i < k ==> !IsLast(group[i])
    ensures Block(group[..k], group[k]).Valid()
  {
    hide IsLast, Fits;
    assert group[k] in group;
    forall s | s in group[..k] ensures Fits(Go, s) && !IsLast(s) {
      var i :| 0 <= i < k && group[..k][i] == s;
      assert group[i] == s && s in group;
    }
  }

  lemma FirstLast(group: seq<Sentence>, j: nat) returns (k: nat)
    requires j < |group| && IsLast(group[j])
    ensures k <= j && IsLast(group[k]) && forall i :: 0 <= i < k ==> !IsLast(group[i])
  {
    k := 0;
    while !IsLast(group[k])
      invariant k <= j && forall i :: 0 <= i < k ==> !IsLast(group[i])
      decreases j - k
    {
      k := k + 1;
    }
  }

  /**
   A call answers from exactly the sentences the router wrote for it, without a read error, if and
   only if one of them ends a reply and that is the last one. Whatever is written behind them.
   */
  lemma ReplyConsumesExactly(group: seq<Sentence>, tail: Bytes)
    requires AllFit(Go, group)
    ensures var (reply, rest) := ReplySpec(TsEncodeAll(group) + tail, []);
            !reply.ReadFailed? && rest == tail <==> OneReply(group)
  {
    hide ReplySpec, TsEncodeAll, TsEncodeSentence, Block.Reply, RowsOf;
    if exists j :: 0 <= j < |group| && IsLast(group[j]) {
      var j :| 0 <= j < |group| && IsLast(group[j]);
      var k := FirstLast(group, j);
      ReplyEndsAt(group, k, tail);
      NotReadFailed(Block(group[..k], group[k]));
      if k + 1 < |group| {
        assert group[k + 1..] == [group[k + 1]] + group[k + 2..];
        EncodeAllConcat([group[k + 1]], group[k + 2..]);
        EncodeAllOne(group[k + 1]);
        assert !OneReply(group);
      } else {
        assert TsEncodeAll(group[k + 1..]) == [] by { EncodeAllNone(); }
        assert [] + tail == tail;
      }
    } else {
      ReplyThroughBody(group, tail, []);
      ReplyShrinks(tail, [] + RowsOf(group));
    }
  }

  lemma EncodeAllNone()
    ensures TsEncodeAll([]) == []
  {
  }

  lemma NotReadFailed(b: Block)
    ensures !b.Reply().ReadFailed?
  {
  }

  /** The stream the router writes for the calls from the i-th on. */
  function From(groups: seq<seq<Sentence>>, i: nat, tail: Bytes): Bytes
    requires i <= |groups|
    decreases |groups| - i
  {
    if i == |groups| then tail else TsEncodeAll(groups[i]) + From(groups, i + 1, tail)
  }

  /** The i-th call starts where its group does, gets an answer, and stops where the group ends. */
  ghost predicate InStep(groups: seq<seq<Sentence>>, i: nat, tail: Bytes)
    requires i < |groups|
  {
    var (reply, rest) := ReplySpec(From(groups, i, tail), []);
    !reply.ReadFailed? && rest == From(groups, i + 1, tail)
  }

  /** So calls and replies stay in step through a whole conversation exactly when every reply is one block. */
  lemma InStepExactly(groups: seq<seq<Sentence>>, tail: Bytes)
    requires forall g :: g in groups ==> AllFit(Go, g)
    ensures (forall i :: 0 <= i < |groups| ==> InStep(groups, i, tail))
            <==> forall i :: 0 <= i < |groups| ==> OneReply(groups[i])
  {
    hide InStep, OneReply;
    forall i | 0 <= i < |groups| ensures InStep(groups, i, tail) <==> OneReply(groups[i]) {
      CallInStep(groups, i, tail);
    }
  }

  lemma CallInStep(groups: seq<seq<Sentence>>, i: nat, tail: Bytes)
    requires i < |groups| && AllFit(Go, groups[i])
    ensures InStep(groups, i, tail) <==> OneReply(groups[i])
  {
    hide ReplySpec, OneReply;
    ReplyConsumesExactly(groups[i], From(groups, i + 1, tail));
  }

  // ---------- Calls in turn ----------

  function EncodeBlocks(blocks: seq<Block>): Bytes {
    if blocks == [] then [] else blocks[0].Encode() + EncodeBlocks(blocks[1..])
  }

  /** One call of `Execute`: its iteration order over `params`, and how the write of its request goes. */
  datatype Call = Call(command: Bytes, params: Attrs, order: seq<Bytes>, io: Io) {
    function Request(): Option<Bytes>
      requires forall k :: k in order ==> k in params
    {
      GoEncodeSentence([command] + AttrWords(order, params))
    }

    /** The request goes out: it can be encoded and is written. */
    predicate Sent()
      requires forall k :: k in order ==> k in params
    {
      io.Complete? && Request().Some?
    }
  }

  ghost predicate Callable(calls: seq<Call>) {
    forall c :: c in calls ==> Enumerates(c.order, c.params)
  }

  /** The replies to calls made in turn over one stream. A call that is not sent reads nothing. */
  ghost function Replies(s: Bytes, calls: seq<Call>): (r: (seq<Reply>, Bytes))
    requires Callable(calls)
    ensures |r.0| == |calls|
    decreases |calls|
  {
    if calls == [] then ([], s) else
      var (reply, rest) := if calls[0].Sent() then ReplySpec(s, []) else (SendFailed, s);
      var (others, rest') := Replies(rest, calls[1..]);
      ([reply] + others, rest')
  }

  ghost function SentCount(calls: seq<Call>): nat
    requires Callable(calls)
    decreases |calls|
  {
    if calls == [] then 0 else (if calls[0].Sent() then 1 else 0) + SentCount(calls[1..])
  }

  /** Each call sent owes its caller the next block's reply, and each other one an error. */
  ghost function Owed(blocks: seq<Block>, calls: seq<Call>): seq<Reply>
    requires Callable(calls) && SentCount(calls) == |blocks|
    decreases |calls|
  {
    if calls == [] then []
    else if !calls[0].Sent() then [SendFailed] + Owed(blocks, calls[1..])
    else [blocks[0].Reply()] + Owed(blocks[1..], calls[1..])
  }

  /** The i-th call that is sent gets exactly the i-th block, whatever sends fail in between. */
  lemma {:induction false} RepliesPair(blocks: seq<Block>, calls: seq<Call>, tail: Bytes)
    requires Callable(calls) && SentCount(calls) == |blocks|
    requires forall b :: b in blocks ==> b.Valid()
    ensures Replies(EncodeBlocks(blocks) + tail, calls) == (Owed(blocks, calls), tail)
    decreases |calls|
  {
    hide ReplySpec, Call.Sent, Block.Encode, Block.Reply, Block.Valid;
    if calls == [] {
      assert EncodeBlocks(blocks) + tail == tail;
    } else if calls[0].Sent() {
      var others := EncodeBlocks(blocks[1..]) + tail;
      assert EncodeBlocks(blocks) + tail == blocks[0].Encode() + others;
      ReplyConsumesBlock(blocks[0], others);
      RepliesPair(blocks[1..], calls[1..], tail);
    } else {
      RepliesPair(blocks, calls[1..], tail);
    }
  }

  /**
   A router that ends a failed command with `!trap` and then `!done` is outside that grammar:
   the left-over `!done` answers the next call, which sees success with no rows.
   */
  lemma DoneAfterTrapAnswersNextCall(trap: Sentence, first: Call, second: Call, tail: Bytes)
    requires trap != [] && trap[0] == TRAP && Fits(Go, trap)
    requires Callable([first, second]) && first.Sent() && second.Sent()
    ensures Replies(TsEncodeSentence(trap) + TsEncodeSentence([DONE]) + tail, [first, second])
         == ([Trap(MessageOf(trap)), Rows([])], tail)
  {
    hide ReplySpec, TsEncodeSentence, Call.Sent;
    TagsDiffer();
    var unread := TsEncodeSentence([DONE]) + tail;
    assert TsEncodeSentence(trap) + TsEncodeSentence([DONE]) + tail == TsEncodeSentence(trap) + unread;
    ReplyStep(trap, unread, []);
    ReplyStep([DONE], tail, []);
    assert [first, second][1..] == [second];
    RepliesOnce(unread, second);
    assert [Trap(MessageOf(trap))] + [Rows([])] == [Trap(MessageOf(trap)), Rows([])];
  }

  /** The calls one after the other over one client; nothing else reads from the connection. */
  method ExecuteInTurn(client: Client, calls: seq<Call>) returns (replies: seq<Reply>)
    requires client.connected && Callable(calls)
    modifies client
    ensures client.connected
    ensures (replies, client.incoming) == Replies(old(client.incoming), calls)
  {
    hide ReplySpec, GoEncodeSentence, Replies;
    replies := [];
    assert Replies(client.incoming, []) == ([], client.incoming) by { RepliesNone(client.incoming); }
    assert calls[..0] == [];
    for i := 0 to |calls|
      invariant client.connected
      invariant var (before, rest) := Replies(old(client.incoming), calls[..i]);
                before == replies && rest == client.incoming
    {
      var c := calls[i];
      var reply := client.Execute(c.command, c.params, c.order, c.io);
      RepliesSnoc(old(client.incoming), calls[..i], c);
      assert calls[..i + 1] == calls[..i] + [c];
      replies := replies + [reply];
    }
    assert calls[..|calls|] == calls;
  }

  lemma RepliesNone(s: Bytes)
    ensures Replies(s, []) == ([], s)
  {
  }

  ghost function ReplyTo(s: Bytes, c: Call): (Reply, Bytes)
    requires Enumerates(c.order, c.params)
  {
    if c.Sent() then ReplySpec(s, []) else (SendFailed, s)
  }

  lemma RepliesOnce(s: Bytes, c: Call)
    requires Enumerates(c.order, c.params)
    ensures Replies(s, [c]) == ([ReplyTo(s, c).0], ReplyTo(s, c).1)
  {
    hide ReplySpec, Call.Sent;
    var reply := ReplyTo(s, c).0;
    assert [c][1..] == [] && [reply] + [] == [reply];
  }

  lemma {:induction false} RepliesSnoc(s: Bytes, calls: seq<Call>, c: Call)
    requires Callable(calls + [c])
    ensures Callable(calls) && Enumerates(c.order, c.params)
    ensures var before := Replies(s, calls);
            var last := ReplyTo(before.1, c);
            Replies(s, calls + [c]) == (before.0 + [last.0], last.1)
    decreases |calls|
  {
    hide ReplySpec, Call.Sent, Enumerates;
    assert (calls + [c])[|calls|] == c;
    forall d | d in calls ensures d in calls + [c] {}
    if calls == [] {
      RepliesOnce(s, c);
      assert calls + [c] == [c];
      var only := ReplyTo(s, c).0;
      assert [] + [only] == [only];
    } else {
      var (reply, rest) := ReplyTo(s, calls[0]);
      assert (calls + [c])[1..] == calls[1..] + [c];
      RepliesSnoc(rest, calls[1..], c);
      var before := Replies(rest, calls[1..]);
      var last := ReplyTo(before.1, c);
      assert [reply] + (before.0 + [last.0]) == [reply] + before.0 + [last.0];
    }
  }
}
