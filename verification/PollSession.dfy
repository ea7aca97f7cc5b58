/** The polling session of the API server: login, system resource, interfaces, over one socket. */
module PollSession {
  import opened Wrappers
  import opened Sequences
  import opened WireFormat
  import opened Attributes
  import opened PushDecoder
  import Uptime

  datatype Phase = Login | Resource | Interface

  datatype Request = LoginRequest | ResourcePrint | InterfacePrint

  /** What `parseInt` yields. */
  datatype Number = NaN | Int(value: int)

  /** One entry of `result.interfaces`. */
  datatype Iface = Iface(name: Bytes, rxBytes: Number, txBytes: Number, running: bool)

  /** What a resource row says about the router; `None` stands for `undefined`. */
  datatype Router = Router(
    rosVersion: Option<Bytes>, boardName: Option<Bytes>, model: Option<Bytes>,
    cpuLoad: Option<Number>, freeMemory: Option<Number>, totalMemory: Option<Number>, uptime: Option<nat>)

  const UNKNOWN: Router := Router(None, None, None, None, None, None, None)

  datatype Metrics = Metrics(success: bool, router: Router, interfaces: seq<Iface>)

  datatype Outcome = LoginFailed | TimedOut | SocketError(message: Bytes) | Finished(metrics: Metrics)

  datatype State = State(
    phase: Phase,
    result: Metrics,
    written: seq<Request>,
    outcome: Option<Outcome>)  // set by the first `resolve`

  /** As the connection opens: the login request is out. */
  const INIT: State := State(Login, Metrics(false, UNKNOWN, []), [LoginRequest], None)

  const NAME: Bytes := Ascii("name")
  const RX: Bytes := Ascii("rx-byte")
  const TX: Bytes := Ascii("tx-byte")
  const RUNNING: Bytes := Ascii("running")
  const TRUE: Bytes := Ascii("true")
  const MIKROTIK: Bytes := Ascii("MikroTik")

  /** `attrs[key]`, the empty text standing for a missing key: both are falsy. */
  function Get(attrs: Attrs, key: Bytes): Bytes {
    if key in attrs then attrs[key] else []
  }

  function Find(attrs: Attrs, key: string): Option<Bytes> {
    if Ascii(key) in attrs then Some(attrs[Ascii(key)]) else None
  }

  function AsText(s: Bytes): string {
    seq(|s|, i requires 0 <= i < |s| => s[i] as char)
  }

  predicate IsBlank(c: char) {
    c == ' ' || '\t' <= c <= '\r'
  }

  function SkipBlanks(s: string): string {
    if s != "" && IsBlank(s[0]) then SkipBlanks(s[1..]) else s
  }

  /** `parseInt(s, 10)`: blanks, a sign, and as many digits as there are. */
  function ParseInt(s: string): Number {
    var t := SkipBlanks(s);
    var signed := t != "" && t[0] in {'-', '+'};
    var digits := if signed then t[1..] else t;
    var n := Uptime.DigitRun(digits);
    if n == 0 then NaN
    else
      var value: int := Uptime.Value(0, digits[..n]);
      Int(if signed && t[0] == '-' then -value else value)
  }

  /** A number printed in decimal reads back, whatever that is not a digit comes behind it. */
  lemma PrintedNumberReads(n: nat, rest: string)
    requires rest == "" || !Uptime.IsDigit(rest[0])
    ensures ParseInt(Uptime.Decimal(n) + rest) == Int(n)
    ensures ParseInt("-" + (Uptime.Decimal(n) + rest)) == Int(-1 * n)
    ensures ParseInt("+" + (Uptime.Decimal(n) + rest)) == Int(n)
    ensures ParseInt(rest) == NaN || rest[0] in {'-', '+'} || IsBlank(rest[0])
  {
    hide Uptime.Decimal;
    var digits := Uptime.Decimal(n);
    var s := digits + rest;
    Uptime.DigitRunExact(digits, rest);
    Uptime.ValueOfDecimal(0, n);
    assert s[..|digits|] == digits && Uptime.IsDigit(s[0]);
    assert ("-" + s)[1..] == s && ("+" + s)[1..] == s;
  }

  /** A blank in front makes no difference; anything else that is no digit and no sign makes it no number. */
  lemma BlankInFront(c: char, s: string)
    ensures c in {' ', '\t', '\n', '\r', '\U{B}', '\U{C}'} ==> ParseInt([c] + s) == ParseInt(s)
    ensures c !in {' ', '\t', '\n', '\r', '\U{B}', '\U{C}', '-', '+'} && !('0' <= c <= '9') ==> ParseInt([c] + s) == NaN
  {
    assert ([c] + s)[1..] == s;
  }

  function NumberOf(attrs: Attrs, key: string): Option<Number> {
    var text := Get(attrs, Ascii(key));
    if text == [] then None else Some(ParseInt(AsText(text)))
  }

  function CounterOf(attrs: Attrs, key: Bytes): Number {
    var text := Get(attrs, key);
    ParseInt(if text == [] then "0" else AsText(text))
  }

  function IfaceOf(attrs: Attrs): Iface {
    Iface(Get(attrs, NAME), CounterOf(attrs, RX), CounterOf(attrs, TX), Get(attrs, RUNNING) == TRUE)
  }

  function RouterOf(attrs: Attrs): Router {
    var platform := Get(attrs, Ascii("platform"));
    Router(Find(attrs, "version"), Find(attrs, "board-name"), Some(if platform != [] then platform else MIKROTIK),
           NumberOf(attrs, "cpu-load"), NumberOf(attrs, "free-memory"), NumberOf(attrs, "total-memory"),
           Uptime.TsTotal(AsText(Get(attrs, Ascii("uptime")))))
  }

  /** One sentence through the body of the handler's loop; nothing happens once resolved. */
  function OnSentence(st: State, words: Sentence): State
    requires words != []
  {
    var tag := words[0];
    if st.outcome.Some? then st
    else match st.phase
      case Login =>
        if tag == TRAP || tag == FATAL then st.(outcome := Some(LoginFailed))
        else if tag == DONE then st.(phase := Resource, written := st.written + [ResourcePrint])
        else st
      case Resource =>
        if tag == RE then st.(result := st.result.(success := true, router := RouterOf(Collect(Ts, words))))
        else if tag == DONE then st.(phase := Interface, written := st.written + [InterfacePrint])
        else st
      case Interface =>
        if tag == RE then
          var attrs := Collect(Ts, words);
          if Get(attrs, NAME) != [] then
            st.(result := st.result.(interfaces := st.result.interfaces + [IfaceOf(attrs)]))
          else st
        else if tag == DONE then st.(outcome := Some(Finished(st.result)))
        else st
  }

  function OnSentences(st: State, sentences: seq<Sentence>): State
    requires [] !in sentences
    decreases |sentences|
  {
    if sentences == [] then st else OnSentences(OnSentence(st, sentences[0]), sentences[1..])
  }

  /** The timer or a socket error: resolves unless something already did. */
  function Interrupt(st: State, why: Outcome): State {
    if st.outcome.Some? then st else st.(outcome := Some(why))
  }

  // ---------- The handler ----------

  class Session {
    var buf: Bytes
    var phase: Phase
    var result: Metrics
    var written: seq<Request>
    var outcome: Option<Outcome>

    function Snapshot(): State
      reads this
    {
      State(phase, result, written, outcome)
    }

    constructor ()
      ensures buf == [] && Snapshot() == INIT
    {
      buf := [];
      phase, result, written, outcome := Login, Metrics(false, UNKNOWN, []), [LoginRequest], None;
    }

    method Handle(words: Sentence)
      requires words != [] && outcome.None?
      modifies this`phase, this`result, this`written, this`outcome
      ensures Snapshot() == OnSentence(old(Snapshot()), words)
      ensures old(phase) == Login && words[0] in {Ascii("!trap"), Ascii("!fatal")} ==>
        outcome == Some(LoginFailed) && phase == Login && written == old(written) && result == old(result)
      ensures old(phase) == Login && words[0] == Ascii("!done") ==>
        outcome == None && phase == Resource && written == old(written) + [ResourcePrint] && result == old(result)
      ensures old(phase) == Resource && words[0] == Ascii("!re") ==>
        outcome == None && phase == Resource && written == old(written)
        && result.success && result.interfaces == old(result).interfaces
      ensures old(phase) == Resource && words[0] == Ascii("!done") ==>
        outcome == None && phase == Interface && written == old(written) + [InterfacePrint] && result == old(result)
      ensures old(phase) == Interface && words[0] == Ascii("!re") ==>
        outcome == None && phase == Interface && written == old(written)
        && result.success == old(result).success && result.router == old(result).router
      ensures old(phase) == Interface && words[0] == Ascii("!done") ==>
        outcome == Some(Finished(old(result))) && written == old(written) && result == old(result)
      ensures words[0] !in {Ascii("!done"), Ascii("!re"), Ascii("!trap"), Ascii("!fatal")} ==>
        Snapshot() == old(Snapshot())
    {
      TagsDiffer();
      var tag := words[0];
      if phase == Login {
        if tag == TRAP || tag == FATAL {
          outcome := Some(LoginFailed);
          return;
        }
        if tag == DONE {
          phase := Resource;
          written := written + [ResourcePrint];
          return;
        }
      }
      if phase == Resource {
        if tag == RE {
          var attrs := WordsToAttrs(words);
          result := result.(success := true, router := RouterOf(attrs));
        }
        if tag == DONE {
          phase := Interface;
          written := written + [InterfacePrint];
          return;
        }
      }
      if phase == Interface {
        if tag == RE {
          var attrs := WordsToAttrs(words);
          if Get(attrs, NAME) != [] {
            result := result.(interfaces := result.interfaces + [IfaceOf(attrs)]);
          }
        }
        if tag == DONE {
          outcome := Some(Finished(result));
          return;
        }
      }
    }

    /** The 'data' event. After `socket.destroy()` none arrives any more. */
    method OnData(chunk: Bytes)
      requires outcome.None?
      modifies this
      ensures Handled(old(buf), chunk)
      ensures Snapshot() == OnSentences(old(Snapshot()), Decode(Ts, old(buf) + chunk).0)
      ensures buf == Decode(Ts, old(buf) + chunk).1
    {
      Handleable(buf, chunk);
      var sentences, remaining, refused := DecodeWords(buf + chunk);
      buf := remaining;
      ghost var st := Snapshot();
      var i := 0;
      while i < |sentences|
        invariant 0 <= i <= |sentences|
        invariant buf == remaining && outcome.None?
        invariant OnSentences(st, sentences) == OnSentences(Snapshot(), sentences[i..])
      {
        assert sentences[i..][1..] == sentences[i + 1..];
        Handle(sentences[i]);
        i := i + 1;
        if outcome.Some? {
          ResolvedStays(Snapshot(), sentences[i..]);
          return;
        }
      }
    }

    method OnTimeout()
      modifies this`outcome
      ensures Snapshot() == Interrupt(old(Snapshot()), TimedOut)
      ensures outcome == if old(outcome).None? then Some(TimedOut) else old(outcome)
    {
      if outcome.None? { outcome := Some(TimedOut); }
    }

    method OnError(message: Bytes)
      modifies this`outcome
      ensures Snapshot() == Interrupt(old(Snapshot()), SocketError(message))
      ensures outcome == if old(outcome).None? then Some(SocketError(message)) else old(outcome)
    {
      if outcome.None? { outcome := Some(SocketError(message)); }
    }
  }

  /** Decoded sentences always have a tag to look at. */
  ghost predicate Handled(buf: Bytes, chunk: Bytes) {
    [] !in Decode(Ts, buf + chunk).0
  }

  lemma Handleable(buf: Bytes, chunk: Bytes)
    ensures Handled(buf, chunk)
  {
    TokenisedWordsNonempty(Ts, buf + chunk);
    SentencesNonempty([], Tokenise(Ts, buf + chunk).items);
  }

  // ---------- Every run ----------

  function Rank(phase: Phase): nat {
    match phase case Login => 0 case Resource => 1 case Interface => 2
  }

  const REQUESTS: seq<Request> := [LoginRequest, ResourcePrint, InterfacePrint]

  /** The requests written are those of the phases entered, in order. */
  ghost predicate Sound(st: State) {
    && st.written == REQUESTS[..Rank(st.phase) + 1]
    && (st.outcome.Some? && st.outcome.value.Finished? ==>
          st.phase == Interface && st.outcome.value.metrics == st.result)
  }

  /** `to` can come after `from`: no phase is left backwards and a resolution is final. */
  ghost predicate Later(from: State, to: State) {
    && Rank(from.phase) <= Rank(to.phase)
    && from.written <= to.written
    && (from.outcome.Some? ==> to == from)
  }

  datatype Event = Arrived(sentences: seq<Sentence>) | Interrupted(why: Outcome)

  ghost predicate PossibleEvent(e: Event) {
    match e
    case Arrived(ss) => [] !in ss
    case Interrupted(why) => !why.Finished?
  }

  ghost predicate Possible(events: seq<Event>) {
    forall i :: 0 <= i < |events| ==> PossibleEvent(events[i])
  }

  ghost function Next(st: State, e: Event): State
    requires PossibleEvent(e)
  {
    match e
    case Arrived(ss) => OnSentences(st, ss)
    case Interrupted(why) => Interrupt(st, why)
  }

  ghost function Run(st: State, events: seq<Event>): State
    requires Possible(events)
    decreases |events|
  {
    if events == [] then st else Run(Next(st, events[0]), events[1..])
  }

  lemma StepSound(st: State, words: Sentence)
    requires words != [] && Sound(st)
    ensures Sound(OnSentence(st, words)) && Later(st, OnSentence(st, words))
  {
  }

  lemma {:induction false} SentencesSound(st: State, sentences: seq<Sentence>)
    requires [] !in sentences && Sound(st)
    ensures Sound(OnSentences(st, sentences)) && Later(st, OnSentences(st, sentences))
    decreases |sentences|
  {
    if sentences != [] {
      hide OnSentence, Sound;
      StepSound(st, sentences[0]);
      SentencesSound(OnSentence(st, sentences[0]), sentences[1..]);
    }
  }

  /**
   Whatever the router sends and whenever the timer or an error strikes: phases only advance,
   the requests written are a prefix of login, resource, interface, and the first resolution
   is the only one to take effect.
   */
  lemma {:induction false} RunSound(st: State, events: seq<Event>)
    requires Possible(events) && Sound(st)
    ensures Sound(Run(st, events)) && Later(st, Run(st, events))
    decreases |events|
  {
    if events != [] {
      hide OnSentences, Sound;
      match events[0] {
        case Arrived(ss) => SentencesSound(st, ss);
        case Interrupted(why) => InterruptSound(st, why);
      }
      RunSound(Next(st, events[0]), events[1..]);
    }
  }

  lemma InterruptSound(st: State, why: Outcome)
    requires Sound(st) && !why.Finished?
    ensures Sound(Interrupt(st, why)) && Later(st, Interrupt(st, why))
  {
  }

  /** From the opening of the connection: at any point of a session, and at any later one. */
  lemma EverySession(before: seq<Event>, after: seq<Event>)
    requires Possible(before) && Possible(after)
    ensures var st, later := Run(INIT, before), Run(Run(INIT, before), after);
            && st.written <= later.written <= [LoginRequest, ResourcePrint, InterfacePrint]
            && Rank(st.phase) <= Rank(later.phase)
            && (st.outcome.Some? ==> later.outcome == st.outcome)
  {
    hide Run;
    assert Sound(INIT) by { assert REQUESTS[..1] == [LoginRequest]; }
    RunSound(INIT, before);
    RunSound(Run(INIT, before), after);
  }

  lemma {:induction false} ResolvedStays(st: State, sentences: seq<Sentence>)
    requires st.outcome.Some? && [] !in sentences
    ensures OnSentences(st, sentences) == st
    decreases |sentences|
  {
    if sentences != [] {
      ResolvedStays(st, sentences[1..]);
    }
  }

  // ---------- What the requests are ----------

  /** The three requests, as sentences. */
  function Requests(username: Bytes, password: Bytes): seq<Sentence> {
    [[Ascii("/login"), Ascii("=name=") + username, Ascii("=password=") + password],
     [Ascii("/system/resource/print")],
     [Ascii("/interface/print")]]
  }

  /** Written one behind the other they read back, and the first carries the credentials as they are. */
  lemma RequestsRead(username: Bytes, password: Bytes)
    requires |username| < WIDE - 10 && |password| < WIDE - 10
    ensures Decode(Ts, TsEncodeAll(Requests(username, password))) == (Requests(username, password), [])
    ensures Collect(Ts, Requests(username, password)[0])
         == map[Ascii("name") := username, Ascii("password") := password]
  {
    var requests := Requests(username, password);
    forall s, w | s in requests && w in s ensures 0 < |w| < TWO_31 {
      assert s == requests[0] || s == requests[1] || s == requests[2];
      assert |Ascii("/login")| == 6 && |Ascii("=name=")| == 6 && |Ascii("=password=")| == 10;
      assert |Ascii("/system/resource/print")| == 22 && |Ascii("/interface/print")| == 16;
    }
    assert Canonical(requests);
    RoundTrip(Ts, requests);
    CredentialsCollected(username, password);
  }

  lemma CredentialsCollected(username: Bytes, password: Bytes)
    ensures Collect(Ts, [Ascii("/login"), Ascii("=name=") + username, Ascii("=password=") + password])
         == map[Ascii("name") := username, Ascii("password") := password]
  {
    var login, name, pass := Ascii("/login"), Ascii("=name=") + username, Ascii("=password=") + password;
    assert name == AttrWord(Ascii("name"), username) by { AsciiKey("name", username); }
    assert pass == AttrWord(Ascii("password"), password) by { AsciiKey("password", password); }
    assert login[0] == 0x2f;
    assert Ascii("name") != [] && EQ !in Ascii("name") && Ascii("password") != [] && EQ !in Ascii("password");
    PutPlain(Ts, map[], Ascii("name"), username);
    PutPlain(Ts, map[Ascii("name") := username], Ascii("password"), password);
    hide Put, AttrWord, Ascii;
    CollectSkipsHead(Ts, login, [name, pass]);
    assert [login] + [name, pass] == [login, name, pass];
    var two: Sentence := [name, pass];
    var one: Sentence := [name];
    assert two[..1] == one && one[..0] == [];
    assert Collect(Ts, []) == map[];
    assert Collect(Ts, [name]) == Put(Ts, map[], name);
  }

  lemma AsciiKey(key: string, value: Bytes)
    ensures Ascii("=" + key + "=") + value == AttrWord(Ascii(key), value)
    ensures Ascii("=" + key + "=") == [EQ] + Ascii(key) + [EQ]
  {
  }

  // ---------- What a row says ----------

  /** A key as the router writes them: ASCII, and no '='. */
  ghost predicate PlainText(key: string) {
    key != "" && forall i :: 0 <= i < |key| ==> key[i] != '=' && key[i] < 128 as char
  }

  /** The keys of interface rows, and of resource rows. */
  lemma RowKeysPlain()
    ensures PlainText("name") && PlainText("rx-byte") && PlainText("tx-byte") && PlainText("running")
    ensures PlainText("version") && PlainText("board-name") && PlainText("platform") && PlainText("uptime")
    ensures PlainText("cpu-load") && PlainText("free-memory") && PlainText("total-memory")
  {
  }

  lemma PlainTextKey(key: string)
    requires PlainText(key)
    ensures Ascii(key) != [] && EQ !in Ascii(key)
  {
  }

  /** The last word that starts with "=key=" goes on with the value. */
  ghost predicate Says(words: Sentence, key: string, value: Bytes) {
    exists i :: 0 <= i < |words| && words[i] == Ascii("=" + key + "=") + value
                && forall j :: i < j < |words| ==> !(Ascii("=" + key + "=") <= words[j])
  }

  /** No word starts with "=key=". */
  ghost predicate Silent(words: Sentence, key: string) {
    forall i :: 0 <= i < |words| ==> !(Ascii("=" + key + "=") <= words[i])
  }

  lemma PrefixGives(word: Bytes, key: string)
    requires PlainText(key)
    ensures Ascii("=" + key + "=") <= word <==> GivesKey(Ts, word, Ascii(key))
  {
    var prefix := Ascii("=" + key + "=");
    PlainTextKey(key);
    AsciiKey(key, []);
    if prefix <= word {
      AsciiKey(key, word[|prefix|..]);
      assert word == prefix + word[|prefix|..];
      assert Gives(Ts, word, Ascii(key), word[|prefix|..]);
    }
    if GivesKey(Ts, word, Ascii(key)) {
      var value :| Gives(Ts, word, Ascii(key), value);
      AsciiKey(key, value);
    }
  }

  lemma SaysMeans(words: Sentence, key: string, value: Bytes)
    requires PlainText(key)
    ensures Says(words, key, value) ==> Ascii(key) in Collect(Ts, words) && Collect(Ts, words)[Ascii(key)] == value
    ensures Silent(words, key) ==> Ascii(key) !in Collect(Ts, words)
  {
    forall i | 0 <= i < |words|
      ensures Ascii("=" + key + "=") <= words[i] <==> GivesKey(Ts, words[i], Ascii(key))
    {
      PrefixGives(words[i], key);
    }
    hide Ascii, Collect, GivesKey;
    CollectedKeys(Ts, words, Ascii(key));
    if Says(words, key, value) {
      var i :| 0 <= i < |words| && words[i] == Ascii("=" + key + "=") + value
               && forall j :: i < j < |words| ==> !(Ascii("=" + key + "=") <= words[j]);
      CollectMeans(Ts, words, Ascii(key), i);
      AsciiKey(key, value);
      SameValue(words[i], Ascii(key), value, Collect(Ts, words)[Ascii(key)]);
    }
  }

  lemma SameValue(word: Bytes, key: Bytes, a: Bytes, b: Bytes)
    requires word == AttrWord(key, a) && Gives(Ts, word, key, b)
    ensures a == b
  {
    assert word[|key| + 2..] == a && word[|key| + 2..] == b;
  }

  /** What `Get` finds, from the words. */
  lemma SaysGet(words: Sentence, key: string, value: Bytes)
    requires PlainText(key)
    ensures Says(words, key, value) ==> Get(Collect(Ts, words), Ascii(key)) == value
    ensures Says(words, key, value) ==> Find(Collect(Ts, words), key) == Some(value)
    ensures Silent(words, key) ==> Get(Collect(Ts, words), Ascii(key)) == [] && Find(Collect(Ts, words), key) == None
  {
    hide Ascii, Collect, Says, Silent;
    SaysMeans(words, key, value);
  }

  /** Printed text survives as bytes. */
  lemma AsciiText(t: string)
    requires forall i :: 0 <= i < |t| ==> t[i] < 128 as char
    ensures AsText(Ascii(t)) == t
  {
  }

  /** The bytes of a printed number. */
  function Printed(n: nat): Bytes {
    Ascii(Uptime.Decimal(n))
  }

  lemma PrintedReads(n: nat)
    ensures Printed(n) != [] && ParseInt(AsText(Printed(n))) == Int(n)
  {
    var t := Uptime.Decimal(n);
    AsciiText(t);
    assert t + "" == t;
    PrintedNumberReads(n, "");
  }

  lemma ZeroReads()
    ensures ParseInt("0") == Int(0)
  {
    assert Uptime.Decimal(0) + "" == "0";
    PrintedNumberReads(0, "");
  }

  /** A counter of a row: its printed number, or zero when it is missing or empty. */
  lemma CounterSays(words: Sentence, key: string, n: nat)
    requires PlainText(key)
    ensures Says(words, key, Printed(n)) ==> CounterOf(Collect(Ts, words), Ascii(key)) == Int(n)
    ensures Silent(words, key) || Says(words, key, []) ==> CounterOf(Collect(Ts, words), Ascii(key)) == Int(0)
  {
    hide Ascii, Collect, Says, Silent, Get, ParseInt, AsText, Printed;
    SaysGet(words, key, Printed(n));
    SaysGet(words, key, []);
    PrintedReads(n);
    ZeroReads();
  }

  /** A size or load of a row: its printed number, or nothing when it is missing or empty. */
  lemma NumberSays(words: Sentence, key: string, n: nat)
    requires PlainText(key)
    ensures Says(words, key, Printed(n)) ==> NumberOf(Collect(Ts, words), key) == Some(Int(n))
    ensures Silent(words, key) || Says(words, key, []) ==> NumberOf(Collect(Ts, words), key) == None
  {
    hide Ascii, Collect, Says, Silent, Get, ParseInt, AsText, Printed;
    SaysGet(words, key, Printed(n));
    SaysGet(words, key, []);
    PrintedReads(n);
  }

  ghost predicate InterfaceRow(st: State, words: Sentence) {
    st.phase == Interface && st.outcome.None? && words != [] && words[0] == Ascii("!re")
  }

  /** A row without a name, or with an empty one, reports nothing. */
  lemma UnnamedRow(st: State, words: Sentence)
    requires InterfaceRow(st, words) && (Silent(words, "name") || Says(words, "name", []))
    ensures OnSentence(st, words) == st
  {
    TagsDiffer();
    SaysGet(words, "name", []);
  }

  /** What a row with a name says, as an interface. */
  lemma IfaceSays(words: Sentence, name: Bytes, rx: nat, tx: nat, running: Bytes)
    requires Says(words, "name", name) && name != []
    ensures var i := IfaceOf(Collect(Ts, words));
            && i.name == name
            && (Says(words, "rx-byte", Printed(rx)) ==> i.rxBytes == Int(rx))
            && (Silent(words, "rx-byte") || Says(words, "rx-byte", []) ==> i.rxBytes == Int(0))
            && (Says(words, "tx-byte", Printed(tx)) ==> i.txBytes == Int(tx))
            && (Silent(words, "tx-byte") || Says(words, "tx-byte", []) ==> i.txBytes == Int(0))
            && (Says(words, "running", running) ==> (i.running <==> running == Ascii("true")))
            && (Silent(words, "running") ==> !i.running)
  {
    RowKeysPlain();
    assert Ascii("true") != [] by { assert |Ascii("true")| == 4; }
    hide Ascii, Collect, Get, CounterOf, Says, Silent, Printed, PlainText;
    SaysGet(words, "name", name);
    CounterSays(words, "rx-byte", rx);
    CounterSays(words, "tx-byte", tx);
    SaysGet(words, "running", running);
  }

  lemma NamedStep(st: State, words: Sentence)
    requires InterfaceRow(st, words) && Get(Collect(Ts, words), NAME) != []
    ensures OnSentence(st, words)
         == st.(result := st.result.(interfaces := st.result.interfaces + [IfaceOf(Collect(Ts, words))]))
  {
    TagsDiffer();
    hide Collect, Get, IfaceOf;
  }

  /**
   A row with a name reports one more interface, behind those before: with that name, with the counters
   the row says under their keys, zero where it says none, and running exactly when it says so.
   */
  lemma NamedRow(st: State, words: Sentence, name: Bytes, rx: nat, tx: nat, running: Bytes)
    requires InterfaceRow(st, words) && Says(words, "name", name) && name != []
    ensures var was, now := st.result.interfaces, OnSentence(st, words).result.interfaces;
            && |now| == |was| + 1 && was <= now
            && OnSentence(st, words) == st.(result := st.result.(interfaces := was + [now[|was|]]))
            && var i := now[|was|];
            && i.name == name
            && (Says(words, "rx-byte", Printed(rx)) ==> i.rxBytes == Int(rx))
            && (Silent(words, "rx-byte") || Says(words, "rx-byte", []) ==> i.rxBytes == Int(0))
            && (Says(words, "tx-byte", Printed(tx)) ==> i.txBytes == Int(tx))
            && (Silent(words, "tx-byte") || Says(words, "tx-byte", []) ==> i.txBytes == Int(0))
            && (Says(words, "running", running) ==> (i.running <==> running == Ascii("true")))
            && (Silent(words, "running") ==> !i.running)
  {
    SaysGet(words, "name", name);
    IfaceSays(words, name, rx, tx, running);
    hide IfaceOf, Collect, Get, Says, Silent, Printed, OnSentence, Ascii, InterfaceRow;
    NamedStep(st, words);
  }

  /** What a resource row says about texts. */
  lemma RouterTexts(words: Sentence, v: Bytes)
    ensures var r := RouterOf(Collect(Ts, words));
            && (Says(words, "version", v) ==> r.rosVersion == Some(v))
            && (Silent(words, "version") ==> r.rosVersion == None)
            && (Says(words, "board-name", v) ==> r.boardName == Some(v))
            && (Silent(words, "board-name") ==> r.boardName == None)
            && (Says(words, "platform", v) && v != [] ==> r.model == Some(v))
            && (Silent(words, "platform") || Says(words, "platform", []) ==> r.model == Some(Ascii("MikroTik")))
  {
    RowKeysPlain();
    assert Ascii("MikroTik") == MIKROTIK;
    hide Ascii, Collect, Get, Find, Says, Silent, NumberOf, AsText, Uptime.TsTotal, PlainText;
    SaysGet(words, "version", v);
    SaysGet(words, "board-name", v);
    SaysGet(words, "platform", v);
    SaysGet(words, "platform", []);
  }

  /** And about numbers. */
  lemma RouterNumbers(words: Sentence, n: nat, fields: seq<Uptime.Field>)
    requires Uptime.Canonical(fields, Uptime.UNITS)
    ensures var r := RouterOf(Collect(Ts, words));
            && (Says(words, "cpu-load", Printed(n)) ==> r.cpuLoad == Some(Int(n)))
            && (Silent(words, "cpu-load") || Says(words, "cpu-load", []) ==> r.cpuLoad == None)
            && (Says(words, "free-memory", Printed(n)) ==> r.freeMemory == Some(Int(n)))
            && (Silent(words, "free-memory") || Says(words, "free-memory", []) ==> r.freeMemory == None)
            && (Says(words, "total-memory", Printed(n)) ==> r.totalMemory == Some(Int(n)))
            && (Silent(words, "total-memory") || Says(words, "total-memory", []) ==> r.totalMemory == None)
            && (Says(words, "uptime", Ascii(Uptime.Joined(fields, ""))) ==>
                  r.uptime == if Uptime.Total(fields) == 0 then None else Some(Uptime.Total(fields)))
            && (Silent(words, "uptime") ==> r.uptime == None)
  {
    RowKeysPlain();
    hide Ascii, Collect, Get, Find, Says, Silent, Printed, NumberOf, AsText, Uptime.Joined, Uptime.TsTotal, PlainText;
    NumberSays(words, "cpu-load", n);
    NumberSays(words, "free-memory", n);
    NumberSays(words, "total-memory", n);
    UptimeSays(words, fields);
  }

  /**
   A resource row sets success and reports what it says: texts as they are, the model with its default,
   numbers where it says some, and the uptime as the printed fields add up.
   */
  lemma ResourceRow(st: State, words: Sentence, v: Bytes, n: nat, fields: seq<Uptime.Field>)
    requires st.phase == Resource && st.outcome.None? && words != [] && words[0] == Ascii("!re")
    requires Uptime.Canonical(fields, Uptime.UNITS)
    ensures var r, now := OnSentence(st, words).result.router, OnSentence(st, words);
            && now == st.(result := st.result.(success := true, router := r))
            && (Says(words, "version", v) ==> r.rosVersion == Some(v))
            && (Silent(words, "version") ==> r.rosVersion == None)
            && (Says(words, "board-name", v) ==> r.boardName == Some(v))
            && (Silent(words, "board-name") ==> r.boardName == None)
            && (Says(words, "platform", v) && v != [] ==> r.model == Some(v))
            && (Silent(words, "platform") || Says(words, "platform", []) ==> r.model == Some(Ascii("MikroTik")))
            && (Says(words, "cpu-load", Printed(n)) ==> r.cpuLoad == Some(Int(n)))
            && (Silent(words, "cpu-load") || Says(words, "cpu-load", []) ==> r.cpuLoad == None)
            && (Says(words, "free-memory", Printed(n)) ==> r.freeMemory == Some(Int(n)))
            && (Silent(words, "free-memory") || Says(words, "free-memory", []) ==> r.freeMemory == None)
            && (Says(words, "total-memory", Printed(n)) ==> r.totalMemory == Some(Int(n)))
            && (Silent(words, "total-memory") || Says(words, "total-memory", []) ==> r.totalMemory == None)
            && (Says(words, "uptime", Ascii(Uptime.Joined(fields, ""))) ==>
                  r.uptime == if Uptime.Total(fields) == 0 then None else Some(Uptime.Total(fields)))
            && (Silent(words, "uptime") ==> r.uptime == None)
  {
    ResourceStep(st, words);
    hide Ascii, Collect, RouterOf, Says, Silent, Printed, OnSentence, Uptime.Joined, Uptime.Total;
    RouterTexts(words, v);
    RouterNumbers(words, n, fields);
  }

  lemma ResourceStep(st: State, words: Sentence)
    requires st.phase == Resource && st.outcome.None? && words != [] && words[0] == Ascii("!re")
    ensures OnSentence(st, words) == st.(result := st.result.(success := true, router := RouterOf(Collect(Ts, words))))
  {
    TagsDiffer();
    hide Collect, RouterOf;
  }

  lemma UptimeSays(words: Sentence, fields: seq<Uptime.Field>)
    requires Uptime.Canonical(fields, Uptime.UNITS)
    ensures var uptime := Uptime.TsTotal(AsText(Get(Collect(Ts, words), Ascii("uptime"))));
            && (Says(words, "uptime", Ascii(Uptime.Joined(fields, ""))) ==>
                  uptime == if Uptime.Total(fields) == 0 then None else Some(Uptime.Total(fields)))
            && (Silent(words, "uptime") ==> uptime == None)
  {
    var text := Uptime.Joined(fields, "");
    assert AsText([]) == "" && Uptime.TsTotal("") == None;
    JoinedAscii(fields);
    AsciiText(text);
    hide Ascii, AsText, Collect, Get, Says, Silent, Uptime.TsTotal, Uptime.Joined;
    SaysGet(words, "uptime", Ascii(text));
    Uptime.TsReadsCanonical(fields, "");
  }

  lemma {:induction false} JoinedAscii(fields: seq<Uptime.Field>)
    requires forall i :: 0 <= i < |fields| ==> fields[i].unit in Uptime.UNITS
    ensures forall i :: 0 <= i < |Uptime.Joined(fields, "")| ==> Uptime.Joined(fields, "")[i] < 128 as char
    decreases |fields|
  {
    if fields != [] {
      TextAscii(fields[0]);
      if |fields| > 1 {
        JoinedAscii(fields[1..]);
        hide Uptime.Text;
        assert Uptime.Joined(fields, "") == Uptime.Text(fields[0]) + Uptime.Joined(fields[1..], "");
      }
    }
  }

  lemma TextAscii(f: Uptime.Field)
    requires f.unit in Uptime.UNITS
    ensures forall i :: 0 <= i < |Uptime.Text(f)| ==> Uptime.Text(f)[i] < 128 as char
  {
  }

  /** A port of a router, and the row in which the router reports it. */
  datatype Port = Port(name: Bytes, rx: nat, tx: nat, running: bool) {
    function Row(): Sentence {
      [Ascii("!re"), Ascii("=name=") + name, Ascii("=rx-byte=") + Printed(rx), Ascii("=tx-byte=") + Printed(tx),
       Ascii("=running=") + Ascii(if running then "true" else "false")]
    }
  }

  lemma SaysAt(words: Sentence, key: string, value: Bytes, i: nat)
    requires i < |words| && words[i] == Ascii("=" + key + "=") + value
    requires forall j :: i < j < |words| ==> !(Ascii("=" + key + "=") <= words[j])
    ensures Says(words, key, value)
  {
  }

  lemma PortSays(p: Port)
    ensures Says(p.Row(), "name", p.name)
    ensures Says(p.Row(), "rx-byte", Printed(p.rx)) && Says(p.Row(), "tx-byte", Printed(p.tx))
    ensures Says(p.Row(), "running", Ascii(if p.running then "true" else "false"))
  {
    var words := p.Row();
    RowPrefixes(p);
    KeyWords();
    hide Ascii, Printed, Says;
    SaysAt(words, "name", p.name, 1);
    SaysAt(words, "rx-byte", Printed(p.rx), 2);
    SaysAt(words, "tx-byte", Printed(p.tx), 3);
    SaysAt(words, "running", Ascii(if p.running then "true" else "false"), 4);
  }

  lemma KeyWords()
    ensures Ascii("=" + "name" + "=") == Ascii("=name=") && Ascii("=" + "rx-byte" + "=") == Ascii("=rx-byte=")
    ensures Ascii("=" + "tx-byte" + "=") == Ascii("=tx-byte=") && Ascii("=" + "running" + "=") == Ascii("=running=")
  {
    assert "=" + "name" + "=" == "=name=" && "=" + "rx-byte" + "=" == "=rx-byte=";
    assert "=" + "tx-byte" + "=" == "=tx-byte=" && "=" + "running" + "=" == "=running=";
  }

  /** The keys' first letters tell the words apart. */
  lemma RowPrefixes(p: Port)
    ensures var words := p.Row();
            && !(Ascii("=name=") <= words[2]) && !(Ascii("=name=") <= words[3]) && !(Ascii("=name=") <= words[4])
            && !(Ascii("=rx-byte=") <= words[3]) && !(Ascii("=rx-byte=") <= words[4])
            && !(Ascii("=tx-byte=") <= words[4])
  {
    var words := p.Row();
    assert Ascii("=name=")[1] == 'n' as int && Ascii("=rx-byte=")[1] == 'r' as int;
    assert Ascii("=rx-byte=")[2] == 'x' as int && Ascii("=tx-byte=")[1] == 't' as int;
    assert words[2][1] == 'r' as int && words[3][1] == 't' as int;
    assert words[4][1] == 'r' as int && words[4][2] == 'u' as int;
  }

  function Reported(ports: seq<Port>): seq<Iface> {
    seq(|ports|, i requires 0 <= i < |ports| =>
      Iface(ports[i].name, Int(ports[i].rx), Int(ports[i].tx), ports[i].running))
  }

  function Rows(ports: seq<Port>): (rows: seq<Sentence>)
    ensures |rows| == |ports| && [] !in rows
  {
    if ports == [] then [] else [ports[0].Row()] + Rows(ports[1..])
  }

  lemma PortReported(st: State, p: Port)
    requires st.phase == Interface && st.outcome.None? && p.name != []
    ensures OnSentence(st, p.Row())
         == st.(result := st.result.(interfaces :=
                  st.result.interfaces + [Iface(p.name, Int(p.rx), Int(p.tx), p.running)]))
  {
    PortSays(p);
    var words := p.Row();
    assert words[0] == Ascii("!re");
    assert Ascii("true") != Ascii("false") by { assert |Ascii("true")| == 4 && |Ascii("false")| == 5; }
    hide Port.Row, Says, OnSentence, Printed;
    NamedRow(st, words, p.name, p.rx, p.tx, Ascii(if p.running then "true" else "false"));
    var was, now := st.result.interfaces, OnSentence(st, words).result.interfaces;
    assert now[|was|..] == [Iface(p.name, Int(p.rx), Int(p.tx), p.running)];
  }

  /** The ports of a router, reported row by row, are the interfaces of the result, each as it is and in order. */
  lemma {:induction false} PortsReported(st: State, ports: seq<Port>)
    requires st.phase == Interface && st.outcome.None? && forall p :: p in ports ==> p.name != []
    ensures OnSentences(st, Rows(ports))
         == st.(result := st.result.(interfaces := st.result.interfaces + Reported(ports)))
    decreases |ports|
  {
    hide OnSentence, OnSentences, Port.Row;
    OnSentencesStep(st, Rows(ports));
    if ports == [] {
      assert st.result.interfaces + Reported(ports) == st.result.interfaces;
    } else {
      assert ports[0] in ports;
      PortReported(st, ports[0]);
      var next := OnSentence(st, ports[0].Row());
      PortsReported(next, ports[1..]);
      assert Rows(ports)[1..] == Rows(ports[1..]);
      assert next.result.interfaces + Reported(ports[1..]) == st.result.interfaces + Reported(ports);
    }
  }

  // ---------- A complete transcript ----------

  /** The interfaces of the rows that have a name, in order. */
  function NamedRows(body: seq<Sentence>): seq<Iface> {
    if body == [] then [] else
      (if body[0] != [] && body[0][0] == RE && Get(Collect(Ts, body[0]), NAME) != []
       then [IfaceOf(Collect(Ts, body[0]))] else []) + NamedRows(body[1..])
  }

  /** What the last row says, or `router` when there is none. */
  function LastRow(router: Router, body: seq<Sentence>): Router
    decreases |body|
  {
    if body == [] then router
    else LastRow(if body[0] != [] && body[0][0] == RE then RouterOf(Collect(Ts, body[0])) else router, body[1..])
  }

  ghost predicate HasRow(body: seq<Sentence>) {
    exists i :: 0 <= i < |body| && body[i] != [] && body[i][0] == RE
  }

  /** Sentences none of which carries one of the tags. */
  ghost predicate Without(tags: set<Bytes>, body: seq<Sentence>) {
    forall i :: 0 <= i < |body| ==> body[i] != [] && body[i][0] !in tags
  }

  ghost predicate IsDone(s: Sentence) {
    s != [] && s[0] == DONE
  }

  lemma {:induction false} OnSentencesConcat(st: State, a: seq<Sentence>, b: seq<Sentence>)
    requires [] !in a && [] !in b
    ensures OnSentences(st, a + b) == OnSentences(OnSentences(st, a), b)
    decreases |a|
  {
    if a == [] {
      assert a + b == b;
    } else {
      hide OnSentence;
      assert (a + b)[1..] == a[1..] + b;
      OnSentencesConcat(OnSentence(st, a[0]), a[1..], b);
    }
  }

  lemma {:induction false} LoginBody(st: State, body: seq<Sentence>)
    requires st.phase == Login && st.outcome.None? && Without({DONE, TRAP, FATAL}, body)
    ensures [] !in body && OnSentences(st, body) == st
    decreases |body|
  {
    if body != [] {
      assert body[0] in body;
      LoginBody(st, body[1..]);
    }
  }

  lemma {:induction false} ResourceBody(st: State, body: seq<Sentence>)
    requires st.phase == Resource && st.outcome.None? && Without({DONE}, body)
    ensures [] !in body
    ensures OnSentences(st, body) == st.(result := st.result.(
              success := st.result.success || HasRow(body),
              router := LastRow(st.result.router, body)))
    decreases |body|
  {
    if body != [] {
      assert body[0] in body;
      var next := OnSentence(st, body[0]);
      ResourceBody(next, body[1..]);
      assert HasRow(body) <==> body[0][0] == RE || HasRow(body[1..]);
    }
  }

  /** `st` with more interfaces at the end of its list. */
  function WithIfaces(st: State, more: seq<Iface>): (s': State)
    ensures s'.phase == st.phase && s'.outcome == st.outcome
  {
    st.(result := st.result.(interfaces := st.result.interfaces + more))
  }

  lemma WithIfacesTwice(st: State, a: seq<Iface>, b: seq<Iface>)
    ensures WithIfaces(WithIfaces(st, a), b) == WithIfaces(st, a + b)
    ensures WithIfaces(st, []) == st
  {
    assert st.result.interfaces + a + b == st.result.interfaces + (a + b);
    assert st.result.interfaces + [] == st.result.interfaces;
  }

  /** One sentence of the interface phase that is not its end. */
  lemma InterfaceStep(st: State, words: Sentence)
    requires st.phase == Interface && st.outcome.None? && words != [] && words[0] != DONE
    ensures OnSentence(st, words) == WithIfaces(st, NamedRows([words]))
  {
    hide Collect, IfaceOf, Get;
    NamedRowsCons(words, []);
    assert [words] + [] == [words];
    WithIfacesTwice(st, [], []);
  }

  lemma NamedRowsCons(words: Sentence, body: seq<Sentence>)
    ensures NamedRows([words] + body) == NamedRows([words]) + NamedRows(body)
    ensures NamedRows([words]) == if words != [] && words[0] == RE && Get(Collect(Ts, words), NAME) != []
                                  then [IfaceOf(Collect(Ts, words))] else []
  {
    hide Collect, IfaceOf, Get;
    assert ([words] + body)[1..] == body && [words][1..] == [];
  }

  lemma WithoutTail(tags: set<Bytes>, body: seq<Sentence>)
    requires Without(tags, body)
    ensures [] !in body
    ensures body != [] ==> body[0] != [] && body[0][0] !in tags && Without(tags, body[1..])
  {
  }

  lemma OnSentencesStep(st: State, body: seq<Sentence>)
    requires [] !in body
    ensures OnSentences(st, body) == if body == [] then st else OnSentences(OnSentence(st, body[0]), body[1..])
  {
    hide OnSentence;
  }

  lemma {:induction false} InterfaceBody(st: State, body: seq<Sentence>)
    requires st.phase == Interface && st.outcome.None? && Without({DONE}, body)
    ensures [] !in body
    ensures OnSentences(st, body) == WithIfaces(st, NamedRows(body))
    decreases |body|
  {
    WithoutTail({DONE}, body);
    hide OnSentence, OnSentences, Without, WithIfaces;
    OnSentencesStep(st, body);
    if body == [] {
      WithIfacesTwice(st, [], []);
    } else {
      hide NamedRows;
      InterfaceStep(st, body[0]);
      InterfaceBody(OnSentence(st, body[0]), body[1..]);
      assert [body[0]] + body[1..] == body;
      NamedRowsCons(body[0], body[1..]);
      WithIfacesTwice(st, NamedRows([body[0]]), NamedRows(body[1..]));
    }
  }

  /** A transcript cut at its first three `!done`s; before the first, no `!trap` or `!fatal`. */
  datatype Transcript = Transcript(
    login: seq<Sentence>, done1: Sentence,
    resource: seq<Sentence>, done2: Sentence,
    interfaces: seq<Sentence>, done3: Sentence,
    tail: seq<Sentence>)
  {
    ghost predicate Valid() {
      && Without({DONE, TRAP, FATAL}, login) && Without({DONE}, resource) && Without({DONE}, interfaces)
      && IsDone(done1) && IsDone(done2) && IsDone(done3)
      && [] !in tail
    }

    function All(): seq<Sentence> {
      login + ([done1] + (resource + ([done2] + (interfaces + ([done3] + tail)))))
    }

    /** What the caller is owed. */
    ghost function Expected(): Outcome {
      Finished(Metrics(HasRow(resource), LastRow(UNKNOWN, resource), NamedRows(interfaces)))
    }
  }

  lemma OneDone(st: State, done: Sentence)
    requires IsDone(done) && st.outcome.None?
    ensures OnSentences(st, [done]) == OnSentence(st, done)
    ensures OnSentence(st, done) ==
            match st.phase
            case Login => st.(phase := Resource, written := st.written + [ResourcePrint])
            case Resource => st.(phase := Interface, written := st.written + [InterfacePrint])
            case Interface => st.(outcome := Some(Finished(st.result)))
  {
    TagsDiffer();
    assert OnSentences(OnSentence(st, done), [done][1..]) == OnSentence(st, done);
  }

  lemma TranscriptNonempty(t: Transcript)
    requires t.Valid()
    ensures [] !in t.login && [] !in t.resource && [] !in t.interfaces && [] !in t.All()
  {
  }

  /**
   On three `!done`s the session resolves with the named rows of the interface phase in order,
   successfully exactly when the resource phase had a row, and with all three requests written.
   */
  lemma TranscriptOutcome(t: Transcript)
    requires t.Valid()
    ensures [] !in t.All()
    ensures var final := OnSentences(INIT, t.All());
            final.outcome == Some(t.Expected()) && final.written == REQUESTS
  {
    TranscriptNonempty(t);
    hide OnSentence, OnSentences;
    var r6 := [t.done3] + t.tail;
    var r5 := t.interfaces + r6;
    var r4 := [t.done2] + r5;
    var r3 := t.resource + r4;
    var r2 := [t.done1] + r3;
    OnSentencesConcat(INIT, t.login, r2);
    LoginBody(INIT, t.login);
    OnSentencesConcat(INIT, [t.done1], r3);
    OneDone(INIT, t.done1);
    var s1 := OnSentence(INIT, t.done1);
    OnSentencesConcat(s1, t.resource, r4);
    ResourceBody(s1, t.resource);
    var s2 := OnSentences(s1, t.resource);
    OnSentencesConcat(s2, [t.done2], r5);
    OneDone(s2, t.done2);
    var s3 := OnSentence(s2, t.done2);
    OnSentencesConcat(s3, t.interfaces, r6);
    InterfaceBody(s3, t.interfaces);
    var s4 := OnSentences(s3, t.interfaces);
    OnSentencesConcat(s4, [t.done3], t.tail);
    OneDone(s4, t.done3);
    ResolvedStays(OnSentence(s4, t.done3), t.tail);
    assert [] + NamedRows(t.interfaces) == NamedRows(t.interfaces);
  }

  lemma {:induction false} RowsAt(ports: seq<Port>)
    ensures forall i :: 0 <= i < |ports| ==> Rows(ports)[i] == ports[i].Row()
    decreases |ports|
  {
    if ports != [] {
      hide Port.Row;
      RowsAt(ports[1..]);
      assert forall i :: 1 <= i < |ports| ==> Rows(ports)[i] == Rows(ports[1..])[i - 1];
    }
  }

  lemma RowTag(p: Port)
    ensures p.Row() != [] && p.Row()[0] == RE && RE != DONE
  {
    TagsDiffer();
  }

  lemma PortRowsPlain(ports: seq<Port>)
    ensures Without({DONE}, Rows(ports))
  {
    RowsAt(ports);
    hide Port.Row;
    forall i | 0 <= i < |Rows(ports)| ensures Rows(ports)[i] != [] && Rows(ports)[i][0] != DONE {
      RowTag(ports[i]);
    }
  }

  /** What a router with one resource row and these ports sends, `!done` by `!done`. */
  function Answers(resource: Sentence, ports: seq<Port>): seq<Sentence> {
    [[Ascii("!done")]] + ([resource] + ([[Ascii("!done")]] + (Rows(ports) + [[Ascii("!done")]])))
  }

  /** The whole session: the result is a success with exactly the router's ports, in order. */
  lemma PortsPolled(resource: Sentence, ports: seq<Port>)
    requires resource != [] && resource[0] == Ascii("!re") && forall p :: p in ports ==> p.name != []
    ensures [] !in Answers(resource, ports)
    ensures var final := OnSentences(INIT, Answers(resource, ports));
            && final.outcome.Some? && final.outcome.value.Finished?
            && final.outcome.value.metrics.success && final.outcome.value.metrics.interfaces == Reported(ports)
            && final.written == [LoginRequest, ResourcePrint, InterfacePrint]
  {
    TagsDiffer();
    PortRowsPlain(ports);
    hide OnSentence, OnSentences, Port.Row;
    var done: Sentence := [DONE];
    var t := Transcript([], done, [resource], done, Rows(ports), done, []);
    assert t.Valid();
    assert t.All() == Answers(resource, ports) by {
      assert [done] + [] == [done] && [] + ([done] + ([resource] + ([done] + (Rows(ports) + [done]))))
        == [done] + ([resource] + ([done] + (Rows(ports) + [done])));
    }
    TranscriptOutcome(t);
    assert HasRow([resource]) by { assert [resource][0][0] == RE; }
    var st := INIT.(phase := Interface);
    InterfaceBody(st, Rows(ports));
    PortsReported(st, ports);
    assert [] + NamedRows(Rows(ports)) == NamedRows(Rows(ports)) && [] + Reported(ports) == Reported(ports);
  }

  // ---------- Every list of sentences ----------

  /** The first tag that decides about the login. */
  function LoginVerdict(sentences: seq<Sentence>): Option<Bytes>
    requires [] !in sentences
  {
    if sentences == [] then None
    else if sentences[0][0] in {DONE, TRAP, FATAL} then Some(sentences[0][0])
    else LoginVerdict(sentences[1..])
  }

  predicate Rejected(sentences: seq<Sentence>)
    requires [] !in sentences
  {
    LoginVerdict(sentences) in {Some(TRAP), Some(FATAL)}
  }

  function Dones(sentences: seq<Sentence>): nat
    requires [] !in sentences
  {
    if sentences == [] then 0 else (if sentences[0][0] == DONE then 1 else 0) + Dones(sentences[1..])
  }

  /** From the second phase on only the number of `!done`s matters. */
  lemma {:induction false} LaterOutcome(st: State, sentences: seq<Sentence>)
    requires [] !in sentences && st.phase != Login && st.outcome.None?
    ensures var final := OnSentences(st, sentences);
            if Rank(st.phase) + Dones(sentences) >= 3 then final.outcome.Some? && final.outcome.value.Finished?
            else final.outcome == None && Rank(final.phase) == Rank(st.phase) + Dones(sentences)
    decreases |sentences|
  {
    OnSentencesStep(st, sentences);
    if sentences != [] {
      hide OnSentences;
      assert sentences[0] != [];
      var next := LaterStep(st, sentences[0]);
      hide OnSentence, Rank;
      if next.outcome.Some? {
        ResolvedStays(next, sentences[1..]);
      } else {
        LaterOutcome(next, sentences[1..]);
      }
    }
  }

  lemma LaterStep(st: State, words: Sentence) returns (next: State)
    requires words != [] && st.phase != Login && st.outcome.None?
    ensures next == OnSentence(st, words)
    ensures if words[0] != DONE then next.outcome == None && next.phase == st.phase
            else if st.phase == Interface then next.outcome.Some? && next.outcome.value.Finished?
            else next.outcome == None && next.phase != Login && Rank(next.phase) == Rank(st.phase) + 1
    ensures st.phase == Interface <==> Rank(st.phase) == 2
    ensures 1 <= Rank(st.phase) <= 2
  {
    TagsDiffer();
    hide Collect, IfaceOf, RouterOf, Get;
    next := OnSentence(st, words);
  }

  lemma {:induction false} LoginOutcome(st: State, sentences: seq<Sentence>)
    requires [] !in sentences && st.phase == Login && st.outcome.None?
    ensures var final := OnSentences(st, sentences);
            if Rejected(sentences) then final.outcome == Some(LoginFailed)
            else if Dones(sentences) >= 3 then final.outcome.Some? && final.outcome.value.Finished?
            else final.outcome == None && Rank(final.phase) == Dones(sentences)
    decreases |sentences|
  {
    OnSentencesStep(st, sentences);
    if sentences != [] {
      TagsDiffer();
      var next := OnSentence(st, sentences[0]);
      hide OnSentences;
      assert sentences[0] != [];
      if next.outcome.Some? {
        ResolvedStays(next, sentences[1..]);
      } else if next.phase == Login {
        LoginOutcome(next, sentences[1..]);
      } else {
        LaterOutcome(next, sentences[1..]);
      }
    }
  }

  /** Cutting at the first `!done`. */
  lemma {:induction false} CutAtDone(sentences: seq<Sentence>) returns (i: nat)
    requires [] !in sentences && Dones(sentences) > 0
    ensures i < |sentences| && IsDone(sentences[i]) && Without({DONE}, sentences[..i])
    ensures [] !in sentences[i + 1..] && Dones(sentences[i + 1..]) == Dones(sentences) - 1
    ensures LoginVerdict(sentences) == Some(DONE) ==> Without({DONE, TRAP, FATAL}, sentences[..i])
    ensures sentences == sentences[..i] + ([sentences[i]] + sentences[i + 1..])
    decreases |sentences|
  {
    assert sentences[0] != [];
    if sentences[0][0] == DONE {
      i := 0;
    } else {
      var k := CutAtDone(sentences[1..]);
      i := k + 1;
      assert sentences[1..][k + 1..] == sentences[i + 1..];
      assert forall j :: 0 <= j < i ==>
        sentences[..i][j] == if j == 0 then sentences[0] else sentences[1..][..k][j - 1];
    }
  }

  /**
   For every list of sentences the router may send: the session fails to log in if and only if the
   first of `!done`, `!trap` and `!fatal` is not `!done`. Otherwise it is finished from the third
   `!done` on, with what the transcript cut at the first three calls for, and before that it is
   unresolved, in the phase and with the requests of the `!done`s so far.
   */
  lemma EveryOutcome(sentences: seq<Sentence>) returns (t: Transcript)
    requires [] !in sentences
    ensures var final := OnSentences(INIT, sentences);
            && (final.outcome == Some(LoginFailed) <==> Rejected(sentences))
            && (!Rejected(sentences) && Dones(sentences) >= 3 ==>
                  t.Valid() && t.All() == sentences && final.outcome == Some(t.Expected()))
            && (!Rejected(sentences) && Dones(sentences) < 3 ==>
                  final.outcome == None && Rank(final.phase) == Dones(sentences)
                  && final.written == REQUESTS[..Dones(sentences) + 1])
  {
    LoginOutcome(INIT, sentences);
    assert Sound(INIT) by { assert REQUESTS[..1] == [LoginRequest]; }
    SentencesSound(INIT, sentences);
    t := Transcript([], [], [], [], [], [], []);
    if !Rejected(sentences) && Dones(sentences) >= 3 {
      t := CutTranscript(sentences);
      TranscriptOutcome(t);
    }
  }

  lemma CutTranscript(sentences: seq<Sentence>) returns (t: Transcript)
    requires [] !in sentences && !Rejected(sentences) && Dones(sentences) >= 3
    ensures t.Valid() && t.All() == sentences
  {
    VerdictIsDone(sentences);
    hide Dones, LoginVerdict, Without;
    var i := CutAtDone(sentences);
    var second := sentences[i + 1..];
    var j := CutAtDone(second);
    var third := second[j + 1..];
    var k := CutAtDone(third);
    t := Transcript(sentences[..i], sentences[i], second[..j], second[j], third[..k], third[k], third[k + 1..]);
  }

  lemma {:induction false} VerdictIsDone(sentences: seq<Sentence>)
    requires [] !in sentences && Dones(sentences) > 0
    ensures LoginVerdict(sentences).Some? && LoginVerdict(sentences).value in {DONE, TRAP, FATAL}
    decreases |sentences|
  {
    if sentences[0][0] !in {DONE, TRAP, FATAL} { VerdictIsDone(sentences[1..]); }
  }

  // ---------- End to end, over the bytes ----------

  /** The session fed chunk by chunk until it resolves. */
  method Poll(chunks: seq<Bytes>) returns (session: Session)
    ensures [] !in Emitted([], chunks)
    ensures session.Snapshot() == OnSentences(INIT, Emitted([], chunks))
  {
    EmittedNonempty([], chunks);
    session := new Session();
    var i := 0;
    while i < |chunks|
      invariant 0 <= i <= |chunks|
      invariant [] !in Emitted(session.buf, chunks[i..])
      invariant session.outcome.None?
      invariant OnSentences(INIT, Emitted([], chunks))
             == OnSentences(session.Snapshot(), Emitted(session.buf, chunks[i..]))
    {
      ghost var st, buf := session.Snapshot(), session.buf;
      assert chunks[i..][1..] == chunks[i + 1..];
      session.OnData(chunks[i]);
      EmittedStep(buf, chunks[i..]);
      EmittedNonempty(session.buf, chunks[i + 1..]);
      OnSentencesConcat(st, Decode(Ts, buf + chunks[i]).0, Emitted(session.buf, chunks[i + 1..]));
      i := i + 1;
      if session.outcome.Some? {
        ResolvedStays(session.Snapshot(), Emitted(session.buf, chunks[i..]));
        return;
      }
    }
  }

  lemma EmittedStep(buf: Bytes, chunks: seq<Bytes>)
    requires chunks != []
    ensures var (sentences, rest) := Decode(Ts, buf + chunks[0]);
            Emitted(buf, chunks) == sentences + Emitted(rest, chunks[1..])
  {
  }

  lemma {:induction false} EmittedNonempty(buf: Bytes, chunks: seq<Bytes>)
    ensures [] !in Emitted(buf, chunks)
    decreases |chunks|
  {
    if chunks != [] {
      EmittedStep(buf, chunks);
      Handleable(buf, chunks[0]);
      EmittedNonempty(Decode(Ts, buf + chunks[0]).1, chunks[1..]);
    }
  }

  /**
   A router transcript, written as the router writes it and cut so that no chunk leaves a
   complete word behind, ends the session with exactly the outcome the transcript calls for.
   */
  lemma AlignedPollOutcome(t: Transcript, chunks: seq<Bytes>)
    requires t.Valid() && AllFit(Ts, t.All())
    requires Flatten(chunks) == TsEncodeAll(t.All())
    requires forall part :: part in ChunkItems([], chunks) ==> Unfinished([], part) == []
    ensures [] !in Emitted([], chunks)
    ensures OnSentences(INIT, Emitted([], chunks)).outcome == Some(t.Expected())
  {
    hide OnSentences;
    TranscriptNonempty(t);
    forall s | s in t.All() ensures s != [] && [] !in s {
      assert Fits(Ts, s);
    }
    CompleteStreamChunking(t.All(), chunks);
    TranscriptOutcome(t);
  }
}
