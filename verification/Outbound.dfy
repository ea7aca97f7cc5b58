/**
 The tunnel's write queue: `Send` enqueues without blocking, and each successful `Connect` starts
 one more write loop on the same queue, after closing the connection of the one before. A loop
 outlives its connection until it fails to write to it.
 */
module Outbound {
  import opened Sequences

  const OUTBOUND_BUFFER: nat := 64

  /** A write loop: the envelope it took off the queue and has not disposed of, if any. */
  datatype Loop<T> = Loop(hand: seq<T>, alive: bool)

  datatype State<T> = State(
    queue: seq<T>,
    loops: seq<Loop<T>>,   // one for each connection made, the newest last
    open: bool,            // whether the newest connection has not been closed on this side
    accepted: seq<T>,      // every envelope `Send` took
    rejected: seq<T>,      // every envelope `Send` refused
    written: seq<T>,       // every envelope written to a socket
    unmarshalled: seq<T>,  // dropped because marshalling failed
    lost: seq<T>)          // in hand when a loop gave up

  function Init<T>(): State<T> {
    State([], [], false, [], [], [], [], [])
  }

  datatype Event<T> =
    | Send(env: T)
    | Disconnect          // `Connect` on its way in, or `Close`
    | Dialled             // `Connect` succeeds
    | Take(i: nat)
    | MarshalFails(i: nat)
    | Write(i: nat)
    | WriteFails(i: nat)  // or its deadline cannot be set
    | Quit(i: nat)        // `done`, or a ping fails

  /** Each loop writes to the connection it was started with: only the newest one can still be open. */
  predicate CanWrite<T>(s: State<T>, i: nat) {
    s.open && i + 1 == |s.loops|
  }

  predicate Enabled<T>(s: State<T>, e: Event<T>) {
    match e
    case Send(_) => true
    case Disconnect => true
    case Dialled => !s.open
    case Take(i) => i < |s.loops| && s.loops[i] == Loop([], true) && |s.queue| > 0
    case MarshalFails(i) => i < |s.loops| && s.loops[i].alive && |s.loops[i].hand| == 1
    case Write(i) => i < |s.loops| && s.loops[i].alive && |s.loops[i].hand| == 1 && CanWrite(s, i)
    case WriteFails(i) => i < |s.loops| && s.loops[i].alive && |s.loops[i].hand| == 1
    case Quit(i) => i < |s.loops| && s.loops[i] == Loop([], true)
  }

  function Step<T>(s: State<T>, e: Event<T>): State<T>
    requires Enabled(s, e)
  {
    match e
    case Send(env) =>
      if |s.queue| < OUTBOUND_BUFFER then s.(queue := s.queue + [env], accepted := s.accepted + [env])
      else s.(rejected := s.rejected + [env])
    case Disconnect => s.(open := false)
    case Dialled => s.(loops := s.loops + [Loop([], true)], open := true)
    case Take(i) => s.(queue := s.queue[1..], loops := s.loops[i := Loop([s.queue[0]], true)])
    case MarshalFails(i) => s.(loops := s.loops[i := Loop([], true)], unmarshalled := s.unmarshalled + s.loops[i].hand)
    case Write(i) => s.(loops := s.loops[i := Loop([], true)], written := s.written + s.loops[i].hand)
    case WriteFails(i) => s.(loops := s.loops[i := Loop([], false)], lost := s.lost + s.loops[i].hand)
    case Quit(i) => s.(loops := s.loops[i := Loop([], false)])
  }

  // ---------- The client object ----------

  class TunnelClient<T> {
    var outChan: seq<T>
    var loops: seq<Loop<T>>
    var wsOpen: bool
    var closed: bool  // `done` is closed
    ghost var accepted: seq<T>
    ghost var rejected: seq<T>
    var written: seq<T>
    ghost var unmarshalled: seq<T>
    ghost var lost: seq<T>

    ghost function Snapshot(): State<T>
      reads this
    {
      State(outChan, loops, wsOpen, accepted, rejected, written, unmarshalled, lost)
    }

    constructor ()
      ensures Snapshot() == Init() && !closed
    {
      outChan, loops, wsOpen, closed, written := [], [], false, false, [];
      accepted, rejected, unmarshalled, lost := [], [], [], [];
    }

    /** False exactly when the queue is full. */
    method SendEnvelope(env: T) returns (ok: bool)
      modifies this
      ensures closed == old(closed)
      ensures ok <==> |old(outChan)| < 64
      ensures Snapshot() == Step(old(Snapshot()), Send(env))
      ensures outChan == (if ok then old(outChan) + [env] else old(outChan))
      ensures accepted == (if ok then old(accepted) + [env] else old(accepted))
      ensures rejected == (if ok then old(rejected) else old(rejected) + [env])
      ensures loops == old(loops) && wsOpen == old(wsOpen) && written == old(written)
      ensures unmarshalled == old(unmarshalled) && lost == old(lost)
    {
      if |outChan| < OUTBOUND_BUFFER {
        outChan := outChan + [env];
        accepted := accepted + [env];
        return true;
      }
      rejected := rejected + [env];
      return false;
    }

    /** `Connect`: whatever connection there is gets closed first; `dials` is how the dial goes. */
    method Connect(dials: bool)
      modifies this
      ensures closed == old(closed)
      ensures Snapshot() == if dials then Step(Step(old(Snapshot()), Disconnect), Dialled)
                             else Step(old(Snapshot()), Disconnect)
      ensures wsOpen == dials && loops == old(loops) + if dials then [Loop([], true)] else []
      ensures outChan == old(outChan) && written == old(written)
      ensures accepted == old(accepted) && rejected == old(rejected)
      ensures unmarshalled == old(unmarshalled) && lost == old(lost)
    {
      if wsOpen { wsOpen := false; }
      if !dials { return; }
      wsOpen := true;
      loops := loops + [Loop([], true)];
    }

    /**
     `Close`, which acts only the first time: a connection made after that is not closed by it. That
     the loops may then see `done` is their `Quit`.
     */
    method Close()
      modifies this`wsOpen, this`closed
      ensures closed
      ensures Snapshot() == if old(closed) then old(Snapshot()) else Step(old(Snapshot()), Disconnect)
      ensures wsOpen <==> old(closed) && old(wsOpen)
    {
      if closed { return; }
      closed := true;
      wsOpen := false;
    }

    method TakeEnvelope(i: nat)
      requires Enabled(Snapshot(), Take(i))
      modifies this
      ensures closed == old(closed)
      ensures Snapshot() == Step(old(Snapshot()), Take(i))
      ensures old(outChan) == loops[i].hand + outChan && loops == old(loops)[i := Loop([old(outChan)[0]], true)]
      ensures wsOpen == old(wsOpen) && written == old(written)
      ensures accepted == old(accepted) && rejected == old(rejected)
      ensures unmarshalled == old(unmarshalled) && lost == old(lost)
    {
      loops := loops[i := Loop([outChan[0]], true)];
      outChan := outChan[1..];
    }

    /**
     What `writeLoop` does with the envelope it took, given how marshalling and writing go. Writing to a
     connection that this side has closed fails.
     */
    method DisposeEnvelope(i: nat, marshals: bool, writes: bool)
      requires i < |loops| && loops[i].alive && |loops[i].hand| == 1
      requires writes ==> wsOpen && i + 1 == |loops|
      modifies this
      ensures closed == old(closed)
      ensures Snapshot() == Step(old(Snapshot()),
                                 if !marshals then MarshalFails(i) else if !writes then WriteFails(i) else Write(i))
      ensures written == old(written) + if marshals && writes then old(loops)[i].hand else []
      ensures unmarshalled == old(unmarshalled) + if !marshals then old(loops)[i].hand else []
      ensures lost == old(lost) + if marshals && !writes then old(loops)[i].hand else []
      ensures loops == old(loops)[i := Loop([], !marshals || writes)]
      ensures outChan == old(outChan) && wsOpen == old(wsOpen)
      ensures accepted == old(accepted) && rejected == old(rejected)
    {
      var hand := loops[i].hand;
      if !marshals {
        unmarshalled := unmarshalled + hand;
        loops := loops[i := Loop([], true)];
        return;
      }
      if !writes {
        lost := lost + hand;
        loops := loops[i := Loop([], false)];
        return;
      }
      written := written + hand;
      loops := loops[i := Loop([], true)];
    }
  }

  // ---------- Conservation ----------

  /** What all loops have in hand. */
  ghost function InHands<T>(loops: seq<Loop<T>>): seq<T> {
    if loops == [] then [] else InHands(loops[..|loops| - 1]) + loops[|loops| - 1].hand
  }

  function Exited<T>(loops: seq<Loop<T>>): nat {
    if loops == [] then 0 else Exited(loops[..|loops| - 1]) + if loops[|loops| - 1].alive then 0 else 1
  }

  /** Each accepted envelope is in one of the five places, as often as it was accepted. */
  ghost predicate Balanced<T>(s: State<T>) {
    multiset(s.accepted)
    == multiset(s.queue) + multiset(InHands(s.loops)) + multiset(s.written) + multiset(s.unmarshalled)
       + multiset(s.lost)
  }

  /** And no loop loses more than one. */
  ghost predicate Conserved<T>(s: State<T>) {
    && Balanced(s)
    && |s.lost| <= Exited(s.loops)
    && |s.queue| <= OUTBOUND_BUFFER
  }

  ghost function Times<T>(a: seq<T>, x: T): nat {
    multiset(a)[x]
  }

  lemma TimesConcat<T>(a: seq<T>, b: seq<T>, x: T)
    ensures Times(a + b, x) == Times(a, x) + Times(b, x)
    ensures Times([], x) == 0
  {
  }

  lemma {:induction false} HandsUpdate<T>(loops: seq<Loop<T>>, i: nat, l: Loop<T>, x: T)
    requires i < |loops|
    ensures Times(InHands(loops[i := l]), x) + Times(loops[i].hand, x) == Times(InHands(loops), x) + Times(l.hand, x)
  {
    hide Times;
    var n := |loops| - 1;
    var updated := loops[i := l];
    TimesConcat(InHands(loops[..n]), loops[n].hand, x);
    TimesConcat(InHands(updated[..n]), updated[n].hand, x);
    if i == n {
      assert updated[..n] == loops[..n];
    } else {
      HandsUpdate(loops[..n], i, l, x);
      assert updated[..n] == loops[..n][i := l];
    }
  }

  lemma {:induction false} ExitedUpdate<T>(loops: seq<Loop<T>>, i: nat, l: Loop<T>)
    requires i < |loops|
    ensures Exited(loops[i := l]) + (if loops[i].alive then 0 else 1) == Exited(loops) + if l.alive then 0 else 1
  {
    var n := |loops| - 1;
    if i == n {
      assert loops[i := l][..n] == loops[..n];
    } else {
      ExitedUpdate(loops[..n], i, l);
      assert loops[i := l][..n] == loops[..n][i := l];
    }
  }

  /** The loops that have ended. */
  ghost function Ended<T>(loops: seq<Loop<T>>): set<int> {
    set i | 0 <= i < |loops| && !loops[i].alive
  }

  lemma {:induction false} ExitedMeans<T>(loops: seq<Loop<T>>)
    ensures Exited(loops) == |Ended(loops)|
  {
    if loops != [] {
      var n := |loops| - 1;
      ExitedMeans(loops[..n]);
      assert Ended(loops) == if loops[n].alive then Ended(loops[..n]) else Ended(loops[..n]) + {n};
    }
  }

  /** A loop that starts has nothing in hand. */
  lemma NoHands<T>(loops: seq<Loop<T>>)
    ensures InHands(loops + [Loop([], true)]) == InHands(loops)
  {
    assert (loops + [Loop([], true)])[..|loops|] == loops;
  }

  /** The balance, for one envelope. */
  ghost predicate BalancedAt<T>(s: State<T>, x: T) {
    Times(s.accepted, x)
    == Times(s.queue, x) + Times(InHands(s.loops), x) + Times(s.written, x) + Times(s.unmarshalled, x)
       + Times(s.lost, x)
  }

  lemma BalancedAtStep<T>(s: State<T>, e: Event<T>, x: T)
    requires BalancedAt(s, x) && Enabled(s, e)
    ensures BalancedAt(Step(s, e), x)
  {
    hide InHands, Times;
    NoHands(s.loops);
    TimesConcat([], [], x);
    match e
    case Send(env) =>
      TimesConcat(s.queue, [env], x);
      TimesConcat(s.accepted, [env], x);
    case Take(i) =>
      HandsUpdate(s.loops, i, Loop([s.queue[0]], true), x);
      TimesConcat([s.queue[0]], s.queue[1..], x);
      assert s.queue == [s.queue[0]] + s.queue[1..];
    case MarshalFails(i) =>
      HandsUpdate(s.loops, i, Loop([], true), x);
      TimesConcat(s.unmarshalled, s.loops[i].hand, x);
    case Write(i) =>
      HandsUpdate(s.loops, i, Loop([], true), x);
      TimesConcat(s.written, s.loops[i].hand, x);
    case WriteFails(i) =>
      HandsUpdate(s.loops, i, Loop([], false), x);
      TimesConcat(s.lost, s.loops[i].hand, x);
    case Quit(i) => HandsUpdate(s.loops, i, Loop([], false), x);
    case _ =>
  }

  lemma BalancedStep<T(!new)>(s: State<T>, e: Event<T>)
    requires Balanced(s) && Enabled(s, e)
    ensures Balanced(Step(s, e))
  {
    hide InHands, Step;
    forall x ensures BalancedAt(Step(s, e), x) {
      assert BalancedAt(s, x) by { BalancedMeans(s, x); }
      BalancedAtStep(s, e, x);
    }
    AllBalanced(Step(s, e));
  }

  lemma BalancedMeans<T>(s: State<T>, x: T)
    requires Balanced(s)
    ensures BalancedAt(s, x)
  {
    hide InHands;
    assert multiset(s.accepted)[x]
        == (multiset(s.queue) + multiset(InHands(s.loops)) + multiset(s.written) + multiset(s.unmarshalled)
            + multiset(s.lost))[x];
  }

  lemma AllBalanced<T(!new)>(s: State<T>)
    requires forall x :: BalancedAt(s, x)
    ensures Balanced(s)
  {
    hide InHands;
    var places := multiset(s.queue) + multiset(InHands(s.loops)) + multiset(s.written) + multiset(s.unmarshalled)
      + multiset(s.lost);
    forall x ensures multiset(s.accepted)[x] == places[x] {
      assert BalancedAt(s, x);
    }
  }

  lemma LossStep<T>(s: State<T>, e: Event<T>)
    requires Enabled(s, e)
    ensures Exited(s.loops) + |Step(s, e).lost| <= Exited(Step(s, e).loops) + |s.lost|
  {
    if e.Dialled? {
      assert (s.loops + [Loop([], true)])[..|s.loops|] == s.loops;
    } else if !e.Send? && !e.Disconnect? {
      ExitedUpdate(s.loops, e.i, Step(s, e).loops[e.i]);
    }
  }

  /** Each step keeps the balance, on any number of connections. */
  lemma ConservedStep<T(!new)>(s: State<T>, e: Event<T>)
    requires Conserved(s) && Enabled(s, e)
    ensures Conserved(Step(s, e))
  {
    LossStep(s, e);
    BalancedStep(s, e);
  }

  ghost predicate Valid<T>(s: State<T>, events: seq<Event<T>>)
    decreases |events|
  {
    events == [] || (Enabled(s, events[0]) && Valid(Step(s, events[0]), events[1..]))
  }

  ghost function After<T>(s: State<T>, events: seq<Event<T>>): State<T>
    requires Valid(s, events)
    decreases |events|
  {
    if events == [] then s else After(Step(s, events[0]), events[1..])
  }

  lemma {:induction false} ConservedRun<T(!new)>(s: State<T>, events: seq<Event<T>>)
    requires Conserved(s) && Valid(s, events)
    ensures Conserved(After(s, events))
    decreases |events|
  {
    if events != [] {
      hide Step, Conserved;
      ConservedStep(s, events[0]);
      ConservedRun(Step(s, events[0]), events[1..]);
    }
  }

  /**
   Over every run on one client, however often it connects: accepted envelopes are written, queued,
   in a loop's hand, dropped in marshalling or lost with a loop that ended, at most one to a loop, and
   nothing else happens to them; and never more than 64 are queued.
   */
  lemma OutboundConservation<T(!new)>(events: seq<Event<T>>)
    requires Valid(Init<T>(), events)
    ensures var s := After(Init<T>(), events);
            && multiset(s.accepted)
               == multiset(s.queue) + multiset(InHands(s.loops)) + multiset(s.written)
                  + multiset(s.unmarshalled) + multiset(s.lost)
            && |s.lost| <= |Ended(s.loops)|
            && |s.queue| <= 64
  {
    ConservedRun(Init<T>(), events);
    ExitedMeans(After(Init<T>(), events).loops);
  }

  // ---------- How many ----------

  datatype Tally = Tally(sends: nat, writes: nat, marshalFailures: nat, writeFailures: nat)

  function TallyOf<T>(events: seq<Event<T>>): Tally {
    if events == [] then Tally(0, 0, 0, 0) else
      var rest := TallyOf(events[1..]);
      match events[0]
      case Send(_) => rest.(sends := rest.sends + 1)
      case Write(_) => rest.(writes := rest.writes + 1)
      case MarshalFails(_) => rest.(marshalFailures := rest.marshalFailures + 1)
      case WriteFails(_) => rest.(writeFailures := rest.writeFailures + 1)
      case _ => rest
  }

  /** Every event has its effect: sends are accepted or rejected, and a write writes one envelope. */
  lemma {:induction false} Counted<T>(s: State<T>, events: seq<Event<T>>)
    requires Valid(s, events)
    ensures var s', n := After(s, events), TallyOf(events);
            && |s'.accepted| + |s'.rejected| == |s.accepted| + |s.rejected| + n.sends
            && |s'.written| == |s.written| + n.writes
            && |s'.unmarshalled| == |s.unmarshalled| + n.marshalFailures
            && |s'.lost| == |s.lost| + n.writeFailures
    decreases |events|
  {
    if events != [] {
      Counted(Step(s, events[0]), events[1..]);
    }
  }

  // ---------- Order ----------

  /** What the newest loop has in hand. */
  function NewestHand<T>(s: State<T>): seq<T> {
    if s.loops == [] then [] else s.loops[|s.loops| - 1].hand
  }

  /** The way of an envelope, from the socket back to the queue. What older loops hold has left it. */
  function Line<T>(s: State<T>): seq<T> {
    s.written + NewestHand(s) + s.queue
  }

  ghost predicate InOrder<T>(s: State<T>) {
    Subsequence(Line(s), s.accepted)
  }

  lemma LineSend<T>(s: State<T>, env: T)
    ensures var s' := Step(s, Send(env));
            if |s.queue| < OUTBOUND_BUFFER then Line(s') == Line(s) + [env] && s'.accepted == s.accepted + [env]
            else Line(s') == Line(s) && s'.accepted == s.accepted
  {
  }

  /** Every step of a loop or a connection at most deletes a stretch of the line. */
  lemma LineShrinks<T>(s: State<T>, e: Event<T>) returns (front: seq<T>, cut: seq<T>, back: seq<T>)
    requires Enabled(s, e) && !e.Send?
    ensures Line(s) == front + cut + back && Line(Step(s, e)) == front + back
  {
    front, cut, back := Line(s), [], [];
    if e.Take? {
      assert s.queue == [s.queue[0]] + s.queue[1..];
      if e.i < |s.loops| - 1 {
        front, cut, back := s.written + NewestHand(s), [s.queue[0]], s.queue[1..];
      }
    } else if e.Dialled? || ((e.MarshalFails? || e.WriteFails?) && e.i == |s.loops| - 1) {
      front, cut, back := s.written, NewestHand(s), s.queue;
      assert s.written + [] == s.written;
    }
  }

  lemma InOrderStep<T>(s: State<T>, e: Event<T>)
    requires InOrder(s) && Enabled(s, e)
    ensures InOrder(Step(s, e))
  {
    hide Subsequence, Line;
    if e.Send? {
      LineSend(s, e.env);
      SubsequenceSnoc(Line(s), s.accepted, e.env);
    } else {
      var front, cut, back := LineShrinks(s, e);
      SubsequenceCut(front, cut, back, s.accepted);
    }
  }

  lemma {:induction false} InOrderRun<T>(s: State<T>, events: seq<Event<T>>)
    requires InOrder(s) && Valid(s, events)
    ensures InOrder(After(s, events))
    decreases |events|
  {
    if events != [] {
      hide Step, InOrder, Enabled;
      InOrderStep(s, events[0]);
      InOrderRun(Step(s, events[0]), events[1..]);
    }
  }

  /**
   Over every run, however often the client connects and however many loops share the queue: what is
   written, over all connections together, is in the order in which it was accepted.
   */
  lemma OutboundOrder<T>(events: seq<Event<T>>) returns (acceptedAs: seq<nat>)
    requires Valid(Init<T>(), events)
    ensures var s := After(Init<T>(), events); Embeds(acceptedAs, s.written, s.accepted)
  {
    InOrderRun(Init<T>(), events);
    var s := After(Init<T>(), events);
    assert Line(s) == s.written + (NewestHand(s) + s.queue);
    SubsequencePrefix(s.written, NewestHand(s) + s.queue, s.accepted);
    acceptedAs := SubsequenceEmbeds(s.written, s.accepted);
  }

  // ---------- Loops that outlive their connection ----------

  lemma StaleStep<T>(s: State<T>, e: Event<T>, i: nat)
    requires Enabled(s, e) && i < |s.loops| && !CanWrite(s, i)
    ensures i < |Step(s, e).loops| && !CanWrite(Step(s, e), i)
  {
  }

  lemma {:induction false} StaleForGood<T>(s: State<T>, events: seq<Event<T>>, i: nat)
    requires Valid(s, events) && i < |s.loops| && !CanWrite(s, i)
    ensures Write(i) !in events
    decreases |events|
  {
    if events != [] {
      StaleForGood(Step(s, events[0]), events[1..], i);
    }
  }

  /**
   An envelope a loop has taken can still be written by it if and only if the loop's connection is the
   newest one and open; it then is, at the end of what was written.
   */
  lemma TakenCanBeWritten<T(!new)>(s: State<T>, i: nat)
    requires i < |s.loops| && s.loops[i].alive && |s.loops[i].hand| == 1
    ensures (exists events :: Valid(s, events) && Write(i) in events) <==> s.open && i + 1 == |s.loops|
    ensures s.open && i + 1 == |s.loops| ==>
      Valid(s, [Write(i)]) && After(s, [Write(i)]).written == s.written + s.loops[i].hand
  {
    if CanWrite(s, i) {
      RunNone(Step(s, Write(i)));
      RunCons(s, Write(i), []);
      var events := [Event<T>.Write(i)] + [];
      assert events == [Write(i)];
      assert Valid(s, events) && Write(i) in events;
    } else {
      forall events | Valid(s, events) ensures Write(i) !in events {
        StaleForGood(s, events, i);
      }
    }
  }

  /** What a stale loop took is still in its hand, or dropped, or lost. */
  ghost predicate Gone<T>(s: State<T>, i: nat, x: T)
    requires i < |s.loops|
  {
    s.loops[i].hand == [x] || x in s.unmarshalled || x in s.lost
  }

  lemma GoneStep<T>(s: State<T>, e: Event<T>, i: nat, x: T)
    requires Enabled(s, e) && i < |s.loops| && !CanWrite(s, i) && Gone(s, i, x) && e != Send(x)
    ensures i < |Step(s, e).loops| && Gone(Step(s, e), i, x)
    ensures multiset(Step(s, e).accepted)[x] == multiset(s.accepted)[x]
  {
  }

  lemma {:induction false} HandInHands<T>(loops: seq<Loop<T>>, i: nat, x: T)
    requires i < |loops| && x in loops[i].hand
    ensures x in InHands(loops)
  {
    if i < |loops| - 1 { HandInHands(loops[..|loops| - 1], i, x); }
  }

  lemma GoneUnwritten<T>(s: State<T>, i: nat, x: T)
    requires Conserved(s) && i < |s.loops| && Gone(s, i, x) && multiset(s.accepted)[x] == 1
    ensures x !in s.written
  {
    if s.loops[i].hand == [x] { HandInHands(s.loops, i, x); }
    assert x in multiset(InHands(s.loops)) || x in multiset(s.unmarshalled) || x in multiset(s.lost);
  }

  /**
   A loop whose connection is no longer the newest, or is closed, takes from the shared queue all the same;
   an envelope sent once that is in its hand is never written, by any loop, in any continuation.
   */
  lemma {:induction false} StaleHandNeverWritten<T(!new)>(s: State<T>, events: seq<Event<T>>, i: nat, x: T)
    requires Conserved(s) && Valid(s, events) && i < |s.loops| && !(s.open && i + 1 == |s.loops|)
    requires Gone(s, i, x) && multiset(s.accepted)[x] == 1 && Send(x) !in events
    ensures x !in After(s, events).written
    decreases |events|
  {
    if events == [] {
      GoneUnwritten(s, i, x);
    } else {
      hide Step, Conserved, Gone;
      GoneStep(s, events[0], i, x);
      StaleStep(s, events[0], i);
      ConservedStep(s, events[0]);
      StaleHandNeverWritten(Step(s, events[0]), events[1..], i, x);
    }
  }

  /** It does happen: after a second connect, with the new loop waiting, the old one loses an envelope. */
  lemma StaleLoopLoses<T>(env: T)
    ensures var events := [Dialled, Disconnect, Dialled, Send(env), Take(0), WriteFails(0)];
            Valid(Init<T>(), events)
            && var s := After(Init<T>(), events);
               s.accepted == [env] == s.lost && s.written == [] == s.queue
               && s.open && s.loops == [Loop([], false), Loop([], true)]
  {
    hide Valid, After;
    var s1 := Step(Init<T>(), Dialled);
    var s2 := Step(s1, Disconnect);
    var s3 := Step(s2, Dialled);
    var s4 := Step(s3, Send(env));
    var s5 := Step(s4, Take(0));
    var s6 := Step(s5, WriteFails(0));
    RunNone(s6);
    assert [Event<T>.WriteFails(0)] + [] == [WriteFails(0)];
    RunCons(s5, WriteFails(0), []);
    RunCons(s4, Take(0), [WriteFails(0)]);
    assert [Event<T>.Take(0)] + [WriteFails(0)] == [Take(0), WriteFails(0)];
    RunCons(s3, Send(env), [Take(0), WriteFails(0)]);
    assert [Event<T>.Send(env)] + [Take(0), WriteFails(0)] == [Send(env), Take(0), WriteFails(0)];
    RunCons(s2, Dialled, [Send(env), Take(0), WriteFails(0)]);
    assert [Event<T>.Dialled] + [Send(env), Take(0), WriteFails(0)] == [Dialled, Send(env), Take(0), WriteFails(0)];
    RunCons(s1, Disconnect, [Dialled, Send(env), Take(0), WriteFails(0)]);
    assert [Event<T>.Disconnect] + [Dialled, Send(env), Take(0), WriteFails(0)]
        == [Disconnect, Dialled, Send(env), Take(0), WriteFails(0)];
    RunCons(Init<T>(), Dialled, [Disconnect, Dialled, Send(env), Take(0), WriteFails(0)]);
    assert [Event<T>.Dialled] + [Disconnect, Dialled, Send(env), Take(0), WriteFails(0)]
        == [Dialled, Disconnect, Dialled, Send(env), Take(0), WriteFails(0)];
  }

  lemma RunNone<T>(s: State<T>)
    ensures Valid(s, []) && After(s, []) == s
  {
  }

  lemma RunCons<T>(s: State<T>, e: Event<T>, events: seq<Event<T>>)
    requires Enabled(s, e) && Valid(Step(s, e), events)
    ensures Valid(s, [e] + events) && After(s, [e] + events) == After(Step(s, e), events)
  {
    assert ([e] + events)[1..] == events;
  }
}
