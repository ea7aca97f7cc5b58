/**
 Safe-mode commands: a timer is armed after a command succeeds, and either the operator confirms
 or the timer rolls the command back. Confirmation, registration and the timer's callback each
 take one mutex; everything between two lock operations interleaves freely.
 */
module SafeMode {
  import opened Wrappers

  datatype Command = Command(key: string, kind: string, payload: string, rollback: string, safeMode: bool, ttl: int)

  /** The condition under which a successful command gets a rollback timer. */
  predicate Arms(cmd: Command) {
    cmd.safeMode && cmd.ttl > 0 && |cmd.rollback| > 0
  }

  /** A timer, from its creation: `Fired` is a callback waiting for the lock, `Locked` one past it. */
  datatype Timer = Running | Fired | Locked | RolledBack | Stopped

  /** What became of the map entry: the last three record who took it out, and in which timer state. */
  datatype Ack = Unregistered | Pending | Confirmed(at: Timer) | Replaced(at: Timer) | Swept(callback: nat)

  /** One call of `armRollback`. Armings are numbered; each has a timer of its own. */
  datatype Arming = Arming(cmd: Command, timer: Timer, ack: Ack)

  /** What is dispatched to the router. */
  datatype Entry = Ran(cmd: Command, ok: bool) | Rollback(arming: nat, kind: string, payload: string)

  datatype State = State(
    pending: map<string, nat>,  // pendingAcks: idempotency key to arming
    armings: seq<Arming>,
    waiting: seq<Command>,      // succeeded, timer not yet created
    log: seq<Entry>)

  const INIT: State := State(map[], [], [], [])

  datatype Event =
    | Run(cmd: Command, ok: bool)
    | CreateTimer(i: nat)
    | Register(a: nat)
    | Fire(a: nat)
    | RollbackLock(a: nat)
    | RollbackDispatch(a: nat)
    | Confirm(key: string)

  /** Map entries denote armings. */
  predicate InRange(s: State) {
    forall k :: k in s.pending ==> s.pending[k] < |s.armings|
  }

  predicate Enabled(s: State, e: Event) {
    InRange(s) &&
    match e
    case Run(_, _) => true
    case CreateTimer(i) => i < |s.waiting|
    case Register(a) => a < |s.armings| && s.armings[a].ack == Unregistered
    case Fire(a) => a < |s.armings| && s.armings[a].timer == Running
    case RollbackLock(a) => a < |s.armings| && s.armings[a].timer == Fired
    case RollbackDispatch(a) => a < |s.armings| && s.armings[a].timer == Locked
    case Confirm(_) => true
  }

  /** `time.Timer.Stop`: no effect on a timer that has fired. */
  function Stop(t: Timer): Timer {
    if t == Running then Stopped else t
  }

  function SetTimer(s: State, a: nat, t: Timer): State
    requires a < |s.armings|
  {
    s.(armings := s.armings[a := s.armings[a].(timer := t)])
  }

  /** Taking the entry of `key` out of the map and recording what happened to it. */
  function TakeOut(s: State, key: string, stop: bool, ack: Ack): State
    requires InRange(s) && key in s.pending
  {
    var x := s.pending[key];
    var entry := s.armings[x];
    s.(pending := s.pending - {key},
       armings := s.armings[x := entry.(timer := if stop then Stop(entry.timer) else entry.timer, ack := ack)])
  }

  function Step(s: State, e: Event): (s': State)
    requires Enabled(s, e)
    ensures InRange(s')
  {
    match e
    case Run(cmd, ok) =>
      s.(log := s.log + [Ran(cmd, ok)], waiting := if ok && Arms(cmd) then s.waiting + [cmd] else s.waiting)
    case CreateTimer(i) =>
      s.(waiting := s.waiting[..i] + s.waiting[i + 1..],
         armings := s.armings + [Arming(s.waiting[i], Running, Unregistered)])
    case Register(a) =>
      var key := s.armings[a].cmd.key;
      var s1 := if key in s.pending
                then TakeOut(s, key, true, Replaced(s.armings[s.pending[key]].timer)) else s;
      s1.(pending := s1.pending[key := a], armings := s1.armings[a := s1.armings[a].(ack := Pending)])
    case Fire(a) => SetTimer(s, a, Fired)
    case RollbackLock(a) =>
      var key := s.armings[a].cmd.key;
      var s1 := SetTimer(s, a, Locked);
      if key in s.pending then TakeOut(s1, key, false, Swept(a)) else s1
    case RollbackDispatch(a) =>
      var cmd := s.armings[a].cmd;
      SetTimer(s, a, RolledBack).(log := s.log + [Rollback(a, cmd.kind, cmd.rollback)])
    case Confirm(key) =>
      if key in s.pending then TakeOut(s, key, true, Confirmed(s.armings[s.pending[key]].timer)) else s
  }

  // ---------- The executor object ----------

  /** `now` is what `was` becomes when its entry is taken out: stopped if it was running, and so recorded. */
  predicate TakenOut(now: Arming, was: Arming, ack: Ack) {
    now == Arming(was.cmd, if was.timer == Running then Stopped else was.timer, ack)
  }

  datatype Response = Response(key: string, success: bool)

  /** `armings`, `waiting` and `log` are the timers, the calls in progress and the router's view. */
  class Executor {
    var pendingAcks: map<string, nat>
    var armings: seq<Arming>
    var waiting: seq<Command>
    var log: seq<Entry>

    function Snapshot(): State
      reads this
    {
      State(pendingAcks, armings, waiting, log)
    }

    constructor ()
      ensures Snapshot() == INIT
    {
      pendingAcks, armings, waiting, log := map[], [], [], [];
    }

    /** The dispatch at the head of `ExecuteWithSafeMode`; `ok` is the router's answer. */
    method DispatchCommand(cmd: Command, ok: bool)
      requires InRange(Snapshot())
      modifies this
      ensures Snapshot() == Step(old(Snapshot()), Run(cmd, ok))
      ensures log == old(log) + [Ran(cmd, ok)] && pendingAcks == old(pendingAcks) && armings == old(armings)
      ensures waiting == old(waiting)
                         + if ok && cmd.safeMode && cmd.ttl > 0 && |cmd.rollback| > 0 then [cmd] else []
    {
      log := log + [Ran(cmd, ok)];
      if ok && cmd.safeMode && cmd.ttl > 0 && |cmd.rollback| > 0 {
        waiting := waiting + [cmd];
      }
    }

    /** `time.AfterFunc` in `armRollback`, before the lock. */
    method StartTimer(i: nat)
      requires Enabled(Snapshot(), CreateTimer(i))
      modifies this
      ensures Snapshot() == Step(old(Snapshot()), CreateTimer(i))
      ensures armings == old(armings) + [Arming(old(waiting)[i], Running, Unregistered)]
      ensures waiting == old(waiting)[..i] + old(waiting)[i + 1..]
      ensures pendingAcks == old(pendingAcks) && log == old(log)
    {
      armings := armings + [Arming(waiting[i], Running, Unregistered)];
      waiting := waiting[..i] + waiting[i + 1..];
    }

    /** The locked part of `armRollback`. */
    method RegisterTimer(a: nat)
      requires Enabled(Snapshot(), Register(a))
      modifies this
      ensures Snapshot() == Step(old(Snapshot()), Register(a))
      ensures pendingAcks == old(pendingAcks)[old(armings)[a].cmd.key := a]
      ensures waiting == old(waiting) && log == old(log) && |armings| == |old(armings)|
      ensures armings[a].cmd == old(armings)[a].cmd && armings[a].ack == Pending
      ensures var key := old(armings)[a].cmd.key;
              && (key in old(pendingAcks) && old(pendingAcks)[key] != a ==>
                    TakenOut(armings[old(pendingAcks)[key]], old(armings)[old(pendingAcks)[key]],
                             Replaced(old(armings)[old(pendingAcks)[key]].timer)))
              && (forall b :: 0 <= b < |armings| && b != a && (key in old(pendingAcks) ==> b != old(pendingAcks)[key])
                    ==> armings[b] == old(armings)[b])
              && ((key in old(pendingAcks) ==> old(pendingAcks)[key] != a) ==>
                    armings[a].timer == old(armings)[a].timer)
    {
      var key := armings[a].cmd.key;
      if key in pendingAcks {
        var x := pendingAcks[key];
        armings := armings[x := armings[x].(timer := Stop(armings[x].timer), ack := Replaced(armings[x].timer))];
        assert (pendingAcks - {key})[key := a] == pendingAcks[key := a];
      }
      armings := armings[a := armings[a].(ack := Pending)];
      pendingAcks := pendingAcks[key := a];
    }

    method TimerFires(a: nat)
      requires Enabled(Snapshot(), Fire(a))
      modifies this
      ensures Snapshot() == Step(old(Snapshot()), Fire(a))
      ensures armings == old(armings)[a := old(armings)[a].(timer := Fired)]
      ensures pendingAcks == old(pendingAcks) && waiting == old(waiting) && log == old(log)
    {
      armings := armings[a := armings[a].(timer := Fired)];
    }

    /** The locked part of `executeRollback`: it deletes by key, without looking at the entry. */
    method CallbackTakesLock(a: nat)
      requires Enabled(Snapshot(), RollbackLock(a))
      modifies this
      ensures Snapshot() == Step(old(Snapshot()), RollbackLock(a))
      ensures pendingAcks == old(pendingAcks) - {old(armings)[a].cmd.key}
      ensures waiting == old(waiting) && log == old(log) && |armings| == |old(armings)|
      ensures var key := old(armings)[a].cmd.key;
              forall b :: 0 <= b < |armings| ==>
                && armings[b].cmd == old(armings)[b].cmd
                && armings[b].timer == (if b == a then Locked else old(armings)[b].timer)
                && armings[b].ack == if key in old(pendingAcks) && b == old(pendingAcks)[key] then Swept(a)
                                     else old(armings)[b].ack
    {
      var key := armings[a].cmd.key;
      armings := armings[a := armings[a].(timer := Locked)];
      if key in pendingAcks {
        var x := pendingAcks[key];
        armings := armings[x := armings[x].(ack := Swept(a))];
      }
      pendingAcks := pendingAcks - {key};
    }

    /** The dispatch of `executeRollback`; its result is only logged. */
    method CallbackDispatches(a: nat)
      requires Enabled(Snapshot(), RollbackDispatch(a))
      modifies this
      ensures Snapshot() == Step(old(Snapshot()), RollbackDispatch(a))
      ensures log == old(log) + [Rollback(a, old(armings)[a].cmd.kind, old(armings)[a].cmd.rollback)]
      ensures armings == old(armings)[a := old(armings)[a].(timer := RolledBack)]
      ensures pendingAcks == old(pendingAcks) && waiting == old(waiting)
    {
      log := log + [Rollback(a, armings[a].cmd.kind, armings[a].cmd.rollback)];
      armings := armings[a := armings[a].(timer := RolledBack)];
    }

    method ConfirmCommand(key: string) returns (found: bool)
      requires InRange(Snapshot())
      modifies this
      ensures found <==> key in old(pendingAcks)
      ensures Snapshot() == Step(old(Snapshot()), Confirm(key))
      ensures pendingAcks == old(pendingAcks) - {key} && waiting == old(waiting) && log == old(log)
      ensures |armings| == |old(armings)|
      ensures key in old(pendingAcks) ==>
        TakenOut(armings[old(pendingAcks)[key]], old(armings)[old(pendingAcks)[key]],
                 Confirmed(old(armings)[old(pendingAcks)[key]].timer))
      ensures forall b :: 0 <= b < |armings| && (key in old(pendingAcks) ==> b != old(pendingAcks)[key]) ==>
        armings[b] == old(armings)[b]
    {
      if key !in pendingAcks {
        assert pendingAcks - {key} == pendingAcks;
        return false;
      }
      var x := pendingAcks[key];
      armings := armings[x := armings[x].(timer := Stop(armings[x].timer), ack := Confirmed(armings[x].timer))];
      pendingAcks := pendingAcks - {key};
      found := true;
    }

    /** A call of `ExecuteWithSafeMode` that nothing interrupts. */
    method ExecuteWithSafeMode(cmd: Command, ok: bool) returns (response: Response)
      requires InRange(Snapshot())
      modifies this
      ensures response == Response(cmd.key, ok)
      ensures var ran := Step(old(Snapshot()), Run(cmd, ok));
              if ok && Arms(cmd) then
                var created := Step(ran, CreateTimer(|old(waiting)|));
                Snapshot() == Step(created, Register(|old(armings)|))
              else Snapshot() == ran
      ensures log == old(log) + [Ran(cmd, ok)] && waiting == old(waiting)
      ensures if ok && cmd.safeMode && cmd.ttl > 0 && |cmd.rollback| > 0 then
                && |armings| == |old(armings)| + 1 && armings[|old(armings)|] == Arming(cmd, Running, Pending)
                && pendingAcks == old(pendingAcks)[cmd.key := |old(armings)|]
                && (cmd.key in old(pendingAcks) ==>
                      TakenOut(armings[old(pendingAcks)[cmd.key]], old(armings)[old(pendingAcks)[cmd.key]],
                               Replaced(old(armings)[old(pendingAcks)[cmd.key]].timer)))
                && (forall b :: 0 <= b < |old(armings)|
                                && (cmd.key in old(pendingAcks) ==> b != old(pendingAcks)[cmd.key])
                      ==> armings[b] == old(armings)[b])
              else pendingAcks == old(pendingAcks) && armings == old(armings)
    {
      DispatchCommand(cmd, ok);
      if !ok { return Response(cmd.key, false); }
      if Arms(cmd) {
        var a := |armings|;
        StartTimer(|waiting| - 1);
        RegisterTimer(a);
      }
      response := Response(cmd.key, true);
    }
  }

  // ---------- Every run, whatever the keys ----------

  /** The map and the recorded fates agree. */
  ghost predicate MapAgrees(s: State) {
    && (forall k :: k in s.pending ==>
          s.pending[k] < |s.armings| && s.armings[s.pending[k]].cmd.key == k && s.armings[s.pending[k]].ack == Pending)
    && (forall a :: 0 <= a < |s.armings| && s.armings[a].ack == Pending ==>
          s.armings[a].cmd.key in s.pending && s.pending[s.armings[a].cmd.key] == a)
  }

  /** A timer is stopped exactly when its entry was taken out while it was running. */
  ghost predicate StopsAgree(s: State) {
    forall a :: 0 <= a < |s.armings| ==>
      (s.armings[a].timer == Stopped
       <==> s.armings[a].ack == Confirmed(Running) || s.armings[a].ack == Replaced(Running))
  }

  function Rollbacks(log: seq<Entry>, a: nat): nat {
    if log == [] then 0
    else Rollbacks(log[..|log| - 1], a) + if log[|log| - 1].Rollback? && log[|log| - 1].arming == a then 1 else 0
  }

  /** Each arming has dispatched its rollback once if its timer says so, and otherwise never. */
  ghost predicate CountsAgree(s: State) {
    forall a: nat :: Rollbacks(s.log, a) == if a < |s.armings| && s.armings[a].timer == RolledBack then 1 else 0
  }

  ghost predicate Succeeded(log: seq<Entry>, cmd: Command) {
    Arms(cmd) && Ran(cmd, true) in log
  }

  /** A rollback in the log is that of an armed command that had succeeded before. */
  ghost predicate Justified(s: State, i: nat)
    requires i < |s.log|
  {
    s.log[i].Rollback? ==>
      && s.log[i].arming < |s.armings|
      && var cmd := s.armings[s.log[i].arming].cmd;
      && s.log[i].kind == cmd.kind && s.log[i].payload == cmd.rollback
      && Succeeded(s.log[..i], cmd)
  }

  ghost predicate LogAgrees(s: State) {
    && (forall c :: c in s.waiting ==> Succeeded(s.log, c))
    && (forall a :: 0 <= a < |s.armings| ==> Succeeded(s.log, s.armings[a].cmd))
    && (forall i :: 0 <= i < |s.log| ==> Justified(s, i))
  }

  ghost predicate Sound(s: State) {
    MapAgrees(s) && StopsAgree(s) && CountsAgree(s) && LogAgrees(s)
  }

  lemma TakeOutKeepsMap(s: State, key: string, stop: bool, ack: Ack)
    requires MapAgrees(s) && InRange(s) && key in s.pending && ack != Pending
    ensures MapAgrees(TakeOut(s, key, stop, ack)) && key !in TakeOut(s, key, stop, ack).pending
    ensures |TakeOut(s, key, stop, ack).armings| == |s.armings|
    ensures forall a :: 0 <= a < |s.armings| ==> TakeOut(s, key, stop, ack).armings[a].cmd == s.armings[a].cmd
  {
  }

  lemma SetTimerKeepsMap(s: State, a: nat, t: Timer)
    requires MapAgrees(s) && a < |s.armings|
    ensures MapAgrees(SetTimer(s, a, t))
  {
  }

  lemma PutInKeepsMap(s: State, a: nat)
    requires MapAgrees(s) && a < |s.armings| && s.armings[a].cmd.key !in s.pending
    ensures MapAgrees(s.(pending := s.pending[s.armings[a].cmd.key := a],
                         armings := s.armings[a := s.armings[a].(ack := Pending)]))
  {
  }

  lemma LogKeepsMap(s: State, log: seq<Entry>)
    requires MapAgrees(s)
    ensures MapAgrees(s.(log := log))
  {
  }

  lemma NewKeepsMap(s: State, e: Event)
    requires MapAgrees(s) && Enabled(s, e) && (e.Run? || e.CreateTimer?)
    ensures MapAgrees(Step(s, e))
  {
  }

  /** The map and the recorded fates agree after every step. */
  lemma MapStep(s: State, e: Event)
    requires MapAgrees(s) && Enabled(s, e)
    ensures MapAgrees(Step(s, e))
  {
    hide MapAgrees, TakeOut;
    match e
    case Register(a) =>
      var key := s.armings[a].cmd.key;
      if key in s.pending {
        var ack := Replaced(s.armings[s.pending[key]].timer);
        TakeOutKeepsMap(s, key, true, ack);
        PutInKeepsMap(TakeOut(s, key, true, ack), a);
      } else {
        PutInKeepsMap(s, a);
      }
    case Fire(a) => SetTimerKeepsMap(s, a, Fired);
    case RollbackLock(a) =>
      SetTimerKeepsMap(s, a, Locked);
      if s.armings[a].cmd.key in s.pending {
        TakeOutKeepsMap(SetTimer(s, a, Locked), s.armings[a].cmd.key, false, Swept(a));
      }
    case RollbackDispatch(a) =>
      SetTimerKeepsMap(s, a, RolledBack);
      LogKeepsMap(SetTimer(s, a, RolledBack), Step(s, e).log);
    case Confirm(key) =>
      if key in s.pending { TakeOutKeepsMap(s, key, true, Confirmed(s.armings[s.pending[key]].timer)); }
    case _ => NewKeepsMap(s, e);
  }

  lemma StopsStep(s: State, e: Event)
    requires MapAgrees(s) && StopsAgree(s) && Enabled(s, e)
    ensures StopsAgree(Step(s, e))
  {
  }

  /** A timer becomes `RolledBack` by dispatching its rollback, and stays so. */
  lemma RolledBackStep(s: State, e: Event, a: nat)
    requires Enabled(s, e)
    ensures |s.armings| <= |Step(s, e).armings|
    ensures a < |Step(s, e).armings| ==>
      (Step(s, e).armings[a].timer == RolledBack
       <==> (a < |s.armings| && s.armings[a].timer == RolledBack) || e == RollbackDispatch(a))
  {
  }

  lemma RollbacksStep(s: State, e: Event, a: nat)
    requires Enabled(s, e)
    ensures Rollbacks(Step(s, e).log, a) == Rollbacks(s.log, a) + if e == RollbackDispatch(a) then 1 else 0
  {
    var s' := Step(s, e);
    if e.Run? || e.RollbackDispatch? {
      assert s'.log[..|s'.log| - 1] == s.log;
    }
  }

  lemma CountsStep(s: State, e: Event)
    requires CountsAgree(s) && Enabled(s, e)
    ensures CountsAgree(Step(s, e))
  {
    hide Step, Rollbacks;
    forall a: nat ensures Rollbacks(Step(s, e).log, a)
                       == if a < |Step(s, e).armings| && Step(s, e).armings[a].timer == RolledBack then 1 else 0
    {
      RolledBackStep(s, e, a);
      RollbacksStep(s, e, a);
    }
  }

  /** A rollback is logged with its arming; everything else a step logs is a command's own dispatch. */
  lemma LogGrows(s: State, e: Event)
    requires MapAgrees(s) && Enabled(s, e)
    ensures Step(s, e).log == match e
                              case Run(cmd, ok) => s.log + [Ran(cmd, ok)]
                              case RollbackDispatch(a) =>
                                s.log + [Rollback(a, s.armings[a].cmd.kind, s.armings[a].cmd.rollback)]
                              case _ => s.log
    ensures |s.armings| <= |Step(s, e).armings|
    ensures forall a :: 0 <= a < |s.armings| ==> Step(s, e).armings[a].cmd == s.armings[a].cmd
    ensures forall a :: |s.armings| <= a < |Step(s, e).armings| ==> Step(s, e).armings[a].cmd in s.waiting
    ensures forall c :: c in Step(s, e).waiting ==> c in s.waiting || (Arms(c) && e == Run(c, true))
  {
  }

  lemma SucceededStays(log: seq<Entry>, more: seq<Entry>, cmd: Command)
    requires Succeeded(log, cmd)
    ensures Succeeded(log + more, cmd)
  {
  }

  lemma LogStep(s: State, e: Event)
    requires MapAgrees(s) && LogAgrees(s) && Enabled(s, e)
    ensures LogAgrees(Step(s, e))
  {
    LogGrows(s, e);
    hide Step, MapAgrees, Enabled;
    var s' := Step(s, e);
    var more := s'.log[|s.log|..];
    assert s'.log == s.log + more;
    forall c | Succeeded(s.log, c) ensures Succeeded(s'.log, c) { SucceededStays(s.log, more, c); }
    forall i | 0 <= i < |s'.log| ensures Justified(s', i) {
      assert s'.log[..i] == if i < |s.log| then s.log[..i] else s.log;
      if i < |s.log| { assert Justified(s, i); }
    }
  }

  ghost predicate Valid(s: State, events: seq<Event>)
    decreases |events|
  {
    events == [] || (Enabled(s, events[0]) && Valid(Step(s, events[0]), events[1..]))
  }

  ghost function After(s: State, events: seq<Event>): State
    requires Valid(s, events)
    decreases |events|
  {
    if events == [] then s else After(Step(s, events[0]), events[1..])
  }

  /**
   Over every run: the map holds exactly the entries recorded as pending, each arming dispatches
   at most one rollback, and only for a safe-mode command that succeeded earlier.
   */
  lemma {:induction false} RunSound(s: State, events: seq<Event>)
    requires Sound(s) && Valid(s, events)
    ensures Sound(After(s, events))
    decreases |events|
  {
    if events != [] {
      hide Step, Sound;
      SoundStep(s, events[0]);
      RunSound(Step(s, events[0]), events[1..]);
    }
  }

  lemma InitSound()
    ensures Sound(INIT)
  {
  }

  /** The number of rollbacks of an arming, in terms of the log. */
  lemma {:induction false} RollbacksMeans(log: seq<Entry>, a: nat)
    ensures Rollbacks(log, a) == 0 <==> forall i :: 0 <= i < |log| && log[i].Rollback? ==> log[i].arming != a
    ensures Rollbacks(log, a) <= 1 <==>
            forall i, j :: 0 <= i < j < |log| && log[i].Rollback? && log[j].Rollback? ==>
              log[i].arming != a || log[j].arming != a
  {
    if log != [] {
      var n := |log| - 1;
      RollbacksMeans(log[..n], a);
      assert forall i :: 0 <= i < n ==> log[..n][i] == log[i];
    }
  }

  /**
   From the start, whatever the keys: every rollback dispatched carries the payload of a safe-mode command
   with a TTL whose own dispatch succeeded before, and no arming is rolled back twice.
   */
  lemma EveryRun(events: seq<Event>)
    requires Valid(INIT, events)
    ensures var s := After(INIT, events);
            && (forall i :: 0 <= i < |s.log| && s.log[i].Rollback? ==>
                  && s.log[i].arming < |s.armings|
                  && var cmd := s.armings[s.log[i].arming].cmd;
                  && s.log[i] == Rollback(s.log[i].arming, cmd.kind, cmd.rollback)
                  && cmd.safeMode && cmd.ttl > 0 && |cmd.rollback| > 0
                  && exists j :: 0 <= j < i && s.log[j] == Ran(cmd, true))
            && (forall i, j :: 0 <= i < j < |s.log| && s.log[i].Rollback? && s.log[j].Rollback? ==>
                  s.log[i].arming != s.log[j].arming)
  {
    hide Valid, After, Rollbacks;
    InitSound();
    RunSound(INIT, events);
    var s := After(INIT, events);
    hide MapAgrees, StopsAgree;
    forall i | 0 <= i < |s.log| && s.log[i].Rollback?
      ensures s.log[i].arming < |s.armings|
      ensures var cmd := s.armings[s.log[i].arming].cmd;
              && s.log[i] == Rollback(s.log[i].arming, cmd.kind, cmd.rollback)
              && cmd.safeMode && cmd.ttl > 0 && |cmd.rollback| > 0
              && exists j :: 0 <= j < i && s.log[j] == Ran(cmd, true)
    {
      JustifiedMeans(s, i);
    }
    forall i, j | 0 <= i < j < |s.log| && s.log[i].Rollback? && s.log[j].Rollback?
      ensures s.log[i].arming != s.log[j].arming
    {
      RollbacksMeans(s.log, s.log[i].arming);
    }
  }

  lemma JustifiedMeans(s: State, i: nat)
    requires LogAgrees(s) && i < |s.log| && s.log[i].Rollback?
    ensures s.log[i].arming < |s.armings|
    ensures var cmd := s.armings[s.log[i].arming].cmd;
            && s.log[i] == Rollback(s.log[i].arming, cmd.kind, cmd.rollback)
            && cmd.safeMode && cmd.ttl > 0 && |cmd.rollback| > 0
            && exists j :: 0 <= j < i && s.log[j] == Ran(cmd, true)
  {
    assert Justified(s, i);
    var cmd := s.armings[s.log[i].arming].cmd;
    var j :| 0 <= j < i && s.log[..i][j] == Ran(cmd, true);
    assert s.log[j] == Ran(cmd, true);
  }

  // ---------- Confirming in time ----------

  lemma StoppedStep(s: State, e: Event, a: nat)
    requires Enabled(s, e) && a < |s.armings| && s.armings[a].timer == Stopped
    ensures var s' := Step(s, e); a < |s'.armings| && s'.armings[a].timer == Stopped
  {
  }

  lemma {:induction false} StoppedForGood(s: State, events: seq<Event>, a: nat)
    requires Valid(s, events) && a < |s.armings| && s.armings[a].timer == Stopped
    ensures var s' := After(s, events); a < |s'.armings| && s'.armings[a].timer == Stopped
    decreases |events|
  {
    if events != [] {
      hide Step;
      StoppedStep(s, events[0], a);
      StoppedForGood(Step(s, events[0]), events[1..], a);
    }
  }

  /**
   A confirmation that finds the timer still running guarantees that this arming's rollback is
   never dispatched, in any continuation and even when keys are used again.
   */
  lemma ConfirmInTimeIsFinal(s: State, key: string, events: seq<Event>)
    requires Sound(s) && InRange(s)
    requires key in s.pending && s.armings[s.pending[key]].timer == Running
    requires Valid(Step(s, Confirm(key)), events)
    ensures Rollbacks(After(Step(s, Confirm(key)), events).log, s.pending[key]) == 0
  {
    var confirmed := Step(s, Confirm(key));
    assert After(s, [Confirm(key)]) == confirmed by {
      assert [Confirm(key)][1..] == [];
      assert After(confirmed, []) == confirmed;
    }
    RunSound(s, [Confirm(key)]);
    StoppedForGood(confirmed, events, s.pending[key]);
    RunSound(confirmed, events);
  }

  /** A command both confirmed and rolled back was confirmed after its timer had fired. */
  lemma ConfirmedAndRolledBack(s: State, a: nat)
    requires Sound(s) && a < |s.armings| && s.armings[a].ack.Confirmed? && Rollbacks(s.log, a) > 0
    ensures s.armings[a].ack.at != Running
  {
  }

  // ---------- The partition ----------

  datatype Class = Armed | Expiring | ConfirmedInTime | ConfirmedLate | RollingBack | RolledBackClass

  /** The class of a registered arming; `None` for the mixtures that should not occur. */
  function ClassOf(s: State, a: nat): Option<Class>
    requires a < |s.armings|
  {
    match (s.armings[a].timer, s.armings[a].ack)
    case (Running, Pending) => Some(Armed)
    case (Fired, Pending) => Some(Expiring)
    case (Stopped, Confirmed(Running)) => Some(ConfirmedInTime)
    case (Fired, Confirmed(Fired)) => Some(ConfirmedLate)
    case (Locked, Confirmed(Fired)) => Some(RollingBack)
    case (Locked, Swept(b)) => if a == b then Some(RollingBack) else None
    case (RolledBack, Confirmed(Fired)) => Some(RolledBackClass)
    case (RolledBack, Swept(b)) => if a == b then Some(RolledBackClass) else None
    case _ => None
  }

  ghost predicate Partitioned(s: State) {
    && MapAgrees(s) && StopsAgree(s)
    && forall a :: 0 <= a < |s.armings| && s.armings[a].ack != Unregistered ==> ClassOf(s, a).Some?
  }

  /**
   What keeps the partition: a timer is registered before its callback got the lock and under a
   key that has no entry, and a callback finds no entry but its own under its key.
   */
  predicate Guard(s: State, e: Event)
    requires Enabled(s, e)
  {
    match e
    case Register(a) => s.armings[a].cmd.key !in s.pending && s.armings[a].timer in {Running, Fired}
    case RollbackLock(a) => s.armings[a].cmd.key in s.pending ==> s.pending[s.armings[a].cmd.key] == a
    case _ => true
  }

  lemma GuardKeepsClass(s: State, e: Event, a: nat)
    requires Partitioned(s) && Enabled(s, e) && Guard(s, e)
    requires a < |Step(s, e).armings| && Step(s, e).armings[a].ack != Unregistered
    ensures ClassOf(Step(s, e), a).Some?
  {
    if a < |s.armings| && s.armings[a].ack != Unregistered { assert ClassOf(s, a).Some?; }
  }

  /** The arming that falls out of the partition when the guard is not met. */
  lemma UnguardedLosesClass(s: State, e: Event) returns (a: nat)
    requires Partitioned(s) && Enabled(s, e) && !Guard(s, e)
    ensures a < |Step(s, e).armings| && Step(s, e).armings[a].ack != Unregistered && ClassOf(Step(s, e), a) == None
  {
    var key := s.armings[e.a].cmd.key;
    a := if key in s.pending then s.pending[key] else e.a;
  }

  /** A step keeps every registered arming in exactly one class if and only if it meets the guard. */
  lemma PartitionStep(s: State, e: Event)
    requires Partitioned(s) && Enabled(s, e)
    ensures Partitioned(Step(s, e)) <==> Guard(s, e)
  {
    MapStep(s, e);
    StopsStep(s, e);
    hide Step, ClassOf, MapAgrees, StopsAgree, Enabled, Guard;
    var s' := Step(s, e);
    if Guard(s, e) {
      forall a | 0 <= a < |s'.armings| && s'.armings[a].ack != Unregistered ensures ClassOf(s', a).Some? {
        GuardKeepsClass(s, e, a);
      }
    } else {
      var a := UnguardedLosesClass(s, e);
    }
  }

  /** In a partitioned state the map holds exactly the armed and the expiring ones. */
  lemma PendingIsArmedOrExpiring(s: State, a: nat)
    requires Partitioned(s) && a < |s.armings|
    ensures var key := s.armings[a].cmd.key;
            (key in s.pending && s.pending[key] == a) <==> ClassOf(s, a) in {Some(Armed), Some(Expiring)}
  {
    if s.armings[a].ack != Unregistered { assert ClassOf(s, a).Some?; }
  }

  /** Confirmed and yet rolling back: only if the confirmation came between firing and locking. */
  lemma LateConfirmOnly(s: State, a: nat)
    requires Partitioned(s) && a < |s.armings| && s.armings[a].ack.Confirmed?
    ensures s.armings[a].timer in {Locked, RolledBack} ==> s.armings[a].ack.at == Fired
    ensures s.armings[a].ack.at == Running ==> ClassOf(s, a) == Some(ConfirmedInTime)
  {
    assert ClassOf(s, a).Some?;
  }

  // ---------- Distinct keys, registration before firing ----------

  ghost predicate DistinctKeys(s: State) {
    && (forall i, j :: 0 <= i < j < |s.waiting| ==> s.waiting[i].key != s.waiting[j].key)
    && (forall a, b :: 0 <= a < b < |s.armings| ==> s.armings[a].cmd.key != s.armings[b].cmd.key)
    && (forall i, a :: 0 <= i < |s.waiting| && 0 <= a < |s.armings| ==> s.waiting[i].key != s.armings[a].cmd.key)
  }

  ghost predicate Orderly(s: State) {
    && Partitioned(s) && DistinctKeys(s)
    && forall a :: 0 <= a < |s.armings| && s.armings[a].ack == Unregistered ==> s.armings[a].timer == Running
  }

  /** A command that arms has a key not used before; a timer fires only once registered. */
  ghost predicate Disciplined(s: State, e: Event)
    requires Enabled(s, e)
  {
    match e
    case Run(cmd, ok) =>
      ok && Arms(cmd) ==>
        && (forall i :: 0 <= i < |s.waiting| ==> s.waiting[i].key != cmd.key)
        && (forall a :: 0 <= a < |s.armings| ==> s.armings[a].cmd.key != cmd.key)
    case Fire(a) => s.armings[a].ack != Unregistered
    case _ => true
  }

  ghost predicate DisciplinedRun(s: State, events: seq<Event>)
    requires Valid(s, events)
    decreases |events|
  {
    events == [] || (Disciplined(s, events[0]) && DisciplinedRun(Step(s, events[0]), events[1..]))
  }

  lemma DisciplineMeetsGuard(s: State, e: Event)
    requires Orderly(s) && Enabled(s, e)
    ensures Guard(s, e)
  {
    match e
    case Register(a) =>
      assert forall k :: k in s.pending ==> s.pending[k] != a;
    case RollbackLock(a) =>
      var key := s.armings[a].cmd.key;
      assert key in s.pending ==> s.armings[s.pending[key]].cmd.key == key;
    case _ =>
  }

  lemma KeysStep(s: State, e: Event)
    requires DistinctKeys(s) && Enabled(s, e) && Disciplined(s, e)
    ensures DistinctKeys(Step(s, e))
  {
    var s' := Step(s, e);
    if e.CreateTimer? {
      assert forall i :: 0 <= i < |s'.waiting| ==> s'.waiting[i] == s.waiting[if i < e.i then i else i + 1];
      assert s'.armings[|s.armings|].cmd == s.waiting[e.i];
    } else {
      assert forall a :: 0 <= a < |s.armings| ==> s'.armings[a].cmd == s.armings[a].cmd;
    }
  }

  lemma UnregisteredStep(s: State, e: Event)
    requires Orderly(s) && Enabled(s, e) && Disciplined(s, e)
    ensures var s' := Step(s, e);
            forall a :: 0 <= a < |s'.armings| && s'.armings[a].ack == Unregistered ==> s'.armings[a].timer == Running
  {
  }

  /** In every run with distinct keys and registration before firing, the partition holds throughout. */
  lemma {:induction false} DisciplinedRunOrderly(s: State, events: seq<Event>)
    requires Orderly(s) && Valid(s, events) && DisciplinedRun(s, events)
    ensures Orderly(After(s, events))
    decreases |events|
  {
    if events != [] {
      hide Step, Partitioned, DistinctKeys, Disciplined, Guard;
      DisciplineMeetsGuard(s, events[0]);
      PartitionStep(s, events[0]);
      KeysStep(s, events[0]);
      UnregisteredStep(s, events[0]);
      DisciplinedRunOrderly(Step(s, events[0]), events[1..]);
    }
  }

  lemma InitOrderly()
    ensures Orderly(INIT)
  {
  }

  /** From the start: every registered arming is in a class, and the map holds the armed and the expiring. */
  lemma EveryDisciplinedRun(events: seq<Event>, a: nat)
    requires Valid(INIT, events) && DisciplinedRun(INIT, events)
    requires a < |After(INIT, events).armings| && After(INIT, events).armings[a].ack != Unregistered
    ensures var s := After(INIT, events);
            && ClassOf(s, a).Some?
            && ((s.armings[a].cmd.key in s.pending && s.pending[s.armings[a].cmd.key] == a)
                <==> ClassOf(s, a).value in {Armed, Expiring})
            && (s.armings[a].ack.Confirmed? && Rollbacks(s.log, a) > 0 ==> s.armings[a].ack.at == Fired)
  {
    InitOrderly();
    InitSound();
    DisciplinedRunOrderly(INIT, events);
    RunSound(INIT, events);
    hide Valid, After, DisciplinedRun, MapAgrees, StopsAgree, LogAgrees;
    var s := After(INIT, events);
    PendingIsArmedOrExpiring(s, a);
    assert ClassOf(s, a).Some?;
    if s.armings[a].ack.Confirmed? && Rollbacks(s.log, a) > 0 {
      LateConfirmOnly(s, a);
      assert s.armings[a].timer == RolledBack;
    }
  }

  // ---------- Draining ----------

  function Weight(t: Timer): nat {
    match t case Running => 3 case Fired => 2 case Locked => 1 case RolledBack => 0 case Stopped => 0
  }

  function Weights(armings: seq<Arming>): nat {
    if armings == [] then 0 else Weights(armings[..|armings| - 1]) + Weight(armings[|armings| - 1].timer)
  }

  function Measure(s: State): nat {
    Weights(s.armings) + |s.pending|
  }

  /** How many timers are in the given state. */
  function Timers(armings: seq<Arming>, t: Timer): nat {
    if armings == [] then 0
    else Timers(armings[..|armings| - 1], t) + if armings[|armings| - 1].timer == t then 1 else 0
  }

  /** The measure: three for a running timer, two for a fired one, one for one past the lock, one for an entry. */
  lemma {:induction false} MeasureIs(s: State)
    ensures Measure(s)
         == 3 * Timers(s.armings, Running) + 2 * Timers(s.armings, Fired) + Timers(s.armings, Locked) + |s.pending|
    decreases |s.armings|
  {
    if s.armings != [] {
      MeasureIs(s.(armings := s.armings[..|s.armings| - 1]));
    }
  }

  lemma {:induction false} WeightsUpdate(armings: seq<Arming>, a: nat, x: Arming)
    requires a < |armings|
    ensures Weights(armings[a := x]) + Weight(armings[a].timer) == Weights(armings) + Weight(x.timer)
  {
    var n := |armings| - 1;
    if a == n {
      assert armings[a := x][..n] == armings[..n];
    } else {
      WeightsUpdate(armings[..n], a, x);
      assert armings[a := x][..n] == armings[..n][a := x];
    }
  }

  /** A step of a timer, or a confirmation that finds an entry. */
  predicate Drains(s: State, e: Event) {
    match e
    case Fire(_) => true
    case RollbackLock(_) => true
    case RollbackDispatch(_) => true
    case Confirm(key) => key in s.pending
    case _ => false
  }

  lemma RemoveShrinks(m: map<string, nat>, key: string)
    ensures |m - {key}| == if key in m then |m| - 1 else |m|
  {
    assert (m - {key}).Keys == m.Keys - {key};
    assert |m| == |m.Keys| && |m - {key}| == |(m - {key}).Keys|;
  }

  /** Every such step strictly lowers the measure, in every state. */
  lemma DrainStep(s: State, e: Event)
    requires Enabled(s, e) && Drains(s, e)
    ensures Measure(Step(s, e)) < Measure(s)
  {
    match e
    case Fire(a) =>
      WeightsUpdate(s.armings, a, s.armings[a].(timer := Fired));
    case RollbackLock(a) =>
      var key := s.armings[a].cmd.key;
      var s1 := SetTimer(s, a, Locked);
      WeightsUpdate(s.armings, a, s1.armings[a]);
      if key in s.pending {
        var x := s.pending[key];
        WeightsUpdate(s1.armings, x, s1.armings[x].(ack := Swept(a)));
        RemoveShrinks(s.pending, key);
      }
    case RollbackDispatch(a) =>
      WeightsUpdate(s.armings, a, s.armings[a].(timer := RolledBack));
    case Confirm(key) =>
      var x := s.pending[key];
      WeightsUpdate(s.armings, x, Step(s, e).armings[x]);
      RemoveShrinks(s.pending, key);
  }

  /** No command arrives and none on its way to a timer goes on. */
  predicate NothingNew(events: seq<Event>) {
    forall i :: 0 <= i < |events| ==> !events[i].Run? && !events[i].CreateTimer? && !events[i].Register?
  }

  /** How many events of the run drain; the others are confirmations that find nothing. */
  ghost function DrainCount(s: State, events: seq<Event>): nat
    requires Valid(s, events)
    decreases |events|
  {
    if events == [] then 0
    else (if Drains(s, events[0]) then 1 else 0) + DrainCount(Step(s, events[0]), events[1..])
  }

  /** So in any run without anything new, at most `Measure(s)` steps have any effect. */
  lemma {:induction false} DrainBound(s: State, events: seq<Event>)
    requires Valid(s, events) && NothingNew(events)
    ensures DrainCount(s, events) <= Measure(s) - Measure(After(s, events))
    decreases |events|
  {
    if events != [] {
      assert !events[0].Run? && !events[0].CreateTimer? && !events[0].Register?;
      assert !Drains(s, events[0]) ==> Step(s, events[0]) == s;
      hide Step, Measure;
      if Drains(s, events[0]) { DrainStep(s, events[0]); }
      assert NothingNew(events[1..]);
      DrainBound(Step(s, events[0]), events[1..]);
    }
  }

  ghost predicate TimersDone(s: State) {
    forall a :: 0 <= a < |s.armings| ==> s.armings[a].timer !in {Running, Fired, Locked}
  }

  /** When no timer step is left, every armed command has been confirmed or rolled back. */
  lemma DrainedIsResolved(s: State)
    requires Orderly(s) && TimersDone(s)
    ensures s.pending == map[]
    ensures forall a :: 0 <= a < |s.armings| ==> ClassOf(s, a) in {Some(ConfirmedInTime), Some(RolledBackClass)}
  {
    forall a | 0 <= a < |s.armings| ensures ClassOf(s, a) in {Some(ConfirmedInTime), Some(RolledBackClass)} {
      assert s.armings[a].ack != Unregistered;
      assert ClassOf(s, a).Some?;
    }
    assert forall a :: 0 <= a < |s.armings| ==> s.armings[a].ack != Pending;
    assert forall k :: k !in s.pending;
  }

  // ---------- What can go wrong, and a callback that looks again ----------

  lemma RunNone(s: State)
    ensures Valid(s, []) && After(s, []) == s
  {
  }

  lemma RunCons(s: State, e: Event, events: seq<Event>)
    requires Enabled(s, e) && Valid(Step(s, e), events)
    ensures Valid(s, [e] + events) && After(s, [e] + events) == After(Step(s, e), events)
  {
    assert ([e] + events)[1..] == events;
  }

  /** The next step of a timer that was not stopped. */
  function NextOf(t: Timer, a: nat): Event
    requires t in {Running, Fired, Locked}
  {
    if t == Running then Fire(a) else if t == Fired then RollbackLock(a) else RollbackDispatch(a)
  }

  lemma NextStep(s: State, a: nat)
    requires InRange(s) && a < |s.armings| && s.armings[a].timer in {Running, Fired, Locked}
    ensures var e := NextOf(s.armings[a].timer, a);
            && Enabled(s, e)
            && a < |Step(s, e).armings|
            && Step(s, e).armings[a].timer
               == if s.armings[a].timer == Running then Fired
                  else if s.armings[a].timer == Fired then Locked else RolledBack
  {
  }

  /** A timer that was not stopped can always go on to roll back. */
  lemma {:induction false} UnstoppedRollsBack(s: State, a: nat) returns (events: seq<Event>)
    requires Sound(s) && InRange(s) && a < |s.armings| && s.armings[a].timer != Stopped
    ensures Valid(s, events) && Rollbacks(After(s, events).log, a) == 1
    decreases Weight(s.armings[a].timer)
  {
    hide Step, Valid, After, MapAgrees, StopsAgree, LogAgrees, Rollbacks;
    RunNone(s);
    events := [];
    if s.armings[a].timer != RolledBack {
      NextStep(s, a);
      var e := NextOf(s.armings[a].timer, a);
      SoundStep(s, e);
      events := UnstoppedRollsBack(Step(s, e), a);
      RunCons(s, e, events);
      events := [e] + events;
    }
  }

  lemma SoundStep(s: State, e: Event)
    requires Sound(s) && Enabled(s, e)
    ensures Sound(Step(s, e))
  {
    hide Step, MapAgrees, StopsAgree, CountsAgree, LogAgrees;
    MapStep(s, e);
    StopsStep(s, e);
    CountsStep(s, e);
    LogStep(s, e);
  }

  /**
   A confirmation that returns true keeps its promise, that no continuation dispatches the rollback,
   if and only if it finds the timer running. In every sound state, whatever the keys and however
   early a timer fires.
   */
  lemma ConfirmIsFinalExactly(s: State, key: string)
    requires Sound(s) && InRange(s) && key in s.pending
    ensures var confirmed := Step(s, Confirm(key));
            (forall events :: Valid(confirmed, events) ==> Rollbacks(After(confirmed, events).log, s.pending[key]) == 0)
            <==> s.armings[s.pending[key]].timer == Running
  {
    var a, confirmed := s.pending[key], Step(s, Confirm(key));
    assert confirmed.armings[a].timer == Stop(s.armings[a].timer) && s.armings[a].timer != Stopped;
    SoundStep(s, Confirm(key));
    hide Step, Valid, After, Sound, Rollbacks;
    if s.armings[a].timer == Running {
      forall events | Valid(confirmed, events) ensures Rollbacks(After(confirmed, events).log, a) == 0 {
        ConfirmInTimeIsFinal(s, key, events);
      }
    } else {
      var events := UnstoppedRollsBack(confirmed, a);
      assert Valid(confirmed, events) && Rollbacks(After(confirmed, events).log, a) == 1;
    }
  }

  // ---------- How runs leave the partition ----------

  /** `e` takes `s` to `next`. */
  ghost predicate Leads(s: State, e: Event, next: State) {
    Enabled(s, e) && Step(s, e) == next
  }

  lemma RunLeads(s: State, e: Event, next: State, events: seq<Event>)
    requires Leads(s, e, next) && Valid(next, events)
    ensures Valid(s, [e] + events) && After(s, [e] + events) == After(next, events)
  {
    hide Step, Enabled;
    RunCons(s, e, events);
  }

  /** One command, executed twice. */
  function Reuse(cmd: Command): seq<Event> {
    [Run(cmd, true)] + ([CreateTimer(0)] + ([Register(0)] + ([Run(cmd, true)] + ([CreateTimer(0)] + []))))
  }

  function ReuseState(cmd: Command, n: nat): State {
    var ran := [Ran(cmd, true)];
    if n == 0 then INIT
    else if n == 1 then State(map[], [], [cmd], ran)
    else if n == 2 then State(map[], [Arming(cmd, Running, Unregistered)], [], ran)
    else if n == 3 then State(map[cmd.key := 0], [Arming(cmd, Running, Pending)], [], ran)
    else if n == 4 then State(map[cmd.key := 0], [Arming(cmd, Running, Pending)], [cmd], ran + ran)
    else State(map[cmd.key := 0], [Arming(cmd, Running, Pending), Arming(cmd, Running, Unregistered)], [], ran + ran)
  }

  lemma ReuseSteps(cmd: Command)
    requires Arms(cmd)
    ensures Leads(ReuseState(cmd, 0), Run(cmd, true), ReuseState(cmd, 1))
    ensures Leads(ReuseState(cmd, 1), CreateTimer(0), ReuseState(cmd, 2))
    ensures Leads(ReuseState(cmd, 2), Register(0), ReuseState(cmd, 3))
    ensures Leads(ReuseState(cmd, 3), Run(cmd, true), ReuseState(cmd, 4))
    ensures Leads(ReuseState(cmd, 4), CreateTimer(0), ReuseState(cmd, 5))
  {
  }

  lemma ReusedEntryReplaced(cmd: Command)
    ensures var s := ReuseState(cmd, 5);
            && Partitioned(s) && Enabled(s, Register(1)) && !Guard(s, Register(1))
            && var s' := Step(s, Register(1));
               s'.armings[0].ack == Replaced(Running) && ClassOf(s', 0) == None
  {
  }

  /** Using a key again does take an arming out of the classes: the one whose entry is replaced. */
  lemma ReusedKeyLeaves(cmd: Command)
    requires Arms(cmd)
    ensures Valid(INIT, Reuse(cmd))
    ensures var s := After(INIT, Reuse(cmd));
            && Partitioned(s) && Enabled(s, Register(1)) && !Guard(s, Register(1))
            && var s' := Step(s, Register(1));
               s'.armings[0].ack == Replaced(Running) && ClassOf(s', 0) == None
  {
    ReuseSteps(cmd);
    ReusedEntryReplaced(cmd);
    assert ReuseState(cmd, 0) == INIT;
    hide Valid, After, Leads, Step, Partitioned, Guard, Enabled, ReuseState, ClassOf;
    var last := ReuseState(cmd, 5);
    RunNone(last);
    RunLeads(ReuseState(cmd, 4), CreateTimer(0), last, []);
    RunLeads(ReuseState(cmd, 3), Run(cmd, true), ReuseState(cmd, 4), [CreateTimer(0)] + []);
    var again := [Run(cmd, true)] + ([CreateTimer(0)] + []);
    RunLeads(ReuseState(cmd, 2), Register(0), ReuseState(cmd, 3), again);
    RunLeads(ReuseState(cmd, 1), CreateTimer(0), ReuseState(cmd, 2), [Register(0)] + again);
    RunLeads(ReuseState(cmd, 0), Run(cmd, true), ReuseState(cmd, 1), [CreateTimer(0)] + ([Register(0)] + again));
  }

  /** A timer that fires, and whose callback takes the lock, before the timer is registered. */
  function EarlyTimer(cmd: Command): seq<Event> {
    [Run(cmd, true)] + ([CreateTimer(0)] + ([Fire(0)] + ([RollbackLock(0)] + [])))
  }

  function EarlyState(cmd: Command, n: nat): State {
    var ran := [Ran(cmd, true)];
    if n == 0 then INIT
    else if n == 1 then State(map[], [], [cmd], ran)
    else if n == 2 then State(map[], [Arming(cmd, Running, Unregistered)], [], ran)
    else if n == 3 then State(map[], [Arming(cmd, Fired, Unregistered)], [], ran)
    else State(map[], [Arming(cmd, Locked, Unregistered)], [], ran)
  }

  lemma EarlySteps(cmd: Command)
    requires Arms(cmd)
    ensures Leads(EarlyState(cmd, 0), Run(cmd, true), EarlyState(cmd, 1))
    ensures Leads(EarlyState(cmd, 1), CreateTimer(0), EarlyState(cmd, 2))
    ensures Leads(EarlyState(cmd, 2), Fire(0), EarlyState(cmd, 3))
    ensures Leads(EarlyState(cmd, 3), RollbackLock(0), EarlyState(cmd, 4))
  {
  }

  /** So does an early timer: its entry is registered when nothing will take it out any more. */
  lemma EarlyTimerLeaves(cmd: Command)
    requires Arms(cmd)
    ensures Valid(INIT, EarlyTimer(cmd))
    ensures var s := After(INIT, EarlyTimer(cmd));
            && Partitioned(s) && Enabled(s, Register(0)) && !Guard(s, Register(0))
            && var s' := Step(s, Register(0));
               s'.armings[0].timer == Locked && s'.armings[0].ack == Pending && ClassOf(s', 0) == None
  {
    EarlySteps(cmd);
    var last := EarlyState(cmd, 4);
    assert Partitioned(last) && EarlyState(cmd, 0) == INIT;
    RunNone(last);
    hide Valid, After, Leads;
    RunLeads(EarlyState(cmd, 3), RollbackLock(0), last, []);
    var fired := [Fire(0)] + ([RollbackLock(0)] + []);
    RunLeads(EarlyState(cmd, 2), Fire(0), EarlyState(cmd, 3), [RollbackLock(0)] + []);
    RunLeads(EarlyState(cmd, 1), CreateTimer(0), EarlyState(cmd, 2), fired);
    RunLeads(EarlyState(cmd, 0), Run(cmd, true), EarlyState(cmd, 1), [CreateTimer(0)] + fired);
  }

  // ---------- A confirmation that comes too late ----------

  lemma DisciplinedCons(s: State, e: Event, events: seq<Event>)
    requires Enabled(s, e) && Disciplined(s, e)
    requires Valid(Step(s, e), events) && DisciplinedRun(Step(s, e), events)
    ensures Valid(s, [e] + events) && DisciplinedRun(s, [e] + events)
    ensures After(s, [e] + events) == After(Step(s, e), events)
  {
    assert ([e] + events)[1..] == events;
  }

  /** One command, armed, fired, confirmed while the callback waits for the lock, and rolled back. */
  function LateConfirm(cmd: Command): seq<Event> {
    [Run(cmd, true)] + ([CreateTimer(0)] + ([Register(0)] + ([Fire(0)]
      + ([Confirm(cmd.key)] + ([RollbackLock(0)] + ([RollbackDispatch(0)] + []))))))
  }

  /**
   Such a run exists from the start, for every command that arms and with nothing out of the ordinary
   about keys or registration; the confirmation finds its entry, so `ConfirmCommand` returns true.
   */
  lemma LateConfirmReachable(cmd: Command)
    requires Arms(cmd)
    ensures Valid(INIT, LateConfirm(cmd)) && DisciplinedRun(INIT, LateConfirm(cmd))
    ensures var s := After(INIT, LateConfirm(cmd));
            && s.log == [Ran(cmd, true), Rollback(0, cmd.kind, cmd.rollback)]
            && s.armings == [Arming(cmd, RolledBack, Confirmed(Fired))]
  {
    LateArms(cmd);
    LateFires(cmd);
    assert LateState(cmd, 0) == INIT;
    hide Step, Valid, After, DisciplinedRun, Disciplined, Enabled;
    var last := [RollbackDispatch(0)] + [];
    var late := [Confirm(cmd.key)] + ([RollbackLock(0)] + last);
    RunNone(LateState(cmd, 7));
    assert DisciplinedRun(LateState(cmd, 7), []) by { DisciplinedNone(LateState(cmd, 7)); }
    DisciplinedCons(LateState(cmd, 6), RollbackDispatch(0), []);
    DisciplinedCons(LateState(cmd, 5), RollbackLock(0), last);
    DisciplinedCons(LateState(cmd, 4), Confirm(cmd.key), [RollbackLock(0)] + last);
    DisciplinedCons(LateState(cmd, 3), Fire(0), late);
    DisciplinedCons(LateState(cmd, 2), Register(0), [Fire(0)] + late);
    DisciplinedCons(LateState(cmd, 1), CreateTimer(0), [Register(0)] + ([Fire(0)] + late));
    DisciplinedCons(LateState(cmd, 0), Run(cmd, true), [CreateTimer(0)] + ([Register(0)] + ([Fire(0)] + late)));
  }

  /** The states of that run. */
  function LateState(cmd: Command, n: nat): State {
    var ran := [Ran(cmd, true)];
    if n == 0 then INIT
    else if n == 1 then State(map[], [], [cmd], ran)
    else if n == 2 then State(map[], [Arming(cmd, Running, Unregistered)], [], ran)
    else if n == 3 then State(map[cmd.key := 0], [Arming(cmd, Running, Pending)], [], ran)
    else if n == 4 then State(map[cmd.key := 0], [Arming(cmd, Fired, Pending)], [], ran)
    else if n == 5 then State(map[], [Arming(cmd, Fired, Confirmed(Fired))], [], ran)
    else if n == 6 then State(map[], [Arming(cmd, Locked, Confirmed(Fired))], [], ran)
    else
      State(map[], [Arming(cmd, RolledBack, Confirmed(Fired))], [],
            [Ran(cmd, true), Rollback(0, cmd.kind, cmd.rollback)])
  }

  /** `e` is a disciplined step of the run. */
  ghost predicate LateStep(cmd: Command, n: nat, e: Event) {
    && Enabled(LateState(cmd, n), e) && Disciplined(LateState(cmd, n), e)
    && Step(LateState(cmd, n), e) == LateState(cmd, n + 1)
  }

  lemma LateArms(cmd: Command)
    requires Arms(cmd)
    ensures LateStep(cmd, 0, Run(cmd, true)) && LateStep(cmd, 1, CreateTimer(0)) && LateStep(cmd, 2, Register(0))
  {
  }

  lemma LateFires(cmd: Command)
    ensures LateStep(cmd, 3, Fire(0)) && LateStep(cmd, 4, Confirm(cmd.key))
    ensures LateStep(cmd, 5, RollbackLock(0)) && LateStep(cmd, 6, RollbackDispatch(0))
  {
  }

  lemma DisciplinedNone(s: State)
    requires Valid(s, [])
    ensures DisciplinedRun(s, [])
  {
  }

  /**
   The callback with one more test under the lock: it goes on to roll back only if the entry under
   its key is its own, and otherwise gives up.
   */
  function CheckedStep(s: State, e: Event): (s': State)
    requires Enabled(s, e)
    ensures InRange(s')
  {
    match e
    case RollbackLock(a) =>
      var key := s.armings[a].cmd.key;
      if key in s.pending && s.pending[key] == a then Step(s, e) else SetTimer(s, a, Stopped)
    case _ => Step(s, e)
  }

  ghost predicate CheckedValid(s: State, events: seq<Event>)
    decreases |events|
  {
    events == [] || (Enabled(s, events[0]) && CheckedValid(CheckedStep(s, events[0]), events[1..]))
  }

  ghost function CheckedAfter(s: State, events: seq<Event>): State
    requires CheckedValid(s, events)
    decreases |events|
  {
    if events == [] then s else CheckedAfter(CheckedStep(s, events[0]), events[1..])
  }

  /** Whoever got past the lock had found its own entry there. */
  ghost predicate OwnEntryOnly(s: State) {
    && MapAgrees(s)
    && forall a :: 0 <= a < |s.armings| ==>
         && (s.armings[a].timer in {Locked, RolledBack} && s.armings[a].ack != Unregistered ==>
               s.armings[a].ack == Swept(a))
         && (s.armings[a].ack == Unregistered ==> s.armings[a].timer !in {Locked, RolledBack})
         && (s.armings[a].ack.Swept? ==> s.armings[a].ack == Swept(a))
  }

  lemma CheckedMapStep(s: State, e: Event)
    requires MapAgrees(s) && Enabled(s, e)
    ensures MapAgrees(CheckedStep(s, e))
  {
    MapStep(s, e);
  }

  lemma CheckedOwnStep(s: State, e: Event)
    requires OwnEntryOnly(s) && Enabled(s, e)
    ensures OwnEntryOnly(CheckedStep(s, e))
  {
    CheckedMapStep(s, e);
  }

  /**
   With that test no run, whatever the keys and however early a timer fires, rolls back a command
   that was confirmed or whose arming was replaced.
   */
  lemma {:induction false} CheckedExcludesLateConfirm(s: State, events: seq<Event>, a: nat)
    requires OwnEntryOnly(s) && CheckedValid(s, events)
    ensures var s' := CheckedAfter(s, events);
            a < |s'.armings| && (s'.armings[a].ack.Confirmed? || s'.armings[a].ack.Replaced?) ==>
              s'.armings[a].timer !in {Locked, RolledBack}
    decreases |events|
  {
    if events != [] {
      hide CheckedStep, Enabled;
      CheckedOwnStep(s, events[0]);
      CheckedExcludesLateConfirm(CheckedStep(s, events[0]), events[1..], a);
    }
  }

  /** In particular from the start. */
  lemma EveryCheckedRun(events: seq<Event>, a: nat)
    requires CheckedValid(INIT, events) && a < |CheckedAfter(INIT, events).armings|
    ensures var arming := CheckedAfter(INIT, events).armings[a];
            arming.ack.Confirmed? || arming.ack.Replaced? ==> arming.timer !in {Locked, RolledBack}
  {
    CheckedExcludesLateConfirm(INIT, events, a);
  }

  // ---------- What the callback that looks again still does ----------

  /** The states an arming goes through with that callback, keys and registration in order. */
  predicate CheckedClass(a: nat, timer: Timer, ack: Ack) {
    match (timer, ack)
    case (Running, Unregistered) => true
    case (Running, Pending) => true
    case (Fired, Pending) => true
    case (Stopped, Confirmed(Running)) => true
    case (Fired, Confirmed(Fired)) => true
    case (Stopped, Confirmed(Fired)) => true
    case (Locked, Swept(b)) => a == b
    case (RolledBack, Swept(b)) => a == b
    case _ => false
  }

  ghost predicate CheckedOrderly(s: State) {
    && MapAgrees(s) && DistinctKeys(s) && CountsAgree(s)
    && forall a :: 0 <= a < |s.armings| ==> CheckedClass(a, s.armings[a].timer, s.armings[a].ack)
  }

  ghost predicate CheckedDisciplined(s: State, events: seq<Event>)
    requires CheckedValid(s, events)
    decreases |events|
  {
    events == [] || (Disciplined(s, events[0]) && CheckedDisciplined(CheckedStep(s, events[0]), events[1..]))
  }

  lemma CheckedKeys(s: State, e: Event)
    requires DistinctKeys(s) && Enabled(s, e) && Disciplined(s, e)
    ensures DistinctKeys(CheckedStep(s, e))
  {
    KeysStep(s, e);
  }

  lemma CheckedCounts(s: State, e: Event)
    requires CountsAgree(s) && Enabled(s, e)
    ensures CountsAgree(CheckedStep(s, e))
  {
    CountsStep(s, e);
    hide Step, Rollbacks;
  }

  lemma CheckedKeepsClass(s: State, e: Event, a: nat)
    requires MapAgrees(s) && DistinctKeys(s) && Enabled(s, e) && Disciplined(s, e)
    requires forall b :: 0 <= b < |s.armings| ==> CheckedClass(b, s.armings[b].timer, s.armings[b].ack)
    requires a < |CheckedStep(s, e).armings|
    ensures CheckedClass(a, CheckedStep(s, e).armings[a].timer, CheckedStep(s, e).armings[a].ack)
  {
    if a < |s.armings| { assert CheckedClass(a, s.armings[a].timer, s.armings[a].ack); }
  }

  lemma CheckedOrderlyStep(s: State, e: Event)
    requires CheckedOrderly(s) && Enabled(s, e) && Disciplined(s, e)
    ensures CheckedOrderly(CheckedStep(s, e))
  {
    CheckedMapStep(s, e);
    CheckedKeys(s, e);
    CheckedCounts(s, e);
    hide CheckedStep, MapAgrees, DistinctKeys, CountsAgree, CheckedClass, Enabled, Disciplined;
    var s' := CheckedStep(s, e);
    forall a | 0 <= a < |s'.armings| ensures CheckedClass(a, s'.armings[a].timer, s'.armings[a].ack) {
      CheckedKeepsClass(s, e, a);
    }
  }

  lemma {:induction false} CheckedOrderlyRun(s: State, events: seq<Event>)
    requires CheckedOrderly(s) && CheckedValid(s, events) && CheckedDisciplined(s, events)
    ensures CheckedOrderly(CheckedAfter(s, events))
    decreases |events|
  {
    if events != [] {
      hide CheckedStep, CheckedOrderly, Disciplined;
      CheckedOrderlyStep(s, events[0]);
      CheckedOrderlyRun(CheckedStep(s, events[0]), events[1..]);
    }
  }

  /**
   With keys and registration in order that callback still does its work: when no timer step is left,
   nothing is pending and exactly the commands that were not confirmed have been rolled back.
   */
  lemma CheckedDrained(events: seq<Event>)
    requires CheckedValid(INIT, events) && CheckedDisciplined(INIT, events)
    requires TimersDone(CheckedAfter(INIT, events))
    ensures var s := CheckedAfter(INIT, events);
            && s.pending == map[]
            && forall a :: 0 <= a < |s.armings| ==> Rollbacks(s.log, a) == if s.armings[a].ack.Confirmed? then 0 else 1
  {
    assert CheckedOrderly(INIT);
    CheckedOrderlyRun(INIT, events);
    hide CheckedValid, CheckedDisciplined, CheckedAfter, DistinctKeys;
    var s := CheckedAfter(INIT, events);
    forall a | 0 <= a < |s.armings|
      ensures s.armings[a].ack != Pending
      ensures Rollbacks(s.log, a) == if s.armings[a].ack.Confirmed? then 0 else 1
    {
      assert CheckedClass(a, s.armings[a].timer, s.armings[a].ack);
    }
    assert forall k :: k !in s.pending;
  }

  ghost predicate CheckedLeads(s: State, e: Event, next: State) {
    Enabled(s, e) && CheckedStep(s, e) == next
  }

  lemma CheckedCons(s: State, e: Event, next: State, events: seq<Event>)
    requires CheckedLeads(s, e, next) && CheckedValid(next, events)
    ensures CheckedValid(s, [e] + events) && CheckedAfter(s, [e] + events) == CheckedAfter(next, events)
  {
    assert ([e] + events)[1..] == events;
  }

  lemma CheckedNone(s: State)
    ensures CheckedValid(s, []) && CheckedAfter(s, []) == s
  {
  }

  /** The early timer gives up: before its registration, and after. */
  function GivenUp(cmd: Command, registered: bool): State {
    if registered then State(map[cmd.key := 0], [Arming(cmd, Stopped, Pending)], [], [Ran(cmd, true)])
    else State(map[], [Arming(cmd, Stopped, Unregistered)], [], [Ran(cmd, true)])
  }

  lemma CheckedEarlySteps(cmd: Command)
    requires Arms(cmd)
    ensures CheckedLeads(EarlyState(cmd, 0), Run(cmd, true), EarlyState(cmd, 1))
    ensures CheckedLeads(EarlyState(cmd, 1), CreateTimer(0), EarlyState(cmd, 2))
    ensures CheckedLeads(EarlyState(cmd, 2), Fire(0), EarlyState(cmd, 3))
    ensures CheckedLeads(EarlyState(cmd, 3), RollbackLock(0), GivenUp(cmd, false))
    ensures CheckedLeads(GivenUp(cmd, false), Register(0), GivenUp(cmd, true))
  {
    EarlySteps(cmd);
  }

  /** What it costs: a timer that fires before it is registered gives up, and its command stays pending. */
  lemma CheckedEarlyTimer(cmd: Command)
    requires Arms(cmd)
    ensures var events := EarlyTimer(cmd) + [Register(0)];
            && CheckedValid(INIT, events)
            && CheckedAfter(INIT, events) == GivenUp(cmd, true)
            && GivenUp(cmd, true).armings == [Arming(cmd, Stopped, Pending)]
  {
    CheckedEarlySteps(cmd);
    assert EarlyState(cmd, 0) == INIT;
    CheckedNone(GivenUp(cmd, true));
    hide CheckedLeads, CheckedValid, CheckedAfter, EarlyState;
    var last := [Register(0)] + [];
    CheckedCons(GivenUp(cmd, false), Register(0), GivenUp(cmd, true), []);
    CheckedCons(EarlyState(cmd, 3), RollbackLock(0), GivenUp(cmd, false), last);
    CheckedCons(EarlyState(cmd, 2), Fire(0), EarlyState(cmd, 3), [RollbackLock(0)] + last);
    var fired := [Fire(0)] + ([RollbackLock(0)] + last);
    CheckedCons(EarlyState(cmd, 1), CreateTimer(0), EarlyState(cmd, 2), fired);
    CheckedCons(EarlyState(cmd, 0), Run(cmd, true), EarlyState(cmd, 1), [CreateTimer(0)] + fired);
    assert EarlyTimer(cmd) + [Register(0)] == [Run(cmd, true)] + ([CreateTimer(0)] + fired);
  }
}
