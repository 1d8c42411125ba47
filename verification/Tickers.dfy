/**
  The shared ticker of `asynccache`: one mutex, a set of registered caches, a `started` flag, a one-slot
  stop channel and the tick goroutines still alive. Every lock, unlock, channel operation and
  goroutine spawn is a step of its own, so a run is any interleaving of `NewAsyncCache`, `Close` and
  any number of tick loops. A blocking operation is a step that is not enabled.

  `Close` may be called any number of times per cache; the ghost fields `closeCalls`, `repeated` and
  `redundant` only record history, no step is guarded by them.
 */
module Tickers {

  type CacheId = nat
  type LoopId = nat

  /** Who holds the ticker's mutex, and how far it has got. */
  datatype Holder =
    | Free
    | Opening(cache: CacheId, at: OpenPoint)
    | Closing(cache: CacheId, at': ClosePoint)
    | Ticking(loop: LoopId)

  datatype OpenPoint = AddCache | StartLoop | OpenDone
  datatype ClosePoint = DeleteCache | SendStop | ClearStarted | CloseDone

  /** A tick goroutine: in its select, blocked on the mutex, or dispatching to the registered caches. */
  datatype Loop =
    | Selecting
    | Wanting
    | Dispatching(todo: set<CacheId>, running: set<CacheId>)

  datatype State = State(
    lock: Holder, started: bool, caches: set<CacheId>, tokens: nat, loops: map<LoopId, Loop>,
    created: set<CacheId>,     // NewAsyncCache has been entered
    ready: set<CacheId>,      // NewAsyncCache has returned
    closeCalls: set<CacheId>,  // Close has been entered at least once
    closed: set<CacheId>,      // Close has returned at least once
    repeated: bool,            // Close has been entered twice for some cache
    redundant: nat)            // stop tokens sent while no loop was started

  datatype Step =
    | OpenLock(c: CacheId) | OpenAdd | OpenStart(id: LoopId) | OpenUnlock
    | CloseLock(c: CacheId) | CloseDelete | CloseSend | CloseStop | CloseUnlock
    | Fire(g: LoopId) | TickLock(g: LoopId) | Spawn(g: LoopId, c: CacheId)
    | Work(g: LoopId, c: CacheId)  // one action of c.refresh() or c.expire()
    | Done(g: LoopId, c: CacheId) | TickUnlock(g: LoopId) | ReceiveStop(g: LoopId)

  const INITIAL := State(Free, false, {}, 0, map[], {}, {}, {}, {}, false, 0)

  predicate Enabled(s: State, a: Step) {
    match a
    case OpenLock(c) => s.lock == Free && c !in s.created
    case OpenAdd => s.lock.Opening? && s.lock.at == AddCache
    case OpenStart(id) => s.lock.Opening? && s.lock.at == StartLoop && id !in s.loops
    case OpenUnlock => s.lock.Opening? && s.lock.at == OpenDone
    case CloseLock(c) => s.lock == Free && c in s.ready
    case CloseDelete => s.lock.Closing? && s.lock.at' == DeleteCache
    case CloseSend => s.lock.Closing? && s.lock.at' == SendStop && (s.caches == {} ==> s.tokens == 0)
    case CloseStop => s.lock.Closing? && s.lock.at' == ClearStarted
    case CloseUnlock => s.lock.Closing? && s.lock.at' == CloseDone
    case Fire(g) => g in s.loops && s.loops[g] == Selecting
    case TickLock(g) => g in s.loops && s.loops[g] == Wanting && s.lock == Free
    case Spawn(g, c) => g in s.loops && s.loops[g].Dispatching? && c in s.loops[g].todo
    case Work(g, c) => g in s.loops && s.loops[g].Dispatching? && c in s.loops[g].running
    case Done(g, c) => g in s.loops && s.loops[g].Dispatching? && c in s.loops[g].running
    case TickUnlock(g) => g in s.loops && s.loops[g] == Dispatching({}, {})
    case ReceiveStop(g) => g in s.loops && s.loops[g] == Selecting && s.tokens > 0
  }

  function Next(s: State, a: Step): State
    requires Enabled(s, a)
  {
    match a
    case OpenLock(c) => s.(lock := Opening(c, AddCache), created := s.created + {c})
    case OpenAdd => s.(lock := Opening(s.lock.cache, StartLoop), caches := s.caches + {s.lock.cache})
    case OpenStart(id) =>
      var t := s.(lock := Opening(s.lock.cache, OpenDone));
      if s.started then t else t.(started := true, loops := s.loops[id := Selecting])
    case OpenUnlock => s.(lock := Free, ready := s.ready + {s.lock.cache})
    case CloseLock(c) =>
      s.(lock := Closing(c, DeleteCache), closeCalls := s.closeCalls + {c}, repeated := s.repeated || c in s.closeCalls)
    case CloseDelete => s.(lock := Closing(s.lock.cache, SendStop), caches := s.caches - {s.lock.cache})
    case CloseSend =>
      if s.caches != {} then s.(lock := Closing(s.lock.cache, CloseDone))
      else s.(lock := Closing(s.lock.cache, ClearStarted), tokens := s.tokens + 1,
              redundant := if s.started then s.redundant else s.redundant + 1)
    case CloseStop => s.(lock := Closing(s.lock.cache, CloseDone), started := false)
    case CloseUnlock => s.(lock := Free, closed := s.closed + {s.lock.cache})
    case Fire(g) => s.(loops := s.loops[g := Wanting])
    case TickLock(g) => s.(lock := Ticking(g), loops := s.loops[g := Dispatching(s.caches, {})])
    case Spawn(g, c) =>
      var l := s.loops[g];
      s.(loops := s.loops[g := Dispatching(l.todo - {c}, l.running + {c})])
    case Work(g, c) => s
    case Done(g, c) =>
      var l := s.loops[g];
      s.(loops := s.loops[g := Dispatching(l.todo, l.running - {c})])
    case TickUnlock(g) => s.(lock := Free, loops := s.loops[g := Selecting])
    case ReceiveStop(g) => s.(tokens := s.tokens - 1, loops := s.loops - {g})
  }

  // ---- Runs ----

  predicate Runs(s: State, run: seq<Step>)
    decreases |run|
  {
    run == [] || (Enabled(s, run[0]) && Runs(Next(s, run[0]), run[1..]))
  }

  function After(s: State, run: seq<Step>): State
    requires Runs(s, run)
    decreases |run|
  {
    if run == [] then s else After(Next(s, run[0]), run[1..])
  }

  /** A cache id whose `Close` has been entered twice somewhere in the run. */
  predicate ClosedTwice(run: seq<Step>) {
    exists i, j :: 0 <= i < j < |run| && run[i].CloseLock? && run[j].CloseLock? && run[i].c == run[j].c
  }

  // ---- The invariant ----

  /** 1 when a loop is owed to the registered caches: `started`, unless its stop token is already sent. */
  function Owed(s: State): nat {
    if s.started && !(s.lock.Closing? && s.lock.at' == ClearStarted) then 1 else 0
  }

  /** Live loops and redundant tokens balance buffered tokens and the loop owed. */
  predicate Conserved(s: State) {
    |s.loops| + s.redundant == s.tokens + Owed(s)
  }

  predicate StartedMeansRegistered(s: State) {
    match s.lock
    case Opening(c, StartLoop) => c in s.caches && (s.started <==> s.caches != {c})
    case Opening(c, OpenDone) => s.started && c in s.caches
    case Closing(c, SendStop) => s.caches != {} ==> s.started
    case Closing(c, ClearStarted) => s.caches == {}
    case _ => s.started <==> s.caches != {}
  }

  predicate LoopsDispatchUnderLock(s: State) {
    && (forall g :: g in s.loops && s.loops[g].Dispatching? ==>
        && s.lock == Ticking(g)
        && s.loops[g].todo + s.loops[g].running <= s.caches && s.loops[g].todo !! s.loops[g].running)
    && (s.lock.Ticking? ==> s.lock.loop in s.loops && s.loops[s.lock.loop].Dispatching?)
  }

  /** A cache leaves the set for good: what is registered was created, and is not past its deletion. */
  predicate Lifecycle(s: State) {
    && s.tokens <= 1
    && s.ready + s.caches <= s.created
    && s.closed <= s.closeCalls <= s.ready
    && s.closed !! s.caches
    && (s.lock.Opening? ==> s.lock.cache in s.created && s.lock.cache !in s.ready)
    && (s.lock.Opening? && s.lock.at == AddCache ==> s.lock.cache !in s.caches)
    && (s.lock.Closing? ==> s.lock.cache in s.closeCalls)
    && (s.lock.Closing? && s.lock.at' != DeleteCache ==> s.lock.cache !in s.caches)
  }

  /** As long as no cache has been closed twice, open caches stay registered and no token is redundant. */
  predicate ClosedOnce(s: State) {
    !s.repeated ==>
      && s.redundant == 0
      && s.ready - s.closeCalls <= s.caches
      && (s.lock.Closing? && s.lock.at' == DeleteCache ==> s.lock.cache in s.caches)
      && (s.lock.Closing? && s.lock.at' == SendStop ==> s.started)
  }

  predicate Inv(s: State) {
    Conserved(s) && StartedMeansRegistered(s) && LoopsDispatchUnderLock(s) && Lifecycle(s) && ClosedOnce(s)
  }

  lemma MapSizes<K, V>(m: map<K, V>, k: K, v: V)
    ensures k !in m ==> |m[k := v]| == |m| + 1
    ensures k in m ==> |m[k := v]| == |m| && |m - {k}| == |m| - 1
  {}

  /** Steps of the tick loops; the others are steps of NewAsyncCache and Close. */
  predicate LoopStep(a: Step) {
    a.Fire? || a.TickLock? || a.Spawn? || a.Work? || a.Done? || a.TickUnlock? || a.ReceiveStop?
  }

  lemma LoopStepsKeepConserved(s: State, a: Step)
    requires Inv(s) && Enabled(s, a) && LoopStep(a)
    ensures Conserved(Next(s, a))
  {
    if !a.Work? {
      MapSizes(s.loops, a.g, if a.ReceiveStop? then Selecting else Next(s, a).loops[a.g]);
    }
  }

  lemma CallerStepsKeepConserved(s: State, a: Step)
    requires Inv(s) && Enabled(s, a) && !LoopStep(a)
    ensures Conserved(Next(s, a))
  {}

  lemma ConservedKept(s: State, a: Step)
    requires Inv(s) && Enabled(s, a)
    ensures Conserved(Next(s, a))
  {
    if LoopStep(a) { LoopStepsKeepConserved(s, a); } else { CallerStepsKeepConserved(s, a); }
  }

  lemma LoopStepsKeepStarted(s: State, a: Step)
    requires Inv(s) && Enabled(s, a) && LoopStep(a)
    ensures StartedMeansRegistered(Next(s, a))
  {
    var t := Next(s, a);
    assert t.started == s.started && t.caches == s.caches;
  }

  lemma CallerStepsKeepStarted(s: State, a: Step)
    requires StartedMeansRegistered(s) && Lifecycle(s) && Enabled(s, a) && !LoopStep(a)
    ensures StartedMeansRegistered(Next(s, a))
  {}

  lemma StartedKept(s: State, a: Step)
    requires Inv(s) && Enabled(s, a)
    ensures StartedMeansRegistered(Next(s, a))
  {
    if LoopStep(a) { LoopStepsKeepStarted(s, a); } else { CallerStepsKeepStarted(s, a); }
  }

  lemma LoopStepsKeepDispatch(s: State, a: Step)
    requires LoopsDispatchUnderLock(s) && Enabled(s, a) && LoopStep(a)
    ensures LoopsDispatchUnderLock(Next(s, a))
  {}

  lemma CallerStepsKeepDispatch(s: State, a: Step)
    requires LoopsDispatchUnderLock(s) && Enabled(s, a) && !LoopStep(a)
    ensures LoopsDispatchUnderLock(Next(s, a))
  {}

  lemma DispatchKept(s: State, a: Step)
    requires Inv(s) && Enabled(s, a)
    ensures LoopsDispatchUnderLock(Next(s, a))
  {
    if LoopStep(a) { LoopStepsKeepDispatch(s, a); } else { CallerStepsKeepDispatch(s, a); }
  }

  lemma LoopStepsKeepLifecycle(s: State, a: Step)
    requires Lifecycle(s) && Enabled(s, a) && LoopStep(a)
    ensures Lifecycle(Next(s, a))
  {}

  lemma CallerStepsKeepLifecycle(s: State, a: Step)
    requires Lifecycle(s) && StartedMeansRegistered(s) && Enabled(s, a) && !LoopStep(a)
    ensures Lifecycle(Next(s, a))
  {}

  lemma LifecycleKept(s: State, a: Step)
    requires Inv(s) && Enabled(s, a)
    ensures Lifecycle(Next(s, a))
  {
    if LoopStep(a) { LoopStepsKeepLifecycle(s, a); } else { CallerStepsKeepLifecycle(s, a); }
  }

  lemma ClosedOnceKept(s: State, a: Step)
    requires Inv(s) && Enabled(s, a)
    ensures ClosedOnce(Next(s, a))
  {}

  lemma InvKept(s: State, a: Step)
    requires Inv(s) && Enabled(s, a)
    ensures Inv(Next(s, a))
  {
    ConservedKept(s, a);
    StartedKept(s, a);
    DispatchKept(s, a);
    LifecycleKept(s, a);
    ClosedOnceKept(s, a);
  }

  lemma {:induction false} InvOfRun(s: State, run: seq<Step>)
    requires Inv(s) && Runs(s, run)
    ensures Inv(After(s, run))
    decreases |run|
  {
    if run != [] {
      InvKept(s, run[0]);
      InvOfRun(Next(s, run[0]), run[1..]);
    }
  }

  lemma {:induction false} HistoryGrows(s: State, run: seq<Step>)
    requires Runs(s, run)
    ensures s.closed <= After(s, run).closed
    decreases |run|
  {
    if run != [] {
      HistoryGrows(Next(s, run[0]), run[1..]);
    }
  }

  lemma {:induction false} RepeatedFrom(s: State, run: seq<Step>)
    requires Runs(s, run) && After(s, run).repeated && !s.repeated
    ensures ClosedTwice(run) || exists i :: 0 <= i < |run| && run[i].CloseLock? && run[i].c in s.closeCalls
    decreases |run|
  {
    var a, rest := run[0], run[1..];
    var t := Next(s, a);
    if !t.repeated {
      RepeatedFrom(t, rest);
      if ClosedTwice(rest) {
        var i, j :| 0 <= i < j < |rest| && rest[i].CloseLock? && rest[j].CloseLock? && rest[i].c == rest[j].c;
        assert run[i + 1] == rest[i] && run[j + 1] == rest[j];
      } else {
        var i :| 0 <= i < |rest| && rest[i].CloseLock? && rest[i].c in t.closeCalls;
        assert run[i + 1] == rest[i];
        if rest[i].c !in s.closeCalls {
          assert run[0].CloseLock? && run[0].c == run[i + 1].c;
        }
      }
    }
  }

  /** The record is complete: a second Close of one cache anywhere in the run is remembered. */
  lemma {:induction false} RepeatIsRecorded(s: State, run: seq<Step>)
    requires Runs(s, run)
    requires s.repeated || ClosedTwice(run)
      || exists i :: 0 <= i < |run| && run[i].CloseLock? && run[i].c in s.closeCalls
    ensures After(s, run).repeated
    decreases |run|
  {
    if run != [] {
      var a, rest := run[0], run[1..];
      var t := Next(s, a);
      if !t.repeated {
        if ClosedTwice(run) {
          var i, j :| 0 <= i < j < |run| && run[i].CloseLock? && run[j].CloseLock? && run[i].c == run[j].c;
          assert run[j] == rest[j - 1] && (i > 0 ==> run[i] == rest[i - 1]);
        } else {
          var i :| 0 <= i < |run| && run[i].CloseLock? && run[i].c in s.closeCalls;
          assert run[i] == rest[i - 1] && rest[i - 1].c in t.closeCalls;
        }
      }
      RepeatIsRecorded(t, rest);
    }
  }

  // ---- Main results, over every run ----

  /**
    Whenever the mutex is free: live loops and stop tokens balance, `started` holds exactly when a cache
    is registered, and the loops outnumber the buffered tokens exactly when no stop token was ever sent
    redundantly; `LoopsLostExactly` says what that means for the loops. At no time are more than two alive.
   */
  lemma TokenConservation(run: seq<Step>)
    requires Runs(INITIAL, run)
    ensures var s := After(INITIAL, run);
      && |s.loops| <= 2
      && (s.lock == Free ==>
        && |s.loops| + s.redundant == s.tokens + (if s.started then 1 else 0)
        && (s.started <==> s.caches != {})
        && (s.caches != {} ==> (|s.loops| > s.tokens <==> s.redundant == 0)))
  {
    InvOfRun(INITIAL, run);
  }

  /** With Close entered at most once per cache, an open cache is at every moment registered and has a live loop. */
  lemma OpenCacheHasLoop(run: seq<Step>, c: CacheId)
    requires Runs(INITIAL, run) && !ClosedTwice(run)
    requires c in After(INITIAL, run).ready && c !in After(INITIAL, run).closeCalls
    ensures var s := After(INITIAL, run);
      c in s.caches && s.started && |s.loops| == 1 + s.tokens
  {
    InvOfRun(INITIAL, run);
    if After(INITIAL, run).repeated {
      RepeatedFrom(INITIAL, run);
    }
  }

  /** Once Close(c) has returned, no later step of the run dispatches, executes or finishes work on c. */
  lemma QuietAfterClose(before: seq<Step>, later: seq<Step>, a: Step, c: CacheId)
    requires Runs(INITIAL, before) && c in After(INITIAL, before).closed
    requires Runs(After(INITIAL, before), later) && Enabled(After(After(INITIAL, before), later), a)
    ensures !((a.Spawn? || a.Work? || a.Done?) && a.c == c)
  {
    InvOfRun(INITIAL, before);
    InvOfRun(After(INITIAL, before), later);
    HistoryGrows(After(INITIAL, before), later);
  }

  /** Two loops never work at the same time, so the refreshes of one cache are serialised. */
  lemma WorkIsExclusive(run: seq<Step>, g: LoopId, h: LoopId, c: CacheId, d: CacheId)
    requires Runs(INITIAL, run)
    requires Enabled(After(INITIAL, run), Work(g, c)) && Enabled(After(INITIAL, run), Work(h, d))
    ensures g == h
    ensures !Enabled(After(INITIAL, run), Spawn(g, c))
  {
    InvOfRun(INITIAL, run);
  }

  // ---- A tick pass ----

  function Count(yes: bool): nat { if yes then 1 else 0 }

  lemma CountFirst(run: seq<Step>, a: Step)
    requires run != []
    ensures multiset(run)[a] == Count(run[0] == a) + multiset(run[1..])[a]
  {
    assert run == [run[0]] + run[1..];
  }

  function Todo(s: State, g: LoopId): set<CacheId> {
    if g in s.loops && s.loops[g].Dispatching? then s.loops[g].todo else {}
  }

  function Running(s: State, g: LoopId): set<CacheId> {
    if g in s.loops && s.loops[g].Dispatching? then s.loops[g].running else {}
  }

  lemma PassStep(s: State, a: Step, g: LoopId, c: CacheId)
    requires Inv(s) && Enabled(s, a) && s.lock == Ticking(g) && a != TickUnlock(g)
    ensures Next(s, a).lock == Ticking(g) && Next(s, a).caches == s.caches
    ensures Count(c in Todo(s, g)) == Count(a == Spawn(g, c)) + Count(c in Todo(Next(s, a), g))
    ensures Count(c in Running(s, g)) + Count(a == Spawn(g, c))
      == Count(a == Done(g, c)) + Count(c in Running(Next(s, a), g))
  {}

  /** Whatever runs while loop g holds the mutex: what it spawns leaves `todo`, what it waits for leaves `running`. */
  lemma {:induction false} PassProgress(s: State, part: seq<Step>, g: LoopId, c: CacheId)
    requires Inv(s) && Runs(s, part) && s.lock == Ticking(g) && TickUnlock(g) !in part
    ensures Inv(After(s, part)) && After(s, part).lock == Ticking(g) && After(s, part).caches == s.caches
    ensures Count(c in Todo(s, g)) == multiset(part)[Spawn(g, c)] + Count(c in Todo(After(s, part), g))
    ensures Count(c in Running(s, g)) + multiset(part)[Spawn(g, c)]
      == multiset(part)[Done(g, c)] + Count(c in Running(After(s, part), g))
    decreases |part|
  {
    if part != [] {
      var a, rest := part[0], part[1..];
      assert a in part && forall b :: b in rest ==> b in part;
      InvKept(s, a);
      PassStep(s, a, g, c);
      PassProgress(Next(s, a), rest, g, c);
      CountFirst(part, Spawn(g, c));
      CountFirst(part, Done(g, c));
    }
  }

  lemma PassFrom(s: State, g: LoopId, part: seq<Step>, c: CacheId)
    requires Inv(s) && Enabled(s, TickLock(g)) && Runs(Next(s, TickLock(g)), part) && TickUnlock(g) !in part
    ensures var t := After(Next(s, TickLock(g)), part);
      && Inv(t) && t.caches == s.caches
      && Count(c in s.caches) == multiset(part)[Spawn(g, c)] + Count(c in Todo(t, g))
      && multiset(part)[Spawn(g, c)] == multiset(part)[Done(g, c)] + Count(c in Running(t, g))
  {
    InvKept(s, TickLock(g));
    PassProgress(Next(s, TickLock(g)), part, g, c);
  }

  /**
    Between a loop's TickLock and its next TickUnlock every cache registered at the TickLock is started exactly
    once and waited for exactly once, and no other cache is; registrations do not change meanwhile.
   */
  lemma PassVisitsEachOnce(before: seq<Step>, g: LoopId, pass: seq<Step>, c: CacheId)
    requires Runs(INITIAL, before) && Enabled(After(INITIAL, before), TickLock(g))
    requires var s := Next(After(INITIAL, before), TickLock(g));
      Runs(s, pass) && TickUnlock(g) !in pass && Enabled(After(s, pass), TickUnlock(g))
    ensures var registered := After(INITIAL, before).caches;
      && multiset(pass)[Spawn(g, c)] == multiset(pass)[Done(g, c)] == (if c in registered then 1 else 0)
      && After(Next(After(INITIAL, before), TickLock(g)), pass).caches == registered
  {
    InvOfRun(INITIAL, before);
    PassFrom(After(INITIAL, before), g, pass, c);
  }

  /** In the middle of a pass: no cache is done before it was started, and it is worked on only in between. */
  lemma WorkLiesBetween(before: seq<Step>, g: LoopId, part: seq<Step>, c: CacheId)
    requires Runs(INITIAL, before) && Enabled(After(INITIAL, before), TickLock(g))
    requires var s := Next(After(INITIAL, before), TickLock(g)); Runs(s, part) && TickUnlock(g) !in part
    ensures multiset(part)[Done(g, c)] <= multiset(part)[Spawn(g, c)] <= 1
    ensures Enabled(After(Next(After(INITIAL, before), TickLock(g)), part), Work(g, c))
      <==> multiset(part)[Done(g, c)] < multiset(part)[Spawn(g, c)]
  {
    InvOfRun(INITIAL, before);
    PassFrom(After(INITIAL, before), g, part, c);
    WorkIsOfRunning(After(Next(After(INITIAL, before), TickLock(g)), part), g, c);
  }

  lemma WorkIsOfRunning(s: State, g: LoopId, c: CacheId)
    ensures Enabled(s, Work(g, c)) <==> c in Running(s, g)
  {}

  // ---- What a redundant token costs ----

  predicate OnlyLoopSteps(run: seq<Step>) {
    forall i :: 0 <= i < |run| ==> LoopStep(run[i])
  }

  /** The tick loops alone can go on from s until no loop is left, with the registered caches untouched. */
  ghost predicate CanLoseLoops(s: State) {
    exists more :: Runs(s, more) && OnlyLoopSteps(more) && After(s, more).loops == map[]
  }

  /** The tick loops neither register caches nor send tokens, so the balance still owes them a loop. */
  lemma {:induction false} LoopStepsKeepBalance(s: State, more: seq<Step>)
    requires Inv(s) && Runs(s, more) && OnlyLoopSteps(more) && !s.lock.Closing?
    ensures var t := After(s, more);
      t.caches == s.caches && t.started == s.started && t.redundant == s.redundant && Owed(t) == Owed(s)
    decreases |more|
  {
    if more != [] {
      assert LoopStep(more[0]) && OnlyLoopSteps(more[1..]);
      InvKept(s, more[0]);
      LoopStepsKeepBalance(Next(s, more[0]), more[1..]);
    }
  }

  lemma Prepend(s: State, a: Step)
    requires Enabled(s, a) && LoopStep(a) && CanLoseLoops(Next(s, a))
    ensures CanLoseLoops(s)
  {
    var more :| Runs(Next(s, a), more) && OnlyLoopSteps(more) && After(Next(s, a), more).loops == map[];
    assert ([a] + more)[1..] == more;
    assert Runs(s, [a] + more) && OnlyLoopSteps([a] + more) && After(s, [a] + more).loops == map[];
  }

  /** How far a loop is from its select. */
  function Distance(s: State, g: LoopId): nat
    requires g in s.loops
  {
    match s.loops[g]
    case Selecting => 0
    case Wanting => 2 * |s.caches| + 2
    case Dispatching(todo, running) => 2 * |todo| + |running| + 1
  }

  /** What a step of one loop towards its select changes. */
  predicate Closer(s: State, t: State, g: LoopId)
    requires g in s.loops
  {
    && t.loops.Keys == s.loops.Keys && t.tokens == s.tokens && t.caches == s.caches
    && !t.loops[g].Wanting? && Distance(t, g) < Distance(s, g)
  }

  lemma SpawnCloser(s: State, g: LoopId, c: CacheId)
    requires Enabled(s, Spawn(g, c))
    ensures Closer(s, Next(s, Spawn(g, c)), g)
  {
    var l := s.loops[g];
    assert |l.todo - {c}| == |l.todo| - 1 && |l.running + {c}| <= |l.running| + 1;
  }

  lemma DoneCloser(s: State, g: LoopId, c: CacheId)
    requires Enabled(s, Done(g, c))
    ensures Closer(s, Next(s, Done(g, c)), g)
  {
    assert |s.loops[g].running - {c}| == |s.loops[g].running| - 1;
  }

  lemma PassMovesOn(s: State, g: LoopId) returns (a: Step)
    requires g in s.loops && s.loops[g].Dispatching?
    ensures Enabled(s, a) && LoopStep(a) && Closer(s, Next(s, a), g)
  {
    var l := s.loops[g];
    if c :| c in l.todo {
      a := Spawn(g, c);
      SpawnCloser(s, g, c);
    } else if c :| c in l.running {
      a := Done(g, c);
      DoneCloser(s, g, c);
    } else {
      a := TickUnlock(g);
    }
  }

  /** A loop that is not kept waiting for the mutex can take a step towards its select. */
  lemma StepCloser(s: State, g: LoopId) returns (a: Step)
    requires g in s.loops && s.loops[g] != Selecting && (s.loops[g].Wanting? ==> s.lock == Free)
    ensures Enabled(s, a) && LoopStep(a) && Closer(s, Next(s, a), g)
  {
    if s.loops[g].Wanting? {
      a := TickLock(g);
    } else {
      a := PassMovesOn(s, g);
    }
  }

  /** The last loop: it finishes the pass it is in, goes back to its select and takes the token. */
  lemma {:induction false} LastLoopCanStop(s: State, g: LoopId)
    requires s.loops.Keys == {g} && s.tokens > 0 && (s.loops[g].Wanting? ==> s.lock == Free)
    ensures CanLoseLoops(s)
    decreases Distance(s, g)
  {
    if s.loops[g] == Selecting {
      var t := Next(s, ReceiveStop(g));
      assert t.loops == map[];
      assert Runs(t, []) && OnlyLoopSteps([]) && After(t, []).loops == map[];
      Prepend(s, ReceiveStop(g));
    } else {
      var a := StepCloser(s, g);
      LastLoopCanStop(Next(s, a), g);
      Prepend(s, a);
    }
  }

  /**
    While caches are registered and the mutex is free, the tick loops can all stop without any further
    open or close if and only if some stop token was sent when no loop was started.
   */
  lemma LoopsLostExactly(run: seq<Step>)
    requires Runs(INITIAL, run) && After(INITIAL, run).lock == Free && After(INITIAL, run).caches != {}
    ensures CanLoseLoops(After(INITIAL, run)) <==> After(INITIAL, run).redundant > 0
  {
    InvOfRun(INITIAL, run);
    var s := After(INITIAL, run);
    if s.redundant > 0 {
      if s.loops == map[] {
        assert Runs(s, []) && OnlyLoopSteps([]) && After(s, []).loops == map[];
      } else {
        var g :| g in s.loops;
        assert |s.loops.Keys - {g}| == 0;
        LastLoopCanStop(s, g);
      }
    } else if CanLoseLoops(s) {
      var more :| Runs(s, more) && OnlyLoopSteps(more) && After(s, more).loops == map[];
      LoopStepsKeepBalance(s, more);
      InvOfRun(s, more);
      assert false;
    }
  }

  // ---- Deadlock ----

  ghost predicate Deadlocked(s: State) {
    forall a :: !Enabled(s, a)
  }

  predicate SendBlocked(s: State) {
    s.lock.Closing? && s.lock.at' == SendStop && s.caches == {} && s.tokens > 0
  }

  /** A Close sends into the full stop channel while it holds the mutex that every loop is waiting for. */
  predicate SenderBlocksLoops(s: State) {
    SendBlocked(s) && forall g :: g in s.loops ==> s.loops[g] == Wanting
  }

  lemma FreshId(ids: set<nat>) returns (id: nat)
    ensures id !in ids
  {
    id := 0;
    ghost var rest := ids;
    while id in ids
      invariant rest <= ids && forall i :: i in ids && i >= id ==> i in rest
      decreases rest
    {
      rest := rest - {id};
      id := id + 1;
    }
  }

  /** In every reachable state: nothing can move if and only if a closing cache blocks all the loops. */
  lemma DeadlockedExactly(run: seq<Step>)
    requires Runs(INITIAL, run)
    ensures Deadlocked(After(INITIAL, run)) <==> SenderBlocksLoops(After(INITIAL, run))
  {
    InvOfRun(INITIAL, run);
    var s := After(INITIAL, run);
    if SenderBlocksLoops(s) { BlockedIsDeadlocked(s); }
    if Deadlocked(s) { DeadlockedIsBlocked(s); }
  }

  lemma DeadlockedIsBlocked(s: State)
    requires Inv(s) && Deadlocked(s)
    ensures SenderBlocksLoops(s)
  {
    if !SendBlocked(s) {
      var a := HolderCanMove(s);
      assert false;
    }
    forall g | g in s.loops ensures s.loops[g] == Wanting {
      assert !Enabled(s, Fire(g));
    }
  }

  lemma BlockedIsDeadlocked(s: State)
    requires SenderBlocksLoops(s)
    ensures Deadlocked(s)
  {
    forall a ensures !Enabled(s, a) {
      match a
      case Fire(g) =>
      case TickLock(g) =>
      case Spawn(g, c) =>
      case Work(g, c) =>
      case Done(g, c) =>
      case TickUnlock(g) =>
      case ReceiveStop(g) =>
      case _ =>
    }
  }

  /** The holder of the mutex can always go on, unless it sends into the full channel. */
  lemma HolderCanMove(s: State) returns (a: Step)
    requires Inv(s) && !SendBlocked(s)
    ensures Enabled(s, a)
  {
    match s.lock
    case Free =>
      var c := FreshId(s.created);
      a := OpenLock(c);
    case Opening(_, at) =>
      var id := FreshId(s.loops.Keys);
      a := match at case AddCache => OpenAdd case StartLoop => OpenStart(id) case OpenDone => OpenUnlock;
    case Closing(_, at) =>
      a := match at
        case DeleteCache => CloseDelete
        case SendStop => CloseSend
        case ClearStarted => CloseStop
        case CloseDone => CloseUnlock;
    case Ticking(g) =>
      a := StepCloser(s, g);
  }

  // ---- Runs that show what can go wrong ----

  lemma {:induction false} Extend(s: State, run: seq<Step>, a: Step)
    requires Runs(s, run) && Enabled(After(s, run), a)
    ensures Runs(s, run + [a]) && After(s, run + [a]) == Next(After(s, run), a)
    decreases |run|
  {
    if run == [] {
      assert run + [a] == [a];
      assert [a][1..] == [];
    } else {
      Extend(Next(s, run[0]), run[1..], a);
      assert (run + [a])[1..] == run[1..] + [a];
    }
  }

  /** A whole NewAsyncCache call on a ticker without caches. */
  lemma OpenAlone(run: seq<Step>, c: CacheId, g: LoopId) returns (r: seq<Step>)
    requires Runs(INITIAL, run)
    requires var s := After(INITIAL, run);
      s.lock == Free && c !in s.created && !s.started && s.caches == {} && g !in s.loops
    ensures Runs(INITIAL, r)
    ensures var s := After(INITIAL, run);
      After(INITIAL, r) == s.(started := true, caches := {c}, loops := s.loops[g := Selecting],
        created := s.created + {c}, ready := s.ready + {c})
  {
    Extend(INITIAL, run, OpenLock(c));
    r := run + [OpenLock(c)];
    Extend(INITIAL, r, OpenAdd);
    r := r + [OpenAdd];
    Extend(INITIAL, r, OpenStart(g));
    r := r + [OpenStart(g)];
    Extend(INITIAL, r, OpenUnlock);
    r := r + [OpenUnlock];
  }

  /** A whole Close call that leaves no cache registered. */
  lemma CloseAlone(run: seq<Step>, c: CacheId) returns (r: seq<Step>)
    requires Runs(INITIAL, run)
    requires var s := After(INITIAL, run);
      s.lock == Free && c in s.ready && s.caches <= {c} && s.tokens == 0
    ensures Runs(INITIAL, r)
    ensures var s := After(INITIAL, run);
      After(INITIAL, r) == s.(started := false, caches := {}, tokens := 1,
        closeCalls := s.closeCalls + {c}, closed := s.closed + {c}, repeated := s.repeated || c in s.closeCalls,
        redundant := if s.started then s.redundant else s.redundant + 1)
  {
    Extend(INITIAL, run, CloseLock(c));
    r := run + [CloseLock(c)];
    Extend(INITIAL, r, CloseDelete);
    r := r + [CloseDelete];
    assert After(INITIAL, r).caches == {};
    Extend(INITIAL, r, CloseSend);
    r := r + [CloseSend];
    Extend(INITIAL, r, CloseStop);
    r := r + [CloseStop];
    Extend(INITIAL, r, CloseUnlock);
    r := r + [CloseUnlock];
  }

  /** Closing cache 0 twice buffers a token that later stops the only loop of cache 1, which is still open. */
  lemma SecondCloseStopsAnotherCache() returns (run: seq<Step>)
    ensures Runs(INITIAL, run)
    ensures var s := After(INITIAL, run);
      s.lock == Free && s.caches == {1} && 1 in s.ready && 1 !in s.closeCalls && s.started && s.loops == map[]
  {
    run := OpenAlone([], 0, 0);
    run := CloseAlone(run, 0);
    Extend(INITIAL, run, ReceiveStop(0));
    run := run + [ReceiveStop(0)];
    run := CloseAlone(run, 0);
    run := OpenAlone(run, 1, 1);
    Extend(INITIAL, run, ReceiveStop(1));
    run := run + [ReceiveStop(1)];
  }

  /** Although no cache is closed twice, closing the second cache blocks itself and both loops for good. */
  lemma DeadlockClosingOnce() returns (run: seq<Step>)
    ensures Runs(INITIAL, run) && !ClosedTwice(run) && Deadlocked(After(INITIAL, run))
  {
    run := OpenAlone([], 0, 0);
    Extend(INITIAL, run, Fire(0));
    run := run + [Fire(0)];
    run := CloseAlone(run, 0);
    run := OpenAlone(run, 1, 1);
    Extend(INITIAL, run, Fire(1));
    run := run + [Fire(1)];
    Extend(INITIAL, run, CloseLock(1));
    run := run + [CloseLock(1)];
    Extend(INITIAL, run, CloseDelete);
    run := run + [CloseDelete];
    DeadlockedExactly(run);
    if ClosedTwice(run) { RepeatIsRecorded(INITIAL, run); }
  }
}
