/**
  One `asynccache` cache at the grain of single atomic loads and stores. Calls of Get and GetOrSet run
  concurrently with each other, with SetDefault, with deletions (DeleteIf and expiry delete a key at
  any moment) and with one refresh pass at a time, which is what the ticker mutex allows
  (`Tickers.WorkIsExclusive`). Entries and singleflight calls are heap objects, named by index.

  Every value carries a tag: the key it was fetched or supplied for, and how it arose. The tags are checked
  against two logs that no step reads: what the Fetcher has returned for each key, and what callers have
  supplied. `nil` is a payload like any other. The expire bit plays no part here; see `AsyncCache`.
 */
module CacheRaces {
  import opened Text

  type Key = string
  type Payload = int
  type Error = int
  type EntryId = nat
  type FlightId = nat
  type CallId = nat

  datatype Source = Fetched | FetchedWithError | Supplied
  datatype Value = Value(key: Key, source: Source, payload: Payload)
  datatype Entry = Entry(val: Value, err: Option<Error>)

  /** What one call of the Fetcher returned. */
  datatype Outcome = Outcome(payload: Payload, err: Option<Error>)

  datatype Mode = Getting | Defaulting(def: Payload)

  /** A call made through the singleflight group: who leads it, and what its fetch returned once it landed. */
  datatype Flight = Flight(key: Key, mode: Mode, result: Option<Outcome>)

  /**
    How a call got its answer. `clean`: when its value was loaded the entry had no error, or a refresh had
    already stored a good value in it and was about to clear the error.
   */
  datatype How = Hit(clean: bool) | Replaced | Missed(flight: FlightId)

  /** Program point of a Get or GetOrSet call. */
  datatype Call =
    | Looking(k: Key, mode: Mode)                                // before data.Load
    | GetVal(k: Key, e: EntryId)                                 // Get hit, before e.val.Load
    | GetErr(k: Key, e: EntryId, v: Value, clean: bool)          // Get hit, before e.err.Load
    | SetErr(k: Key, e: EntryId, def: Payload)                   // GetOrSet hit, before e.err.Load
    | SetReplace(k: Key, def: Payload)                           // GetOrSet hit on an error
    | SetVal(k: Key, e: EntryId, def: Payload)                   // GetOrSet hit, before e.val.Load
    | Joining(k: Key, mode: Mode)                                // before sfg.Do
    | Leading(k: Key, mode: Mode, f: FlightId)                   // before Fetcher returns
    | Storing(k: Key, mode: Mode, f: FlightId, out: Outcome)     // before data.Store
    | Landing(k: Key, mode: Mode, f: FlightId, out: Outcome)     // before the flight is removed
    | Waiting(k: Key, mode: Mode, f: FlightId)
    | GetReturned(k: Key, v: Value, err: Option<Error>, how: How)
    | SetReturned(k: Key, def: Payload, v: Value, how: How)

  /** Program point of the refresh pass. */
  datatype Refresh =
    | Resting
    | Refetching(k: Key, e: EntryId)
    | CheckingErr(k: Key, e: EntryId, err: Error)
    | StoringErr(k: Key, e: EntryId, err: Error)
    | StoringVal(k: Key, e: EntryId, v: Value)
    | ClearingErr(k: Key, e: EntryId)

  datatype State = State(
    entries: seq<Entry>, data: map<Key, EntryId>,
    flights: seq<Flight>, inflight: map<Key, FlightId>,
    calls: map<CallId, Call>, refresh: Refresh,
    fetched: set<(Key, Outcome)>,    // log: everything the Fetcher has returned
    supplied: set<(Key, Payload)>)   // log: every default passed to SetDefault or GetOrSet

  datatype Step =
    | Start(c: CallId, k: Key, mode: Mode) | Look(c: CallId)
    | ReadVal(c: CallId) | ReadErr(c: CallId) | Replace(c: CallId)
    | Join(c: CallId) | Fetch(c: CallId, out: Outcome) | Publish(c: CallId) | Land(c: CallId) | Wake(c: CallId)
    | SetDefault(k: Key, payload: Payload) | Delete(k: Key)
    | Pick(k: Key) | Refetch(out: Outcome) | CheckErr | StoreErr | StoreVal | ClearErr

  const INITIAL := State([], map[], [], map[], map[], Resting, {}, {})

  /** The entry a landed fetch puts in the cache, and the answer given to everyone in the flight. */
  function Landed(k: Key, mode: Mode, out: Outcome): Entry {
    match mode
    case Getting => Entry(Value(k, if out.err.Some? then FetchedWithError else Fetched, out.payload), out.err)
    case Defaulting(d) =>
      Entry(if out.err.Some? then Value(k, Supplied, d) else Value(k, Fetched, out.payload), None)
  }

  function Answer(k: Key, mode: Mode, led: Entry, f: FlightId): Call {
    match mode
    case Getting => GetReturned(k, led.val, led.err, Missed(f))
    case Defaulting(d) => SetReturned(k, d, led.val, Missed(f))
  }

  predicate Enabled(s: State, a: Step) {
    match a
    case Start(c, k, mode) => c !in s.calls
    case Look(c) => c in s.calls && s.calls[c].Looking?
    case ReadVal(c) => c in s.calls && (s.calls[c].GetVal? || s.calls[c].SetVal?) && s.calls[c].e < |s.entries|
    case ReadErr(c) => c in s.calls && (s.calls[c].GetErr? || s.calls[c].SetErr?) && s.calls[c].e < |s.entries|
    case Replace(c) => c in s.calls && s.calls[c].SetReplace?
    case Join(c) => c in s.calls && s.calls[c].Joining?
    case Fetch(c, out) => c in s.calls && s.calls[c].Leading?
    case Publish(c) => c in s.calls && s.calls[c].Storing? && s.calls[c].f < |s.flights|
    case Land(c) => c in s.calls && s.calls[c].Landing? && s.calls[c].f < |s.flights|
    case Wake(c) =>
      c in s.calls && s.calls[c].Waiting? && s.calls[c].f < |s.flights| && s.flights[s.calls[c].f].result.Some?
    case SetDefault(k, p) => true
    case Delete(k) => true
    case Pick(k) => s.refresh == Resting && k in s.data
    case Refetch(out) => s.refresh.Refetching?
    case CheckErr => s.refresh.CheckingErr? && s.refresh.e < |s.entries|
    case StoreErr => s.refresh.StoringErr? && s.refresh.e < |s.entries|
    case StoreVal => s.refresh.StoringVal? && s.refresh.e < |s.entries|
    case ClearErr => s.refresh.ClearingErr? && s.refresh.e < |s.entries|
  }

  function Goto(s: State, c: CallId, pc: Call): State { s.(calls := s.calls[c := pc]) }

  /** data.Store(k, &entry) */
  function Put(s: State, k: Key, x: Entry): State {
    s.(entries := s.entries + [x], data := s.data[k := |s.entries|])
  }

  /** Steps that only move one call on, steps of the flight table, steps that store or delete, refresh steps. */
  predicate LocalStep(a: Step) { a.Start? || a.Look? || a.ReadVal? || a.ReadErr? || a.Fetch? || a.Wake? }
  predicate FlightStep(a: Step) { a.Join? || a.Land? }
  predicate StoreStep(a: Step) { a.Replace? || a.Publish? || a.SetDefault? || a.Delete? }
  predicate RefreshStep(a: Step) { !LocalStep(a) && !FlightStep(a) && !StoreStep(a) }

  /** A refresh has stored its value in entry e and not yet cleared the error. */
  predicate HalfStored(s: State, e: EntryId) {
    s.refresh.ClearingErr? && s.refresh.e == e
  }

  /** Where a local step takes its call. */
  function Move(s: State, a: Step): Call
    requires Enabled(s, a) && LocalStep(a)
  {
    match a
    case Start(c, k, mode) => Looking(k, mode)
    case Look(c) =>
      var k, mode := s.calls[c].k, s.calls[c].mode;
      if k !in s.data then Joining(k, mode)
      else if mode.Getting? then GetVal(k, s.data[k])
      else SetErr(k, s.data[k], mode.def)
    case ReadVal(c) =>
      var pc := s.calls[c];
      var x := s.entries[pc.e];
      if pc.GetVal? then GetErr(pc.k, pc.e, x.val, x.err.None? || HalfStored(s, pc.e))
      else SetReturned(pc.k, pc.def, x.val, Hit(true))
    case ReadErr(c) =>
      var pc := s.calls[c];
      var x := s.entries[pc.e];
      if pc.GetErr? then GetReturned(pc.k, pc.v, x.err, Hit(pc.clean))
      else if x.err.Some? then SetReplace(pc.k, pc.def)
      else SetVal(pc.k, pc.e, pc.def)
    case Fetch(c, out) => Storing(s.calls[c].k, s.calls[c].mode, s.calls[c].f, out)
    case Wake(c) =>
      var pc := s.calls[c];
      var fl := s.flights[pc.f];
      Answer(pc.k, pc.mode, Landed(fl.key, fl.mode, fl.result.value), pc.f)
  }

  function NextFlight(s: State, a: Step): State
    requires Enabled(s, a) && FlightStep(a)
  {
    match a
    case Join(c) =>
      var k, mode := s.calls[c].k, s.calls[c].mode;
      if k in s.inflight then Goto(s, c, Waiting(k, mode, s.inflight[k]))
      else Goto(s.(flights := s.flights + [Flight(k, mode, None)], inflight := s.inflight[k := |s.flights|]),
                c, Leading(k, mode, |s.flights|))
    case Land(c) =>
      var pc := s.calls[c];
      Goto(s.(flights := s.flights[pc.f := s.flights[pc.f].(result := Some(pc.out))], inflight := s.inflight - {pc.k}),
           c, Answer(pc.k, pc.mode, Landed(pc.k, pc.mode, pc.out), pc.f))
  }

  function NextStore(s: State, a: Step): State
    requires Enabled(s, a) && StoreStep(a)
  {
    match a
    case Replace(c) =>
      var v := Value(s.calls[c].k, Supplied, s.calls[c].def);
      Goto(Put(s, s.calls[c].k, Entry(v, None)), c, SetReturned(s.calls[c].k, s.calls[c].def, v, Replaced))
    case Publish(c) =>
      var pc := s.calls[c];
      Goto(Put(s, pc.k, Landed(pc.k, pc.mode, pc.out)), c, Landing(pc.k, pc.mode, pc.f, pc.out))
    case SetDefault(k, p) => if k in s.data then s else Put(s, k, Entry(Value(k, Supplied, p), None))
    case Delete(k) => s.(data := s.data - {k})
  }

  function NextRefresh(s: State, a: Step): State
    requires Enabled(s, a) && RefreshStep(a)
  {
    match a
    case Pick(k) => s.(refresh := Refetching(k, s.data[k]))
    case Refetch(out) =>
      var k, e := s.refresh.k, s.refresh.e;
      s.(refresh := if out.err.Some? then CheckingErr(k, e, out.err.value)
                    else StoringVal(k, e, Value(k, Fetched, out.payload)))
    case CheckErr =>
      s.(refresh :=
        if s.entries[s.refresh.e].err.Some? then StoringErr(s.refresh.k, s.refresh.e, s.refresh.err) else Resting)
    case StoreErr =>
      s.(entries := s.entries[s.refresh.e := s.entries[s.refresh.e].(err := Some(s.refresh.err))], refresh := Resting)
    case StoreVal =>
      s.(entries := s.entries[s.refresh.e := s.entries[s.refresh.e].(val := s.refresh.v)],
         refresh := ClearingErr(s.refresh.k, s.refresh.e))
    case ClearErr =>
      s.(entries := s.entries[s.refresh.e := s.entries[s.refresh.e].(err := None)], refresh := Resting)
  }

  function FetchLog(s: State, a: Step): set<(Key, Outcome)>
    requires Enabled(s, a)
  {
    match a
    case Fetch(c, out) => s.fetched + {(s.calls[c].k, out)}
    case Refetch(out) => s.fetched + {(s.refresh.k, out)}
    case _ => s.fetched
  }

  function SupplyLog(s: State, a: Step): set<(Key, Payload)> {
    match a
    case Start(_, k, Defaulting(d)) => s.supplied + {(k, d)}
    case SetDefault(k, p) => s.supplied + {(k, p)}
    case _ => s.supplied
  }

  function Next(s: State, a: Step): State
    requires Enabled(s, a)
  {
    var t :=
      if LocalStep(a) then Goto(s, a.c, Move(s, a))
      else if FlightStep(a) then NextFlight(s, a)
      else if StoreStep(a) then NextStore(s, a)
      else NextRefresh(s, a);
    t.(fetched := FetchLog(s, a), supplied := SupplyLog(s, a))
  }

  predicate Runs(s: State, run: seq<Step>)
    decreases |run|
  {
    run == [] || (Enabled(s, run[0]) && Runs(Next(s, run[0]), run[1..]))
  }

  function After(s: State, run: seq<Step>): State
    requires Runs(s, run)
    decreases |run|
  {
    if run == [] then s else After(Next(s, run[0]), run[1..])
  }

  // ---- The invariant ----

  /** Entry e exists and holds a value for key k. */
  predicate Holds(s: State, k: Key, e: EntryId) {
    e < |s.entries| && s.entries[e].val.key == k
  }

  /** An entry holds the value of a failed fetch exactly when it has an error and is not half refreshed. */
  predicate EntriesSound(s: State) {
    && (forall e :: 0 <= e < |s.entries| ==>
        (s.entries[e].val.source == FetchedWithError <==> s.entries[e].err.Some? && !HalfStored(s, e)))
    && (forall k :: k in s.data ==> Holds(s, k, s.data[k]))
  }

  predicate FlightOf(s: State, f: FlightId, k: Key) {
    f < |s.flights| && s.flights[f].key == k
  }

  /** The call is inside the function that its flight runs. */
  predicate Leads(pc: Call) { pc.Leading? || pc.Storing? || pc.Landing? }

  predicate AnswerSound(s: State, k: Key, v: Value, how: How) {
    && v.key == k
    && (how.Missed? ==>
      && FlightOf(s, how.flight, k)
      && s.flights[how.flight].result.Some?
      && v == Landed(k, s.flights[how.flight].mode, s.flights[how.flight].result.value).val)
  }

  /** A leader's flight is the one registered for its key, and has no result yet. */
  predicate LeadSound(s: State, k: Key, mode: Mode, f: FlightId) {
    && FlightOf(s, f, k) && s.flights[f].mode == mode && s.flights[f].result.None?
    && k in s.inflight && s.inflight[k] == f
  }

  predicate CallSound(s: State, pc: Call) {
    match pc
    case Looking(_, _) => true
    case Joining(_, _) => true
    case SetReplace(_, _) => true
    case GetVal(k, e) => Holds(s, k, e)
    case GetErr(k, e, v, clean) => Holds(s, k, e) && v.key == k && (clean <==> v.source != FetchedWithError)
    case SetErr(k, e, _) => Holds(s, k, e)
    case SetVal(k, e, _) => Holds(s, k, e) && s.entries[e].err.None?
    case Leading(k, mode, f) => LeadSound(s, k, mode, f)
    case Storing(k, mode, f, _) => LeadSound(s, k, mode, f)
    case Landing(k, mode, f, _) => LeadSound(s, k, mode, f)
    case Waiting(k, _, f) => FlightOf(s, f, k)
    case GetReturned(k, v, err, how) =>
      && AnswerSound(s, k, v, how)
      && (how.Hit? ==> (how.clean <==> v.source != FetchedWithError))
      && (how.Missed? ==> err == Landed(k, s.flights[how.flight].mode, s.flights[how.flight].result.value).err)
    case SetReturned(k, def, v, how) =>
      && AnswerSound(s, k, v, how)
      && (how.Hit? ==> v.source != FetchedWithError)
      && (how == Replaced ==> v == Value(k, Supplied, def))
  }

  /** Singleflight: two calls never fetch for the same key at the same time. */
  predicate OneLeaderPerKey(s: State) {
    forall c, d | c in s.calls && d in s.calls && Leads(s.calls[c]) && Leads(s.calls[d]) && c != d ::
      s.calls[c].k != s.calls[d].k
  }

  predicate CallsSound(s: State) {
    && (forall c :: c in s.calls ==> CallSound(s, s.calls[c]))
    && OneLeaderPerKey(s)
    && (forall k :: k in s.inflight ==> FlightOf(s, s.inflight[k], k))
  }

  predicate RefreshSound(s: State) {
    match s.refresh
    case Resting => true
    case StoringErr(k, e, _) => Holds(s, k, e) && s.entries[e].err.Some?
    case StoringVal(k, e, v) => Holds(s, k, e) && v.key == k && v.source == Fetched
    case ClearingErr(k, e) => Holds(s, k, e) && s.entries[e].val.source == Fetched
    case Refetching(k, e) => Holds(s, k, e)
    case CheckingErr(k, e, _) => Holds(s, k, e)
  }

  predicate Inv(s: State) {
    EntriesSound(s) && CallsSound(s) && RefreshSound(s)
  }

  /** What no step undoes: entries keep their key and stay error-free, flights keep leader and result. */
  predicate Grows(s: State, t: State) {
    && |s.entries| <= |t.entries| && |s.flights| <= |t.flights|
    && (forall e :: 0 <= e < |s.entries| ==>
        t.entries[e].val.key == s.entries[e].val.key && (s.entries[e].err.None? ==> t.entries[e].err.None?))
    && (forall f :: 0 <= f < |s.flights| ==>
        && t.flights[f].key == s.flights[f].key && t.flights[f].mode == s.flights[f].mode
        && (s.flights[f].result.Some? ==> t.flights[f].result == s.flights[f].result))
  }

  lemma PutSound(s: State, k: Key, x: Entry)
    requires EntriesSound(s) && RefreshSound(s)
    requires x.val.key == k && (x.val.source == FetchedWithError <==> x.err.Some?)
    ensures EntriesSound(Put(s, k, x)) && Grows(s, Put(s, k, x))
  {}

  lemma DeleteSound(s: State, k: Key)
    requires EntriesSound(s)
    ensures EntriesSound(s.(data := s.data - {k}))
  {}

  lemma StoreStepSound(s: State, a: Step)
    requires Inv(s) && Enabled(s, a) && StoreStep(a)
    ensures var t := NextStore(s, a);
      EntriesSound(t) && Grows(s, t) && s.entries <= t.entries
  {
    match a
    case Replace(c) => PutSound(s, s.calls[c].k, Entry(Value(s.calls[c].k, Supplied, s.calls[c].def), None));
    case Publish(c) => PutSound(s, s.calls[c].k, Landed(s.calls[c].k, s.calls[c].mode, s.calls[c].out));
    case SetDefault(k, p) => PutSound(s, k, Entry(Value(k, Supplied, p), None));
    case Delete(k) => DeleteSound(s, k);
  }

  /** One entry rewritten in place. */
  lemma UpdateSound(s: State, t: State, e: EntryId, x: Entry)
    requires EntriesSound(s) && e < |s.entries|
    requires x.val.key == s.entries[e].val.key
    requires x.val.source == FetchedWithError <==> x.err.Some? && !HalfStored(t, e)
    requires s.entries[e].err.None? ==> x.err.None?
    requires forall d :: d != e ==> !HalfStored(s, d) && !HalfStored(t, d)
    requires t.entries == s.entries[e := x] && t.data == s.data && t.flights == s.flights
    ensures EntriesSound(t) && Grows(s, t)
  {}

  lemma RefreshStepSound(s: State, a: Step)
    requires Inv(s) && Enabled(s, a) && RefreshStep(a)
    ensures var t := NextRefresh(s, a);
      EntriesSound(t) && Grows(s, t) && RefreshSound(t)
  {
    var t := NextRefresh(s, a);
    match a
    case Pick(k) => assert Holds(s, k, s.data[k]);
    case StoreErr => UpdateSound(s, t, s.refresh.e, t.entries[s.refresh.e]);
    case StoreVal => UpdateSound(s, t, s.refresh.e, t.entries[s.refresh.e]);
    case ClearErr => UpdateSound(s, t, s.refresh.e, t.entries[s.refresh.e]);
    case _ =>
  }

  lemma FlightStepGrows(s: State, a: Step)
    requires Inv(s) && Enabled(s, a) && FlightStep(a)
    ensures Grows(s, NextFlight(s, a))
  {
    assert CallSound(s, s.calls[a.c]);
  }

  /** The logs, and where the calls are, play no part in what entries and flights promise. */
  lemma Unlogged(s: State, t: State, u: State)
    requires EntriesSound(t) && Grows(s, t)
    requires u.entries == t.entries && u.data == t.data && u.refresh == t.refresh && u.flights == t.flights
    ensures EntriesSound(u) && Grows(s, u)
  {}

  lemma StepGrows(s: State, a: Step)
    requires Inv(s) && Enabled(s, a)
    ensures EntriesSound(Next(s, a)) && Grows(s, Next(s, a))
  {
    if LocalStep(a) {
      Unlogged(s, s, Next(s, a));
    } else if FlightStep(a) {
      FlightStepGrows(s, a);
      Unlogged(s, NextFlight(s, a), Next(s, a));
    } else if StoreStep(a) {
      StoreStepSound(s, a);
      Unlogged(s, NextStore(s, a), Next(s, a));
    } else {
      RefreshStepSound(s, a);
      Unlogged(s, NextRefresh(s, a), Next(s, a));
    }
  }

  lemma RefreshKept(s: State, a: Step)
    requires Inv(s) && Enabled(s, a)
    ensures RefreshSound(Next(s, a))
  {
    if StoreStep(a) {
      StoreStepSound(s, a);
    } else if RefreshStep(a) {
      RefreshStepSound(s, a);
    }
  }

  /** The step is taken by call c. */
  predicate By(a: Step, c: CallId) {
    !RefreshStep(a) && !a.SetDefault? && !a.Delete? && a.c == c
  }

  lemma MovedCallSound(s: State, a: Step)
    requires Inv(s) && Enabled(s, a) && LocalStep(a)
    ensures CallSound(s, Move(s, a))
  {
    if a.c in s.calls {
      assert CallSound(s, s.calls[a.c]);
    }
    if a.Look? && s.calls[a.c].k in s.data {
      assert Holds(s, s.calls[a.c].k, s.data[s.calls[a.c].k]);
    }
  }

  /** Soundness of a call depends only on entries, flights and the flight table. */
  lemma CallSoundFrame(s: State, t: State, pc: Call)
    requires CallSound(s, pc) && t.entries == s.entries && t.flights == s.flights && t.inflight == s.inflight
    ensures CallSound(t, pc)
  {}

  lemma ActorSound(s: State, a: Step, c: CallId)
    requires Inv(s) && Enabled(s, a) && By(a, c)
    ensures c in Next(s, a).calls && CallSound(Next(s, a), Next(s, a).calls[c])
  {
    if LocalStep(a) {
      MovedCallSound(s, a);
      CallSoundFrame(s, Next(s, a), Move(s, a));
    } else {
      assert CallSound(s, s.calls[c]);
      if a.Join? && s.calls[c].k in s.inflight {
        assert FlightOf(s, s.inflight[s.calls[c].k], s.calls[c].k);
      }
    }
  }

  lemma LeaderStable(s: State, a: Step, d: CallId)
    requires Inv(s) && Enabled(s, a)
    requires d in s.calls && Leads(s.calls[d]) && !By(a, d)
    ensures var pc := s.calls[d]; LeadSound(Next(s, a), pc.k, pc.mode, pc.f)
  {
    assert CallSound(s, s.calls[d]);
    if a.Land? {
      assert CallSound(s, s.calls[a.c]);
      assert s.calls[a.c].k != s.calls[d].k;
    }
  }

  lemma CallStable(s: State, t: State, pc: Call)
    requires CallSound(s, pc) && Grows(s, t)
    requires Leads(pc) ==> LeadSound(t, pc.k, pc.mode, pc.f)
    ensures CallSound(t, pc)
  {}

  lemma OthersUnmoved(s: State, a: Step, c: CallId)
    requires Enabled(s, a) && !By(a, c)
    ensures c in Next(s, a).calls <==> c in s.calls
    ensures c in s.calls ==> Next(s, a).calls[c] == s.calls[c]
  {}

  lemma BystanderSound(s: State, a: Step, c: CallId)
    requires Inv(s) && Enabled(s, a) && !By(a, c) && c in s.calls
    ensures CallSound(Next(s, a), s.calls[c])
  {
    StepGrows(s, a);
    if Leads(s.calls[c]) { LeaderStable(s, a, c); }
    CallStable(s, Next(s, a), s.calls[c]);
  }

  /** A call becomes a leader only by joining, and only when its key has no flight. */
  lemma NewLeader(s: State, a: Step, c: CallId)
    requires Inv(s) && Enabled(s, a) && By(a, c) && Leads(Next(s, a).calls[c])
    ensures c in s.calls && Next(s, a).calls[c].k == s.calls[c].k
    ensures Leads(s.calls[c]) || s.calls[c].k !in s.inflight
  {}

  lemma LeadersKept(s: State, a: Step)
    requires Inv(s) && Enabled(s, a)
    ensures OneLeaderPerKey(Next(s, a))
  {
    var t := Next(s, a);
    forall c, d | c in t.calls && d in t.calls && Leads(t.calls[c]) && Leads(t.calls[d]) && c != d
      ensures t.calls[c].k != t.calls[d].k
    {
      if By(a, c) {
        NewLeader(s, a, c);
        OthersUnmoved(s, a, d);
        assert CallSound(s, s.calls[d]);
      } else {
        OthersUnmoved(s, a, c);
        assert CallSound(s, s.calls[c]);
        if By(a, d) { NewLeader(s, a, d); } else { OthersUnmoved(s, a, d); }
      }
    }
  }

  lemma InflightKept(s: State, a: Step)
    requires Inv(s) && Enabled(s, a)
    ensures forall k :: k in Next(s, a).inflight ==> FlightOf(Next(s, a), Next(s, a).inflight[k], k)
  {
    var t := Next(s, a);
    StepGrows(s, a);
    forall k | k in t.inflight ensures FlightOf(t, t.inflight[k], k) {
      if k in s.inflight { assert FlightOf(s, s.inflight[k], k); }
    }
  }

  lemma InvKept(s: State, a: Step)
    requires Inv(s) && Enabled(s, a)
    ensures Inv(Next(s, a))
  {
    var t := Next(s, a);
    StepGrows(s, a);
    RefreshKept(s, a);
    LeadersKept(s, a);
    InflightKept(s, a);
    forall c | c in t.calls ensures CallSound(t, t.calls[c]) {
      if By(a, c) {
        ActorSound(s, a, c);
      } else {
        OthersUnmoved(s, a, c);
        BystanderSound(s, a, c);
      }
    }
  }

  lemma {:induction false} InvOfRun(s: State, run: seq<Step>)
    requires Inv(s) && Runs(s, run)
    ensures Inv(After(s, run)) && Grows(s, After(s, run))
    decreases |run|
  {
    if run != [] {
      InvKept(s, run[0]);
      StepGrows(s, run[0]);
      InvOfRun(Next(s, run[0]), run[1..]);
    }
  }

  // ---- Provenance: the tags are right ----

  /** The log holds a return of the Fetcher, or a default, that this value came from. */
  ghost predicate Traced(s: State, v: Value) {
    match v.source
    case Fetched => (v.key, Outcome(v.payload, None)) in s.fetched
    case FetchedWithError => exists out :: (v.key, out) in s.fetched && out.payload == v.payload && out.err.Some?
    case Supplied => (v.key, v.payload) in s.supplied
  }

  predicate ModeTraced(s: State, k: Key, mode: Mode) {
    mode.Defaulting? ==> (k, mode.def) in s.supplied
  }

  ghost predicate CallTraced(s: State, pc: Call) {
    match pc
    case Looking(k, mode) => ModeTraced(s, k, mode)
    case GetVal(_, _) => true
    case GetErr(_, _, v, _) => Traced(s, v)
    case SetErr(k, _, def) => (k, def) in s.supplied
    case SetReplace(k, def) => (k, def) in s.supplied
    case SetVal(_, _, _) => true
    case Joining(k, mode) => ModeTraced(s, k, mode)
    case Leading(k, mode, _) => ModeTraced(s, k, mode)
    case Storing(k, mode, _, out) => ModeTraced(s, k, mode) && (k, out) in s.fetched
    case Landing(k, mode, _, out) => ModeTraced(s, k, mode) && (k, out) in s.fetched
    case Waiting(_, _, _) => true
    case GetReturned(_, v, _, _) => Traced(s, v)
    case SetReturned(_, _, v, _) => Traced(s, v)
  }

  ghost predicate FlightTraced(s: State, fl: Flight) {
    ModeTraced(s, fl.key, fl.mode) && (fl.result.Some? ==> (fl.key, fl.result.value) in s.fetched)
  }

  ghost predicate AllTraced(s: State) {
    && (forall e :: 0 <= e < |s.entries| ==> Traced(s, s.entries[e].val))
    && (forall c :: c in s.calls ==> CallTraced(s, s.calls[c]))
    && (forall f :: 0 <= f < |s.flights| ==> FlightTraced(s, s.flights[f]))
    && (s.refresh.StoringVal? ==> Traced(s, s.refresh.v))
  }

  lemma LandedTraced(s: State, k: Key, mode: Mode, out: Outcome)
    requires ModeTraced(s, k, mode) && (k, out) in s.fetched
    ensures Traced(s, Landed(k, mode, out).val)
  {}

  /** What is traced stays traced as the logs grow. */
  lemma TraceStable(s: State, t: State)
    requires s.fetched <= t.fetched && s.supplied <= t.supplied
    ensures forall v :: Traced(s, v) ==> Traced(t, v)
    ensures forall pc :: CallTraced(s, pc) ==> CallTraced(t, pc)
    ensures forall fl :: FlightTraced(s, fl) ==> FlightTraced(t, fl)
  {}

  lemma LocalTraced(s: State, a: Step)
    requires Inv(s) && AllTraced(s) && Enabled(s, a) && LocalStep(a)
    ensures CallTraced(Next(s, a), Move(s, a))
  {
    var t := Next(s, a);
    if a.c in s.calls {
      assert CallTraced(s, s.calls[a.c]) && CallSound(s, s.calls[a.c]);
    }
    match a
    case ReadVal(c) => assert Traced(s, s.entries[s.calls[c].e].val);
    case Wake(c) =>
      var fl := s.flights[s.calls[c].f];
      assert FlightTraced(s, fl);
      LandedTraced(t, fl.key, fl.mode, fl.result.value);
    case _ =>
  }

  lemma ActorTraced(s: State, a: Step, c: CallId)
    requires Inv(s) && AllTraced(s) && Enabled(s, a) && By(a, c)
    ensures c in Next(s, a).calls && CallTraced(Next(s, a), Next(s, a).calls[c])
  {
    if LocalStep(a) {
      LocalTraced(s, a);
    } else {
      assert CallTraced(s, s.calls[c]) && CallSound(s, s.calls[c]);
      if a.Land? { LandedTraced(s, s.calls[c].k, s.calls[c].mode, s.calls[c].out); }
    }
  }

  lemma StoredTraced(s: State, a: Step)
    requires Inv(s) && AllTraced(s) && Enabled(s, a) && StoreStep(a)
    ensures forall e :: 0 <= e < |NextStore(s, a).entries| ==> Traced(Next(s, a), NextStore(s, a).entries[e].val)
  {
    TraceStable(s, Next(s, a));
    match a
    case Replace(c) => assert CallTraced(s, s.calls[c]);
    case Publish(c) =>
      assert CallTraced(s, s.calls[c]);
      LandedTraced(s, s.calls[c].k, s.calls[c].mode, s.calls[c].out);
    case _ =>
  }

  lemma EntriesTraced(s: State, a: Step)
    requires Inv(s) && AllTraced(s) && Enabled(s, a)
    ensures forall e :: 0 <= e < |Next(s, a).entries| ==> Traced(Next(s, a), Next(s, a).entries[e].val)
  {
    TraceStable(s, Next(s, a));
    if StoreStep(a) { StoredTraced(s, a); }
  }

  lemma FlightsTraced(s: State, a: Step)
    requires Inv(s) && AllTraced(s) && Enabled(s, a)
    ensures forall f :: 0 <= f < |Next(s, a).flights| ==> FlightTraced(Next(s, a), Next(s, a).flights[f])
  {
    TraceStable(s, Next(s, a));
    if FlightStep(a) {
      assert CallTraced(s, s.calls[a.c]) && CallSound(s, s.calls[a.c]);
    }
  }

  lemma AllTracedKept(s: State, a: Step)
    requires Inv(s) && AllTraced(s) && Enabled(s, a)
    ensures AllTraced(Next(s, a))
  {
    var t := Next(s, a);
    TraceStable(s, t);
    EntriesTraced(s, a);
    FlightsTraced(s, a);
    forall c | c in t.calls ensures CallTraced(t, t.calls[c]) {
      if By(a, c) { ActorTraced(s, a, c); } else { OthersUnmoved(s, a, c); }
    }
  }

  lemma {:induction false} AllTracedOfRun(s: State, run: seq<Step>)
    requires Inv(s) && AllTraced(s) && Runs(s, run)
    ensures AllTraced(After(s, run))
    decreases |run|
  {
    if run != [] {
      InvKept(s, run[0]);
      AllTracedKept(s, run[0]);
      AllTracedOfRun(Next(s, run[0]), run[1..]);
    }
  }

  // ---- Main results, over every run ----

  /**
    What a GetOrSet call returns. On a hit: a value of a successful fetch or a default for that key,
    never the value that came with an error, although a refresh may be rewriting the entry meanwhile.
    When it replaced an error: its own default. On a miss: what the flight it led or joined landed. That is
    what was fetched when the fetch succeeded; when it failed, the default of the call that led the flight,
    and the failed fetch's value if a Get led it. So a failed fetch leaves the call its own default exactly
    when the flight was led for that same default.
   */
  lemma GetOrSetAnswer(run: seq<Step>, c: CallId)
    requires Runs(INITIAL, run) && c in After(INITIAL, run).calls && After(INITIAL, run).calls[c].SetReturned?
    ensures var s := After(INITIAL, run);
      var SetReturned(k, def, v, how) := s.calls[c];
      && v.key == k
      && (match how
          case Hit(_) => v.source == Fetched || v.source == Supplied
          case Replaced => v == Value(k, Supplied, def)
          case Missed(f) =>
            && f < |s.flights| && s.flights[f].key == k && s.flights[f].result.Some?
            && (v.source == FetchedWithError <==> s.flights[f].mode.Getting? && s.flights[f].result.value.err.Some?)
            && (v.source == Supplied <==> s.flights[f].mode.Defaulting? && s.flights[f].result.value.err.Some?)
            && (v.source == Supplied ==> s.flights[f].mode == Defaulting(v.payload))
            && v.payload == (if v.source == Supplied then s.flights[f].mode.def else s.flights[f].result.value.payload)
            && (s.flights[f].result.value.err.Some? ==>
                (v == Value(k, Supplied, def) <==> s.flights[f].mode == Defaulting(def))))
  {
    InvOfRun(INITIAL, run);
    var s := After(INITIAL, run);
    assert CallSound(s, s.calls[c]);
  }

  /**
    What a Get call returns on a hit: the value of a failed fetch exactly when it loaded the value while the
    entry had an error and no refresh had stored a good value in it yet. `TornExactly` says when no error
    comes with such a value.
   */
  lemma CleanGetAnswer(run: seq<Step>, c: CallId)
    requires Runs(INITIAL, run) && c in After(INITIAL, run).calls && After(INITIAL, run).calls[c].GetReturned?
    ensures var GetReturned(k, v, err, how) := After(INITIAL, run).calls[c];
      v.key == k && (how.Hit? ==> (how.clean <==> v.source != FetchedWithError))
  {
    InvOfRun(INITIAL, run);
    assert CallSound(After(INITIAL, run), After(INITIAL, run).calls[c]);
  }

  /**
    What a Get call returns on a miss: the value and the error that its flight landed, so it is never torn.
    A flight led by a Get lands what was fetched; one led by a GetOrSet lands no error, and that caller's
    default in place of a failed fetch.
   */
  lemma MissedGetAnswer(run: seq<Step>, c: CallId)
    requires Runs(INITIAL, run) && c in After(INITIAL, run).calls && After(INITIAL, run).calls[c].GetReturned?
    requires After(INITIAL, run).calls[c].how.Missed?
    ensures var s := After(INITIAL, run);
      var GetReturned(k, v, err, how) := s.calls[c];
      && how.flight < |s.flights| && s.flights[how.flight].key == k && s.flights[how.flight].result.Some?
      && (v.source == FetchedWithError <==> err.Some?)
      && var out := s.flights[how.flight].result.value;
        match s.flights[how.flight].mode
        case Getting => err == out.err && v.payload == out.payload && v.source != Supplied
        case Defaulting(d) =>
          && err == None
          && v == if out.err.Some? then Value(k, Supplied, d) else Value(k, Fetched, out.payload)
  {
    InvOfRun(INITIAL, run);
    var s := After(INITIAL, run);
    assert CallSound(s, s.calls[c]);
  }

  /** All calls answered by one flight get the same value. */
  lemma FlightSharesAnswer(run: seq<Step>, c: CallId, d: CallId, f: FlightId)
    requires Runs(INITIAL, run)
    requires var m := After(INITIAL, run).calls;
      && c in m && d in m && (m[c].GetReturned? || m[c].SetReturned?) && (m[d].GetReturned? || m[d].SetReturned?)
      && m[c].how == m[d].how == Missed(f)
    ensures After(INITIAL, run).calls[c].v == After(INITIAL, run).calls[d].v
  {
    InvOfRun(INITIAL, run);
    var s := After(INITIAL, run);
    assert CallSound(s, s.calls[c]) && CallSound(s, s.calls[d]);
  }

  /**
    Whatever is cached under k, the Fetcher has returned it for k or a caller has supplied it as a default
    for k; while its entry has no error, the Fetcher did not return it along with one.
   */
  lemma CachedUnderItsKey(run: seq<Step>, k: Key)
    requires Runs(INITIAL, run) && k in After(INITIAL, run).data
    ensures var s := After(INITIAL, run);
      s.data[k] < |s.entries| &&
      var x := s.entries[s.data[k]];
      && ((k, x.val.payload) in s.supplied || exists out :: (k, out) in s.fetched && out.payload == x.val.payload)
      && (x.err.None? ==> (k, x.val.payload) in s.supplied || (k, Outcome(x.val.payload, None)) in s.fetched)
  {
    InvOfRun(INITIAL, run);
    AllTracedOfRun(INITIAL, run);
    var s := After(INITIAL, run);
    assert Holds(s, k, s.data[k]);
    assert Traced(s, s.entries[s.data[k]].val);
  }

  /** The same for every answer a call has returned. */
  lemma AnswerIsTraced(run: seq<Step>, c: CallId)
    requires Runs(INITIAL, run) && c in After(INITIAL, run).calls
    requires After(INITIAL, run).calls[c].GetReturned? || After(INITIAL, run).calls[c].SetReturned?
    ensures var s := After(INITIAL, run);
      s.calls[c].v.key == s.calls[c].k && Traced(s, s.calls[c].v)
  {
    InvOfRun(INITIAL, run);
    AllTracedOfRun(INITIAL, run);
    var s := After(INITIAL, run);
    assert CallSound(s, s.calls[c]) && CallTraced(s, s.calls[c]);
  }

  /** At most one fetch for a missing key is under way, in every reachable state. */
  lemma OneFetchPerKey(run: seq<Step>)
    requires Runs(INITIAL, run)
    ensures OneLeaderPerKey(After(INITIAL, run))
  {
    InvOfRun(INITIAL, run);
  }

  /** An entry that has no error at some point of a run has none at any later point. */
  lemma ErrorFreeForever(before: seq<Step>, later: seq<Step>, e: EntryId)
    requires Runs(INITIAL, before) && Runs(After(INITIAL, before), later)
    requires e < |After(INITIAL, before).entries| && After(INITIAL, before).entries[e].err.None?
    ensures var t := After(After(INITIAL, before), later);
      e < |t.entries| && t.entries[e].err.None?
  {
    InvOfRun(INITIAL, before);
    InvOfRun(After(INITIAL, before), later);
  }

  predicate Failing(s: State, k: Key) {
    k in s.data && s.data[k] < |s.entries| && s.entries[s.data[k]].err.Some?
  }

  /**
    An error cached under k ends only by a refresh of that entry whose fetch succeeded, a GetOrSet
    replacement, a re-store by a call that had missed k, or a deletion of k.
   */
  lemma ErrorEndsOnlyBy(run: seq<Step>, k: Key, a: Step)
    requires Runs(INITIAL, run) && Enabled(After(INITIAL, run), a)
    requires Failing(After(INITIAL, run), k) && !Failing(Next(After(INITIAL, run), a), k)
    ensures var s := After(INITIAL, run);
      || (a.ClearErr? && s.refresh.k == k && s.refresh.e == s.data[k] && s.entries[s.refresh.e].val.source == Fetched)
      || (a.Replace? && s.calls[a.c].k == k)
      || (a.Publish? && s.calls[a.c].k == k)
      || a == Delete(k)
  {
    InvOfRun(INITIAL, run);
    ErrorEndsStep(After(INITIAL, run), k, a);
  }

  lemma ErrorEndsStep(s: State, k: Key, a: Step)
    requires Inv(s) && Enabled(s, a) && Failing(s, k) && !Failing(Next(s, a), k)
    ensures
      || (a.ClearErr? && s.refresh.k == k && s.refresh.e == s.data[k] && s.entries[s.refresh.e].val.source == Fetched)
      || (a.Replace? && s.calls[a.c].k == k)
      || (a.Publish? && s.calls[a.c].k == k)
      || a == Delete(k)
  {
    assert Holds(s, k, s.data[k]);
  }

  // ---- When a Get is torn ----

  /** The state before step i of the run. */
  function At(s: State, run: seq<Step>, i: nat): State
    requires Runs(s, run) && i <= |run|
    decreases i
  {
    if i == 0 then s else At(Next(s, run[0]), run[1..], i - 1)
  }

  lemma {:induction false} AtNext(s: State, run: seq<Step>, i: nat)
    requires Runs(s, run) && i < |run|
    ensures Enabled(At(s, run, i), run[i]) && At(s, run, i + 1) == Next(At(s, run, i), run[i])
    decreases i
  {
    if i > 0 { AtNext(Next(s, run[0]), run[1..], i - 1); }
  }

  lemma {:induction false} AtEnd(s: State, run: seq<Step>)
    requires Runs(s, run)
    ensures At(s, run, |run|) == After(s, run)
    decreases |run|
  {
    if run != [] { AtEnd(Next(s, run[0]), run[1..]); }
  }

  lemma {:induction false} InvAt(run: seq<Step>, i: nat)
    requires Runs(INITIAL, run) && i <= |run|
    ensures Inv(At(INITIAL, run, i))
    decreases i
  {
    if i > 0 {
      InvAt(run, i - 1);
      AtNext(INITIAL, run, i - 1);
      InvKept(At(INITIAL, run, i - 1), run[i - 1]);
    }
  }

  /** Step i of the run stores a good value in entry e, which has an error. */
  predicate StoresOverError(run: seq<Step>, i: nat, e: EntryId)
    requires Runs(INITIAL, run) && i < |run|
  {
    var s := At(INITIAL, run, i);
    run[i] == StoreVal && s.refresh.StoringVal? && s.refresh.e == e && e < |s.entries| && s.entries[e].err.Some?
  }

  predicate Clears(run: seq<Step>, i: nat, e: EntryId)
    requires Runs(INITIAL, run) && i < |run|
  {
    run[i] == ClearErr && HalfStored(At(INITIAL, run, i), e)
  }

  /** Both stores of a refresh that ends the error of entry e fall between steps i and n. */
  predicate RefreshedBetween(run: seq<Step>, i: nat, n: nat, e: EntryId)
    requires Runs(INITIAL, run) && n <= |run|
  {
    exists j, m :: i < j < m < n && StoresOverError(run, j, e) && Clears(run, m, e)
  }

  predicate FailingEntry(s: State, e: EntryId) {
    e < |s.entries| && s.entries[e].err.Some?
  }

  /** The step that brought call c to where it is at i. */
  lemma {:induction false} Arrived(run: seq<Step>, i: nat, c: CallId) returns (n: nat)
    requires Runs(INITIAL, run) && i <= |run| && c in At(INITIAL, run, i).calls
    ensures n < i && By(run[n], c)
    ensures c in At(INITIAL, run, n + 1).calls && At(INITIAL, run, n + 1).calls[c] == At(INITIAL, run, i).calls[c]
    decreases i
  {
    AtNext(INITIAL, run, i - 1);
    if By(run[i - 1], c) {
      n := i - 1;
    } else {
      OthersUnmoved(At(INITIAL, run, i - 1), run[i - 1], c);
      n := Arrived(run, i - 1, c);
    }
  }

  /** Only the second store of a refresh ends an entry's error. */
  lemma ErrorEndsByClear(s: State, a: Step, e: EntryId)
    requires Inv(s) && Enabled(s, a) && FailingEntry(s, e) && !FailingEntry(Next(s, a), e)
    ensures a == ClearErr && HalfStored(s, e)
  {
    if StoreStep(a) { StoreStepSound(s, a); }
  }

  /** A refresh gets half done only by its first store. */
  lemma HalfByStore(s: State, a: Step, e: EntryId)
    requires Inv(s) && Enabled(s, a) && !HalfStored(s, e) && HalfStored(Next(s, a), e)
    ensures a == StoreVal && s.refresh.StoringVal? && s.refresh.e == e
  {
    if StoreStep(a) { StoreStepSound(s, a); }
  }

  /** An entry that has an error at i and none at n was cleared in between. */
  lemma {:induction false} ClearedBetween(run: seq<Step>, i: nat, n: nat, e: EntryId) returns (m: nat)
    requires Runs(INITIAL, run) && i <= n <= |run|
    requires FailingEntry(At(INITIAL, run, i), e) && !FailingEntry(At(INITIAL, run, n), e)
    ensures i <= m < n && Clears(run, m, e) && FailingEntry(At(INITIAL, run, m), e)
    decreases n
  {
    AtNext(INITIAL, run, n - 1);
    if FailingEntry(At(INITIAL, run, n - 1), e) {
      InvAt(run, n - 1);
      ErrorEndsByClear(At(INITIAL, run, n - 1), run[n - 1], e);
      m := n - 1;
    } else {
      m := ClearedBetween(run, i, n - 1, e);
    }
  }

  /** A refresh that is half done at m and was not at i made its first store in between. */
  lemma {:induction false} StoredBetween(run: seq<Step>, i: nat, m: nat, e: EntryId) returns (j: nat)
    requires Runs(INITIAL, run) && i <= m <= |run|
    requires FailingEntry(At(INITIAL, run, m), e) && HalfStored(At(INITIAL, run, m), e)
    requires !HalfStored(At(INITIAL, run, i), e) && FailingEntry(At(INITIAL, run, i), e)
    ensures i <= j < m && StoresOverError(run, j, e)
    decreases m
  {
    StaysErrorFree(run, i, m - 1, e);
    StaysErrorFree(run, m - 1, m, e);
    if HalfStored(At(INITIAL, run, m - 1), e) {
      j := StoredBetween(run, i, m - 1, e);
    } else {
      AtNext(INITIAL, run, m - 1);
      InvAt(run, m - 1);
      HalfByStore(At(INITIAL, run, m - 1), run[m - 1], e);
      j := m - 1;
    }
  }

  /** Entries stay, and stay error-free. */
  lemma {:induction false} StaysErrorFree(run: seq<Step>, i: nat, n: nat, e: EntryId)
    requires Runs(INITIAL, run) && i <= n <= |run| && e < |At(INITIAL, run, i).entries|
    ensures e < |At(INITIAL, run, n).entries|
    ensures !FailingEntry(At(INITIAL, run, i), e) ==> !FailingEntry(At(INITIAL, run, n), e)
    decreases n
  {
    if i < n {
      StaysErrorFree(run, i, n - 1, e);
      AtNext(INITIAL, run, n - 1);
      InvAt(run, n - 1);
      StepGrows(At(INITIAL, run, n - 1), run[n - 1]);
    }
  }

  /** A half done refresh moves on only by clearing the error. */
  lemma {:induction false} HalfUntilClear(run: seq<Step>, i: nat, n: nat, e: EntryId)
    requires Runs(INITIAL, run) && i <= n <= |run|
    requires e < |At(INITIAL, run, i).entries| && HalfStored(At(INITIAL, run, i), e)
    ensures HalfStored(At(INITIAL, run, n), e) || !FailingEntry(At(INITIAL, run, n), e)
    decreases n
  {
    if i < n {
      HalfUntilClear(run, i, n - 1, e);
      StaysErrorFree(run, i, n - 1, e);
      StaysErrorFree(run, n - 1, n, e);
      AtNext(INITIAL, run, n - 1);
    }
  }

  /** Of an entry that is error-free at n: a failed fetch's value is there at i exactly when it is refreshed after i. */
  lemma FailedValueExactly(run: seq<Step>, i: nat, n: nat, e: EntryId)
    requires Runs(INITIAL, run) && i < n <= |run| && e < |At(INITIAL, run, i).entries|
    requires !run[i].StoreVal? && !FailingEntry(At(INITIAL, run, n), e)
    ensures At(INITIAL, run, i).entries[e].val.source == FetchedWithError <==> RefreshedBetween(run, i, n, e)
  {
    var s := At(INITIAL, run, i);
    InvAt(run, i);
    if FailingEntry(s, e) && !HalfStored(s, e) {
      var m := ClearedBetween(run, i, n, e);
      var j := StoredBetween(run, i, m, e);
    } else if RefreshedBetween(run, i, n, e) {
      var j, m :| i < j < m < n && StoresOverError(run, j, e) && Clears(run, m, e);
      if HalfStored(s, e) { HalfUntilClear(run, i, j, e); } else { StaysErrorFree(run, i, j, e); }
    }
  }

  lemma LoadedError(s: State, a: Step, c: CallId)
    requires Enabled(s, a) && By(a, c) && c in Next(s, a).calls
    requires Next(s, a).calls[c].GetReturned? && Next(s, a).calls[c].how.Hit?
    ensures a == ReadErr(c) && c in s.calls && s.calls[c].GetErr? && s.calls[c].e < |s.entries|
    ensures var pc := s.calls[c];
      Next(s, a).calls[c] == GetReturned(pc.k, pc.v, s.entries[pc.e].err, Hit(pc.clean))
  {}

  lemma LoadedValue(s: State, a: Step, c: CallId)
    requires Enabled(s, a) && By(a, c) && c in Next(s, a).calls && Next(s, a).calls[c].GetErr?
    ensures var pc := Next(s, a).calls[c];
      && a == ReadVal(c) && c in s.calls && s.calls[c] == GetVal(pc.k, pc.e)
      && pc.e < |s.entries| && pc.v == s.entries[pc.e].val
  {}

  /**
    A Get hit that saw no error loaded the value at some step i, the error at some later step n. Its value
    is that of a failed fetch if and only if both stores of the successful refresh that ended the entry's
    error fall between the two.
   */
  lemma TornExactly(run: seq<Step>, c: CallId) returns (i: nat, n: nat, e: EntryId)
    requires Runs(INITIAL, run) && c in After(INITIAL, run).calls && After(INITIAL, run).calls[c].GetReturned?
    requires After(INITIAL, run).calls[c].how.Hit? && After(INITIAL, run).calls[c].err == None
    ensures i < n < |run| && run[i] == ReadVal(c) && run[n] == ReadErr(c)
    ensures c in At(INITIAL, run, i).calls && At(INITIAL, run, i).calls[c] == GetVal(After(INITIAL, run).calls[c].k, e)
    ensures After(INITIAL, run).calls[c].v.source == FetchedWithError <==> RefreshedBetween(run, i, n, e)
  {
    AtEnd(INITIAL, run);
    n := Arrived(run, |run|, c);
    AtNext(INITIAL, run, n);
    LoadedError(At(INITIAL, run, n), run[n], c);
    e := At(INITIAL, run, n).calls[c].e;
    i := Arrived(run, n, c);
    AtNext(INITIAL, run, i);
    LoadedValue(At(INITIAL, run, i), run[i], c);
    FailedValueExactly(run, i, n, e);
  }

  // ---- The logs are the run ----

  /** Step j of the run is a return of the Fetcher for k. */
  predicate FetchesAt(run: seq<Step>, j: nat, k: Key, out: Outcome)
    requires Runs(INITIAL, run) && j < |run|
  {
    var s := At(INITIAL, run, j);
    match run[j]
    case Fetch(c, o) => o == out && c in s.calls && s.calls[c].Leading? && s.calls[c].k == k
    case Refetch(o) => o == out && s.refresh.Refetching? && s.refresh.k == k
    case _ => false
  }

  /** Step j of the run supplies a default for k. */
  predicate SuppliesAt(run: seq<Step>, j: nat, k: Key, d: Payload)
    requires j < |run|
  {
    match run[j]
    case Start(_, l, mode) => l == k && mode == Defaulting(d)
    case SetDefault(l, p) => l == k && p == d
    case _ => false
  }

  /** What the logs hold is what the Fetcher returned and what callers supplied in the run, and nothing else. */
  lemma {:induction false} LogsAreTheRun(run: seq<Step>, i: nat, k: Key, out: Outcome, d: Payload)
    requires Runs(INITIAL, run) && i <= |run|
    ensures (k, out) in At(INITIAL, run, i).fetched <==> exists j: nat :: j < i && FetchesAt(run, j, k, out)
    ensures (k, d) in At(INITIAL, run, i).supplied <==> exists j: nat :: j < i && SuppliesAt(run, j, k, d)
    decreases i
  {
    if i > 0 {
      LogsAreTheRun(run, i - 1, k, out, d);
      AtNext(INITIAL, run, i - 1);
      LogStep(At(INITIAL, run, i - 1), run[i - 1], k, out, d);
      assert (k, out) in At(INITIAL, run, i).fetched
        <==> (k, out) in At(INITIAL, run, i - 1).fetched || FetchesAt(run, i - 1, k, out);
      assert (k, d) in At(INITIAL, run, i).supplied
        <==> (k, d) in At(INITIAL, run, i - 1).supplied || SuppliesAt(run, i - 1, k, d);
    }
  }

  lemma LogStep(s: State, a: Step, k: Key, out: Outcome, d: Payload)
    requires Enabled(s, a)
    ensures (k, out) in Next(s, a).fetched <==>
      || (k, out) in s.fetched
      || (a.Fetch? && a.out == out && s.calls[a.c].k == k)
      || (a.Refetch? && a.out == out && s.refresh.k == k)
    ensures (k, d) in Next(s, a).supplied <==>
      || (k, d) in s.supplied
      || (a.Start? && a.k == k && a.mode == Defaulting(d))
      || (a.SetDefault? && a.k == k && a.payload == d)
  {}

  // ---- Runs that show the conditions above are needed ----

  lemma {:induction false} Extend(s: State, run: seq<Step>, a: Step)
    requires Runs(s, run) && Enabled(After(s, run), a)
    ensures Runs(s, run + [a]) && After(s, run + [a]) == Next(After(s, run), a)
    decreases |run|
  {
    if run == [] {
      assert run + [a] == [a];
      assert [a][1..] == [];
    } else {
      Extend(Next(s, run[0]), run[1..], a);
      assert (run + [a])[1..] == run[1..] + [a];
    }
  }

  /** A call misses and leads a flight. */
  lemma LeadFlight(k: Key, mode: Mode) returns (run: seq<Step>)
    ensures Runs(INITIAL, run)
    ensures var s := After(INITIAL, run);
      && s.entries == [] && s.data == map[] && s.flights == [Flight(k, mode, None)] && s.inflight == map[k := 0]
      && s.calls == map[0 := Leading(k, mode, 0)] && s.refresh == Resting
  {
    run := [];
    Extend(INITIAL, run, Start(0, k, mode));
    run := run + [Start(0, k, mode)];
    Extend(INITIAL, run, Look(0));
    run := run + [Look(0)];
    Extend(INITIAL, run, Join(0));
    run := run + [Join(0)];
  }

  /** Its fetch fails and lands. */
  lemma FailFlight(run: seq<Step>, k: Key, mode: Mode, err: Error) returns (r: seq<Step>)
    requires Runs(INITIAL, run)
    requires var s := After(INITIAL, run);
      && s.entries == [] && s.data == map[] && s.flights == [Flight(k, mode, None)] && s.inflight == map[k := 0]
      && 0 in s.calls && s.calls[0] == Leading(k, mode, 0)
    ensures Runs(INITIAL, r)
    ensures var s := After(INITIAL, run);
      var led := Landed(k, mode, Outcome(0, Some(err)));
      After(INITIAL, r) == State([led], map[k := 0],
        [Flight(k, mode, Some(Outcome(0, Some(err))))], map[],
        s.calls[0 := Answer(k, mode, led, 0)], s.refresh,
        s.fetched + {(k, Outcome(0, Some(err)))}, s.supplied)
  {
    var out := Outcome(0, Some(err));
    Extend(INITIAL, run, Fetch(0, out));
    r := run + [Fetch(0, out)];
    Extend(INITIAL, r, Publish(0));
    r := r + [Publish(0)];
    Extend(INITIAL, r, Land(0));
    r := r + [Land(0)];
    assert map[k := 0] - {k} == map[];
  }

  /** A second Get has loaded the value of the failed entry, but not its error yet. */
  lemma FailedValueLoaded(k: Key) returns (run: seq<Step>)
    ensures Runs(INITIAL, run)
    ensures var s, v := After(INITIAL, run), Value(k, FetchedWithError, 0);
      && s.entries == [Entry(v, Some(7))] && s.data == map[k := 0] && s.refresh == Resting
      && 1 in s.calls && s.calls[1] == GetErr(k, 0, v, false)
  {
    run := LeadFlight(k, Getting);
    run := FailFlight(run, k, Getting, 7);
    Extend(INITIAL, run, Start(1, k, Getting));
    run := run + [Start(1, k, Getting)];
    Extend(INITIAL, run, Look(1));
    run := run + [Look(1)];
    Extend(INITIAL, run, ReadVal(1));
    run := run + [ReadVal(1)];
  }

  /** Get loads the value before the error: with a refresh in between it returns a failed fetch's value and no error. */
  lemma TornGet(k: Key) returns (run: seq<Step>)
    ensures Runs(INITIAL, run) && 1 in After(INITIAL, run).calls
    ensures After(INITIAL, run).calls[1] == GetReturned(k, Value(k, FetchedWithError, 0), None, Hit(false))
  {
    run := FailedValueLoaded(k);
    Extend(INITIAL, run, Pick(k));
    run := run + [Pick(k)];
    Extend(INITIAL, run, Refetch(Outcome(5, None)));
    run := run + [Refetch(Outcome(5, None))];
    Extend(INITIAL, run, StoreVal);
    run := run + [StoreVal];
    Extend(INITIAL, run, ClearErr);
    run := run + [ClearErr];
    Extend(INITIAL, run, ReadErr(1));
    run := run + [ReadErr(1)];
  }

  /** A GetOrSet misses and joins the flight of a call 0 whose fetch then fails: it gets what that call landed. */
  lemma JoinFailing(k: Key, mode: Mode, def: Payload) returns (run: seq<Step>)
    ensures Runs(INITIAL, run) && 1 in After(INITIAL, run).calls
    ensures After(INITIAL, run).calls[1]
      == SetReturned(k, def, Landed(k, mode, Outcome(0, Some(7))).val, Missed(0))
  {
    run := LeadFlight(k, mode);
    Extend(INITIAL, run, Start(1, k, Defaulting(def)));
    run := run + [Start(1, k, Defaulting(def))];
    Extend(INITIAL, run, Look(1));
    run := run + [Look(1)];
    Extend(INITIAL, run, Join(1));
    run := run + [Join(1)];
    run := FailFlight(run, k, mode, 7);
    Extend(INITIAL, run, Wake(1));
    run := run + [Wake(1)];
  }

  /** A GetOrSet that joins the failing flight of a Get is given the failed value, not its default. */
  lemma DefaultLostByJoining(k: Key, def: Payload) returns (run: seq<Step>)
    ensures Runs(INITIAL, run) && 1 in After(INITIAL, run).calls
    ensures After(INITIAL, run).calls[1] == SetReturned(k, def, Value(k, FetchedWithError, 0), Missed(0))
  {
    run := JoinFailing(k, Getting, def);
  }

  /** A GetOrSet that joins the failing flight of another GetOrSet is given the other caller's default. */
  lemma OtherDefaultByJoining(k: Key, def: Payload, other: Payload) returns (run: seq<Step>)
    ensures Runs(INITIAL, run) && 1 in After(INITIAL, run).calls
    ensures After(INITIAL, run).calls[1] == SetReturned(k, def, Value(k, Supplied, other), Missed(0))
  {
    run := JoinFailing(k, Defaulting(other), def);
  }
}
