/**
  The machine of single loads and stores against the cache's methods: a call that runs without others in
  between does to the cached values and errors what its method does, and returns the same. (The expire
  bit is not part of the machine.) While a call runs alone, each of its steps is the only one it can take.
 */
module CacheRefinement {
  import opened Text
  import opened CacheRaces
  import Methods = AsyncCaches

  function Out(out: Outcome): Methods.Outcome { Methods.Outcome(out.payload, out.err) }

  /** The same keys are cached, with the same values and errors. */
  predicate Agrees(s: State, m: Methods.Contents) {
    && s.data.Keys == m.Keys
    && forall k :: k in s.data ==>
        && s.data[k] < |s.entries|
        && s.entries[s.data[k]].val.payload == m[k].val && s.entries[s.data[k]].err == m[k].err
  }

  /** The step is the only one that call c can take, whatever the Fetcher returns. */
  lemma StepIsForced(s: State, c: CallId, a: Step, b: Step)
    requires c in s.calls && Enabled(s, a) && Enabled(s, b) && By(a, c) && By(b, c)
    ensures a == b || (a.Fetch? && b.Fetch?)
    ensures !s.calls[c].GetReturned? && !s.calls[c].SetReturned?
  {}

  lemma ConsRuns(s: State, a: Step, rest: seq<Step>)
    requires Enabled(s, a) && Runs(Next(s, a), rest)
    ensures Runs(s, [a] + rest) && After(s, [a] + rest) == After(Next(s, a), rest)
  {
    assert ([a] + rest)[1..] == rest;
  }

  lemma TwoSteps(s: State, a: Step, b: Step)
    requires Enabled(s, a) && Enabled(Next(s, a), b)
    ensures Runs(s, [a, b]) && After(s, [a, b]) == Next(Next(s, a), b)
  {
    assert Runs(Next(Next(s, a), b), []);
    ConsRuns(Next(s, a), b, []);
    ConsRuns(s, a, [b] + []);
    assert [a] + ([b] + []) == [a, b];
  }

  lemma {:induction false} Concat(s: State, run: seq<Step>, more: seq<Step>)
    requires Runs(s, run) && Runs(After(s, run), more)
    ensures Runs(s, run + more) && After(s, run + more) == After(After(s, run), more)
    decreases |more|
  {
    if more == [] {
      assert run + more == run;
    } else {
      var a, rest := more[0], more[1..];
      var run' := run + [a];
      Extend(s, run, a);
      Concat(s, run', rest);
      assert run' + rest == run + more;
    }
  }

  /** A call that has just missed, and joins no other, leads a flight and fetches. */
  lemma LeadAlone(s: State, c: CallId, k: Key, mode: Mode, out: Outcome)
    requires c in s.calls && s.calls[c] == Joining(k, mode) && k !in s.inflight
    ensures Runs(s, [Join(c), Fetch(c, out)])
    ensures var t := After(s, [Join(c), Fetch(c, out)]);
      && t.data == s.data && t.entries == s.entries && |t.flights| == |s.flights| + 1
      && t.inflight == s.inflight[k := |s.flights|]
      && c in t.calls && t.calls[c] == Storing(k, mode, |s.flights|, out)
  {
    TwoSteps(s, Join(c), Fetch(c, out));
  }

  lemma PutAgrees(s: State, t: State, m: Methods.Contents, k: Key, x: Entry)
    requires Agrees(s, m) && t.data == Put(s, k, x).data && t.entries == Put(s, k, x).entries
    ensures Agrees(t, m[k := Methods.Slot(x.val.payload, x.err, false)])
  {}

  /** It stores what the flight landed, and answers with that. */
  lemma LandAlone(s: State, m: Methods.Contents, c: CallId, k: Key, mode: Mode, f: FlightId, out: Outcome)
    requires Agrees(s, m) && c in s.calls && s.calls[c] == Storing(k, mode, f, out) && f < |s.flights|
    ensures Runs(s, [Publish(c), Land(c)])
    ensures var t, led := After(s, [Publish(c), Land(c)]), Landed(k, mode, out);
      && Agrees(t, m[k := Methods.Slot(led.val.payload, led.err, false)])
      && c in t.calls && t.calls[c] == Answer(k, mode, led, f) && k !in t.inflight
  {
    TwoSteps(s, Publish(c), Land(c));
    PutAgrees(s, After(s, [Publish(c), Land(c)]), m, k, Landed(k, mode, out));
  }

  lemma MissAlone(s: State, m: Methods.Contents, c: CallId, k: Key, mode: Mode, out: Outcome) returns (run: seq<Step>)
    requires Agrees(s, m) && c in s.calls && s.calls[c] == Joining(k, mode) && k !in s.inflight
    ensures run == [Join(c), Fetch(c, out), Publish(c), Land(c)] && Runs(s, run)
    ensures var t, led := After(s, run), Landed(k, mode, out);
      && Agrees(t, m[k := Methods.Slot(led.val.payload, led.err, false)])
      && c in t.calls && t.calls[c] == Answer(k, mode, led, |s.flights|) && k !in t.inflight
  {
    LeadAlone(s, c, k, mode, out);
    LandAlone(After(s, [Join(c), Fetch(c, out)]), m, c, k, mode, |s.flights|, out);
    Concat(s, [Join(c), Fetch(c, out)], [Publish(c), Land(c)]);
    run := [Join(c), Fetch(c, out)] + [Publish(c), Land(c)];
  }

  /** Look up a key: the two first steps of a call. */
  lemma LookAlone(s: State, m: Methods.Contents, c: CallId, k: Key, mode: Mode) returns (t: State)
    requires Agrees(s, m) && c !in s.calls
    ensures Runs(s, [Start(c, k, mode), Look(c)]) && t == After(s, [Start(c, k, mode), Look(c)])
    ensures Agrees(t, m) && t.inflight == s.inflight && t.data == s.data && t.entries == s.entries && c in t.calls
    ensures t.calls[c] ==
      if k !in m then Joining(k, mode)
      else if mode.Getting? then GetVal(k, s.data[k])
      else SetErr(k, s.data[k], mode.def)
  {
    TwoSteps(s, Start(c, k, mode), Look(c));
    t := After(s, [Start(c, k, mode), Look(c)]);
  }

  /** Get */
  lemma GetRefines(s: State, m: Methods.Contents, c: CallId, k: Key, out: Outcome) returns (run: seq<Step>)
    requires Agrees(s, m) && c !in s.calls && (k !in m ==> k !in s.inflight)
    ensures run == [Start(c, k, Getting), Look(c)]
      + if k in m then [ReadVal(c), ReadErr(c)] else [Join(c), Fetch(c, out), Publish(c), Land(c)]
    ensures Runs(s, run) && Agrees(After(s, run), Methods.GetOf(m, k, Out(out)))
    ensures var r, x := After(s, run).calls, Methods.GetOf(m, k, Out(out))[k];
      c in r && r[c].GetReturned? && r[c].k == k && r[c].v.payload == x.val && r[c].err == x.err
  {
    var t := LookAlone(s, m, c, k, Getting);
    var rest := [ReadVal(c), ReadErr(c)];
    if k in m {
      TwoSteps(t, ReadVal(c), ReadErr(c));
    } else {
      rest := MissAlone(t, m, c, k, Getting, out);
    }
    Concat(s, [Start(c, k, Getting), Look(c)], rest);
    run := [Start(c, k, Getting), Look(c)] + rest;
  }

  /** A GetOrSet that found its key cached. */
  lemma SetHitAlone(s: State, m: Methods.Contents, c: CallId, k: Key, def: Payload) returns (run: seq<Step>)
    requires Agrees(s, m) && k in m && c in s.calls && s.calls[c] == SetErr(k, s.data[k], def)
    ensures run == if m[k].err.Some? then [ReadErr(c), Replace(c)] else [ReadErr(c), ReadVal(c)]
    ensures var x := if m[k].err.Some? then Methods.Slot(def, None, false) else Methods.Touched(m[k]);
      && Runs(s, run) && Agrees(After(s, run), m[k := x])
      && c in After(s, run).calls && After(s, run).calls[c].SetReturned?
      && After(s, run).calls[c].k == k && After(s, run).calls[c].v.payload == x.val
  {
    if m[k].err.Some? {
      TwoSteps(s, ReadErr(c), Replace(c));
      run := [ReadErr(c), Replace(c)];
      PutAgrees(s, After(s, run), m, k, Entry(Value(k, Supplied, def), None));
    } else {
      TwoSteps(s, ReadErr(c), ReadVal(c));
      run := [ReadErr(c), ReadVal(c)];
    }
  }

  /** GetOrSet */
  lemma GetOrSetRefines(s: State, m: Methods.Contents, c: CallId, k: Key, def: Payload, out: Outcome)
    returns (run: seq<Step>)
    requires Agrees(s, m) && c !in s.calls && (k !in m ==> k !in s.inflight)
    ensures run == [Start(c, k, Defaulting(def)), Look(c)]
      + if k !in m then [Join(c), Fetch(c, out), Publish(c), Land(c)]
        else if m[k].err.Some? then [ReadErr(c), Replace(c)]
        else [ReadErr(c), ReadVal(c)]
    ensures Runs(s, run) && Agrees(After(s, run), Methods.GetOrSetOf(m, k, def, Out(out)))
    ensures var r, x := After(s, run).calls, Methods.GetOrSetOf(m, k, def, Out(out))[k];
      c in r && r[c].SetReturned? && r[c].k == k && r[c].v.payload == x.val && x.err == None
  {
    var mode := Defaulting(def);
    var t := LookAlone(s, m, c, k, mode);
    var rest := [];
    if k !in m {
      rest := MissAlone(t, m, c, k, mode, out);
    } else {
      rest := SetHitAlone(t, m, c, k, def);
    }
    Concat(s, [Start(c, k, mode), Look(c)], rest);
    run := [Start(c, k, mode), Look(c)] + rest;
  }

  lemma SetDefaultRefines(s: State, m: Methods.Contents, k: Key, val: Payload)
    requires Agrees(s, m)
    ensures Agrees(Next(s, SetDefault(k, val)), Methods.SetDefaultOf(m, k, val))
  {
    if k !in m { PutAgrees(s, Next(s, SetDefault(k, val)), m, k, Entry(Value(k, Supplied, val), None)); }
  }

  /** One deletion, as DeleteIf and the expire pass make it. */
  lemma DeleteRefines(s: State, m: Methods.Contents, k: Key)
    requires Agrees(s, m)
    ensures Agrees(Next(s, Delete(k)), Methods.DeleteIfOf(m, l => l == k))
  {}

  /** Entries of different keys are different objects, so rewriting one leaves the others. */
  lemma RewriteEntry(s: State, t: State, m: Methods.Contents, k: Key, x: Entry)
    requires Inv(s) && Agrees(s, m) && k in m
    requires t.data == s.data && t.entries == s.entries[s.data[k] := x]
    ensures Agrees(t, m[k := m[k].(val := x.val.payload, err := x.err)])
  {
    forall l | l in s.data && l != k ensures s.data[l] != s.data[k] {
      assert Holds(s, l, s.data[l]) && Holds(s, k, s.data[k]);
    }
  }

  /** What the pass does at one key once the Fetcher has returned. */
  function RefreshTail(failing: bool, out: Outcome): seq<Step> {
    if out.err.None? then [StoreVal, ClearErr] else if failing then [CheckErr, StoreErr] else [CheckErr]
  }

  lemma GoodRefresh(s: State, m: Methods.Contents, k: Key, val: Payload)
    requires Inv(s) && Agrees(s, m) && k in m
    requires s.refresh == StoringVal(k, s.data[k], Value(k, Fetched, val))
    ensures Runs(s, [StoreVal, ClearErr]) && After(s, [StoreVal, ClearErr]).refresh == Resting
    ensures Agrees(After(s, [StoreVal, ClearErr]), m[k := m[k].(val := val, err := None)])
  {
    TwoSteps(s, StoreVal, ClearErr);
    RewriteEntry(s, After(s, [StoreVal, ClearErr]), m, k, Entry(Value(k, Fetched, val), None));
  }

  lemma FailedAgain(s: State, m: Methods.Contents, k: Key, err: Error)
    requires Inv(s) && Agrees(s, m) && Failing(s, k) && s.refresh == CheckingErr(k, s.data[k], err)
    ensures Runs(s, [CheckErr, StoreErr]) && After(s, [CheckErr, StoreErr]).refresh == Resting
    ensures Agrees(After(s, [CheckErr, StoreErr]), m[k := m[k].(err := Some(err))])
  {
    TwoSteps(s, CheckErr, StoreErr);
    RewriteEntry(s, After(s, [CheckErr, StoreErr]), m, k, s.entries[s.data[k]].(err := Some(err)));
  }

  lemma FailureIgnored(s: State, m: Methods.Contents, k: Key, err: Error)
    requires Agrees(s, m) && k in m && !Failing(s, k) && s.refresh == CheckingErr(k, s.data[k], err)
    ensures Runs(s, [CheckErr]) && After(s, [CheckErr]).refresh == Resting && Agrees(After(s, [CheckErr]), m)
  {
    OneStep(s, CheckErr);
  }

  lemma RefreshTailRefines(s: State, m: Methods.Contents, k: Key, out: Outcome)
    requires Inv(s) && Agrees(s, m) && k in m
    requires s.refresh == if out.err.Some? then CheckingErr(k, s.data[k], out.err.value)
                          else StoringVal(k, s.data[k], Value(k, Fetched, out.payload))
    ensures var tail := RefreshTail(m[k].err.Some?, out);
      && Runs(s, tail) && After(s, tail).refresh == Resting
      && Agrees(After(s, tail), m[k := Methods.Refreshed(m[k], Out(out))])
  {
    if out.err.None? { GoodRefresh(s, m, k, out.payload); }
    else if m[k].err.Some? { FailedAgain(s, m, k, out.err.value); }
    else { FailureIgnored(s, m, k, out.err.value); }
    assert m[k := m[k]] == m;
  }

  lemma OneStep(s: State, a: Step)
    requires Enabled(s, a)
    ensures Runs(s, [a]) && After(s, [a]) == Next(s, a)
  {
    assert Runs(Next(s, a), []);
    ConsRuns(s, a, []);
    assert [a] + [] == [a];
  }

  lemma RefreshHead(s: State, m: Methods.Contents, k: Key, out: Outcome)
    requires Inv(s) && Agrees(s, m) && k in m && s.refresh == Resting
    ensures Runs(s, [Pick(k), Refetch(out)])
    ensures var t := After(s, [Pick(k), Refetch(out)]);
      && Inv(t) && Agrees(t, m) && t.data == s.data
      && t.refresh == if out.err.Some? then CheckingErr(k, s.data[k], out.err.value)
                      else StoringVal(k, s.data[k], Value(k, Fetched, out.payload))
  {
    TwoSteps(s, Pick(k), Refetch(out));
    InvOfRun(s, [Pick(k), Refetch(out)]);
  }

  /** The refresh of one key. */
  lemma RefreshKeyRefines(s: State, m: Methods.Contents, k: Key, out: Outcome) returns (run: seq<Step>)
    requires Inv(s) && Agrees(s, m) && k in m && s.refresh == Resting
    ensures run == [Pick(k), Refetch(out)] + RefreshTail(m[k].err.Some?, out)
    ensures Runs(s, run) && Inv(After(s, run)) && After(s, run).refresh == Resting
    ensures Agrees(After(s, run), m[k := Methods.Refreshed(m[k], Out(out))])
  {
    RefreshHead(s, m, k, out);
    var t := After(s, [Pick(k), Refetch(out)]);
    var tail := RefreshTail(m[k].err.Some?, out);
    RefreshTailRefines(t, m, k, out);
    InvOfRun(t, tail);
    Concat(s, [Pick(k), Refetch(out)], tail);
    run := [Pick(k), Refetch(out)] + tail;
  }

  /** The contents when the keys in `todo` have been refreshed. */
  function RefreshedAt(m: Methods.Contents, fetch: Key -> Outcome, todo: set<Key>): Methods.Contents {
    map k | k in m :: if k in todo then Methods.Refreshed(m[k], Out(fetch(k))) else m[k]
  }

  lemma RefreshedAtEnds(m: Methods.Contents, fetch: Key -> Outcome, todo: set<Key>, k: Key)
    requires k in m && k in todo
    ensures RefreshedAt(m, fetch, {}) == m
    ensures RefreshedAt(m, fetch, m.Keys) == Methods.RefreshOf(m, l => Out(fetch(l)))
    ensures RefreshedAt(m[k := Methods.Refreshed(m[k], Out(fetch(k)))], fetch, todo - {k})
      == RefreshedAt(m, fetch, todo)
  {}

  /** Refreshing keys one after the other, in any order. */
  lemma {:induction false} RefreshKeys(s: State, m: Methods.Contents, fetch: Key -> Outcome, todo: set<Key>)
    returns (run: seq<Step>)
    requires Inv(s) && Agrees(s, m) && s.refresh == Resting && todo <= m.Keys
    ensures Runs(s, run) && After(s, run).refresh == Resting
    ensures Agrees(After(s, run), RefreshedAt(m, fetch, todo))
    decreases |todo|
  {
    if todo == {} {
      run := [];
      assert RefreshedAt(m, fetch, {}) == m;
    } else {
      var k :| k in todo;
      var first := RefreshKeyRefines(s, m, k, fetch(k));
      var m' := m[k := Methods.Refreshed(m[k], Out(fetch(k)))];
      assert |todo - {k}| < |todo| && m'.Keys == m.Keys;
      var rest := RefreshKeys(After(s, first), m', fetch, todo - {k});
      RefreshedAtEnds(m, fetch, todo, k);
      Concat(s, first, rest);
      run := first + rest;
    }
  }

  /** Refresh: a pass over all keys that nothing interrupts. */
  lemma RefreshRefines(s: State, m: Methods.Contents, fetch: Key -> Outcome) returns (run: seq<Step>)
    requires Inv(s) && Agrees(s, m) && s.refresh == Resting
    ensures Runs(s, run) && After(s, run).refresh == Resting
    ensures Agrees(After(s, run), Methods.RefreshOf(m, k => Out(fetch(k))))
  {
    run := RefreshKeys(s, m, fetch, m.Keys);
    assert RefreshedAt(m, fetch, m.Keys) == Methods.RefreshOf(m, k => Out(fetch(k)));
  }
}
