/**
  The `asynccache` cache as its methods see it, each method one step: a map from keys to entry objects
  that are updated in place, proved against functions on the map's contents, and the second-chance
  expiry rule over every history of calls. Interleavings inside a method are the subject of `CacheRaces`.

  The Fetcher is a parameter: `out` is what it returns if the method calls it.
 */
module AsyncCaches {
  import opened Text

  type Key = string
  type Payload = int
  type Error = int

  datatype Outcome = Outcome(val: Payload, err: Option<Error>)

  /** The contents of one entry; `expire` is the second-chance bit. */
  datatype Slot = Slot(val: Payload, err: Option<Error>, expire: bool)

  type Contents = map<Key, Slot>

  // ---- What each method does to the contents ----

  function Touched(x: Slot): Slot { x.(expire := false) }

  function SetDefaultOf(m: Contents, k: Key, val: Payload): Contents {
    m[k := if k in m then Touched(m[k]) else Slot(val, None, false)]
  }

  function GetOf(m: Contents, k: Key, out: Outcome): Contents {
    m[k := if k in m then Touched(m[k]) else Slot(out.val, out.err, false)]
  }

  function GetOrSetOf(m: Contents, k: Key, def: Payload, out: Outcome): Contents {
    m[k := if k in m && m[k].err.None? then Touched(m[k])
           else if k in m || out.err.Some? then Slot(def, None, false)
           else Slot(out.val, None, false)]
  }

  function DeleteIfOf(m: Contents, shouldDelete: Key -> bool): Contents {
    map k | k in m && !shouldDelete(k) :: m[k]
  }

  function ExpireOf(m: Contents): Contents {
    map k | k in m && !m[k].expire :: m[k].(expire := true)
  }

  /** An expire pass that still has the keys in `todo` to visit. */
  function PartlyExpired(m: Contents, todo: set<Key>): Contents {
    map k | k in m && (k in todo || !m[k].expire) :: if k in todo then m[k] else m[k].(expire := true)
  }

  lemma PartlyExpiredEnds(m: Contents)
    ensures PartlyExpired(m, m.Keys) == m && PartlyExpired(m, {}) == ExpireOf(m)
  {}

  lemma PartlyExpiredStep(m: Contents, todo: set<Key>, k: Key)
    requires k in m && k in todo
    ensures var p := PartlyExpired(m, todo);
      && k in p && p[k] == m[k]
      && PartlyExpired(m, todo - {k}) == if m[k].expire then p - {k} else p[k := m[k].(expire := true)]
  {}

  function Refreshed(x: Slot, out: Outcome): Slot {
    if out.err.None? then x.(val := out.val, err := None)
    else if x.err.Some? then x.(err := out.err)
    else x
  }

  function RefreshOf(m: Contents, fetch: Key -> Outcome): Contents {
    map k | k in m :: Refreshed(m[k], fetch(k))
  }

  // ---- The objects ----

  class Entry {
    var val: Payload
    var expire: bool
    var err: Option<Error>

    function Snapshot(): Slot
      reads this
    {
      Slot(val, err, expire)
    }

    constructor (val: Payload, err: Option<Error>)
      ensures Snapshot() == Slot(val, err, false)
    {
      this.val, this.err, this.expire := val, err, false;
    }

    method Store(x: Payload, e: Option<Error>)
      modifies this
      ensures Snapshot() == old(Snapshot()).(val := x, err := e)
    {
      val := x;
      err := e;
    }

    method Touch()
      modifies this
      ensures Snapshot() == Touched(old(Snapshot()))
    {
      expire := false;
    }

    /** CompareAndSwap(&expire, 0, 1) */
    method MarkExpiring() returns (swapped: bool)
      modifies `expire
      ensures swapped == !old(expire) && expire
    {
      swapped := !expire;
      if swapped {
        expire := true;
      }
    }
  }

  class AsyncCache {
    var data: map<Key, Entry>

    /** No two keys share an entry object. */
    ghost predicate Valid()
      reads this
    {
      forall k, l :: k in data && l in data && k != l ==> data[k] != data[l]
    }

    ghost function Contents(): Contents
      reads this, data.Values
    {
      map k | k in data :: data[k].Snapshot()
    }

    constructor ()
      ensures Valid() && Contents() == map[]
    {
      data := map[];
    }

    /** data.Store(key, ety) of a fresh entry. */
    method Put(key: Key, val: Payload, err: Option<Error>)
      requires Valid()
      modifies this
      ensures Valid() && Contents() == old(Contents())[key := Slot(val, err, false)]
    {
      var ety := new Entry(val, err);
      data := data[key := ety];
    }

    method SetDefault(key: Key, val: Payload) returns (exist: bool)
      requires Valid()
      modifies this, data.Values
      ensures Valid() && exist == (key in old(Contents()))
      ensures Contents() == SetDefaultOf(old(Contents()), key, val)
    {
      exist := key in data;
      if exist {
        data[key].Touch();
      } else {
        Put(key, val, None);
      }
    }

    method Get(key: Key, out: Outcome) returns (val: Payload, err: Option<Error>)
      requires Valid()
      modifies this, data.Values
      ensures Valid() && Contents() == GetOf(old(Contents()), key, out)
      ensures Contents()[key] == Slot(val, err, false)
    {
      if key in data {
        var e := data[key];
        e.Touch();
        return e.val, e.err;
      }
      Put(key, out.val, out.err);
      return out.val, out.err;
    }

    /** The result is never an error's value: it is cached, error-free, under the key afterwards. */
    method GetOrSet(key: Key, def: Payload, out: Outcome) returns (val: Payload)
      requires Valid()
      modifies this, data.Values
      ensures Valid() && Contents() == GetOrSetOf(old(Contents()), key, def, out)
      ensures Contents()[key] == Slot(val, None, false)
      ensures (if key in old(Contents()) then old(Contents())[key].err.Some? else out.err.Some?) ==> val == def
    {
      if key in data {
        var e := data[key];
        if e.err.Some? {
          Put(key, def, None);
          return def;
        }
        e.Touch();
        return e.val;
      }
      val := if out.err.Some? then def else out.val;
      Put(key, val, None);
    }

    method DeleteIf(shouldDelete: Key -> bool)
      requires Valid()
      modifies this
      ensures Valid() && Contents() == DeleteIfOf(old(Contents()), shouldDelete)
    {
      var todo := data.Keys;
      while todo != {}
        invariant todo <= old(data).Keys
        invariant data == map k | k in old(data) && (k in todo || !shouldDelete(k)) :: old(data)[k]
        decreases |todo|
      {
        var k := Pick(todo);
        todo := todo - {k};
        if shouldDelete(k) {
          data := data - {k};
        }
      }
    }

    /** What the expire pass does at one key. */
    method ExpireKey(k: Key)
      requires Valid() && k in data
      modifies this, data[k]
      ensures Valid() && data.Values <= old(data.Values)
      ensures var m := old(Contents());
        Contents() == if m[k].expire then m - {k} else m[k := m[k].(expire := true)]
    {
      var swapped := data[k].MarkExpiring();
      if !swapped {
        data := data - {k};
      }
    }

    method Expire()
      requires Valid()
      modifies this, data.Values
      ensures Valid() && Contents() == ExpireOf(old(Contents()))
    {
      ghost var m := Contents();
      var todo := data.Keys;
      PartlyExpiredEnds(m);
      while todo != {}
        invariant Valid() && data.Values <= old(data.Values)
        invariant todo <= m.Keys
        invariant Contents() == PartlyExpired(m, todo)
        decreases |todo|
      {
        var k := Pick(todo);
        PartlyExpiredStep(m, todo, k);
        assert k in Contents();
        ExpireKey(k);
        todo := todo - {k};
      }
    }

    method Refresh(fetch: Key -> Outcome)
      requires Valid()
      modifies data.Values
      ensures Valid() && Contents() == RefreshOf(old(Contents()), fetch)
    {
      var todo := data.Keys;
      while todo != {}
        invariant todo <= data.Keys
        invariant forall k :: k in data ==>
          data[k].Snapshot()
            == if k in todo then old(data[k].Snapshot()) else Refreshed(old(data[k].Snapshot()), fetch(k))
        decreases |todo|
      {
        var k := Pick(todo);
        todo := todo - {k};
        var e := data[k];
        var out := fetch(k);
        if out.err.Some? {
          if e.err.Some? {
            e.err := out.err;
          }
        } else {
          e.Store(out.val, None);
        }
      }
    }
  }

  // ---- Histories ----

  datatype Op =
    | SetDefault(k: Key, val: Payload)
    | Get(k: Key, out: Outcome)
    | GetOrSet(k: Key, def: Payload, out: Outcome)
    | DeleteIf(shouldDelete: Key -> bool)
    | Expire
    | Refresh(fetch: Key -> Outcome)

  function Apply(m: Contents, op: Op): Contents {
    match op
    case SetDefault(k, val) => SetDefaultOf(m, k, val)
    case Get(k, out) => GetOf(m, k, out)
    case GetOrSet(k, def, out) => GetOrSetOf(m, k, def, out)
    case DeleteIf(p) => DeleteIfOf(m, p)
    case Expire => ExpireOf(m)
    case Refresh(fetch) => RefreshOf(m, fetch)
  }

  /** The contents after a history that starts from an empty cache. */
  function Run(ops: seq<Op>): Contents {
    if ops == [] then map[] else Apply(Run(ops[..|ops| - 1]), ops[|ops| - 1])
  }

  predicate Accesses(op: Op, k: Key) {
    (op.SetDefault? || op.Get? || op.GetOrSet?) && op.k == k
  }

  predicate Deletes(op: Op, k: Key) {
    op.DeleteIf? && op.shouldDelete(k)
  }

  /** Number of expire passes in a history. */
  function Passes(ops: seq<Op>): nat {
    if ops == [] then 0 else Passes(ops[..|ops| - 1]) + if ops[|ops| - 1].Expire? then 1 else 0
  }

  /** Some access to k at i was followed by at most n expire passes and no deletion of k. */
  ghost predicate AccessedAt(ops: seq<Op>, k: Key, n: int, i: nat) {
    && i < |ops| && Accesses(ops[i], k)
    && (forall j :: i < j < |ops| ==> !Deletes(ops[j], k))
    && Passes(ops[i + 1..]) <= n
  }

  ghost predicate AccessedWithin(ops: seq<Op>, k: Key, n: int) {
    exists i :: AccessedAt(ops, k, n, i)
  }

  lemma AccessedWithinLast(ops: seq<Op>, k: Key, n: int)
    requires ops != [] && n >= 0
    ensures var op, before := ops[|ops| - 1], ops[..|ops| - 1];
      AccessedWithin(ops, k, n) <==>
        Accesses(op, k) || (!Deletes(op, k) && AccessedWithin(before, k, if op.Expire? then n - 1 else n))
  {
    var last := |ops| - 1;
    var op, before := ops[last], ops[..last];
    var n' := if op.Expire? then n - 1 else n;
    forall i: nat | i < last
      ensures AccessedAt(ops, k, n, i) <==> !Deletes(op, k) && AccessedAt(before, k, n', i)
    {
      assert ops[i + 1..][..last - i - 1] == before[i + 1..];
      assert ops[i + 1..][last - i - 1] == op;
      assert forall j :: i < j < last ==> ops[j] == before[j];
    }
    assert ops[last + 1..] == [];
    assert Accesses(op, k) ==> AccessedAt(ops, k, n, last);
    if AccessedWithin(before, k, n') && !Deletes(op, k) {
      var i :| AccessedAt(before, k, n', i);
      assert AccessedAt(ops, k, n, i);
    }
    if AccessedWithin(ops, k, n) {
      var i :| AccessedAt(ops, k, n, i);
      assert i == last || AccessedAt(before, k, n', i);
    }
  }

  /**
    Second chance, over every history: a key is cached exactly when some access to it was followed by no
    deletion and at most one expire pass, and its bit is clear exactly when by no pass at all. Refreshes,
    fetch results and other keys make no difference.
   */
  lemma {:induction false} SecondChance(ops: seq<Op>, k: Key)
    ensures k in Run(ops) <==> AccessedWithin(ops, k, 1)
    ensures k in Run(ops) && !Run(ops)[k].expire <==> AccessedWithin(ops, k, 0)
  {
    if ops != [] {
      SecondChance(ops[..|ops| - 1], k);
      AccessedWithinLast(ops, k, 1);
      AccessedWithinLast(ops, k, 0);
    }
  }

  /** A pass removes exactly the keys not accessed since the previous pass, and gives the others their one chance. */
  lemma ExpireRemovesUntouched(ops: seq<Op>, k: Key)
    ensures k in Run(ops) && k !in Run(ops + [Expire]) <==> AccessedWithin(ops, k, 1) && !AccessedWithin(ops, k, 0)
    ensures k in Run(ops + [Expire]) ==> Run(ops + [Expire])[k] == Run(ops)[k].(expire := true)
  {
    SecondChance(ops, k);
    assert (ops + [Expire])[..|ops|] == ops;
  }

  predicate Failing(m: Contents, k: Key) {
    k in m && m[k].err.Some?
  }

  /** The only ways an error cached under k ends. */
  predicate EndsError(m: Contents, op: Op, k: Key) {
    || (op.GetOrSet? && op.k == k)
    || Deletes(op, k)
    || (op.Expire? && k in m && m[k].expire)
    || (op.Refresh? && op.fetch(k).err.None?)
  }

  lemma ErrorStep(m: Contents, op: Op, k: Key)
    requires Failing(m, k)
    ensures Failing(Apply(m, op), k) <==> !EndsError(m, op, k)
  {}

  /** The contents after `ops` and the first i calls of `more`. */
  function ContentsAt(ops: seq<Op>, more: seq<Op>, i: nat): Contents
    requires i <= |more|
  {
    Run(ops + more[..i])
  }

  lemma ContentsNext(ops: seq<Op>, more: seq<Op>, i: nat)
    requires i < |more|
    ensures ContentsAt(ops, more, i + 1) == Apply(ContentsAt(ops, more, i), more[i])
  {
    assert (ops + more[..i + 1])[..|ops| + i] == ops + more[..i];
    assert (ops + more[..i + 1])[|ops| + i] == more[i];
  }

  /** A cached error stays cached over more calls exactly when none of them is one that ends it. */
  lemma {:induction false} ErrorIsSticky(ops: seq<Op>, more: seq<Op>, n: nat, k: Key)
    requires n <= |more| && Failing(ContentsAt(ops, more, 0), k)
    ensures (forall i :: 0 <= i < n ==> !EndsError(ContentsAt(ops, more, i), more[i], k))
      <==> (forall i :: 0 <= i <= n ==> Failing(ContentsAt(ops, more, i), k))
  {
    if n > 0 {
      ErrorIsSticky(ops, more, n - 1, k);
      ContentsNext(ops, more, n - 1);
      if Failing(ContentsAt(ops, more, n - 1), k) {
        ErrorStep(ContentsAt(ops, more, n - 1), more[n - 1], k);
      }
    }
  }

  // ---- What is cached, read off the history ----

  /** k is not cached after the history (`SecondChance`). */
  ghost predicate Missing(ops: seq<Op>, k: Key) {
    !AccessedWithin(ops, k, 1)
  }

  /** Operation i is a Get of k that missed and whose fetch failed. */
  ghost predicate FailsAt(ops: seq<Op>, k: Key, i: nat) {
    i < |ops| && ops[i].Get? && ops[i].k == k && ops[i].out.err.Some? && Missing(ops[..i], k)
  }

  /** Operation j neither lets k go, nor refreshes it successfully, nor is a GetOrSet of it. */
  ghost predicate Keeps(ops: seq<Op>, k: Key, j: nat) {
    j < |ops| && !Missing(ops[..j + 1], k) && !Recovers(ops[j], k)
  }

  predicate Recovers(op: Op, k: Key) {
    (op.GetOrSet? && op.k == k) || (op.Refresh? && op.fetch(k).err.None?)
  }

  ghost predicate FailedSince(ops: seq<Op>, k: Key, i: nat) {
    FailsAt(ops, k, i) && forall j :: i < j < |ops| ==> Keeps(ops, k, j)
  }

  /** k is cached with an error. */
  ghost predicate Failed(ops: seq<Op>, k: Key) {
    exists i: nat :: FailedSince(ops, k, i)
  }

  /**
    The operation gives k the value v: a SetDefault or a miss stores it, a GetOrSet replaces a cached error by its
    default, a refresh succeeds. Hits, failed refreshes, deletions and passes give no value.
   */
  predicate GivesTo(op: Op, k: Key, missing: bool, failing: bool, v: Payload) {
    match op
    case SetDefault(l, val) => l == k && missing && v == val
    case Get(l, out) => l == k && missing && v == out.val
    case GetOrSet(l, def, out) =>
      l == k && if missing then v == (if out.err.Some? then def else out.val) else failing && v == def
    case Refresh(fetch) => !missing && fetch(k).err.None? && v == fetch(k).val
    case _ => false
  }

  /** The operation gives k the error e: a Get that missed, or a refresh of a cached error, whose fetch failed. */
  predicate GivesErrorTo(op: Op, k: Key, missing: bool, failing: bool, e: Error) {
    match op
    case Get(l, out) => l == k && missing && out.err == Some(e)
    case Refresh(fetch) => failing && fetch(k).err == Some(e)
    case _ => false
  }

  ghost predicate Gives(ops: seq<Op>, k: Key, i: nat, v: Payload) {
    i < |ops| && GivesTo(ops[i], k, Missing(ops[..i], k), Failed(ops[..i], k), v)
  }

  ghost predicate GivesError(ops: seq<Op>, k: Key, i: nat, e: Error) {
    i < |ops| && GivesErrorTo(ops[i], k, Missing(ops[..i], k), Failed(ops[..i], k), e)
  }

  ghost predicate LastGiven(ops: seq<Op>, k: Key, i: nat, v: Payload) {
    Gives(ops, k, i, v) && forall j: nat, w | i < j :: !Gives(ops, k, j, w)
  }

  ghost predicate LastError(ops: seq<Op>, k: Key, i: nat, e: Error) {
    GivesError(ops, k, i, e) && forall j: nat, f | i < j :: !GivesError(ops, k, j, f)
  }

  lemma FailedSinceLast(ops: seq<Op>, k: Key, i: nat)
    requires ops != [] && i < |ops| - 1
    ensures FailedSince(ops, k, i)
      <==> FailedSince(ops[..|ops| - 1], k, i) && !Missing(ops, k) && !Recovers(ops[|ops| - 1], k)
  {
    var n := |ops| - 1;
    assert ops[..i] == ops[..n][..i];
    KeepsOfPrefix(ops, k);
    assert ops[..n + 1] == ops;
    assert Keeps(ops, k, n) <==> !Missing(ops, k) && !Recovers(ops[n], k);
    if FailedSince(ops[..n], k, i) && Keeps(ops, k, n) {
      forall j: nat | i < j < |ops| ensures Keeps(ops, k, j) {
        assert j < n ==> Keeps(ops[..n], k, j);
      }
    }
    if FailedSince(ops, k, i) {
      forall j: nat | i < j < n ensures Keeps(ops[..n], k, j) { assert Keeps(ops, k, j); }
    }
  }

  lemma KeepsOfPrefix(ops: seq<Op>, k: Key)
    requires ops != []
    ensures forall j: nat :: j < |ops| - 1 ==> (Keeps(ops[..|ops| - 1], k, j) <==> Keeps(ops, k, j))
  {
    var n := |ops| - 1;
    forall j: nat | j < n ensures Keeps(ops[..n], k, j) <==> Keeps(ops, k, j) {
      assert ops[..n][..j + 1] == ops[..j + 1];
    }
  }

  /** An error is cached after the last operation if that is a failing miss, or does not end the error cached before. */
  lemma FailedLast(ops: seq<Op>, k: Key)
    requires ops != []
    ensures var n := |ops| - 1;
      Failed(ops, k) <==> FailsAt(ops, k, n) || (Failed(ops[..n], k) && !Missing(ops, k) && !Recovers(ops[n], k))
  {
    var n := |ops| - 1;
    if Failed(ops, k) {
      var i: nat :| FailedSince(ops, k, i);
      if i < n { FailedSinceLast(ops, k, i); }
    }
    if FailsAt(ops, k, n) { assert FailedSince(ops, k, n); }
    if Failed(ops[..n], k) && !Missing(ops, k) && !Recovers(ops[n], k) {
      var i: nat :| FailedSince(ops[..n], k, i);
      FailedSinceLast(ops, k, i);
      assert FailedSince(ops, k, i);
    }
  }

  /** Over every history, an error is cached under k exactly when a missing Get failed and nothing since ended that. */
  lemma {:induction false} ErrorLaw(ops: seq<Op>, k: Key)
    ensures Failing(Run(ops), k) <==> Failed(ops, k)
  {
    SecondChance(ops, k);
    if ops != [] {
      var n := |ops| - 1;
      ErrorLaw(ops[..n], k);
      SecondChance(ops[..n], k);
      FailedLast(ops, k);
    }
  }

  /** What an operation leaves: the value it gives, or the value from before. */
  lemma ValueStep(m: Contents, op: Op, k: Key, missing: bool, failing: bool)
    requires k in Apply(m, op) && missing == (k !in m) && failing == Failing(m, k)
    ensures var v := Apply(m, op)[k].val;
      GivesTo(op, k, missing, failing, v)
      || (!missing && m[k].val == v && forall w :: !GivesTo(op, k, missing, failing, w))
  {}

  /** Over every history, the value cached under k is the last one given to it. */
  lemma {:induction false} ValueLaw(ops: seq<Op>, k: Key)
    requires k in Run(ops)
    ensures exists i: nat :: LastGiven(ops, k, i, Run(ops)[k].val)
  {
    var n, v := |ops| - 1, Run(ops)[k].val;
    SecondChance(ops[..n], k);
    ErrorLaw(ops[..n], k);
    ValueStep(Run(ops[..n]), ops[n], k, Missing(ops[..n], k), Failed(ops[..n], k));
    if Gives(ops, k, n, v) {
      assert LastGiven(ops, k, n, v);
    } else {
      var before := ops[..n];
      ValueLaw(before, k);
      var i: nat :| LastGiven(before, k, i, v);
      forall j: nat, w | j < n ensures Gives(ops, k, j, w) <==> Gives(before, k, j, w) {
        assert ops[..j] == before[..j];
      }
      assert LastGiven(ops, k, i, v);
    }
  }

  lemma ErrorValueStep(m: Contents, op: Op, k: Key, missing: bool, failing: bool)
    requires Failing(Apply(m, op), k) && missing == (k !in m) && failing == Failing(m, k)
    ensures var e := Apply(m, op)[k].err.value;
      GivesErrorTo(op, k, missing, failing, e)
      || (failing && m[k].err.value == e && forall f :: !GivesErrorTo(op, k, missing, failing, f))
  {}

  /** The error cached under k is the last one given to it. */
  lemma {:induction false} LatestError(ops: seq<Op>, k: Key)
    requires Failing(Run(ops), k)
    ensures exists i: nat :: LastError(ops, k, i, Run(ops)[k].err.value)
  {
    var n, e := |ops| - 1, Run(ops)[k].err.value;
    SecondChance(ops[..n], k);
    ErrorLaw(ops[..n], k);
    ErrorValueStep(Run(ops[..n]), ops[n], k, Missing(ops[..n], k), Failed(ops[..n], k));
    if GivesError(ops, k, n, e) {
      assert LastError(ops, k, n, e);
    } else {
      var before := ops[..n];
      LatestError(before, k);
      var i: nat :| LastError(before, k, i, e);
      forall j: nat, f | j < n ensures GivesError(ops, k, j, f) <==> GivesError(before, k, j, f) {
        assert ops[..j] == before[..j];
      }
      assert LastError(ops, k, i, e);
    }
  }
}
