/**
 The once-only map behind credential fetches, as a step system over concurrent callers.

 Each step is one atomic action of the implementation: an operation on the concurrent map, the
 creation of a notification, or a broadcast. A fetch is a step of its own, with any result.
 */
module OnceMap {
  import opened Common

  datatype Cell<V> = Waiting | Filled(value: V)

  /** Where a caller is between two atomic actions. */
  datatype Pc<V> =
    | Start                  // about to look the key up, registering it if it is missing
    | HasNotify              // saw a pending entry and holds its notifier
    | Subscribed(seen: nat)  // created a notification after `seen` broadcasts
    | Parked(seen: nat)      // found the entry still pending; sleeps until a later broadcast
    | Owner                  // registered the key and must fetch
    | Computed(value: V)     // fetched, about to store
    | Announcing(value: V)   // stored, about to broadcast
    | Returned(value: V)
    | Panicked

  datatype Caller<K, V> = Caller(key: K, pc: Pc<V>)

  /** `announced` counts broadcasts per key; `consulted` logs the fetches that were run. */
  datatype State<K, V> = State(
    cells: map<K, Cell<V>>, announced: multiset<K>, callers: seq<Caller<K, V>>, consulted: seq<K>)

  function Move<K, V>(s: State<K, V>, i: nat, pc: Pc<V>): State<K, V>
    requires i < |s.callers|
  {
    s.(callers := s.callers[i := Caller(s.callers[i].key, pc)])
  }

  /** The next action of caller `i`, unless it sleeps or has finished; `fetched` is what a fetch would yield. */
  function Step<K(==), V(==)>(s: State<K, V>, i: nat, fetched: V): Option<State<K, V>>
    requires i < |s.callers|
  {
    var key := s.callers[i].key;
    match s.callers[i].pc
    case Start =>
      if key !in s.cells then Some(Move(s.(cells := s.cells[key := Waiting]), i, Owner))
      else if s.cells[key].Filled? then Some(Move(s, i, Returned(s.cells[key].value)))
      else Some(Move(s, i, HasNotify))
    case HasNotify => Some(Move(s, i, Subscribed(s.announced[key])))
    case Subscribed(seen) =>
      if key !in s.cells then Some(Move(s, i, Panicked))
      else if s.cells[key].Filled? then Some(Move(s, i, Returned(s.cells[key].value)))
      else Some(Move(s, i, Parked(seen)))
    case Parked(seen) =>
      if s.announced[key] <= seen then None
      else if key in s.cells && s.cells[key].Filled? then Some(Move(s, i, Returned(s.cells[key].value)))
      else Some(Move(s, i, Panicked))
    case Owner => Some(Move(s.(consulted := s.consulted + [key]), i, Computed(fetched)))
    case Computed(v) =>
      var pc := if key in s.cells && s.cells[key].Waiting? then Announcing(v) else Returned(v);
      Some(Move(s.(cells := s.cells[key := Filled(v)]), i, pc))
    case Announcing(v) => Some(Move(s.(announced := s.announced + multiset{key}), i, Returned(v)))
    case Returned(_) => None
    case Panicked => None
  }

  // ---------------------------------------------------------------------------
  // The invariant

  predicate Working<V>(pc: Pc<V>) {
    pc.Owner? || pc.Computed? || pc.Announcing?
  }

  ghost predicate CallerOk<K, V>(s: State<K, V>, c: Caller<K, V>) {
    match c.pc
    case Start => true
    case HasNotify => c.key in s.cells
    case Subscribed(seen) => c.key in s.cells && seen <= s.announced[c.key]
    case Parked(seen) => c.key in s.cells && seen == 0
    case Owner => c.key in s.cells && s.cells[c.key].Waiting? && c.key !in s.consulted
    case Computed(_) => c.key in s.cells && s.cells[c.key].Waiting? && c.key in s.consulted
    case Announcing(v) => c.key in s.cells && s.cells[c.key] == Filled(v) && s.announced[c.key] == 0
    case Returned(v) => c.key in s.cells && s.cells[c.key] == Filled(v)
    case Panicked => false
  }

  ghost predicate KeyOk<K, V>(s: State<K, V>, k: K) {
    && s.announced[k] <= 1
    && (s.announced[k] == 1 ==> k in s.cells && s.cells[k].Filled?)
    && (k in s.consulted ==> k in s.cells)
    && (k in s.cells && s.cells[k].Filled? ==> k in s.consulted)
  }

  /** A caller that will, without waiting, complete or announce `k`. */
  ghost predicate Serves<K, V>(s: State<K, V>, k: K, i: int) {
    0 <= i < |s.callers| && s.callers[i].key == k && Working(s.callers[i].pc)
  }

  ghost predicate IsServed<K, V>(s: State<K, V>, k: K) {
    k in s.cells && s.announced[k] == 0 ==> exists i :: Serves(s, k, i)
  }

  ghost predicate Inv<K(!new), V>(s: State<K, V>) {
    && (forall i :: 0 <= i < |s.callers| ==> CallerOk(s, s.callers[i]))
    && (forall k :: KeyOk(s, k))
    && (forall k :: IsServed(s, k))
    && (forall k, i, j :: Serves(s, k, i) && Serves(s, k, j) ==> i == j)
    && Distinct(s.consulted)
  }

  /** Every stored or computed value satisfies `ok`. */
  ghost predicate ValuesOk<K(!new), V>(s: State<K, V>, ok: (K, V) -> bool) {
    && (forall k :: k in s.cells && s.cells[k].Filled? ==> ok(k, s.cells[k].value))
    && (forall i :: 0 <= i < |s.callers| && s.callers[i].pc.Computed? ==> ok(s.callers[i].key, s.callers[i].pc.value))
  }

  function Initial<K, V>(keys: seq<K>): State<K, V> {
    State(map[], multiset{}, seq(|keys|, i requires 0 <= i < |keys| => Caller(keys[i], Start)), [])
  }

  lemma InitialInv<K(!new), V>(keys: seq<K>)
    ensures Inv(Initial<K, V>(keys))
  {
  }

  /** Only the mover's own entries can change, so everyone else's facts carry over. */
  lemma StepCallers<K(!new), V>(s: State<K, V>, i: nat, fetched: V)
    requires Inv(s) && i < |s.callers| && Step(s, i, fetched).Some?
    ensures var s' := Step(s, i, fetched).value;
      forall j :: 0 <= j < |s'.callers| ==> CallerOk(s', s'.callers[j])
  {
    var s' := Step(s, i, fetched).value;
    var key := s.callers[i].key;
    assert CallerOk(s, s.callers[i]) && KeyOk(s, key);
    forall j | 0 <= j < |s'.callers| ensures CallerOk(s', s'.callers[j]) {
      if j != i {
        assert CallerOk(s, s.callers[j]) && s'.callers[j] == s.callers[j];
        if Working(s.callers[i].pc) && Working(s.callers[j].pc) {
          assert Serves(s, key, i) && Serves(s, s.callers[j].key, j);
        }
      }
    }
  }

  lemma StepKeys<K(!new), V>(s: State<K, V>, i: nat, fetched: V, k: K)
    requires Inv(s) && i < |s.callers| && Step(s, i, fetched).Some?
    ensures KeyOk(Step(s, i, fetched).value, k)
  {
    assert CallerOk(s, s.callers[i]) && KeyOk(s, k) && KeyOk(s, s.callers[i].key);
  }

  lemma StepServed<K(!new), V>(s: State<K, V>, i: nat, fetched: V, k: K)
    requires Inv(s) && i < |s.callers| && Step(s, i, fetched).Some?
    ensures IsServed(Step(s, i, fetched).value, k)
  {
    var s' := Step(s, i, fetched).value;
    assert CallerOk(s, s.callers[i]) && IsServed(s, k);
    if k in s'.cells && s'.announced[k] == 0 {
      if k in s.cells {
        assert s.announced[k] == 0;
        var j :| Serves(s, k, j);
        assert Serves(s', k, j);
      } else {
        assert Serves(s', k, i);
      }
    }
  }

  lemma StepUnique<K(!new), V>(s: State<K, V>, i: nat, fetched: V, k: K, a: int, b: int)
    requires Inv(s) && i < |s.callers| && Step(s, i, fetched).Some?
    requires Serves(Step(s, i, fetched).value, k, a) && Serves(Step(s, i, fetched).value, k, b)
    ensures a == b
  {
    assert CallerOk(s, s.callers[i]);
    if a != i { assert CallerOk(s, s.callers[a]) && Serves(s, k, a); }
    if b != i { assert CallerOk(s, s.callers[b]) && Serves(s, k, b); }
    if a == i && Working(s.callers[i].pc) { assert Serves(s, k, i); }
    if b == i && Working(s.callers[i].pc) { assert Serves(s, k, i); }
  }

  lemma StepKeepsInv<K(!new), V>(s: State<K, V>, i: nat, fetched: V)
    requires Inv(s) && i < |s.callers| && Step(s, i, fetched).Some?
    ensures Inv(Step(s, i, fetched).value)
  {
    var s' := Step(s, i, fetched).value;
    StepCallers(s, i, fetched);
    forall k ensures KeyOk(s', k) && IsServed(s', k) {
      StepKeys(s, i, fetched, k);
      StepServed(s, i, fetched, k);
    }
    forall k, a, b | Serves(s', k, a) && Serves(s', k, b) ensures a == b {
      StepUnique(s, i, fetched, k, a, b);
    }
    assert CallerOk(s, s.callers[i]);
    assert Distinct(s'.consulted);
  }

  lemma StepKeepsValues<K(!new), V>(s: State<K, V>, i: nat, fetched: V, ok: (K, V) -> bool)
    requires Inv(s) && i < |s.callers| && Step(s, i, fetched).Some?
    requires ValuesOk(s, ok) && ok(s.callers[i].key, fetched)
    ensures ValuesOk(Step(s, i, fetched).value, ok)
  {
  }

  // ---------------------------------------------------------------------------
  // Runs

  /** Which caller acts, and what its fetch would yield. */
  datatype Event<V> = Event(caller: nat, fetched: V)

  /** The state after `events`, if each of them was possible. */
  function Run<K(==), V(==)>(keys: seq<K>, events: seq<Event<V>>): Option<State<K, V>> {
    if events == [] then Some(Initial(keys))
    else
      match Run(keys, Init(events))
      case None => None
      case Some(p) =>
        if Last(events).caller < |p.callers| then Step(p, Last(events).caller, Last(events).fetched) else None
  }

  /** Every fetch yields a value that is `ok` for the caller's key. */
  ghost predicate FetchesOk<K, V>(keys: seq<K>, events: seq<Event<V>>, ok: (K, V) -> bool) {
    forall n :: 0 <= n < |events| && events[n].caller < |keys| ==> ok(keys[events[n].caller], events[n].fetched)
  }

  function Rank<V>(pc: Pc<V>): nat {
    match pc
    case Start => 4
    case HasNotify => 3
    case Owner => 3
    case Subscribed(_) => 2
    case Computed(_) => 2
    case Parked(_) => 1
    case Announcing(_) => 1
    case Returned(_) => 0
    case Panicked => 0
  }

  function TotalRank<K, V>(callers: seq<Caller<K, V>>): nat {
    if callers == [] then 0 else TotalRank(Init(callers)) + Rank(Last(callers).pc)
  }

  lemma {:induction false} TotalRankUpdate<K, V>(callers: seq<Caller<K, V>>, i: nat, c: Caller<K, V>)
    requires i < |callers|
    ensures TotalRank(callers[i := c]) + Rank(callers[i].pc) == TotalRank(callers) + Rank(c.pc)
  {
    var updated := callers[i := c];
    if i == |callers| - 1 {
      assert Init(updated) == Init(callers);
    } else {
      assert Init(updated) == Init(callers)[i := c];
      TotalRankUpdate(Init(callers), i, c);
    }
  }

  lemma {:induction false} InitialRank<K, V>(callers: seq<Caller<K, V>>)
    requires forall i :: 0 <= i < |callers| ==> callers[i].pc.Start?
    ensures TotalRank(callers) == 4 * |callers|
  {
    if callers != [] { InitialRank(Init(callers)); }
  }

  /** A step moves one caller, down in rank. */
  lemma StepMovesOne<K(!new), V>(s: State<K, V>, i: nat, fetched: V) returns (pc: Pc<V>)
    requires i < |s.callers| && Step(s, i, fetched).Some?
    ensures Step(s, i, fetched).value.callers == s.callers[i := Caller(s.callers[i].key, pc)]
    ensures Rank(pc) < Rank(s.callers[i].pc)
  {
    pc := Step(s, i, fetched).value.callers[i].pc;
  }

  lemma StepLowersRank<K(!new), V>(s: State<K, V>, i: nat, fetched: V)
    requires i < |s.callers| && Step(s, i, fetched).Some?
    ensures TotalRank(Step(s, i, fetched).value.callers) < TotalRank(s.callers)
  {
    var pc := StepMovesOne(s, i, fetched);
    TotalRankUpdate(s.callers, i, Caller(s.callers[i].key, pc));
  }

  ghost predicate CallersAre<K, V>(s: State<K, V>, keys: seq<K>) {
    |s.callers| == |keys| && forall i :: 0 <= i < |keys| ==> s.callers[i].key == keys[i]
  }

  lemma StepKeepsCallers<K(!new), V>(s: State<K, V>, keys: seq<K>, i: nat, fetched: V)
    requires CallersAre(s, keys) && i < |keys| && Step(s, i, fetched).Some?
    ensures CallersAre(Step(s, i, fetched).value, keys)
  {
  }

  lemma {:induction false} RunCallers<K(!new), V>(keys: seq<K>, events: seq<Event<V>>)
    requires Run(keys, events).Some?
    ensures CallersAre(Run(keys, events).value, keys)
  {
    if events != [] {
      RunCallers(keys, Init(events));
      StepKeepsCallers(Run(keys, Init(events)).value, keys, Last(events).caller, Last(events).fetched);
    }
  }

  /** Each step of a run uses up rank. */
  lemma {:induction false} RunRank<K(!new), V>(keys: seq<K>, events: seq<Event<V>>)
    requires Run(keys, events).Some?
    ensures |events| + TotalRank(Run(keys, events).value.callers) <= 4 * |keys|
  {
    if events == [] {
      InitialRank(Initial<K, V>(keys).callers);
    } else {
      RunRank(keys, Init(events));
      StepLowersRank(Run(keys, Init(events)).value, Last(events).caller, Last(events).fetched);
    }
  }

  /** What holds after every run, however callers interleave and whatever fetches yield. */
  lemma {:induction false} RunInvariant<K(!new), V>(keys: seq<K>, events: seq<Event<V>>, ok: (K, V) -> bool)
    requires Run(keys, events).Some? && FetchesOk(keys, events, ok)
    ensures Inv(Run(keys, events).value) && ValuesOk(Run(keys, events).value, ok)
  {
    if events == [] {
      InitialInv<K, V>(keys);
    } else {
      var e, p := Last(events), Run(keys, Init(events)).value;
      assert FetchesOk(keys, Init(events), ok);
      RunInvariant(keys, Init(events), ok);
      RunCallers(keys, Init(events));
      StepKeepsInv(p, e.caller, e.fetched);
      StepKeepsValues(p, e.caller, e.fetched, ok);
    }
  }

  /** Each key is fetched at most once, nobody panics, and all callers of a key get the one fetched value. */
  lemma OncePerKey<K(!new), V>(keys: seq<K>, events: seq<Event<V>>, ok: (K, V) -> bool, i: nat, j: nat)
    requires Run(keys, events).Some? && FetchesOk(keys, events, ok) && i < |keys| && j < |keys|
    ensures var s := Run(keys, events).value;
      && Distinct(s.consulted)
      && |s.callers| == |keys| && !s.callers[i].pc.Panicked?
      && (s.callers[i].pc.Returned? ==> keys[i] in s.consulted && ok(keys[i], s.callers[i].pc.value))
      && (s.callers[i].pc.Returned? && s.callers[j].pc.Returned? && keys[i] == keys[j] ==>
            s.callers[i].pc == s.callers[j].pc)
  {
    RunInvariant(keys, events, ok);
    RunCallers(keys, events);
    var s := Run(keys, events).value;
    assert CallerOk(s, s.callers[i]) && CallerOk(s, s.callers[j]) && KeyOk(s, keys[i]);
  }

  /** No wake-up is lost: while a caller has not returned, some caller can act. */
  lemma NeverStuck<K(!new), V>(keys: seq<K>, events: seq<Event<V>>, i: nat, fetched: V) returns (j: nat)
    requires Run(keys, events).Some? && i < |Run(keys, events).value.callers|
    requires !Run(keys, events).value.callers[i].pc.Returned?
    ensures j < |Run(keys, events).value.callers| && Step(Run(keys, events).value, j, fetched).Some?
  {
    RunInvariant(keys, events, (k, v) => true);
    var s := Run(keys, events).value;
    var c := s.callers[i];
    assert CallerOk(s, c) && KeyOk(s, c.key) && IsServed(s, c.key);
    if c.pc.Parked? && s.announced[c.key] == 0 {
      j :| Serves(s, c.key, j);
    } else {
      j := i;
    }
  }

  /** Runs are finite, and one that cannot be extended has answered every caller. */
  lemma EveryoneReturns<K(!new), V>(keys: seq<K>, events: seq<Event<V>>, fetched: V)
    requires Run(keys, events).Some?
    ensures var s := Run(keys, events).value;
      && |events| <= 4 * |keys|
      && ((forall j: nat :: j < |s.callers| ==> Step(s, j, fetched).None?) ==>
            forall i :: 0 <= i < |s.callers| ==> s.callers[i].pc.Returned?)
  {
    RunRank(keys, events);
    var s := Run(keys, events).value;
    forall i | 0 <= i < |s.callers| && !s.callers[i].pc.Returned?
      ensures exists j: nat :: j < |s.callers| && Step(s, j, fetched).Some?
    {
      var j := NeverStuck(keys, events, i, fetched);
    }
  }
}
