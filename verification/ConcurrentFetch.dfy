/** Credential fetches run through the once-only map by any number of concurrent callers. */
module ConcurrentFetch {
  import opened Common
  import opened Urls
  import opened Auth
  import opened Middleware
  import opened MiddlewareState
  import OnceMap

  datatype FetchCall = FetchCall(ctx: Context, url: Url, username: Option<string>)

  type FetchEvent = OnceMap.Event<Option<Authentication>>

  function KeyOfCall(c: FetchCall): FetchKey {
    FetchKeyFor(c.ctx, c.url, c.username)
  }

  function Keys(calls: seq<FetchCall>): seq<FetchKey> {
    seq(|calls|, i requires 0 <= i < |calls| => KeyOfCall(calls[i]))
  }

  /** A caller's fetch consults the external sources for its own URL and username. */
  ghost predicate Consults(calls: seq<FetchCall>, e: FetchEvent) {
    e.caller < |calls| ==>
      exists s: Session :: e.fetched == Consult(calls[e.caller].ctx, s, calls[e.caller].url, calls[e.caller].username).1
  }

  /**
   In any interleaving, external sources are consulted at most once per key, no caller panics, callers
   of one key get one result, and nobody who asked for a user gets another user's Basic credentials.
   */
  lemma ConcurrentFetches(calls: seq<FetchCall>, events: seq<FetchEvent>, i: nat, j: nat)
    requires forall n :: 0 <= n < |calls| ==> WorldOk(calls[n].ctx.world)
    requires forall n :: 0 <= n < |events| ==> Consults(calls, events[n])
    requires OnceMap.Run(Keys(calls), events).Some? && i < |calls| && j < |calls|
    ensures var s := OnceMap.Run(Keys(calls), events).value;
      && Distinct(s.consulted)
      && |s.callers| == |calls| && !s.callers[i].pc.Panicked?
      && (s.callers[i].pc.Returned? ==> FetchOk(KeyOfCall(calls[i]), s.callers[i].pc.value))
      && (s.callers[i].pc.Returned? && s.callers[j].pc.Returned? && KeyOfCall(calls[i]) == KeyOfCall(calls[j]) ==>
            s.callers[i].pc.value == s.callers[j].pc.value)
  {
    var keys, ok := Keys(calls), (k: FetchKey, v: Option<Authentication>) => FetchOk(k, v);
    forall n | 0 <= n < |events| && events[n].caller < |keys| ensures ok(keys[events[n].caller], events[n].fetched) {
      var c := calls[events[n].caller];
      assert Consults(calls, events[n]);
      var s: Session :| events[n].fetched == Consult(c.ctx, s, c.url, c.username).1;
      ConsultOk(c.ctx, s, c.url, c.username);
    }
    OnceMap.OncePerKey(keys, events, ok, i, j);
  }

  // ---------------------------------------------------------------------------
  // The once-only map and the fetches of a session

  type FetchState = OnceMap.State<FetchKey, Option<Authentication>>

  /** The finished fetches of the once-only map. */
  ghost function FetchesOf(s: FetchState): map<FetchKey, Option<Authentication>> {
    map k | k in s.cells && s.cells[k].Filled? :: s.cells[k].value
  }

  /** Each atomic action leaves the finished fetches alone, or finishes the mover's own, new, key. */
  lemma StepIsFetch(s: FetchState, i: nat, fetched: Option<Authentication>)
    requires OnceMap.Inv(s) && i < |s.callers| && OnceMap.Step(s, i, fetched).Some?
    ensures var (s', c) := (OnceMap.Step(s, i, fetched).value, s.callers[i]);
      if c.pc.Computed? then c.key !in FetchesOf(s) && FetchesOf(s') == FetchesOf(s)[c.key := c.pc.value]
      else FetchesOf(s') == FetchesOf(s)
  {
    assert OnceMap.CallerOk(s, s.callers[i]);
  }

  const NOTHING_YET := Session([], map[], [], [], None)

  ghost predicate ConsultedBySome(calls: seq<FetchCall>, k: FetchKey, v: Option<Authentication>) {
    exists i :: 0 <= i < |calls| && Consulted(calls[i].ctx, calls[i].url, k, v)
  }

  lemma ConsultsIsConsulted(calls: seq<FetchCall>, e: FetchEvent)
    requires Consults(calls, e) && e.caller < |calls|
    ensures ConsultedBySome(calls, KeyOfCall(calls[e.caller]), e.fetched)
  {
    var c := calls[e.caller];
    var s: Session :| e.fetched == Consult(c.ctx, s, c.url, c.username).1;
    assert Consulted(c.ctx, c.url, KeyOfCall(c), e.fetched);
  }

  lemma RunIsConsulted(calls: seq<FetchCall>, events: seq<FetchEvent>)
    requires forall n :: 0 <= n < |events| ==> Consults(calls, events[n])
    requires OnceMap.Run(Keys(calls), events).Some?
    ensures var s := OnceMap.Run(Keys(calls), events).value;
      OnceMap.Inv(s) && OnceMap.ValuesOk(s, (k, v) => ConsultedBySome(calls, k, v))
  {
    var ok := (k: FetchKey, v: Option<Authentication>) => ConsultedBySome(calls, k, v);
    forall n | 0 <= n < |events| && events[n].caller < |calls|
      ensures ok(Keys(calls)[events[n].caller], events[n].fetched)
    {
      ConsultsIsConsulted(calls, events[n]);
    }
    OnceMap.RunInvariant(Keys(calls), events, ok);
  }

  /**
   In terms of sessions, every run of concurrent fetches is a sequence of finished fetches, each with
   what a caller consulted.
   */
  lemma {:induction false} RunIsFetches(calls: seq<FetchCall>, events: seq<FetchEvent>) returns (actions: seq<Action>)
    requires forall n :: 0 <= n < |events| ==> Consults(calls, events[n])
    requires OnceMap.Run(Keys(calls), events).Some?
    ensures ActAll(NOTHING_YET, actions).fetches == FetchesOf(OnceMap.Run(Keys(calls), events).value)
    ensures forall n :: 0 <= n < |actions| ==>
      actions[n].FinishFetch? && ConsultedBySome(calls, actions[n].key, actions[n].value)
  {
    if events == [] {
      actions := [];
    } else {
      var e, s := Last(events), OnceMap.Run(Keys(calls), Init(events)).value;
      actions := RunIsFetches(calls, Init(events));
      RunIsConsulted(calls, Init(events));
      StepIsFetch(s, e.caller, e.fetched);
      var c := s.callers[e.caller];
      if c.pc.Computed? {
        ComputedIsConsulted(calls, s, e.caller);
        FinishOne(actions, c.key, c.pc.value);
        actions := actions + [FinishFetch(c.key, c.pc.value)];
      }
    }
  }

  lemma ComputedIsConsulted(calls: seq<FetchCall>, s: FetchState, i: nat)
    requires OnceMap.ValuesOk(s, (k, v) => ConsultedBySome(calls, k, v))
    requires i < |s.callers| && s.callers[i].pc.Computed?
    ensures ConsultedBySome(calls, s.callers[i].key, s.callers[i].pc.value)
  {
  }

  lemma FinishOne(actions: seq<Action>, key: FetchKey, value: Option<Authentication>)
    requires key !in ActAll(NOTHING_YET, actions).fetches
    ensures ActAll(NOTHING_YET, actions + [FinishFetch(key, value)]).fetches ==
      ActAll(NOTHING_YET, actions).fetches[key := value]
  {
    assert Init(actions + [FinishFetch(key, value)]) == actions;
  }

  /** A caller that has returned got what a fetch in one step would get from a session with those finished fetches. */
  lemma ReturnedIsFetched(
    calls: seq<FetchCall>, events: seq<FetchEvent>, i: nat, s: Session, credentials: Option<Authentication>)
    requires forall n :: 0 <= n < |events| ==> Consults(calls, events[n])
    requires OnceMap.Run(Keys(calls), events).Some? && i < |calls|
    requires i < |OnceMap.Run(Keys(calls), events).value.callers|
    requires OnceMap.Run(Keys(calls), events).value.callers[i].pc.Returned?
    requires s.fetches == FetchesOf(OnceMap.Run(Keys(calls), events).value)
    requires Alone(calls[i].ctx.world) && !HasInvalidEndpoint(calls[i].ctx.config)
    requires UsernameIn(credentials) == calls[i].username
    ensures Fetch(calls[i].ctx, s, credentials, calls[i].url) ==
      Fetched(s, Ok(OnceMap.Run(Keys(calls), events).value.callers[i].pc.value))
  {
    var r := OnceMap.Run(Keys(calls), events).value;
    RunIsConsulted(calls, events);
    OnceMap.RunCallers(Keys(calls), events);
    assert OnceMap.CallerOk(r, r.callers[i]) && r.callers[i].key == KeyOfCall(calls[i]);
  }
}
