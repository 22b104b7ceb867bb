/** Runs of the lease registry: clients, the sweeper and the heartbeat checkers of registry/tcp_registry.go
    interleave under the registry's lock. A checker reads IsExpired and calls Unregister in two critical
    sections, so between them it is armed. The clock is read under the lock, hence times never go back. */
module LeaseRuns {
  import opened Registry

  datatype State = State(leases: Leases, armed: multiset<Key>)

  datatype Action =
    | Register(key: Key, metadata: map<string, string>, started: Time)
    | Unregister(key: Key)
    | Heartbeat(key: Key)
    | Sweep
    | CheckTest(key: Key)     // a checker's IsExpired; true arms it
    | CheckRemove(key: Key)   // an armed checker's Unregister

  datatype Event = Event(at: Time, act: Action)

  predicate Enabled(st: State, act: Action) {
    act.CheckRemove? ==> act.key in st.armed
  }

  /** Each case is what the registry's method of that name does to the leases. */
  ghost function Apply(st: State, e: Event, timeout: Time): State {
    match e.act
    case Register(k, md, started) => st.(leases := st.leases[k := Info(md, started, e.at)])
    case Unregister(k) => st.(leases := st.leases - {k})
    case Heartbeat(k) =>
      if k in st.leases then st.(leases := st.leases[k := st.leases[k].(lastPing := e.at)]) else st
    case Sweep => st.(leases := Swept(st.leases, e.at, timeout))
    case CheckTest(k) =>
      if k !in st.leases || Expired(st.leases[k], e.at, timeout) then st.(armed := st.armed + multiset{k}) else st
    case CheckRemove(k) => State(st.leases - {k}, st.armed - multiset{k})
  }

  /** A run from st, oldest event first, that starts no earlier than `since`. */
  ghost predicate CanRun(st: State, run: seq<Event>, since: Time, timeout: Time)
    decreases |run|
  {
    run == [] ||
    (since <= run[0].at && Enabled(st, run[0].act) && CanRun(Apply(st, run[0], timeout), run[1..], run[0].at, timeout))
  }

  ghost function Run(st: State, run: seq<Event>, timeout: Time): State
    decreases |run|
  {
    if run == [] then st else Run(Apply(st, run[0], timeout), run[1..], timeout)
  }

  // ---------- lease safety ----------

  predicate Renews(act: Action, k: Key) {
    (act.Register? || act.Heartbeat?) && act.key == k
  }

  /** k is renewed at gaps of at most the timeout, the first gap counted from `last`, and nobody unregisters it. */
  ghost predicate KeptAlive(run: seq<Event>, k: Key, last: Time, timeout: Time)
    decreases |run|
  {
    run != [] ==>
    && run[0].at - last <= timeout
    && run[0].act != Unregister(k)
    && KeptAlive(run[1..], k, if Renews(run[0].act, k) then run[0].at else last, timeout)
  }

  /** A lease renewed in time stays listed through any interleaving, with the renewal it was last given,
      when no checker of it is armed at the start. */
  lemma {:induction false} LeaseSafety(st: State, run: seq<Event>, k: Key, since: Time, timeout: Time)
    requires CanRun(st, run, since, timeout)
    requires k in st.leases && k !in st.armed
    requires KeptAlive(run, k, st.leases[k].lastPing, timeout)
    ensures k in Run(st, run, timeout).leases && k !in Run(st, run, timeout).armed
    decreases |run|
  {
    if run != [] {
      LeaseSafety(Apply(st, run[0], timeout), run[1..], k, run[0].at, timeout);
    }
  }

  ghost predicate Stays(st: State, k: Key, since: Time, timeout: Time)
    requires k in st.leases
  {
    forall run ::
      CanRun(st, run, since, timeout) && KeptAlive(run, k, st.leases[k].lastPing, timeout) ==>
        k in Run(st, run, timeout).leases
  }

  /** Exactly when keeping a lease alive is enough: no checker of it is already armed. */
  lemma LeaseSafetyExactly(st: State, k: Key, since: Time, timeout: Time)
    requires 0 <= timeout && k in st.leases && since - st.leases[k].lastPing <= timeout
    ensures Stays(st, k, since, timeout) <==> k !in st.armed
  {
    if k !in st.armed {
      forall run | CanRun(st, run, since, timeout) && KeptAlive(run, k, st.leases[k].lastPing, timeout)
        ensures k in Run(st, run, timeout).leases
      {
        LeaseSafety(st, run, k, since, timeout);
      }
    } else {
      ArmedRemoves(st, k, since, timeout);
    }
  }

  /** An armed checker removes a lease renewed at that very moment. */
  lemma ArmedRemoves(st: State, k: Key, since: Time, timeout: Time)
    requires 0 <= timeout && k in st.leases && k in st.armed && since - st.leases[k].lastPing <= timeout
    ensures !Stays(st, k, since, timeout)
  {
    var ping, remove := Event(since, Heartbeat(k)), Event(since, CheckRemove(k));
    var run := [ping, remove];
    var st1 := Apply(st, ping, timeout);
    assert run[1..] == [remove] && [remove][1..] == [];
    assert CanRun(st1, [remove], since, timeout);
    assert CanRun(st, run, since, timeout);
    assert KeptAlive([remove], k, since, timeout);
    assert KeptAlive(run, k, st.leases[k].lastPing, timeout);
    assert Run(st1, [remove], timeout) == Apply(st1, remove, timeout);
    assert k !in Run(st, run, timeout).leases;
  }

  /** Such a state is reached: a late address is tested, is renewed in the gap, and is removed all the same. */
  lemma FreshLeaseRemoved(k: Key, md: map<string, string>, timeout: Time)
    requires 0 <= timeout
    ensures var late := timeout + 1;
            var run := [Event(0, Register(k, md, 0)), Event(late, CheckTest(k)),
                        Event(late, Register(k, md, late)), Event(late, CheckRemove(k))];
            && CanRun(State(map[], multiset{}), run, 0, timeout)
            && k !in Run(State(map[], multiset{}), run, timeout).leases
  {
    var late := timeout + 1;
    var e0, e1 := Event(0, Register(k, md, 0)), Event(late, CheckTest(k));
    var e2, e3 := Event(late, Register(k, md, late)), Event(late, CheckRemove(k));
    var s0 := State(map[], multiset{});
    var s1 := Apply(s0, e0, timeout);
    var s2 := Apply(s1, e1, timeout);
    var s3 := Apply(s2, e2, timeout);
    var s4 := Apply(s3, e3, timeout);
    assert [e3][1..] == [] && [e2, e3][1..] == [e3];
    assert [e1, e2, e3][1..] == [e2, e3] && [e0, e1, e2, e3][1..] == [e1, e2, e3];
    assert s2.armed == multiset{k} && k !in s4.leases;
    assert Run(s4, [], timeout) == s4 && CanRun(s4, [], late, timeout);
    assert CanRun(s3, [e3], late, timeout) && Run(s3, [e3], timeout) == s4;
    assert CanRun(s2, [e2, e3], late, timeout) && Run(s2, [e2, e3], timeout) == s4;
    assert CanRun(s1, [e1, e2, e3], 0, timeout) && Run(s1, [e1, e2, e3], timeout) == s4;
  }

  // ---------- expiry ----------

  /** Every event up to `now` comes within one period of the sweep before it, the first counted from `last`. */
  ghost predicate SweptOnTime(run: seq<Event>, last: Time, period: Time, now: Time)
    decreases |run|
  {
    if run == [] then now - last <= period
    else
      && run[0].at - last <= period
      && SweptOnTime(run[1..], if run[0].act.Sweep? then run[0].at else last, period, now)
  }

  ghost predicate Silent(run: seq<Event>, k: Key) {
    forall i :: 0 <= i < |run| ==> !Renews(run[i].act, k)
  }

  /** A lease last renewed at `pinged` and silent since is gone by any time after pinged + timeout + period. */
  lemma {:induction false} Expiry(
    st: State, run: seq<Event>, k: Key, pinged: Time, since: Time, last: Time, period: Time, now: Time, timeout: Time)
    requires CanRun(st, run, since, timeout) && SweptOnTime(run, last, period, now) && Silent(run, k)
    requires k in st.leases ==> st.leases[k].lastPing == pinged && last <= pinged + timeout
    requires now > pinged + timeout + period
    ensures k !in Run(st, run, timeout).leases
    decreases |run|
  {
    if run != [] {
      var st1 := Apply(st, run[0], timeout);
      assert !Renews(run[0].act, k);
      assert Silent(run[1..], k);
      Expiry(st1, run[1..], k, pinged, run[0].at, if run[0].act.Sweep? then run[0].at else last, period, now, timeout);
    }
  }

  /** The bound is tight: a sweep exactly at pinged + timeout keeps the lease, which is then still listed one
      whole period later. */
  lemma ExpiryIsTight(k: Key, md: map<string, string>, period: Time, timeout: Time)
    requires 0 <= period && 0 <= timeout
    ensures var st := State(map[k := Info(md, 0, 0)], multiset{});
            var run := [Event(timeout, Sweep)];
            && CanRun(st, run, 0, timeout) && Silent(run, k)
            && SweptOnTime(run, timeout - period, period, timeout + period)
            && k in Run(st, run, timeout).leases
  {
    var st := State(map[k := Info(md, 0, 0)], multiset{});
    var run := [Event(timeout, Sweep)];
    var st1 := Apply(st, run[0], timeout);
    assert run[1..] == [];
    assert k in st1.leases;
    assert Run(st1, [], timeout) == st1;
  }

  // ---- the registry's methods are these steps

  /** One step played on the registry. */
  method Play(registry: Registry, armed: multiset<Key>, e: Event) returns (armed': multiset<Key>)
    requires registry.Valid() && Enabled(State(registry.Leases(), armed), e.act)
    modifies registry
    ensures registry.Valid()
    ensures State(registry.Leases(), armed') == Apply(State(old(registry.Leases()), armed), e, registry.timeout)
  {
    armed' := armed;
    match e.act
    case Register(k, md, started) => registry.Register(k.service, k.addr, md, started, e.at);
    case Unregister(k) => var _ := registry.Unregister(k.service, k.addr);
    case Heartbeat(k) => var _ := registry.Heartbeat(k.service, k.addr, e.at);
    case Sweep => registry.Sweep(e.at);
    case CheckTest(k) =>
      var expired := registry.IsExpired(k.service, k.addr, e.at);
      if expired { armed' := armed + multiset{k}; }
    case CheckRemove(k) =>
      var _ := registry.Unregister(k.service, k.addr);
      armed' := armed - multiset{k};
  }

  /** A whole run played on the registry leaves it the leases of the run. */
  method PlayAll(registry: Registry, armed: multiset<Key>, run: seq<Event>, since: Time) returns (armed': multiset<Key>)
    requires registry.Valid() && CanRun(State(registry.Leases(), armed), run, since, registry.timeout)
    modifies registry
    ensures registry.Valid()
    ensures State(registry.Leases(), armed') == Run(State(old(registry.Leases()), armed), run, registry.timeout)
  {
    armed' := armed;
    var todo, now := run, since;
    while todo != []
      invariant registry.Valid()
      invariant CanRun(State(registry.Leases(), armed'), todo, now, registry.timeout)
      invariant Run(State(registry.Leases(), armed'), todo, registry.timeout) ==
                Run(State(old(registry.Leases()), armed), run, registry.timeout)
      decreases |todo|
    {
      armed' := Play(registry, armed', todo[0]);
      todo, now := todo[1..], todo[0].at;
    }
  }
}
