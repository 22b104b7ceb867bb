/** The lease registry (registry/registry.go): a map of services, each a map of addresses, kept under a lock.
    Every method is one critical section and is proved against a flat map from (service, address) to lease. */
module Registry {
  import opened Results

  type Time = int   // nanoseconds

  datatype Info = Info(metadata: map<string, string>, startTime: Time, lastPing: Time)

  datatype Key = Key(service: string, addr: string)

  type Table = map<string, map<string, Info>>

  type Leases = map<Key, Info>

  datatype LookupError =
    | ServiceNotFound(name: string)
    | AddrNotFound(addr: string, service: string)
    | NoServices(asked: string)

  predicate Expired(info: Info, now: Time, timeout: Time) {
    now - info.lastPing > timeout
  }

  // ---------- the flat view ----------

  /** The leases a two-level table stands for. */
  ghost function Flat(t: Table): (m: Leases)
    ensures forall k: Key :: k in m <==> k.service in t && k.addr in t[k.service]
    ensures forall k: Key :: k in m ==> m[k] == t[k.service][k.addr]
  {
    map s, a | s in t && a in t[s] :: Key(s, a) := t[s][a]
  }

  /** No service has an empty address map. */
  ghost predicate NoneEmpty(t: Table) {
    forall s :: s in t ==> exists a :: a in t[s]
  }

  /** Among tables without an empty address map, the flat view says everything. */
  lemma FlatDetermines(t: Table, u: Table)
    requires NoneEmpty(t) && NoneEmpty(u) && Flat(t) == Flat(u)
    ensures t == u
  {
    FlatIncludes(t, u);
    FlatIncludes(u, t);
    forall s | s in t
      ensures t[s] == u[s]
    {
      FlatSame(t, u, s);
    }
  }

  lemma FlatIncludes(t: Table, u: Table)
    requires NoneEmpty(t) && Flat(t) == Flat(u)
    ensures forall s :: s in t ==> s in u
  {
    forall s | s in t
      ensures s in u
    {
      var a :| a in t[s];
      assert Key(s, a) in Flat(t);
    }
  }

  lemma FlatSame(t: Table, u: Table, s: string)
    requires s in t && s in u && Flat(t) == Flat(u)
    ensures t[s] == u[s]
  {
    var m, x, y := Flat(t), t[s], u[s];
    forall a: string
      ensures a in x <==> a in y
      ensures a in x && a in y ==> x[a] == y[a]
    {
      assert Key(s, a) in m <==> a in x;
      assert Key(s, a) in m <==> a in y;
    }
    assert x.Keys == y.Keys;
  }

  /** The lease the table holds for one key. */
  ghost function Look(t: Table, k: Key): Option<Info> {
    if k.service in t && k.addr in t[k.service] then Some(t[k.service][k.addr]) else None
  }

  lemma FlatIs(t: Table, m: Leases)
    requires forall k: Key :: Look(t, k) == if k in m then Some(m[k]) else None
    ensures Flat(t) == m
  {
    var n := Flat(t);
    forall k: Key
      ensures k in n <==> k in m
      ensures k in n && k in m ==> n[k] == m[k]
    {
      assert Look(t, k) == if k in m then Some(m[k]) else None;
    }
    assert n.Keys == m.Keys;
  }

  /** Changing the addresses of one service. */
  lemma LookUpdate(t: Table, s: string, services: map<string, Info>, k: Key)
    ensures Look(t[s := services], k) ==
            if k.service != s then Look(t, k) else if k.addr in services then Some(services[k.addr]) else None
  {
  }

  /** The same, when an empty map drops the service. */
  lemma LookReplace(t: Table, s: string, left: map<string, Info>, u: Table, k: Key)
    requires u == if left == map[] then t - {s} else t[s := left]
    ensures Look(u, k) ==
            if k.service != s then Look(t, k) else if k.addr in left then Some(left[k.addr]) else None
  {
  }

  /** A write below one service is a write to the flat view. */
  lemma FlatWrite(t: Table, s: string, services: map<string, Info>, a: string, info: Info)
    requires services == if s in t then t[s] else map[]
    ensures Flat(t[s := services[a := info]]) == Flat(t)[Key(s, a) := info]
    ensures NoneEmpty(t) ==> NoneEmpty(t[s := services[a := info]])
  {
    var u, m := t[s := services[a := info]], Flat(t)[Key(s, a) := info];
    forall k: Key
      ensures Look(u, k) == if k in m then Some(m[k]) else None
    {
      LookUpdate(t, s, services[a := info], k);
    }
    FlatIs(u, m);
    assert a in u[s];
  }

  lemma LookDelete(t: Table, s: string, left: map<string, Info>, a: string, u: Table, k: Key)
    requires s in t && left == t[s] - {a} && u == if left == map[] then t - {s} else t[s := left]
    ensures Look(u, k) == if k == Key(s, a) then None else Look(t, k)
  {
    LookReplace(t, s, left, u, k);
  }

  lemma LookRemoved(t: Table, gone: Key, k: Key)
    ensures var m := Flat(t) - {gone}; (if k in m then Some(m[k]) else None) == if k == gone then None else Look(t, k)
  {
  }

  /** A delete below one service, with the service dropped when it was the last address. */
  lemma FlatDelete(t: Table, s: string, left: map<string, Info>, a: string, u: Table)
    requires s in t && NoneEmpty(t) && left == t[s] - {a}
    requires u == if left == map[] then t - {s} else t[s := left]
    ensures Flat(u) == Flat(t) - {Key(s, a)} && NoneEmpty(u)
  {
    var m := Flat(t) - {Key(s, a)};
    forall k: Key
      ensures Look(u, k) == if k in m then Some(m[k]) else None
    {
      LookDelete(t, s, left, a, u, k);
      LookRemoved(t, Key(s, a), k);
    }
    FlatIs(u, m);
    NoneEmptyReplace(t, s, left, u);
  }

  lemma NoneEmptyReplace(t: Table, s: string, left: map<string, Info>, u: Table)
    requires NoneEmpty(t) && u == if left == map[] then t - {s} else t[s := left]
    ensures NoneEmpty(u)
  {
    if left != map[] { var b :| b in left; }
  }

  /** What a sweep leaves: exactly the leases that have not expired. */
  ghost function Swept(m: Leases, now: Time, timeout: Time): Leases {
    map k | k in m && !Expired(m[k], now, timeout) :: m[k]
  }

  /** A sweep is done with one service: the unexpired leases are there and no others. */
  ghost predicate Cleaned(t: Table, before: Table, s: string, now: Time, timeout: Time) {
    forall a :: Look(t, Key(s, a)) == Kept(Look(before, Key(s, a)), now, timeout)
  }

  ghost function Kept(i: Option<Info>, now: Time, timeout: Time): Option<Info> {
    if i.Some? && Expired(i.value, now, timeout) then None else i
  }

  lemma FlatSwept(t: Table, before: Table, now: Time, timeout: Time)
    requires forall s :: Cleaned(t, before, s, now, timeout)
    ensures Flat(t) == Swept(Flat(before), now, timeout)
  {
    var m := Swept(Flat(before), now, timeout);
    forall k: Key
      ensures Look(t, k) == if k in m then Some(m[k]) else None
    {
      assert Cleaned(t, before, k.service, now, timeout) && k == Key(k.service, k.addr);
    }
    FlatIs(t, m);
  }

  /** A round leaves the services before it clean and those after it alone. */
  lemma CleanedElsewhere(t: Table, u: Table, before: Table, s: string, now: Time, timeout: Time)
    requires s in t && s in before && t[s] == before[s] && Cleaned(u, t, s, now, timeout)
    requires forall x :: x != s ==> (x in u <==> x in t) && (x in u ==> u[x] == t[x])
    ensures Cleaned(u, before, s, now, timeout)
    ensures forall x :: x != s && Cleaned(t, before, x, now, timeout) ==> Cleaned(u, before, x, now, timeout)
  {
    forall a
      ensures Look(u, Key(s, a)) == Kept(Look(before, Key(s, a)), now, timeout)
    {
      assert Look(t, Key(s, a)) == Look(before, Key(s, a));
    }
    forall x, a | x != s
      ensures Look(u, Key(x, a)) == Look(t, Key(x, a))
    {
    }
  }

  // ---------- the loops ----------

  /** The loop over a map's keys, in whatever order the map yields them. */
  method KeysInSomeOrder<V>(m: map<string, V>) returns (keys: seq<string>)
    ensures forall x :: x in keys <==> x in m
    ensures forall i, j :: 0 <= i < j < |keys| ==> keys[i] != keys[j]
  {
    keys := [];
    var todo := m.Keys;
    while todo != {}
      invariant todo <= m.Keys
      invariant forall x :: x in keys <==> x in m && x !in todo
      invariant forall i, j :: 0 <= i < j < |keys| ==> keys[i] != keys[j]
      decreases |todo|
    {
      var x :| x in todo;
      keys := keys + [x];
      todo := todo - {x};
    }
  }

  /** The inner loop of a sweep, which deletes from the map it ranges over. */
  method SweepAddresses(services: map<string, Info>, now: Time, timeout: Time) returns (left: map<string, Info>)
    ensures left == map a | a in services && !Expired(services[a], now, timeout) :: services[a]
  {
    left := services;
    var todo := services.Keys;
    while todo != {}
      invariant todo <= services.Keys
      invariant forall a :: a in left <==> a in services && (a in todo || !Expired(services[a], now, timeout))
      invariant forall a :: a in left ==> left[a] == services[a]
      decreases |todo|
    {
      var a :| a in todo;
      if Expired(services[a], now, timeout) { left := left - {a}; }
      todo := todo - {a};
    }
  }

  /** delete(m, key) below one service and, when that was the last, of the service. */
  method Replace(t: Table, s: string, left: map<string, Info>) returns (u: Table)
    ensures u == if left == map[] then t - {s} else t[s := left]
  {
    if |left| == 0 {
      u := t - {s};
    } else {
      u := t[s := left];
    }
  }

  /** One round of a sweep's outer loop: the service's unexpired addresses, or no service. */
  method SweepService(t: Table, s: string, now: Time, timeout: Time) returns (u: Table)
    requires s in t && NoneEmpty(t)
    ensures NoneEmpty(u) && Cleaned(u, t, s, now, timeout)
    ensures forall x :: x != s ==> (x in u <==> x in t) && (x in u ==> u[x] == t[x])
  {
    var left := SweepAddresses(t[s], now, timeout);
    u := Replace(t, s, left);
    forall a
      ensures Look(u, Key(s, a)) == Kept(Look(t, Key(s, a)), now, timeout)
    {
      LookReplace(t, s, left, u, Key(s, a));
    }
    NoneEmptyReplace(t, s, left, u);
  }

  class Registry {
    var servers: Table
    const timeout: Time

    ghost predicate Valid()
      reads this
    {
      NoneEmpty(servers)
    }

    ghost function Leases(): Leases
      reads this
    {
      Flat(servers)
    }

    constructor (timeout: Time)
      ensures Valid() && Leases() == map[] && this.timeout == timeout
    {
      servers := map[];
      this.timeout := timeout;
    }

    /** Register replaces any lease of the same address; the clock is read twice. */
    method Register(service: string, addr: string, metadata: map<string, string>, started: Time, now: Time)
      requires Valid()
      modifies this
      ensures Valid()
      ensures Leases() == old(Leases())[Key(service, addr) := Info(metadata, started, now)]
    {
      var services := map[];
      if service in servers { services := servers[service]; }
      FlatWrite(servers, service, services, addr, Info(metadata, started, now));
      servers := servers[service := services[addr := Info(metadata, started, now)]];
    }

    method Unregister(service: string, addr: string) returns (r: Result<(), LookupError>)
      requires Valid()
      modifies this
      ensures Valid()
      ensures r.Ok? <==> Key(service, addr) in old(Leases())
      ensures Leases() == old(Leases()) - {Key(service, addr)}
      ensures r.Err? ==> r.error.ServiceNotFound? || r.error.AddrNotFound?
      ensures r.Err? && r.error.ServiceNotFound? <==> forall k :: k in old(Leases()) ==> k.service != service
    {
      if service !in servers { return Err(ServiceNotFound(service)); }
      var services := servers[service];
      if addr !in services {
        ghost var other :| other in services;
        assert Key(service, other) in Leases();
        return Err(AddrNotFound(addr, service));
      }
      services := services - {addr};
      ghost var t := servers;
      servers := Replace(servers, service, services);
      FlatDelete(t, service, services, addr, servers);
      return Ok(());
    }

    /** Heartbeat renews a lease and changes nothing else about it; it never brings one back. */
    method Heartbeat(service: string, addr: string, now: Time) returns (r: Result<(), LookupError>)
      requires Valid()
      modifies this
      ensures Valid()
      ensures r.Ok? <==> Key(service, addr) in old(Leases())
      ensures r.Ok? ==>
              Leases() == old(Leases())[Key(service, addr) := old(Leases())[Key(service, addr)].(lastPing := now)]
      ensures r.Err? ==> Leases() == old(Leases())
    {
      if service !in servers { return Err(ServiceNotFound(service)); }
      var services := servers[service];
      if addr !in services { return Err(AddrNotFound(addr, service)); }
      FlatWrite(servers, service, services, addr, services[addr].(lastPing := now));
      servers := servers[service := services[addr := services[addr].(lastPing := now)]];
      return Ok(());
    }

    /** A missing lease counts as expired. */
    method IsExpired(service: string, addr: string, now: Time) returns (r: bool)
      ensures r <==> Key(service, addr) !in Leases() || Expired(Leases()[Key(service, addr)], now, timeout)
    {
      if service !in servers { return true; }
      var services := servers[service];
      if addr !in services { return true; }
      return Expired(services[addr], now, timeout);
    }

    /** The addresses of a service, each once; the error exactly when there are none. */
    method GetService(service: string) returns (r: Result<seq<string>, LookupError>)
      requires Valid()
      ensures r.Ok? ==>
        && r.value != []
        && (forall a :: a in r.value <==> Key(service, a) in Leases())
        && (forall i, j :: 0 <= i < j < |r.value| ==> r.value[i] != r.value[j])
      ensures r.Err? ==> forall a :: Key(service, a) !in Leases()
    {
      if service !in servers || |servers[service]| == 0 { return Err(NoServices(service)); }
      var addrs := KeysInSomeOrder(servers[service]);
      ghost var someone :| someone in servers[service];
      assert someone in addrs;
      return Ok(addrs);
    }

    /** The services that have an address, each once. */
    method GetAllServices() returns (names: seq<string>)
      requires Valid()
      ensures forall s :: s in names <==> exists a :: Key(s, a) in Leases()
      ensures forall i, j :: 0 <= i < j < |names| ==> names[i] != names[j]
    {
      names := KeysInSomeOrder(servers);
      forall s
        ensures s in names <==> exists a :: Key(s, a) in Leases()
      {
        if s in servers {
          var a :| a in servers[s];
          assert Key(s, a) in Leases();
        }
      }
    }

    /** One tick of cleanExpiredServers. */
    method Sweep(now: Time)
      requires Valid()
      modifies this
      ensures Valid() && Leases() == Swept(old(Leases()), now, timeout)
    {
      ghost var before := servers;
      var todo := servers.Keys;
      while todo != {}
        invariant todo <= before.Keys && NoneEmpty(servers)
        invariant forall s :: s in todo ==> s in servers && servers[s] == before[s]
        invariant forall s :: s !in todo ==> Cleaned(servers, before, s, now, timeout)
        decreases |todo|
      {
        var s :| s in todo;
        ghost var t := servers;
        servers := SweepService(servers, s, now, timeout);
        CleanedElsewhere(t, servers, before, s, now, timeout);
        todo := todo - {s};
      }
      FlatSwept(servers, before, now, timeout);
    }
  }
}
