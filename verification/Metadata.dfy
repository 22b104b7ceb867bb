/** Metadata multimaps and the lazily built outgoing metadata (metadata/metadata.go).
    Strings are byte strings and strings.ToLower is the parameter `lower`. */
module Metadata {
  import opened Bytes
  import opened Results

  type MD = map<bytes, seq<bytes>>
  type Lower = bytes -> bytes

  ghost predicate Idempotent(lower: Lower) {
    forall k :: lower(lower(k)) == lower(k)
  }

  function Lookup(md: MD, k: bytes): seq<bytes> {
    if k in md then md[k] else []
  }

  /** md[k] = append(md[k], vals...) */
  function Extend(md: MD, k: bytes, vals: seq<bytes>): MD {
    md[k := Lookup(md, k) + vals]
  }

  /** MD.Append */
  function Append(lower: Lower, md: MD, k: bytes, vals: seq<bytes>): MD {
    if vals == [] then md else Extend(md, lower(k), vals)
  }

  // ---- map iteration order

  /** `order` visits every key once: a possible run of Go's `range` over a map. */
  ghost predicate IsOrder(order: seq<bytes>, keys: set<bytes>) {
    && (forall i, j :: 0 <= i < j < |order| ==> order[i] != order[j])
    && (forall k :: k in order <==> k in keys)
  }

  ghost function SomeOrder(keys: set<bytes>): (order: seq<bytes>)
    ensures IsOrder(order, keys)
  {
    if keys == {} then [] else
    var k :| k in keys;
    SomeOrder(keys - {k}) + [k]
  }

  lemma OrderSnoc(order: seq<bytes>, keys: set<bytes>, k: bytes)
    requires IsOrder(order, keys) && k !in keys
    ensures IsOrder(order + [k], keys + {k})
  {
    forall l ensures l in order + [k] <==> l in keys + {k} {}
  }

  lemma OrderPrefix(order: seq<bytes>, keys: set<bytes>)
    requires IsOrder(order, keys) && order != []
    ensures var k := order[|order| - 1]; k in keys && IsOrder(order[..|order| - 1], keys - {k})
  {
    var n := |order| - 1;
    assert order[n] in order;
    forall k ensures k in order[..n] <==> k in keys - {order[n]} {
      if k in keys - {order[n]} {
        var i :| 0 <= i < |order| && order[i] == k;
        assert order[..n][i] == k;
      }
    }
  }

  // ---- eager construction: Pairs and Join

  function AddPairs(lower: Lower, md: MD, kv: seq<bytes>): MD
    requires |kv| % 2 == 0
  {
    if kv == [] then md else
    var n := |kv| - 2;
    Extend(AddPairs(lower, md, kv[..n]), lower(kv[n]), [kv[n + 1]])
  }

  function PairsOf(lower: Lower, kv: seq<bytes>): MD
    requires |kv| % 2 == 0
  {
    AddPairs(lower, map[], kv)
  }

  /** Key by key, the values of `a` followed by the values of `b`. */
  function Merge(a: MD, b: MD): MD {
    map k | k in a.Keys + b.Keys :: Lookup(a, k) + Lookup(b, k)
  }

  lemma MergeUnit(md: MD)
    ensures Merge(md, map[]) == md && Merge(map[], md) == md
  {
    forall k | k in md ensures Lookup(md, k) + [] == md[k] && [] + Lookup(md, k) == md[k] {}
  }

  lemma MergeExtend(a: MD, b: MD, k: bytes, vals: seq<bytes>)
    ensures Extend(Merge(a, b), k, vals) == Merge(a, Extend(b, k, vals))
  {
    var l, r := Extend(Merge(a, b), k, vals), Merge(a, Extend(b, k, vals));
    assert l.Keys == r.Keys;
    forall j | j in l
      ensures l[j] == r[j]
    {
      MergeExtendAt(a, b, k, vals, j);
    }
  }

  lemma LookupMerge(a: MD, b: MD, j: bytes)
    ensures Lookup(Merge(a, b), j) == Lookup(a, j) + Lookup(b, j)
  {
  }

  lemma MergeExtendAt(a: MD, b: MD, k: bytes, vals: seq<bytes>, j: bytes)
    ensures Lookup(Extend(Merge(a, b), k, vals), j) == Lookup(Merge(a, Extend(b, k, vals)), j)
  {
    LookupMerge(a, b, j);
    LookupMerge(a, Extend(b, k, vals), j);
    if j == k { Assoc(Lookup(a, j), Lookup(b, j), vals); }
  }

  /** The part of `md` on the given keys. */
  function Restrict(md: MD, keys: set<bytes>): MD {
    map k | k in keys && k in md :: md[k]
  }

  function JoinOf(mds: seq<MD>): MD {
    if mds == [] then map[] else Merge(JoinOf(mds[..|mds| - 1]), mds[|mds| - 1])
  }

  /** The loop of Pairs and of FromOutgoingContext over a flat list of keys and values. */
  method AddList(lower: Lower, md: MD, kv: seq<bytes>) returns (out: MD)
    requires |kv| % 2 == 0
    ensures out == AddPairs(lower, md, kv)
  {
    out := md;
    var i := 0;
    while i < |kv|
      invariant 0 <= i <= |kv| && i % 2 == 0
      invariant out == AddPairs(lower, md, kv[..i])
    {
      out := Extend(out, lower(kv[i]), [kv[i + 1]]);
      assert kv[..i + 2][..i] == kv[..i];
      i := i + 2;
    }
    assert kv[..i] == kv;
  }

  /** Pairs; None is the panic on an odd number of arguments. */
  method Pairs(lower: Lower, kv: seq<bytes>) returns (r: Option<MD>)
    ensures r == if |kv| % 2 != 0 then None else Some(PairsOf(lower, kv))
  {
    if |kv| % 2 != 0 { return None; }
    var md := AddList(lower, map[], kv);
    return Some(md);
  }

  lemma JoinStep(before: MD, md: MD, done: set<bytes>, k: bytes)
    requires k in md && k !in done
    ensures Extend(Merge(before, Restrict(md, done)), k, md[k]) == Merge(before, Restrict(md, done + {k}))
  {
    MergeExtend(before, Restrict(md, done), k, md[k]);
    assert Lookup(Restrict(md, done), k) + md[k] == md[k];
    assert Extend(Restrict(md, done), k, md[k]) == Restrict(md, done + {k});
  }

  lemma JoinEnds(before: MD, md: MD)
    ensures Merge(before, Restrict(md, {})) == before && Merge(before, Restrict(md, md.Keys)) == Merge(before, md)
  {
    MergeUnit(before);
    assert Restrict(md, {}) == map[] && Restrict(md, md.Keys) == md;
  }

  lemma MoveKey(done: set<bytes>, todo: set<bytes>, k: bytes)
    requires done !! todo && k in todo
    ensures done + {k} !! todo - {k} && (done + {k}) + (todo - {k}) == done + todo && |todo - {k}| < |todo|
  {
  }

  /** Join's inner loop, in any visiting order. */
  method JoinOne(before: MD, md: MD) returns (out: MD)
    ensures out == Merge(before, md)
  {
    out := before;
    var todo := md.Keys;
    ghost var done: set<bytes> := {};
    JoinEnds(before, md);
    while todo != {}
      invariant done !! todo && done + todo == md.Keys
      invariant out == Merge(before, Restrict(md, done))
      decreases |todo|
    {
      var k :| k in todo;
      JoinStep(before, md, done, k);
      MoveKey(done, todo, k);
      out := Extend(out, k, md[k]);
      done, todo := done + {k}, todo - {k};
    }
  }

  method Join(mds: seq<MD>) returns (out: MD)
    ensures out == JoinOf(mds)
  {
    out := map[];
    for i := 0 to |mds|
      invariant out == JoinOf(mds[..i])
    {
      out := JoinOne(out, mds[i]);
      assert mds[..i + 1][..i] == mds[..i];
    }
    assert mds[..|mds|] == mds;
  }

  // ---- lazy construction: the outgoing context

  datatype RawMD = RawMD(md: MD, added: seq<seq<bytes>>)

  function LowerKeys(lower: Lower, kv: seq<bytes>): (r: seq<bytes>)
    requires |kv| % 2 == 0
    ensures |r| == |kv|
  {
    if kv == [] then [] else
    var n := |kv| - 2;
    LowerKeys(lower, kv[..n]) + [lower(kv[n]), kv[n + 1]]
  }

  /** AppendToOutgoingContext on a context holding `ctx`; None is the panic on an odd number of arguments. */
  method AppendToOutgoingContext(lower: Lower, ctx: Option<RawMD>, kv: seq<bytes>) returns (r: Option<RawMD>)
    ensures r == if |kv| % 2 == 1 then None else Some(Appended(lower, ctx, kv))
  {
    if |kv| % 2 == 1 { return None; }
    var raw := if ctx.Some? then ctx.value else RawMD(map[], []);
    var kvCopy := [];
    var i := 0;
    while i < |kv|
      invariant 0 <= i <= |kv| && i % 2 == 0
      invariant kvCopy == LowerKeys(lower, kv[..i])
    {
      kvCopy := kvCopy + [lower(kv[i]), kv[i + 1]];
      assert kv[..i + 2][..i] == kv[..i];
      i := i + 2;
    }
    assert kv[..i] == kv;
    return Some(RawMD(raw.md, raw.added + [kvCopy]));
  }

  function Appended(lower: Lower, ctx: Option<RawMD>, kv: seq<bytes>): RawMD
    requires |kv| % 2 == 0
  {
    var raw := if ctx.Some? then ctx.value else RawMD(map[], []);
    RawMD(raw.md, raw.added + [LowerKeys(lower, kv)])
  }

  /** The context after a base MD and a sequence of appends. */
  function AfterCalls(lower: Lower, base: MD, calls: seq<seq<bytes>>): RawMD
    requires AllEven(calls)
  {
    if calls == [] then RawMD(base, []) else
    var n := |calls| - 1;
    Appended(lower, Some(AfterCalls(lower, base, calls[..n])), calls[n])
  }

  predicate AllEven(calls: seq<seq<bytes>>) {
    forall i :: 0 <= i < |calls| ==> |calls[i]| % 2 == 0
  }

  lemma EvenSnoc(calls: seq<seq<bytes>>, i: nat)
    requires i < |calls| && AllEven(calls[..i]) && |calls[i]| % 2 == 0
    ensures calls[..i + 1][..i] == calls[..i] && calls[..i + 1][i] == calls[i] && AllEven(calls[..i + 1])
  {
  }

  /** out[lower(k)] = base[k] for the keys in the order visited: a later colliding key overwrites. */
  function LowerInto(lower: Lower, base: MD, order: seq<bytes>): MD
    requires forall k :: k in order ==> k in base
  {
    if order == [] then map[] else
    var n := |order| - 1;
    assert forall k :: k in order[..n] ==> k in order;
    LowerInto(lower, base, order[..n])[lower(order[n]) := base[order[n]]]
  }

  function AddAll(lower: Lower, md: MD, added: seq<seq<bytes>>): MD
    requires AllEven(added)
  {
    if added == [] then md else
    var n := |added| - 1;
    AddPairs(lower, AddAll(lower, md, added[..n]), added[n])
  }

  lemma LowerIntoSnoc(lower: Lower, base: MD, order: seq<bytes>, k: bytes)
    requires k in base && forall j :: j in order ==> j in base
    ensures LowerInto(lower, base, order + [k]) == LowerInto(lower, base, order)[lower(k) := base[k]]
  {
    assert (order + [k])[..|order|] == order;
  }

  lemma OneDone(keys: set<bytes>, todo: set<bytes>, k: bytes)
    requires k in todo && todo <= keys
    ensures keys - todo + {k} == keys - (todo - {k})
  {
  }

  /** FromOutgoingContext's first loop. */
  method LowerBase(lower: Lower, md: MD) returns (out: MD, ghost order: seq<bytes>)
    ensures IsOrder(order, md.Keys)
    ensures out == LowerInto(lower, md, order)
  {
    out := map[];
    order := [];
    var todo := md.Keys;
    assert md.Keys - todo == {};
    while todo != {}
      invariant todo <= md.Keys && IsOrder(order, md.Keys - todo)
      invariant out == LowerInto(lower, md, order)
      decreases |todo|
    {
      var k :| k in todo;
      out := out[lower(k) := md[k]];
      OrderSnoc(order, md.Keys - todo, k);
      OneDone(md.Keys, todo, k);
      LowerIntoSnoc(lower, md, order, k);
      order, todo := order + [k], todo - {k};
    }
    assert md.Keys - {} == md.Keys;
  }

  /** FromOutgoingContext's second loop; None is the panic on an odd list. */
  method AddLists(lower: Lower, md: MD, added: seq<seq<bytes>>) returns (r: Option<MD>)
    ensures r.Some? <==> AllEven(added)
    ensures r.Some? ==> r.value == AddAll(lower, md, added)
  {
    var out := md;
    for i := 0 to |added|
      invariant AllEven(added[..i])
      invariant out == AddAll(lower, md, added[..i])
    {
      if |added[i]| % 2 == 1 {
        return None;
      }
      out := AddList(lower, out, added[i]);
      EvenSnoc(added, i);
    }
    assert added[..|added|] == added;
    return Some(out);
  }

  /** What reading the context gives: nothing there (nil and false), metadata, or the panic on an odd list. */
  datatype OutgoingRead = Absent | Found(md: MD) | Panics

  /** FromOutgoingContext. The ghost result is the order in which the base was visited. */
  method FromOutgoingContext(lower: Lower, ctx: Option<RawMD>) returns (r: OutgoingRead, ghost order: seq<bytes>)
    ensures r.Absent? <==> ctx.None?
    ensures r.Panics? <==> ctx.Some? && !AllEven(ctx.value.added)
    ensures ctx.Some? ==> IsOrder(order, ctx.value.md.Keys)
    ensures r.Found? ==> r.md == AddAll(lower, LowerInto(lower, ctx.value.md, order), ctx.value.added)
  {
    if ctx.None? { return Absent, []; }
    var out;
    out, order := LowerBase(lower, ctx.value.md);
    var all := AddLists(lower, out, ctx.value.added);
    r := if all.Some? then Found(all.value) else Panics;
  }

  // ---- the lazy construction agrees with the eager one

  ghost predicate DistinctLower(lower: Lower, base: MD) {
    forall k, l :: k in base && l in base && lower(k) == lower(l) ==> k == l
  }

  /** `base` with its keys in lower case. */
  ghost function Lowered(lower: Lower, base: MD): MD {
    map k | k in (set l | l in base :: lower(l)) :: base[PreImage(lower, base, k)]
  }

  ghost function PreImage(lower: Lower, base: MD, k: bytes): (l: bytes)
    requires k in (set l | l in base :: lower(l))
    ensures l in base && lower(l) == k
  {
    var l :| l in base && lower(l) == k;
    l
  }

  /** What the base loop leaves in the map, when colliding keys agree. */
  lemma {:induction false} LowerIntoFacts(lower: Lower, base: MD, order: seq<bytes>)
    requires forall k :: k in order ==> k in base
    ensures LowerInto(lower, base, order).Keys == (set l | l in order :: lower(l))
    ensures forall k :: k in LowerInto(lower, base, order) ==>
      exists l :: l in order && lower(l) == k && LowerInto(lower, base, order)[k] == base[l]
  {
    if order != [] {
      var n := |order| - 1;
      var prev := order[..n];
      assert order == prev + [order[n]];
      LowerIntoFacts(lower, base, prev);
      var r := LowerInto(lower, base, order);
      forall k | k in r
        ensures exists l :: l in order && lower(l) == k && r[k] == base[l]
      {
        if k == lower(order[n]) {
          assert order[n] in order && r[k] == base[order[n]];
        } else {
          var l :| l in prev && lower(l) == k && LowerInto(lower, base, prev)[k] == base[l];
          assert l in order;
        }
      }
    }
  }

  lemma LowerIntoIsLowered(lower: Lower, base: MD, order: seq<bytes>)
    requires IsOrder(order, base.Keys) && DistinctLower(lower, base)
    ensures LowerInto(lower, base, order) == Lowered(lower, base)
  {
    LowerIntoFacts(lower, base, order);
  }

  lemma {:induction false} AddPairsIsMerge(lower: Lower, md: MD, kv: seq<bytes>)
    requires |kv| % 2 == 0
    ensures AddPairs(lower, md, kv) == Merge(md, PairsOf(lower, kv))
  {
    if kv == [] {
      MergeUnit(md);
    } else {
      var n := |kv| - 2;
      AddPairsIsMerge(lower, md, kv[..n]);
      MergeExtend(md, PairsOf(lower, kv[..n]), lower(kv[n]), [kv[n + 1]]);
    }
  }

  lemma {:induction false} RelowerPairs(lower: Lower, md: MD, kv: seq<bytes>)
    requires |kv| % 2 == 0 && Idempotent(lower)
    ensures AddPairs(lower, md, LowerKeys(lower, kv)) == AddPairs(lower, md, kv)
  {
    if kv != [] {
      var n := |kv| - 2;
      assert LowerKeys(lower, kv)[..n] == LowerKeys(lower, kv[..n]);
      assert lower(lower(kv[n])) == lower(kv[n]);
      RelowerPairs(lower, md, kv[..n]);
    }
  }

  function AllPairs(lower: Lower, calls: seq<seq<bytes>>): (r: seq<MD>)
    requires AllEven(calls)
    ensures |r| == |calls|
  {
    seq(|calls|, i requires 0 <= i < |calls| => PairsOf(lower, calls[i]))
  }

  lemma {:induction false} AfterCallsShape(lower: Lower, base: MD, calls: seq<seq<bytes>>)
    requires AllEven(calls)
    ensures var raw := AfterCalls(lower, base, calls);
            raw.md == base && |raw.added| == |calls| && AllEven(raw.added)
            && forall i :: 0 <= i < |calls| ==> raw.added[i] == LowerKeys(lower, calls[i])
  {
    if calls != [] {
      AfterCallsShape(lower, base, calls[..|calls| - 1]);
    }
  }

  lemma JoinAllPairs(lower: Lower, md: MD, calls: seq<seq<bytes>>)
    requires AllEven(calls) && calls != []
    ensures var n := |calls| - 1;
            JoinOf([md] + AllPairs(lower, calls)) ==
            Merge(JoinOf([md] + AllPairs(lower, calls[..n])), PairsOf(lower, calls[n]))
  {
    var n := |calls| - 1;
    var before, x := AllPairs(lower, calls[..n]), PairsOf(lower, calls[n]);
    AllPairsInit(lower, calls);
    Assoc([md], before, [x]);
    JoinSnoc([md] + before, x);
  }

  lemma JoinSnoc(mds: seq<MD>, x: MD)
    ensures JoinOf(mds + [x]) == Merge(JoinOf(mds), x)
  {
    assert (mds + [x])[..|mds|] == mds;
  }

  lemma AllPairsInit(lower: Lower, calls: seq<seq<bytes>>)
    requires AllEven(calls) && calls != []
    ensures AllEven(calls[..|calls| - 1])
    ensures AllPairs(lower, calls) == AllPairs(lower, calls[..|calls| - 1]) + [PairsOf(lower, calls[|calls| - 1])]
  {
  }

  lemma {:induction false} AddAllIsJoin(lower: Lower, md: MD, calls: seq<seq<bytes>>, added: seq<seq<bytes>>)
    requires AllEven(calls) && Idempotent(lower) && AllEven(added) && |added| == |calls|
    requires forall i :: 0 <= i < |calls| ==> added[i] == LowerKeys(lower, calls[i])
    ensures AddAll(lower, md, added) == JoinOf([md] + AllPairs(lower, calls))
  {
    var mds := [md] + AllPairs(lower, calls);
    if calls == [] {
      assert mds[..0] == [];
      MergeUnit(md);
    } else {
      var n := |calls| - 1;
      AddAllIsJoin(lower, md, calls[..n], added[..n]);
      AddLastIsMerge(lower, AddAll(lower, md, added[..n]), calls[n], added[n]);
      JoinAllPairs(lower, md, calls);
    }
  }

  lemma AddLastIsMerge(lower: Lower, before: MD, call: seq<bytes>, added: seq<bytes>)
    requires |call| % 2 == 0 && |added| % 2 == 0 && Idempotent(lower) && added == LowerKeys(lower, call)
    ensures AddPairs(lower, before, added) == Merge(before, PairsOf(lower, call))
  {
    RelowerPairs(lower, before, call);
    AddPairsIsMerge(lower, before, call);
  }

  /** Lazy agrees with eager: reading the context after any sequence of appends gives the join of the
      lower-cased base and the pairs of each call, in every visiting order. */
  lemma LazyIsEager(lower: Lower, base: MD, calls: seq<seq<bytes>>, order: seq<bytes>)
    requires Idempotent(lower) && AllEven(calls) && DistinctLower(lower, base) && IsOrder(order, base.Keys)
    ensures AllEven(AfterCalls(lower, base, calls).added)
    ensures AddAll(lower, LowerInto(lower, base, order), AfterCalls(lower, base, calls).added)
            == JoinOf([Lowered(lower, base)] + AllPairs(lower, calls))
  {
    AfterCallsShape(lower, base, calls);
    LowerIntoIsLowered(lower, base, order);
    AddAllIsJoin(lower, Lowered(lower, base), calls, AfterCalls(lower, base, calls).added);
  }

  /** The base loop gives the same map in every visiting order exactly when keys that collide in lower case
      carry the same values. */
  ghost predicate OrderIrrelevant(lower: Lower, base: MD) {
    forall o, p :: IsOrder(o, base.Keys) && IsOrder(p, base.Keys) ==>
      LowerInto(lower, base, o) == LowerInto(lower, base, p)
  }

  ghost predicate CollisionsAgree(lower: Lower, base: MD) {
    forall k, l :: k in base && l in base && lower(k) == lower(l) ==> base[k] == base[l]
  }

  ghost function OrderEndingIn(keys: set<bytes>, k: bytes): (order: seq<bytes>)
    requires k in keys
    ensures IsOrder(order, keys) && order != [] && order[|order| - 1] == k
  {
    SomeOrder(keys - {k}) + [k]
  }

  lemma AgreeingOrders(lower: Lower, base: MD, o: seq<bytes>, p: seq<bytes>)
    requires CollisionsAgree(lower, base) && IsOrder(o, base.Keys) && IsOrder(p, base.Keys)
    ensures LowerInto(lower, base, o) == LowerInto(lower, base, p)
  {
    var x, y := LowerInto(lower, base, o), LowerInto(lower, base, p);
    SameKeys(lower, base, o, p);
    forall j | j in x
      ensures x[j] == y[j]
    {
      AgreeOn(lower, base, o, p, j);
    }
  }

  lemma SameKeys(lower: Lower, base: MD, o: seq<bytes>, p: seq<bytes>)
    requires IsOrder(o, base.Keys) && IsOrder(p, base.Keys)
    ensures LowerInto(lower, base, o).Keys == LowerInto(lower, base, p).Keys
  {
    LowerIntoFacts(lower, base, o);
    LowerIntoFacts(lower, base, p);
    SameImage(lower, o, p);
  }

  lemma AgreeOn(lower: Lower, base: MD, o: seq<bytes>, p: seq<bytes>, j: bytes)
    requires CollisionsAgree(lower, base) && IsOrder(o, base.Keys) && IsOrder(p, base.Keys)
    requires j in LowerInto(lower, base, o)
    ensures j in LowerInto(lower, base, p) && LowerInto(lower, base, o)[j] == LowerInto(lower, base, p)[j]
  {
    LowerIntoFacts(lower, base, o);
    var k :| k in o && lower(k) == j;
    AgreeAt(lower, base, o, k);
    AgreeAt(lower, base, p, k);
  }

  lemma AgreeAt(lower: Lower, base: MD, order: seq<bytes>, k: bytes)
    requires CollisionsAgree(lower, base) && IsOrder(order, base.Keys) && k in order
    ensures lower(k) in LowerInto(lower, base, order) && LowerInto(lower, base, order)[lower(k)] == base[k]
  {
    LowerIntoFacts(lower, base, order);
    var r := LowerInto(lower, base, order);
    assert lower(k) in r.Keys;
  }

  lemma SameImage(lower: Lower, o: seq<bytes>, p: seq<bytes>)
    requires forall k :: k in o <==> k in p
    ensures (set l | l in o :: lower(l)) == (set l | l in p :: lower(l))
  {
  }

  lemma LastWins(lower: Lower, base: MD, k: bytes, l: bytes)
    requires OrderIrrelevant(lower, base) && k in base && l in base && lower(k) == lower(l)
    ensures base[k] == base[l]
  {
    var o, p := OrderEndingIn(base.Keys, k), OrderEndingIn(base.Keys, l);
    assert LowerInto(lower, base, o)[lower(k)] == base[k];
    assert LowerInto(lower, base, p)[lower(k)] == base[l];
  }

  lemma OrderIrrelevantExactly(lower: Lower, base: MD)
    ensures OrderIrrelevant(lower, base) <==> CollisionsAgree(lower, base)
  {
    if CollisionsAgree(lower, base) {
      forall o, p | IsOrder(o, base.Keys) && IsOrder(p, base.Keys)
        ensures LowerInto(lower, base, o) == LowerInto(lower, base, p)
      {
        AgreeingOrders(lower, base, o, p);
      }
    }
    if OrderIrrelevant(lower, base) {
      forall k, l | k in base && l in base && lower(k) == lower(l) ensures base[k] == base[l] {
        LastWins(lower, base, k, l);
      }
    }
  }
}
