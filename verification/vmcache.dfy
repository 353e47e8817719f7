/** The process-wide caches of skynet/zabbix.py (HOST_CACHED, VMS_CACHED,
    HYPERVISOR_DETAILS) and the controller methods that update them:
    clear, create_vms_total and get_vms_top_metric. The nova instance
    listing and the metering statistics are inputs; a call that raises is
    `None`. */
module VmCache {
  import opened Wrappers
  import opened Ranking
  import opened Counting
  import opened Summaries

  /** The reserved VMS_CACHED key holding the active instance ids. */
  const ActiveKey := "ACTIVE_VMS"

  /** A VMS_CACHED value: an instance name, or the id list under ActiveKey. */
  datatype Entry = Name(name: string) | IdList(ids: seq<string>)

  /** Python truthiness of a cached value. */
  predicate Truthy(e: Entry)
  {
    match e
    case Name(n) => n != ""
    case IdList(ids) => ids != []
  }

  /** A hypervisor detail record; nothing in this core reads its fields. */
  datatype Hypervisor = Hypervisor(id: string)

  /** One metering statistic: the average of a meter over the window for one resource. */
  datatype Statistic = Statistic(resourceId: string, avg: real)

  // ---------------------------------------------------------------------
  // create_vms_total
  // ---------------------------------------------------------------------

  /** The ids of the ACTIVE instances, as a set. */
  ghost function ActiveIdSet(xs: seq<Instance>): set<string>
  {
    set i | 0 <= i < |xs| && xs[i].status == Active :: xs[i].id
  }

  /** One step of the name loop of create_vms_total: an ACTIVE instance whose
      id is not yet a key gets its name. */
  function AddName(m: map<string, Entry>, x: Instance): (r: map<string, Entry>)
    ensures r.Keys == if x.status == Active then m.Keys + {x.id} else m.Keys
    ensures forall k :: k in m ==> r[k] == m[k]
  {
    if x.status == Active && x.id !in m then m[x.id := Name(x.name)] else m
  }

  /** The name updates of create_vms_total over a listing. */
  function AddActiveNames(m: map<string, Entry>, xs: seq<Instance>): map<string, Entry>
  {
    if xs == [] then m else AddName(AddActiveNames(m, xs[..|xs| - 1]), xs[|xs| - 1])
  }

  /** The keys after the name updates: the cached ones and the ACTIVE ids. */
  lemma {:induction false} AddActiveNamesKeys(m: map<string, Entry>, xs: seq<Instance>)
    ensures AddActiveNames(m, xs).Keys == m.Keys + ActiveIdSet(xs)
  {
    if xs != [] {
      var n := |xs| - 1;
      AddActiveNamesKeys(m, xs[..n]);
      assert forall i :: 0 <= i < n ==> xs[..n][i] == xs[i];
      assert ActiveIdSet(xs) == ActiveIdSet(xs[..n]) + (if xs[n].status == Active then {xs[n].id} else {});
    }
  }

  /** An entry cached before the listing is never overwritten. */
  lemma {:induction false} AddActiveNamesKeepsExisting(m: map<string, Entry>, xs: seq<Instance>, k: string)
    requires k in m
    ensures k in AddActiveNames(m, xs) && AddActiveNames(m, xs)[k] == m[k]
  {
    if xs != [] {
      AddActiveNamesKeepsExisting(m, xs[..|xs| - 1], k);
    }
  }

  /** A new id gets the name of the first ACTIVE instance carrying it. */
  lemma {:induction false} AddActiveNamesFirstWins(m: map<string, Entry>, xs: seq<Instance>, i: int)
    requires 0 <= i < |xs| && xs[i].status == Active && xs[i].id !in m
    requires forall j :: 0 <= j < i ==> !(xs[j].status == Active && xs[j].id == xs[i].id)
    ensures xs[i].id in AddActiveNames(m, xs) && AddActiveNames(m, xs)[xs[i].id] == Name(xs[i].name)
  {
    var n := |xs| - 1;
    var prefix := xs[..n];
    var init := AddActiveNames(m, prefix);
    assert AddActiveNames(m, xs) == AddName(init, xs[n]);
    if i < n {
      AddActiveNamesFirstWins(m, prefix, i);
      assert prefix[i] == xs[i];
    } else {
      AddActiveNamesKeys(m, prefix);
      assert xs[i].id !in ActiveIdSet(prefix) by {
        assert forall j :: 0 <= j < n ==> prefix[j] == xs[j];
      }
    }
  }

  /** Counting one more status of a listing. */
  lemma StatusCountStep(xs: seq<Instance>, i: int, wanted: set<string>)
    requires 0 <= i < |xs|
    ensures CountIn(Statuses(xs[..i + 1]), wanted) ==
      CountIn(Statuses(xs[..i]), wanted) + if xs[i].status in wanted then 1 else 0
  {
    assert Statuses(xs[..i + 1])[..i] == Statuses(xs[..i]);
  }

  /** Taking one more instance of a listing into the active ids and names. */
  lemma ListingStep(m: map<string, Entry>, xs: seq<Instance>, i: int)
    requires 0 <= i < |xs|
    ensures ActiveIds(xs[..i + 1]) == ActiveIds(xs[..i]) + if xs[i].status == Active then [xs[i].id] else []
    ensures AddActiveNames(m, xs[..i + 1]) == AddName(AddActiveNames(m, xs[..i]), xs[i])
  {
    assert xs[..i + 1][..i] == xs[..i];
  }

  /** The ActiveKey update of create_vms_total: set only when unset or falsy. */
  function MarkActive(m: map<string, Entry>, ids: seq<string>): (r: map<string, Entry>)
    ensures ActiveKey in r
    ensures ActiveKey in m && Truthy(m[ActiveKey]) ==> r == m
    ensures !(ActiveKey in m && Truthy(m[ActiveKey])) ==> r == m[ActiveKey := IdList(ids)]
  {
    if ActiveKey in m && Truthy(m[ActiveKey]) then m else m[ActiveKey := IdList(ids)]
  }

  // ---------------------------------------------------------------------
  // get_vms_top_metric
  // ---------------------------------------------------------------------

  /** The refill loop of get_vms_top_metric, on an empty cache: every instance,
      whatever its status, maps its id to its name; a later instance with the
      same id overwrites an earlier one. */
  function Names(xs: seq<Instance>): (m: map<string, Entry>)
    ensures forall k :: k in m <==> exists i :: 0 <= i < |xs| && xs[i].id == k
  {
    if xs == [] then map[]
    else
      var n := |xs| - 1;
      assert forall i :: 0 <= i < n ==> xs[..n][i] == xs[i];
      Names(xs[..n])[xs[n].id := Name(xs[n].name)]
  }

  /** The cache after a refill: all names, then the active id list. */
  function Refill(xs: seq<Instance>): (m: map<string, Entry>)
    ensures ActiveKey in m && m[ActiveKey] == IdList(ActiveIds(xs))
    ensures forall k :: k in m <==> k == ActiveKey || exists i :: 0 <= i < |xs| && xs[i].id == k
  {
    Names(xs)[ActiveKey := IdList(ActiveIds(xs))]
  }

  /** After a refill, an instance id other than ActiveKey names the last
      instance listed with it, whatever that instance's status. */
  lemma {:induction false} RefillLastWins(xs: seq<Instance>, i: int)
    requires 0 <= i < |xs| && xs[i].id != ActiveKey
    requires forall j :: i < j < |xs| ==> xs[j].id != xs[i].id
    ensures Refill(xs)[xs[i].id] == Name(xs[i].name)
  {
    NamesLastWins(xs, i);
  }

  lemma {:induction false} NamesLastWins(xs: seq<Instance>, i: int)
    requires 0 <= i < |xs|
    requires forall j :: i < j < |xs| ==> xs[j].id != xs[i].id
    ensures xs[i].id in Names(xs) && Names(xs)[xs[i].id] == Name(xs[i].name)
  {
    var n := |xs| - 1;
    if i < n {
      NamesLastWins(xs[..n], i);
    }
  }

  /** cache_result: the first average reported for each resource id. */
  function FirstSamples(stats: seq<Statistic>): (m: map<string, real>)
    ensures forall k :: k in m <==> exists i :: 0 <= i < |stats| && stats[i].resourceId == k
  {
    if stats == [] then map[]
    else
      var n := |stats| - 1;
      var init := FirstSamples(stats[..n]);
      assert forall i :: 0 <= i < n ==> stats[..n][i] == stats[i];
      if stats[n].resourceId in init then init else init[stats[n].resourceId := stats[n].avg]
  }

  /** Only the first statistic for a resource counts; later ones are ignored. */
  lemma {:induction false} FirstSampleWins(stats: seq<Statistic>, i: int)
    requires 0 <= i < |stats|
    requires forall j :: 0 <= j < i ==> stats[j].resourceId != stats[i].resourceId
    ensures FirstSamples(stats)[stats[i].resourceId] == stats[i].avg
  {
    var n := |stats| - 1;
    var prefix := stats[..n];
    assert forall j :: 0 <= j < n ==> prefix[j] == stats[j];
    if i < n {
      FirstSampleWins(prefix, i);
    } else {
      assert stats[i].resourceId !in FirstSamples(prefix);
    }
  }

  /** The loop filling cache_result. */
  method CollectFirstSamples(stats: seq<Statistic>) returns (samples: map<string, real>)
    ensures samples == FirstSamples(stats)
  {
    samples := map[];
    var i := 0;
    while i < |stats|
      invariant 0 <= i <= |stats|
      invariant samples == FirstSamples(stats[..i])
    {
      assert stats[..i + 1][..i] == stats[..i];
      if stats[i].resourceId !in samples {
        samples := samples[stats[i].resourceId := stats[i].avg];
      }
      i := i + 1;
    }
    assert stats[..i] == stats;
  }

  /** The pairs of a map, one per key. */
  ghost predicate PairsOf(items: seq<(string, real)>, samples: map<string, real>)
  {
    && |items| == |samples.Keys|
    && forall p :: p in items <==> p.0 in samples && samples[p.0] == p.1
  }

  /** cache_result.items(): the pairs in Python 2's arbitrary key order. */
  method Items(samples: map<string, real>) returns (items: seq<(string, real)>)
    ensures PairsOf(items, samples)
  {
    var keys := samples.Keys;
    items := [];
    while keys != {}
      invariant keys <= samples.Keys
      invariant |items| + |keys| == |samples.Keys|
      invariant forall p :: p in items <==> p.0 in samples && p.0 !in keys && samples[p.0] == p.1
      decreases |keys|
    {
      var k :| k in keys;
      items := items + [(k, samples[k])];
      keys := keys - {k};
    }
  }

  /** The display name cached for an id; the ActiveKey list is no name (using
      it as a dict key raises TypeError, handled like a missing id). */
  function NameOf(vms: map<string, Entry>, id: string): Option<string>
  {
    if id in vms && vms[id].Name? then Some(vms[id].name) else None
  }

  /** The ranked pairs whose ids have a cached name, renamed, in ranking
      order: the sequence the breaking loop walks through. */
  function Named(ranked: seq<(string, real)>, vms: map<string, Entry>): (r: seq<(string, real)>)
    ensures |r| <= |ranked|
  {
    if ranked == [] then []
    else
      match NameOf(vms, ranked[0].0)
      case Some(n) => [(n, ranked[0].1)] + Named(ranked[1..], vms)
      case None => Named(ranked[1..], vms)
  }

  /** With every ranked id named, Named renames the whole ranking: the same
      sequence the other branch builds. */
  lemma {:induction false} NamedAllNamed(ranked: seq<(string, real)>, vms: map<string, Entry>)
    requires forall i :: 0 <= i < |ranked| ==> NameOf(vms, ranked[i].0).Some?
    ensures Named(ranked, vms) == NameAll(ranked, vms)
  {
    if ranked != [] {
      var tail := ranked[1..];
      assert forall i :: 0 <= i < |tail| ==> tail[i] == ranked[i + 1];
      NamedAllNamed(tail, vms);
      var r := Named(ranked, vms);
      var all := NameAll(ranked, vms);
      var rest := NameAll(tail, vms);
      assert r == [(NameOf(vms, ranked[0].0).value, ranked[0].1)] + rest;
      assert |r| == |all|;
      forall i | 0 <= i < |r|
        ensures r[i] == all[i]
      {
        if i > 0 {
          assert r[i] == rest[i - 1];
        }
      }
    }
  }

  /** The `len(top_vms) > top` branch: walk the ranking, stop once `budget`
      entries are taken, skip ids with no cached name. */
  function TakeNamed(ranked: seq<(string, real)>, budget: int, vms: map<string, Entry>): seq<(string, real)>
  {
    if ranked == [] || budget <= 0 then []
    else
      match NameOf(vms, ranked[0].0)
      case Some(n) => [(n, ranked[0].1)] + TakeNamed(ranked[1..], budget - 1, vms)
      case None => TakeNamed(ranked[1..], budget, vms)
  }

  /** TakeNamed takes at most `budget` entries and no more than are ranked. */
  lemma {:induction false} TakeNamedLength(ranked: seq<(string, real)>, budget: int, vms: map<string, Entry>)
    ensures var r := TakeNamed(ranked, budget, vms);
      && |r| <= |ranked|
      && (budget <= 0 ==> r == [])
      && (budget > 0 ==> |r| <= budget)
  {
    if ranked != [] && budget > 0 {
      TakeNamedLength(ranked[1..], if NameOf(vms, ranked[0].0).Some? then budget - 1 else budget, vms);
    }
  }

  /** When every ranked id has a name, TakeNamed takes exactly `budget`
      entries (up to the ranking's length). */
  lemma {:induction false} TakeNamedFull(ranked: seq<(string, real)>, budget: int, vms: map<string, Entry>)
    requires forall i :: 0 <= i < |ranked| ==> NameOf(vms, ranked[i].0).Some?
    requires 0 <= budget <= |ranked|
    ensures |TakeNamed(ranked, budget, vms)| == budget
  {
    if ranked != [] && budget > 0 {
      var tail := ranked[1..];
      assert forall i :: 0 <= i < |tail| ==> tail[i] == ranked[i + 1];
      TakeNamedFull(tail, budget - 1, vms);
    }
  }

  /** Every entry TakeNamed yields is the cached name and the value of a
      ranked id. */
  lemma {:induction false} TakeNamedFrom(ranked: seq<(string, real)>, budget: int, vms: map<string, Entry>)
    ensures forall e :: e in TakeNamed(ranked, budget, vms) ==>
      exists p :: p in ranked && NameOf(vms, p.0) == Some(e.0) && p.1 == e.1
  {
    if ranked != [] && budget > 0 {
      var tail := ranked[1..];
      var b := if NameOf(vms, ranked[0].0).Some? then budget - 1 else budget;
      TakeNamedFrom(tail, b, vms);
      forall e | e in TakeNamed(tail, b, vms)
        ensures exists p :: p in ranked && NameOf(vms, p.0) == Some(e.0) && p.1 == e.1
      {
        var p :| p in tail && NameOf(vms, p.0) == Some(e.0) && p.1 == e.1;
        assert p in ranked;
      }
    }
  }

  /** TakeNamed keeps the ranking's descending order. */
  lemma {:induction false} TakeNamedSorted(ranked: seq<(string, real)>, budget: int, vms: map<string, Entry>)
    requires Sorted(ranked, Descending)
    ensures Sorted(TakeNamed(ranked, budget, vms), Descending)
  {
    if ranked != [] && budget > 0 {
      var tail := ranked[1..];
      var b := if NameOf(vms, ranked[0].0).Some? then budget - 1 else budget;
      var rest := TakeNamed(tail, b, vms);
      assert Sorted(tail, Descending);
      TakeNamedSorted(tail, b, vms);
      if NameOf(vms, ranked[0].0).Some? {
        TakeNamedFrom(tail, b, vms);
        forall e | e in rest
          ensures ranked[0].1 >= e.1
        {
          var p :| p in tail && NameOf(vms, p.0) == Some(e.0) && p.1 == e.1;
          var k :| 0 <= k < |tail| && tail[k] == p;
          assert ranked[k + 1] == p;
        }
        var r := TakeNamed(ranked, budget, vms);
        forall i, j | 0 <= i < j < |r|
          ensures r[i].1 >= r[j].1
        {
          assert r[j] == rest[j - 1];
          if i == 0 {
            assert r[j] in rest;
          } else {
            assert r[i] == rest[i - 1];
          }
        }
      }
    }
  }

  /** The breaking loop keeps exactly the first `budget` named entries. */
  lemma {:induction false} TakeNamedIsPrefix(ranked: seq<(string, real)>, budget: int, vms: map<string, Entry>)
    ensures TakeNamed(ranked, budget, vms) == Prefix(Named(ranked, vms), if budget > 0 then budget else 0)
  {
    if ranked != [] && budget > 0 {
      var tail := ranked[1..];
      var name := NameOf(vms, ranked[0].0);
      if name.Some? {
        var x := (name.value, ranked[0].1);
        assert TakeNamed(ranked, budget, vms) == [x] + TakeNamed(tail, budget - 1, vms);
        assert Named(ranked, vms) == [x] + Named(tail, vms);
        TakeNamedIsPrefix(tail, budget - 1, vms);
        PrefixCons(x, Named(tail, vms), budget - 1);
      } else {
        assert TakeNamed(ranked, budget, vms) == TakeNamed(tail, budget, vms);
        assert Named(ranked, vms) == Named(tail, vms);
        TakeNamedIsPrefix(tail, budget, vms);
      }
    }
  }

  /** The loop of the `len(top_vms) > top` branch, with its `break`. */
  method PickNamed(ranked: seq<(string, real)>, top: int, vms: map<string, Entry>) returns (result: seq<(string, real)>)
    ensures result == TakeNamed(ranked, top, vms)
  {
    result := [];
    var i := 0;
    while i < |ranked|
      invariant 0 <= i <= |ranked|
      invariant result + TakeNamed(ranked[i..], top - |result|, vms) == TakeNamed(ranked, top, vms)
    {
      if |result| >= top {
        break;
      }
      assert ranked[i..][1..] == ranked[i + 1..];
      var name := NameOf(vms, ranked[i].0);
      if name.Some? {
        result := result + [(name.value, ranked[i].1)];
      }
      i := i + 1;
    }
    assert i == |ranked| ==> ranked[i..] == [];
  }

  /** The other branch: every ranked id is named, or the KeyError makes the
      whole call return []. */
  function NameAll(ranked: seq<(string, real)>, vms: map<string, Entry>): (r: seq<(string, real)>)
    ensures (forall i :: 0 <= i < |ranked| ==> NameOf(vms, ranked[i].0).Some?) ==>
      |r| == |ranked| && forall i :: 0 <= i < |r| ==> Some(r[i].0) == NameOf(vms, ranked[i].0) && r[i].1 == ranked[i].1
    ensures (exists i :: 0 <= i < |ranked| && NameOf(vms, ranked[i].0).None?) ==> r == []
  {
    if forall i :: 0 <= i < |ranked| ==> NameOf(vms, ranked[i].0).Some? then
      seq(|ranked|, i requires 0 <= i < |ranked| => (NameOf(vms, ranked[i].0).value, ranked[i].1))
    else []
  }

  /** The VM top-N answer for a ranking: more candidates than `top` takes the
      first `top` named ones; otherwise all of them, or [] on a missing name. */
  function SelectVms(ranked: seq<(string, real)>, top: int, vms: map<string, Entry>): seq<(string, real)>
  {
    if |ranked| > top then TakeNamed(ranked, top, vms) else NameAll(ranked, vms)
  }

  /** The candidates ordered by average, descending: one pair per resource
      with its first average. */
  ghost predicate RankedBy(ranked: seq<(string, real)>, samples: map<string, real>)
  {
    Sorted(ranked, Descending) && PairsOf(ranked, samples)
  }

  // ---------------------------------------------------------------------
  // The caches
  // ---------------------------------------------------------------------

  /** A snapshot of the three stores. */
  datatype CacheState = CacheState(hosts: map<string, string>, vms: map<string, Entry>, hypervisors: seq<Hypervisor>)

  /** The state `clear(isAll)` leaves: VMS_CACHED and HYPERVISOR_DETAILS
      always emptied, HOST_CACHED only for a full clear. */
  function Cleared(s: CacheState, isAll: bool): (c: CacheState)
    ensures c.vms == map[] && c.hypervisors == []
    ensures c.hosts == if isAll then map[] else s.hosts
  {
    CacheState(if isAll then map[] else s.hosts, map[], [])
  }

  /** Clearing twice is clearing once; a partial clear after a full one changes nothing. */
  lemma ClearIdempotent(s: CacheState, isAll: bool, again: bool)
    ensures Cleared(Cleared(s, isAll), isAll) == Cleared(s, isAll)
    ensures isAll ==> Cleared(Cleared(s, true), again) == Cleared(s, true)
  {
  }

  class Caches {
    var hosts: map<string, string>      // HOST_CACHED
    var vms: map<string, Entry>         // VMS_CACHED
    var hypervisors: seq<Hypervisor>    // HYPERVISOR_DETAILS

    /** A non-empty VMS_CACHED always holds the ActiveKey entry. */
    ghost predicate Valid()
      reads this
    {
      vms != map[] ==> ActiveKey in vms
    }

    function State(): CacheState
      reads this
    {
      CacheState(hosts, vms, hypervisors)
    }

    /** The stores as the module starts: all empty. */
    constructor ()
      ensures Valid()
      ensures hosts == map[] && vms == map[] && hypervisors == []
    {
      hosts, vms, hypervisors := map[], map[], [];
    }

    /** clear(is_all). */
    method Clear(isAll: bool)
      requires Valid()
      modifies this
      ensures Valid()
      ensures State() == Cleared(old(State()), isAll)
    {
      if isAll {
        hosts := map[];
      }
      vms := map[];
      hypervisors := [];
    }

    /** create_vms_total: counts the instances by status and records the names
        of new ACTIVE instances and, when unset, the active id list. */
    method CreateVmsTotal(listing: Option<seq<Instance>>) returns (counts: VmCounts)
      requires Valid()
      modifies this
      ensures Valid()
      ensures hosts == old(hosts) && hypervisors == old(hypervisors)
      ensures listing.None? ==> counts == NoVmCounts && vms == old(vms)
      ensures listing.Some? ==> var xs := listing.value;
        && counts == VmCountsOf(xs)
        && vms == MarkActive(AddActiveNames(old(vms), xs), ActiveIds(xs))
    {
      if listing.None? {
        return NoVmCounts;
      }
      var xs := listing.value;
      var errorCount, offCount, pausedCount := 0, 0, 0;
      var activeVms: seq<string> := [];
      var i := 0;
      while i < |xs|
        invariant 0 <= i <= |xs|
        invariant hosts == old(hosts) && hypervisors == old(hypervisors)
        invariant activeVms == ActiveIds(xs[..i])
        invariant vms == AddActiveNames(old(vms), xs[..i])
        invariant errorCount == CountIn(Statuses(xs[..i]), {Error})
        invariant offCount == CountIn(Statuses(xs[..i]), {Shutoff})
        invariant pausedCount == CountIn(Statuses(xs[..i]), {Suspended})
      {
        ListingStep(old(vms), xs, i);
        StatusCountStep(xs, i, {Error});
        StatusCountStep(xs, i, {Shutoff});
        StatusCountStep(xs, i, {Suspended});
        var x := xs[i];
        if x.status == Active {
          activeVms := activeVms + [x.id];
          if x.id !in vms {
            vms := vms[x.id := Name(x.name)];
          }
        } else if x.status == Error {
          errorCount := errorCount + 1;
        } else if x.status == Shutoff {
          offCount := offCount + 1;
        } else if x.status == Suspended {
          pausedCount := pausedCount + 1;
        }
        i := i + 1;
      }
      assert xs[..i] == xs;
      if !(ActiveKey in vms && Truthy(vms[ActiveKey])) {
        vms := vms[ActiveKey := IdList(activeVms)];
      }
      counts := VmCounts(|xs|, |activeVms|, errorCount, offCount, pausedCount);
    }

    /** The lazy refill of get_vms_top_metric on an empty VMS_CACHED. */
    method RefillFrom(xs: seq<Instance>)
      requires vms == map[]
      modifies this
      ensures vms == Refill(xs)
      ensures hosts == old(hosts) && hypervisors == old(hypervisors)
    {
      var activeVms: seq<string> := [];
      var i := 0;
      while i < |xs|
        invariant 0 <= i <= |xs|
        invariant hosts == old(hosts) && hypervisors == old(hypervisors)
        invariant activeVms == ActiveIds(xs[..i])
        invariant vms == Names(xs[..i])
      {
        assert xs[..i + 1][..i] == xs[..i];
        if xs[i].status == Active {
          activeVms := activeVms + [xs[i].id];
        }
        vms := vms[xs[i].id := Name(xs[i].name)];
        i := i + 1;
      }
      assert xs[..i] == xs;
      vms := vms[ActiveKey := IdList(activeVms)];
    }

    /** get_vms_top_metric with the configured `top`: refill an empty cache
        from `listing`, take the first average per resource from `stats`
        (the metering answer for the cached active ids), rank them by average,
        descending (`ranked`), and name them through the cache. */
    method GetVmsTopMetric(listing: Option<seq<Instance>>, stats: Option<seq<Statistic>>, top: int)
      returns (result: seq<(string, real)>, ghost ranked: seq<(string, real)>)
      requires Valid()
      modifies this
      ensures Valid()
      ensures hosts == old(hosts) && hypervisors == old(hypervisors)
      ensures old(vms) != map[] ==> vms == old(vms)
      ensures old(vms) == map[] ==> vms == if listing.Some? then Refill(listing.value) else old(vms)
      ensures old(vms) == map[] && listing.None? ==> result == []
      ensures stats.None? ==> result == []
      ensures (old(vms) != map[] || listing.Some?) && stats.Some? ==>
        && RankedBy(ranked, FirstSamples(stats.value))
        && result == SelectVms(ranked, top, vms)
    {
      ranked := [];
      if vms == map[] {
        if listing.None? {
          return [], ranked;
        }
        RefillFrom(listing.value);
      }
      assert ActiveKey in vms;  // resources = VMS_CACHED['ACTIVE_VMS'] cannot raise
      if stats.None? {
        return [], ranked;
      }
      var samples := CollectFirstSamples(stats.value);
      var items := Items(samples);
      var topVms := SortBy(items, Descending);
      ranked := topVms;
      assert forall p :: p in topVms <==> p in items by {
        forall p ensures p in topVms <==> p in items {
          assert p in topVms <==> p in multiset(topVms);
          assert p in items <==> p in multiset(items);
        }
      }
      if |topVms| > top {
        result := PickNamed(topVms, top, vms);
      } else {
        result := NameAll(topVms, vms);
      }
    }
  }

  /** The VM top-N answer: with more candidates than `top`, the first `top`
      named candidates in ranking order; otherwise all of them renamed, or []
      when one has no name. Either way it is ordered by average descending,
      and every entry is the cached name and the first average of a ranked
      resource. */
  lemma SelectVmsProperties(ranked: seq<(string, real)>, top: int, vms: map<string, Entry>, samples: map<string, real>)
    requires RankedBy(ranked, samples)
    ensures var r := SelectVms(ranked, top, vms);
      && (|ranked| > top ==> |r| <= (if top > 0 then top else 0))
      && (|ranked| > top ==> r == Prefix(Named(ranked, vms), if top > 0 then top else 0))
      && (|ranked| <= top && (forall i :: 0 <= i < |ranked| ==> NameOf(vms, ranked[i].0).Some?) ==> r == Named(ranked, vms))
      && Sorted(r, Descending)
      && (forall e :: e in r ==> exists id :: id in samples && NameOf(vms, id) == Some(e.0) && samples[id] == e.1)
      && (|ranked| <= top && (exists i :: 0 <= i < |ranked| && NameOf(vms, ranked[i].0).None?) ==> r == [])
  {
    TakeNamedLength(ranked, top, vms);
    TakeNamedFrom(ranked, top, vms);
    TakeNamedSorted(ranked, top, vms);
    TakeNamedIsPrefix(ranked, top, vms);
    var r := SelectVms(ranked, top, vms);
    if |ranked| > top {
      forall e | e in r
        ensures exists id :: id in samples && NameOf(vms, id) == Some(e.0) && samples[id] == e.1
      {
        var p :| p in ranked && NameOf(vms, p.0) == Some(e.0) && p.1 == e.1;
        assert p.0 in samples;
      }
    } else if forall i :: 0 <= i < |ranked| ==> NameOf(vms, ranked[i].0).Some? {
      NamedAllNamed(ranked, vms);
      forall e | e in r
        ensures exists id :: id in samples && NameOf(vms, id) == Some(e.0) && samples[id] == e.1
      {
        var i :| 0 <= i < |r| && r[i] == e;
        assert ranked[i] in ranked;
      }
      forall i, j | 0 <= i < j < |r|
        ensures r[i].1 >= r[j].1
      {
      }
    }
  }
}
