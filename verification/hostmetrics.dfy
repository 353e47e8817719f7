/** The physical-host metrics of ZabbixController: the validity gate on items,
    create_memory_usage, _get_item_values and the host top-N rankings
    (create_hosts_top_memory_usage, create_hosts_top_cpu_util).
    JSON-RPC calls are inputs: an item listing that raises or has no "result"
    is `None`; history.get is a map from item id to its latest point. */
module HostMetrics {
  import opened Wrappers
  import opened Ranking
  import opened Summaries

  /** An item as item.get reports it, with lastvalue and prevvalue parsed as numbers. */
  datatype Item = Item(itemid: string, hostid: string, lastvalue: real, prevvalue: real)

  /** The validity gate: both the latest and the previous value are positive. */
  predicate Fresh(item: Item)
  {
    item.lastvalue > 0.0 && item.prevvalue > 0.0
  }

  /** history.get answers by item id: an id that is not a key returned no row
      (indexing row 0 raises); `None` is a row without "value" (the default 0 is used). */
  type History<V> = map<string, Option<V>>

  // ---------------------------------------------------------------------
  // create_memory_usage
  // ---------------------------------------------------------------------

  /** The ids of the items that pass the gate, in listing order. */
  function GatedIds(items: seq<Item>): (ids: seq<string>)
    ensures |ids| <= |items|
    ensures forall id :: id in ids <==> exists i :: 0 <= i < |items| && Fresh(items[i]) && items[i].itemid == id
  {
    if items == [] then []
    else
      var n := |items| - 1;
      var init := GatedIds(items[..n]);
      assert forall i :: 0 <= i < n ==> items[..n][i] == items[i];
      if Fresh(items[n]) then init + [items[n].itemid] else init
  }

  lemma {:induction false} GatedIdsAppend(a: seq<Item>, b: seq<Item>)
    ensures GatedIds(a + b) == GatedIds(a) + GatedIds(b)
  {
    if b == [] {
      assert a + b == a;
    } else {
      var n := |b| - 1;
      assert (a + b)[..|a + b| - 1] == a + b[..n];
      GatedIdsAppend(a, b[..n]);
    }
  }

  /** The sum of the history values of `ids`; `None` when some id has no row. */
  function HistorySum(ids: seq<string>, history: History<int>): (r: Option<int>)
    ensures r.Some? <==> forall i :: 0 <= i < |ids| ==> ids[i] in history
  {
    if ids == [] then Some(0)
    else
      var n := |ids| - 1;
      assert forall i :: 0 <= i < n ==> ids[..n][i] == ids[i];
      match HistorySum(ids[..n], history)
      case None => None
      case Some(s) => if ids[n] in history then Some(s + history[ids[n]].GetOr(0)) else None
  }

  /** The nested _get of create_memory_usage: gate the items, then add up
      one history point per gated item. */
  method SumGatedHistory(items: seq<Item>, history: History<int>) returns (total: Option<int>)
    ensures total == HistorySum(GatedIds(items), history)
  {
    var ids: seq<string> := [];
    var i := 0;
    while i < |items|
      invariant 0 <= i <= |items|
      invariant ids == GatedIds(items[..i])
    {
      assert items[..i + 1][..i] == items[..i];
      if items[i].lastvalue > 0.0 && items[i].prevvalue > 0.0 {
        ids := ids + [items[i].itemid];
      }
      i := i + 1;
    }
    assert items[..i] == items;
    var sum := 0;
    var j := 0;
    while j < |ids|
      invariant 0 <= j <= |ids|
      invariant HistorySum(ids[..j], history) == Some(sum)
    {
      assert ids[..j + 1][..j] == ids[..j];
      if ids[j] !in history {
        return None;
      }
      sum := sum + history[ids[j]].GetOr(0);
      j := j + 1;
    }
    assert ids[..j] == ids;
    return Some(sum);
  }

  /** The gated sum over a listing; `None` when the listing or a history point failed. */
  ghost function GatedTotal(items: Option<seq<Item>>, history: History<int>): Option<int>
  {
    if items.None? then None else HistorySum(GatedIds(items.value), history)
  }

  /** An item that fails the gate never changes the sums, wherever it stands. */
  lemma InvalidItemIgnored(xs: seq<Item>, x: Item, ys: seq<Item>, history: History<int>)
    requires !Fresh(x)
    ensures GatedTotal(Some(xs + [x] + ys), history) == GatedTotal(Some(xs + ys), history)
  {
    GatedIdsAppend(xs, [x]);
    GatedIdsAppend(xs + [x], ys);
    GatedIdsAppend(xs, ys);
    assert GatedIds([x]) == [];
    assert GatedIds(xs + [x]) == GatedIds(xs);
  }

  datatype MemoryUsage = MemoryUsage(available: int, total: int, usedRatio: real)

  /** The fallback of the `except` branch. */
  const NoMemoryUsage := MemoryUsage(0, 0, 0.0)

  /** create_memory_usage over the "available" and "total" item listings:
      both gated sums with the used ratio (total - available) / total, or the
      zero fallback when a call fails or the total is 0 (ZeroDivisionError). */
  method CreateMemoryUsage(availableItems: Option<seq<Item>>, totalItems: Option<seq<Item>>, history: History<int>)
    returns (u: MemoryUsage)
    ensures var a, t := GatedTotal(availableItems, history), GatedTotal(totalItems, history);
      if a.Some? && t.Some? && t.value != 0 then u.available == a.value && u.total == t.value
      else u == NoMemoryUsage
    ensures u.total != 0 ==> u.usedRatio * u.total as real == (u.total - u.available) as real
    ensures u.total == 0 ==> u == NoMemoryUsage
  {
    if availableItems.None? {
      return NoMemoryUsage;
    }
    var available := SumGatedHistory(availableItems.value, history);
    if available.None? || totalItems.None? {
      return NoMemoryUsage;
    }
    var total := SumGatedHistory(totalItems.value, history);
    if total.None? || total.value == 0 {
      return NoMemoryUsage;
    }
    var ratio := (total.value - available.value) as real / total.value as real;
    u := MemoryUsage(available.value, total.value, ratio);
  }

  // ---------------------------------------------------------------------
  // _get_item_values
  // ---------------------------------------------------------------------

  /** items_map: every gated item id mapped to its host; a later gated item
      with the same id overwrites the host. */
  function ItemHosts(items: seq<Item>): map<string, string>
  {
    if items == [] then map[]
    else
      var n := |items| - 1;
      var init := ItemHosts(items[..n]);
      if Fresh(items[n]) then init[items[n].itemid := items[n].hostid] else init
  }

  /** items_map has exactly the ids of the gated items as keys. */
  lemma {:induction false} ItemHostsKeys(items: seq<Item>)
    ensures forall k :: k in ItemHosts(items) <==> exists i :: 0 <= i < |items| && Fresh(items[i]) && items[i].itemid == k
  {
    if items != [] {
      var n := |items| - 1;
      ItemHostsKeys(items[..n]);
      assert forall i :: 0 <= i < n ==> items[..n][i] == items[i];
    }
  }

  /** The host recorded for an id is that of the last gated item with the id. */
  lemma {:induction false} ItemHostsLastWins(items: seq<Item>, i: int)
    requires 0 <= i < |items| && Fresh(items[i])
    requires forall j :: i < j < |items| && Fresh(items[j]) ==> items[j].itemid != items[i].itemid
    ensures items[i].itemid in ItemHosts(items) && ItemHosts(items)[items[i].itemid] == items[i].hostid
  {
    var n := |items| - 1;
    if i < n {
      ItemHostsLastWins(items[..n], i);
    }
  }

  /** The first loop of _get_item_values, building items_map. */
  method BuildItemsMap(items: seq<Item>) returns (m: map<string, string>)
    ensures m == ItemHosts(items)
  {
    m := map[];
    var i := 0;
    while i < |items|
      invariant 0 <= i <= |items|
      invariant m == ItemHosts(items[..i])
    {
      assert items[..i + 1][..i] == items[..i];
      if items[i].lastvalue > 0.0 && items[i].prevvalue > 0.0 {
        m := m[items[i].itemid := items[i].hostid];
      }
      i := i + 1;
    }
    assert items[..i] == items;
  }

  /** _get_item_values: the (host, latest value) pairs of the gated items, one
      per distinct item id, in the arbitrary order Python 2 iterates a dict's
      keys (`order`); `None` when some history call fails. */
  method ItemValues(items: seq<Item>, history: History<real>)
    returns (pairs: Option<seq<(string, real)>>, ghost order: seq<string>)
    ensures pairs.Some? <==> ItemHosts(items).Keys <= history.Keys
    ensures pairs.Some? ==> var m := ItemHosts(items);
      && |order| == |pairs.value| == |m.Keys|
      && (forall i, j :: 0 <= i < j < |order| ==> order[i] != order[j])
      && (forall k :: k in order <==> k in m)
      && (forall i :: 0 <= i < |order| ==> pairs.value[i] == (m[order[i]], history[order[i]].GetOr(0.0)))
  {
    var m := BuildItemsMap(items);
    var keys := m.Keys;
    var acc: seq<(string, real)> := [];
    order := [];
    while keys != {}
      invariant keys <= m.Keys
      invariant |order| == |acc| && |order| + |keys| == |m.Keys|
      invariant forall k :: k in order <==> k in m.Keys - keys
      invariant forall i, j :: 0 <= i < j < |order| ==> order[i] != order[j]
      invariant forall i :: 0 <= i < |order| ==> order[i] in m && order[i] in history
      invariant forall i :: 0 <= i < |order| ==> acc[i] == (m[order[i]], history[order[i]].GetOr(0.0))
      decreases |keys|
    {
      var k :| k in keys;
      if k !in history {
        return None, order;
      }
      assert k !in order;
      acc := acc + [(m[k], history[k].GetOr(0.0))];
      order := order + [k];
      keys := keys - {k};
    }
    assert forall k :: k in m ==> k in order;
    pairs := Some(acc);
  }

  // ---------------------------------------------------------------------
  // create_hosts_top_memory_usage / create_hosts_top_cpu_util
  // ---------------------------------------------------------------------

  /** The selection step: the pairs sorted ascending by raw value (the least
      available memory or idle CPU first), cut to `top` only when there are
      more than `top` of them. */
  function SelectTop(candidates: seq<(string, real)>, top: int): seq<(string, real)>
  {
    var sorted := SortBy(candidates, Ascending);
    if |candidates| > top then Prefix(sorted, top) else sorted
  }

  /** The kept pairs are the smallest: a prefix of the sorted candidates, every
      kept value at most every dropped one; exactly `top` of them when there
      are more, all of them otherwise. */
  lemma SelectTopKeepsSmallest(candidates: seq<(string, real)>, top: int)
    ensures var sorted, kept := SortBy(candidates, Ascending), SelectTop(candidates, top);
      && kept <= sorted
      && Sorted(kept, Ascending)
      && multiset(kept) + multiset(sorted[|kept|..]) == multiset(candidates)
      && (forall a, b :: a in kept && b in sorted[|kept|..] ==> a.1 <= b.1)
      && (0 <= top < |candidates| ==> |kept| == top)
      && (|candidates| <= top ==> multiset(kept) == multiset(candidates))
  {
    var sorted, kept := SortBy(candidates, Ascending), SelectTop(candidates, top);
    assert sorted == kept + sorted[|kept|..];
    KeptBeforeDropped(sorted, |kept|, Ascending);
  }

  /** hostid_value_map: each kept host mapped to its used percentage
      100 - raw; a later pair for the same host overwrites an earlier one. */
  function UsageByHost(kept: seq<(string, real)>): map<string, real>
  {
    if kept == [] then map[]
    else UsageByHost(kept[..|kept| - 1])[kept[|kept| - 1].0 := 100.0 - kept[|kept| - 1].1]
  }

  /** Pair `i` is the last kept pair for its host. */
  ghost predicate LastFor(kept: seq<(string, real)>, i: int)
    requires 0 <= i < |kept|
  {
    forall j :: i < j < |kept| ==> kept[j].0 != kept[i].0
  }

  /** The kept pair that set the value of a mapped host: the last kept pair
      for that host. */
  lemma {:induction false} UsageWitness(kept: seq<(string, real)>, h: string) returns (k: int)
    requires h in UsageByHost(kept)
    ensures 0 <= k < |kept| && kept[k].0 == h && LastFor(kept, k)
    ensures UsageByHost(kept)[h] == 100.0 - kept[k].1
  {
    var n := |kept| - 1;
    var prefix := kept[..n];
    assert UsageByHost(kept) == UsageByHost(prefix)[kept[n].0 := 100.0 - kept[n].1];
    if h == kept[n].0 {
      k := n;
    } else {
      k := UsageWitness(prefix, h);
      assert forall j :: 0 <= j < n ==> kept[j] == prefix[j];
    }
  }

  /** The map has a key per kept host, each mapped to 100 - raw of the last
      kept pair for that host. */
  lemma {:induction false} UsageByHostFrom(kept: seq<(string, real)>)
    ensures var m := UsageByHost(kept);
      && (forall h :: h in m <==> exists i :: 0 <= i < |kept| && kept[i].0 == h)
      && (forall h :: h in m ==> exists i :: 0 <= i < |kept| && kept[i].0 == h && LastFor(kept, i) && m[h] == 100.0 - kept[i].1)
  {
    if kept != [] {
      var n := |kept| - 1;
      var prefix := kept[..n];
      UsageByHostFrom(prefix);
      assert UsageByHost(kept) == UsageByHost(prefix)[kept[n].0 := 100.0 - kept[n].1];
      forall i | 0 <= i < n
        ensures kept[i].0 in UsageByHost(kept)
      {
        assert prefix[i] == kept[i];
      }
    }
    forall h | h in UsageByHost(kept)
      ensures exists i :: 0 <= i < |kept| && kept[i].0 == h && LastFor(kept, i) && UsageByHost(kept)[h] == 100.0 - kept[i].1
    {
      var k := UsageWitness(kept, h);
    }
  }

  /** The last kept pair for a host sets its value. */
  lemma {:induction false} UsageByHostLastWins(kept: seq<(string, real)>, i: int)
    requires 0 <= i < |kept| && LastFor(kept, i)
    ensures kept[i].0 in UsageByHost(kept) && UsageByHost(kept)[kept[i].0] == 100.0 - kept[i].1
  {
    var n := |kept| - 1;
    if i < n {
      var prefix := kept[..n];
      assert prefix[i] == kept[i];
      assert LastFor(prefix, i);
      UsageByHostLastWins(prefix, i);
    }
  }

  /** One {name: used} entry per host the lookup returned. */
  function Render(hosts: seq<Host>, usage: map<string, real>): (r: seq<(string, real)>)
    requires forall i :: 0 <= i < |hosts| ==> hosts[i].hostid in usage
    ensures |r| == |hosts|
  {
    seq(|hosts|, i requires 0 <= i < |hosts| => (hosts[i].name, usage[hosts[i].hostid]))
  }

  /** Whether every host the lookup returned is one of the kept hosts (a host
      outside them raises KeyError). */
  predicate AllKept(hosts: seq<Host>, usage: map<string, real>)
  {
    forall i :: 0 <= i < |hosts| ==> hosts[i].hostid in usage
  }

  /** Entry `j` of the rendering names host `j` of the lookup and carries
      100 - raw of the last kept pair for that host. */
  ghost predicate RenderedEntries(kept: seq<(string, real)>, hosts: seq<Host>, rendered: seq<(string, real)>)
  {
    |rendered| == |hosts| &&
    forall j :: 0 <= j < |hosts| ==> RenderedAt(kept, hosts[j], rendered[j])
  }

  /** `entry` names `host` and carries 100 - raw of the last kept pair for it. */
  ghost predicate RenderedAt(kept: seq<(string, real)>, host: Host, entry: (string, real))
  {
    exists k :: 0 <= k < |kept| && kept[k].0 == host.hostid && LastFor(kept, k)
      && entry == (host.name, 100.0 - kept[k].1)
  }

  /** What the ranking half of a host top-N query returns for the candidate
      pairs: with a lookup that returned only kept hosts, an ascending
      permutation of the rendering, one {name: used} entry per returned host;
      [] when the lookup failed or returned a host outside the kept ones. */
  ghost predicate RankedHosts(candidates: seq<(string, real)>, top: int, hosts: Option<seq<Host>>, result: seq<(string, real)>)
  {
    var kept := SelectTop(candidates, top);
    var usage := UsageByHost(kept);
    if hosts.Some? && AllKept(hosts.value, usage) then
      var rendered := Render(hosts.value, usage);
      && result == SortBy(rendered, Ascending)
      && |result| == |hosts.value|
      && Sorted(result, Ascending)
      && multiset(result) == multiset(rendered)
      && RenderedEntries(kept, hosts.value, rendered)
    else result == []
  }

  /** Each rendered entry is the host's name with the used percentage of the
      last kept pair for that host. */
  lemma RenderedFromKept(kept: seq<(string, real)>, hosts: seq<Host>)
    requires AllKept(hosts, UsageByHost(kept))
    ensures RenderedEntries(kept, hosts, Render(hosts, UsageByHost(kept)))
  {
    var usage := UsageByHost(kept);
    var rendered := Render(hosts, usage);
    forall j | 0 <= j < |hosts|
      ensures RenderedAt(kept, hosts[j], rendered[j])
    {
      var k := UsageWitness(kept, hosts[j].hostid);
      assert rendered[j] == (hosts[j].name, 100.0 - kept[k].1);
    }
    assert |rendered| == |hosts|;
  }

  /** The loop of a host top-N query that fills hostid_value_map. */
  method BuildUsageMap(kept: seq<(string, real)>) returns (usage: map<string, real>)
    ensures usage == UsageByHost(kept)
  {
    usage := map[];
    var i := 0;
    while i < |kept|
      invariant 0 <= i <= |kept|
      invariant usage == UsageByHost(kept[..i])
    {
      assert kept[..i + 1][..i] == kept[..i];
      usage := usage[kept[i].0 := 100.0 - kept[i].1];
      i := i + 1;
    }
    assert kept[..i] == kept;
  }

  /** The part of the host top-N query after _get_item_values: select, map to
      used percentages, look the hosts up and sort the rendered entries. */
  method RankHosts(candidates: seq<(string, real)>, top: int, hosts: Option<seq<Host>>)
    returns (result: seq<(string, real)>)
    ensures RankedHosts(candidates, top, hosts, result)
  {
    var sorted := SortBy(candidates, Ascending);
    var kept := if |candidates| > top then Prefix(sorted, top) else sorted;
    var usage := BuildUsageMap(kept);
    if hosts.None? || !AllKept(hosts.value, usage) {
      return [];
    }
    result := SortBy(Render(hosts.value, usage), Ascending);
    RenderedFromKept(kept, hosts.value);
  }

  /** The host top-N query (create_hosts_top_memory_usage and
      create_hosts_top_cpu_util). `items` is the item listing, `history` the
      history points, `hosts` what host.get returns for the kept host ids;
      `candidates` are the pairs _get_item_values produced. */
  method CreateHostsTopUsage(items: Option<seq<Item>>, history: History<real>, top: int, hosts: Option<seq<Host>>)
    returns (result: seq<(string, real)>, ghost candidates: seq<(string, real)>, ghost order: seq<string>)
    ensures items.None? || !(ItemHosts(items.value).Keys <= history.Keys) ==> result == []
    ensures items.Some? && ItemHosts(items.value).Keys <= history.Keys ==> var m := ItemHosts(items.value);
      && |order| == |candidates| == |m.Keys|
      && (forall i, j :: 0 <= i < j < |order| ==> order[i] != order[j])
      && (forall k :: k in order <==> k in m)
      && (forall i :: 0 <= i < |order| ==> candidates[i] == (m[order[i]], history[order[i]].GetOr(0.0)))
      && RankedHosts(candidates, top, hosts, result)
  {
    candidates, order := [], [];
    if items.None? {
      return [], candidates, order;
    }
    var pairs;
    pairs, order := ItemValues(items.value, history);
    if pairs.None? {
      return [], candidates, order;
    }
    candidates := pairs.value;
    result := RankHosts(pairs.value, top, hosts);
  }
}
