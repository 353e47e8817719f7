/** The three summary counters of ZabbixController: hosts (create_host_total),
    instances (the counting half of create_vms_total) and alarms
    (create_alarms_total). A collaborator listing that raises is modelled as
    `None`; the counters then report zeros. */
module Summaries {
  import opened Wrappers
  import opened Counting

  // ---------------------------------------------------------------------
  // Hosts
  // ---------------------------------------------------------------------

  /** A host as host.get reports it: its id, its display name ("host"), its
      status code and its error text (empty when there is none). */
  datatype Host = Host(hostid: string, name: string, status: string, error: string)

  /** A host counts as active when its status is the literal "0" and its
      error text is empty (falsy). */
  predicate IsActiveHost(h: Host)
  {
    h.status == "0" && h.error == ""
  }

  function CountActiveHosts(hosts: seq<Host>): (n: nat)
    ensures n <= |hosts|
  {
    if hosts == [] then 0
    else CountActiveHosts(hosts[..|hosts| - 1]) + (if IsActiveHost(hosts[|hosts| - 1]) then 1 else 0)
  }

  /** The positions of the active hosts: an independent definition of the count. */
  ghost function ActivePositions(hosts: seq<Host>): set<int>
  {
    set i | 0 <= i < |hosts| && IsActiveHost(hosts[i])
  }

  /** The number of active hosts is the number of positions holding one. */
  lemma {:induction false} CountActiveHostsIsPositions(hosts: seq<Host>)
    ensures CountActiveHosts(hosts) == |ActivePositions(hosts)|
  {
    if hosts != [] {
      var n := |hosts| - 1;
      var init := hosts[..n];
      CountActiveHostsIsPositions(init);
      assert forall i :: 0 <= i < n ==> init[i] == hosts[i];
      if IsActiveHost(hosts[n]) {
        assert ActivePositions(hosts) == ActivePositions(init) + {n};
      } else {
        assert ActivePositions(hosts) == ActivePositions(init);
      }
    }
  }

  /** What the host.get call produced. */
  datatype HostListing =
    | HostsRaised                  // the call raised
    | HostsErrorReply              // the reply holds an "error" member
    | HostList(hosts: seq<Host>)   // the reply's "result"

  datatype HostTotals = HostTotals(total: int, active: int, off: int)

  /** create_host_total: totals of a successful listing, zeros otherwise. */
  method CreateHostTotal(listing: HostListing) returns (r: HostTotals)
    ensures listing.HostList? ==> r.total == |listing.hosts| && r.active == CountActiveHosts(listing.hosts)
    ensures !listing.HostList? ==> r == HostTotals(0, 0, 0)
    ensures 0 <= r.active <= r.total && r.active + r.off == r.total
  {
    if !listing.HostList? {
      return HostTotals(0, 0, 0);
    }
    var hosts := listing.hosts;
    var total := |hosts|;
    var active := 0;
    var i := 0;
    while i < |hosts|
      invariant 0 <= i <= |hosts|
      invariant active == CountActiveHosts(hosts[..i])
    {
      assert hosts[..i + 1][..i] == hosts[..i];
      if hosts[i].status == "0" && hosts[i].error == "" {
        active := active + 1;
      }
      i := i + 1;
    }
    assert hosts[..i] == hosts;
    r := HostTotals(total, active, total - active);
  }

  // ---------------------------------------------------------------------
  // Instances
  // ---------------------------------------------------------------------

  /** A nova server as the listing returns it. */
  datatype Instance = Instance(id: string, name: string, status: string)

  const Active := "ACTIVE"
  const Error := "ERROR"
  const Shutoff := "SHUTOFF"
  const Suspended := "SUSPENDED"

  /** The labels create_vms_total has a bucket for. */
  const VmLabels: set<string> := {Active, Error, Shutoff, Suspended}

  function Statuses(xs: seq<Instance>): (labels: seq<string>)
    ensures |labels| == |xs| && forall i :: 0 <= i < |xs| ==> labels[i] == xs[i].status
  {
    seq(|xs|, i requires 0 <= i < |xs| => xs[i].status)
  }

  /** The ids of the ACTIVE instances, in listing order; one per ACTIVE instance. */
  function ActiveIds(xs: seq<Instance>): (ids: seq<string>)
    ensures |ids| == CountIn(Statuses(xs), {Active})
    ensures forall id :: id in ids <==> exists i :: 0 <= i < |xs| && xs[i].status == Active && xs[i].id == id
  {
    if xs == [] then []
    else
      var n := |xs| - 1;
      assert Statuses(xs)[..n] == Statuses(xs[..n]);
      var init := ActiveIds(xs[..n]);
      assert forall i :: 0 <= i < n ==> xs[..n][i] == xs[i];
      if xs[n].status == Active then init + [xs[n].id] else init
  }

  datatype VmCounts = VmCounts(total: int, active: int, error: int, off: int, paused: int)

  const NoVmCounts := VmCounts(0, 0, 0, 0, 0)

  /** The buckets of create_vms_total for a listing: each status label counted
      on its own; a status with no bucket counts toward the total only. */
  function VmCountsOf(xs: seq<Instance>): (c: VmCounts)
    ensures c.total == |xs|
    ensures c.active == CountIn(Statuses(xs), {Active}) && c.error == CountIn(Statuses(xs), {Error})
    ensures c.off == CountIn(Statuses(xs), {Shutoff}) && c.paused == CountIn(Statuses(xs), {Suspended})
    ensures 0 <= c.active + c.error + c.off + c.paused <= c.total
    ensures c.active + c.error + c.off + c.paused == c.total <==> forall i :: 0 <= i < |xs| ==> xs[i].status in VmLabels
  {
    var s := Statuses(xs);
    CountInDisjoint(s, {Active}, {Error});
    assert {Active} + {Error} == {Active, Error};
    CountInDisjoint(s, {Active, Error}, {Shutoff});
    assert {Active, Error} + {Shutoff} == {Active, Error, Shutoff};
    CountInDisjoint(s, {Active, Error, Shutoff}, {Suspended});
    assert {Active, Error, Shutoff} + {Suspended} == VmLabels;
    CountInFull(s, VmLabels);
    VmCounts(|xs|, CountIn(s, {Active}), CountIn(s, {Error}), CountIn(s, {Shutoff}), CountIn(s, {Suspended}))
  }

  /** An instance in a state with no bucket changes only the total. */
  lemma UnlistedStatusCountsOnlyTotal(xs: seq<Instance>, x: Instance)
    requires x.status !in VmLabels
    ensures VmCountsOf(xs + [x]) == VmCountsOf(xs).(total := |xs| + 1)
  {
    var s := Statuses(xs);
    assert Statuses(xs + [x]) == s + [x.status];
    UnwantedAddsNothing(s, x.status, {Active});
    UnwantedAddsNothing(s, x.status, {Error});
    UnwantedAddsNothing(s, x.status, {Shutoff});
    UnwantedAddsNothing(s, x.status, {Suspended});
  }

  // ---------------------------------------------------------------------
  // Alarms
  // ---------------------------------------------------------------------

  /** A ceilometer alarm; only its state is read. */
  datatype Alarm = Alarm(state: string)

  const NoData := "insufficient data"
  const Alarming := "alarm"
  const Ok := "ok"

  const AlarmLabels: set<string> := {NoData, Alarming, Ok}

  function States(alarms: seq<Alarm>): (labels: seq<string>)
    ensures |labels| == |alarms| && forall i :: 0 <= i < |alarms| ==> labels[i] == alarms[i].state
  {
    seq(|alarms|, i requires 0 <= i < |alarms| => alarms[i].state)
  }

  datatype AlarmTotals = AlarmTotals(total: int, noData: int, alarm: int, ok: int)

  /** create_alarms_total: each state counted in its bucket; a state with no
      bucket counts toward the total only; a listing that raises gives zeros. */
  method CreateAlarmsTotal(listing: Option<seq<Alarm>>) returns (r: AlarmTotals)
    ensures listing.None? ==> r == AlarmTotals(0, 0, 0, 0)
    ensures listing.Some? ==> var s := States(listing.value);
      && r.total == |listing.value|
      && r.noData == CountIn(s, {NoData}) && r.alarm == CountIn(s, {Alarming}) && r.ok == CountIn(s, {Ok})
    ensures 0 <= r.noData + r.alarm + r.ok <= r.total
    ensures listing.Some? ==>
      (r.noData + r.alarm + r.ok == r.total <==> forall i :: 0 <= i < |listing.value| ==> listing.value[i].state in AlarmLabels)
  {
    if listing.None? {
      return AlarmTotals(0, 0, 0, 0);
    }
    var alarms := listing.value;
    var okCount, alarmCount, noDataCount := 0, 0, 0;
    var i := 0;
    while i < |alarms|
      invariant 0 <= i <= |alarms|
      invariant noDataCount == CountIn(States(alarms[..i]), {NoData})
      invariant alarmCount == CountIn(States(alarms[..i]), {Alarming})
      invariant okCount == CountIn(States(alarms[..i]), {Ok})
    {
      assert States(alarms[..i + 1])[..i] == States(alarms[..i]);
      if alarms[i].state == NoData {
        noDataCount := noDataCount + 1;
      } else if alarms[i].state == Alarming {
        alarmCount := alarmCount + 1;
      } else if alarms[i].state == Ok {
        okCount := okCount + 1;
      }
      i := i + 1;
    }
    assert alarms[..i] == alarms;
    var s := States(alarms);
    CountInDisjoint(s, {NoData}, {Alarming});
    assert {NoData} + {Alarming} == {NoData, Alarming};
    CountInDisjoint(s, {NoData, Alarming}, {Ok});
    assert {NoData, Alarming} + {Ok} == AlarmLabels;
    CountInFull(s, AlarmLabels);
    r := AlarmTotals(|alarms|, noDataCount, alarmCount, okCount);
  }
}
