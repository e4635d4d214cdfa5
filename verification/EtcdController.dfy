/** The etcd controller: its loops, proved against the tally and the monitor repair (etcdController.go). */
module EtcdController {
  import opened Wrappers
  import opened Net
  import opened LoadbalancerLists
  import opened Tally
  import Monitors

  /** A call that reached the store, and what became of it. */
  datatype Access =
    | GetReport(agent: string, failed: bool)
    | GetMonitors(failed: bool)
    | SetMonitors(value: string, ok: bool, applied: bool)

  /** What is held for an agent. */
  function Held(reports: map<string, Report>, agent: string): Report {
    if agent in reports then reports[agent] else Missing
  }

  /** What a sync reads when the Gets of the agents numbered in `failed` fail: nothing for those, and what
      is held for every other. */
  function Read(reports: map<string, Report>, agents: seq<string>, failed: set<nat>): (rs: seq<Report>)
    ensures |rs| == |agents|
    ensures forall i :: 0 <= i < |agents| ==> rs[i] == if i in failed then Missing else Held(reports, agents[i])
  {
    seq(|agents|, i requires 0 <= i < |agents| => if i in failed then Missing else Held(reports, agents[i]))
  }

  /** One Get for each agent, in order. */
  function Gets(agents: seq<string>, failed: set<nat>): seq<Access> {
    seq(|agents|, i requires 0 <= i < |agents| => Access.GetReport(agents[i], i in failed))
  }

  lemma ReadNext(reports: map<string, Report>, agents: seq<string>, failed: set<nat>, i: nat, fails: bool)
    requires i < |agents| && forall k :: k in failed ==> k < i
    ensures var failed' := if fails then failed + {i} else failed;
            var report := if fails then Missing else Held(reports, agents[i]);
            && Read(reports, agents[..i + 1], failed') == Read(reports, agents[..i], failed) + [report]
            && Read(reports, agents[..i + 1], failed')[..i] == Read(reports, agents[..i], failed)
            && Gets(agents[..i + 1], failed') == Gets(agents[..i], failed) + [Access.GetReport(agents[i], fails)]
  {
  }

  /** If no Get failed, what was read is exactly what is held. */
  lemma NothingFailed(reports: map<string, Report>, agents: seq<string>, failed: set<nat>)
    requires forall agent :: Access.GetReport(agent, true) !in Gets(agents, failed)
    ensures Read(reports, agents, failed) == Read(reports, agents, {})
  {
    forall i | 0 <= i < |agents| ensures i !in failed {
      assert Gets(agents, failed)[i] == Access.GetReport(agents[i], i in failed);
    }
  }

  /** An etcd whose calls may fail; JSON decoding is done on the way out. It records every call. */
  class Store {
    var reports: map<string, Report>
    var monitors: Option<string>
    ghost var log: seq<Access>

    constructor ()
      ensures reports == map[] && monitors == None && log == []
    {
      reports := map[];
      monitors := None;
      log := [];
    }

    method GetReport(agent: string) returns (r: Report, ghost failed: bool)
      modifies this`log
      ensures r == if failed then Missing else Held(reports, agent)
      ensures log == old(log) + [Access.GetReport(agent, failed)]
    {
      var down: bool := *;
      failed := down;
      log := log + [Access.GetReport(agent, failed)];
      if down || agent !in reports {
        return Missing, failed;
      }
      return reports[agent], failed;
    }

    method GetMonitors() returns (r: Option<string>, ghost failed: bool)
      modifies this`log
      ensures r == if failed then None else monitors
      ensures log == old(log) + [Access.GetMonitors(failed)]
    {
      var down: bool := *;
      failed := down;
      log := log + [Access.GetMonitors(failed)];
      r := if down then None else monitors;
    }

    /** A failing Set may still take effect. */
    method SetMonitors(value: string) returns (ok: bool, ghost applied: bool)
      modifies this`monitors, this`log
      ensures monitors == if applied then Some(value) else old(monitors)
      ensures ok ==> applied
      ensures log == old(log) + [Access.SetMonitors(value, ok, applied)]
    {
      var reached: bool := *;
      var answered: bool := *;
      applied := reached;
      if reached {
        monitors := Some(value);
      }
      ok := reached && answered;
      log := log + [Access.SetMonitors(value, ok, applied)];
    }
  }

  class ETCDController {
    const agents: seq<string>
    const wanted: seq<Loadbalancer>
    const etcd: Store
    const digest: Digest
    const marshal: Monitors.Marshal
    var current: seq<Loadbalancer>
    var lastMonitorHash: uint64

    constructor (agents: seq<string>, etcd: Store, wanted: seq<Loadbalancer>, digest: Digest, marshal: Monitors.Marshal)
      ensures this.agents == agents && this.wanted == wanted && this.etcd == etcd
      ensures this.digest == digest && this.marshal == marshal
      ensures current == [] && lastMonitorHash == 0
    {
      this.agents := agents;
      this.wanted := wanted;
      this.etcd := etcd;
      this.digest := digest;
      this.marshal := marshal;
      current := [];
      lastMonitorHash := 0;
    }

    /** One Get, whose report counts if it is fresh. */
    method GetStatusFromAgent(agent: string, now: int)
      returns (r: Result<seq<Status>>, ghost report: Report, ghost failed: bool)
      modifies etcd`log
      ensures etcd.log == old(etcd.log) + [Access.GetReport(agent, failed)]
      ensures report == if failed then Missing else Held(etcd.reports, agent)
      ensures r == if Fresh(report, now) then Ok(report.statuses) else Err
    {
      var val;
      val, failed := etcd.GetReport(agent);
      report := val;
      if !val.Parsed? {
        return Err, report, failed;
      }
      var since := Since(now, val.time);
      if since > MAX_STATUS_AGE {
        return Err, report, failed;
      }
      return Ok(val.statuses), report, failed;
    }

    /** Every agent is asked once, in order, and the string-keyed count publishes what the vote per address
        and port publishes on all the reports that etcd holds, save those whose Get failed. */
    method SyncStatus(now: int) returns (update: LoadbalancerList, ghost failed: set<nat>)
      modifies this`current, etcd`log
      ensures etcd.log == old(etcd.log) + Gets(agents, failed)
      ensures current == Published(Read(etcd.reports, agents, failed), now, wanted)
      ensures update == NewList(digest, current)
    {
      var endpointToHealthy: map<string, nat>;
      endpointToHealthy, failed := CountVotes(now);
      current := SelectLiveLBs(endpointToHealthy, Read(etcd.reports, agents, failed), now);
      update := NewLoadbalancerList(digest, current);
    }

    method SelectLiveLBs(endpointToHealthy: map<string, nat>, ghost reports: seq<Report>, now: int)
      returns (selected: seq<Loadbalancer>)
      requires |reports| == |agents|
      requires forall ip, port :: Count(endpointToHealthy, KeyString(ip, port)) == Votes(reports, now, ip, port)
      ensures selected == Published(reports, now, wanted)
    {
      selected := [];
      for i := 0 to |wanted|
        invariant selected == Published(reports, now, wanted[..i])
      {
        var eps := SelectLive(endpointToHealthy, wanted[i].endpoints, reports, now);
        if |eps| != 0 {
          selected := selected + [Loadbalancer(wanted[i].name, eps)];
        }
        assert wanted[..i + 1][..i] == wanted[..i];
      }
      assert wanted[..|wanted|] == wanted;
    }

    method CountVotes(now: int) returns (endpointToHealthy: map<string, nat>, ghost failed: set<nat>)
      modifies etcd`log
      ensures etcd.log == old(etcd.log) + Gets(agents, failed)
      ensures forall ip, port ::
        Count(endpointToHealthy, KeyString(ip, port)) == Votes(Read(etcd.reports, agents, failed), now, ip, port)
    {
      endpointToHealthy := map[];
      failed := {};
      for i := 0 to |agents|
        invariant forall k :: k in failed ==> k < i
        invariant etcd.log == old(etcd.log) + Gets(agents[..i], failed)
        invariant forall ip, port ::
          Count(endpointToHealthy, KeyString(ip, port)) == Votes(Read(etcd.reports, agents[..i], failed), now, ip, port)
      {
        var statuses;
        ghost var report, fails;
        statuses, report, fails := GetStatusFromAgent(agents[i], now);
        ReadNext(etcd.reports, agents, failed, i, fails);
        failed := if fails then failed + {i} else failed;
        ghost var reports := Read(etcd.reports, agents[..i + 1], failed);
        if statuses.Err? {
          continue;
        }
        endpointToHealthy := AddVotes(endpointToHealthy, statuses.value);
        forall ip, port ensures Count(endpointToHealthy, KeyString(ip, port)) == Votes(reports, now, ip, port) {
        }
      }
      assert agents[..|agents|] == agents;
    }

    method AddVotes(before: map<string, nat>, statuses: seq<Status>) returns (m: map<string, nat>)
      ensures forall ip, port ::
        Count(m, KeyString(ip, port)) == Count(before, KeyString(ip, port)) + HealthyEntries(statuses, ip, port)
    {
      m := before;
      for j := 0 to |statuses|
        invariant forall ip, port ::
          Count(m, KeyString(ip, port)) == Count(before, KeyString(ip, port)) + HealthyEntries(statuses[..j], ip, port)
      {
        assert statuses[..j + 1][..j] == statuses[..j];
        var status := statuses[j];
        if !status.healthy {
          continue;
        }
        var key := KeyString(status.ip, status.port);
        forall ip, port ensures KeyString(ip, port) == key <==> ip == status.ip && port == status.port {
          KeyStringInjective(ip, port, status.ip, status.port);
        }
        m := m[key := Count(m, key) + 1];
      }
      assert statuses[..|statuses|] == statuses;
    }

    method SelectLive(endpointToHealthy: map<string, nat>, endpoints: seq<EndpointProtocol>,
                      ghost reports: seq<Report>, now: int)
      returns (eps: seq<EndpointProtocol>)
      requires |reports| == |agents|
      requires forall ip, port :: Count(endpointToHealthy, KeyString(ip, port)) == Votes(reports, now, ip, port)
      ensures eps == Live(reports, now, endpoints)
    {
      eps := [];
      for j := 0 to |endpoints|
        invariant eps == Live(reports, now, endpoints[..j])
      {
        assert endpoints[..j + 1][..j] == endpoints[..j];
        var e := endpoints[j].endpoint;
        var amountHealthy := Count(endpointToHealthy, EndpointString(e));
        assert amountHealthy == Votes(reports, now, e.ip, e.port);
        if amountHealthy > |agents| / 2 {
          eps := eps + [endpoints[j]];
        }
      }
      assert endpoints[..|endpoints|] == endpoints;
    }

    method GetWantedMonitorsAsString() returns (s: string)
      ensures s == Monitors.WantedMonitors(marshal, wanted)
    {
      var monitors := [];
      for i := 0 to |wanted|
        invariant monitors == Monitors.AllPrinted(wanted[..i])
      {
        var printed := PrintAll(wanted[i].endpoints);
        monitors := monitors + printed;
        Monitors.AllPrintedNext(wanted, i);
      }
      assert wanted[..|wanted|] == wanted;
      s := marshal(monitors);
    }

    method PrintAll(eps: seq<EndpointProtocol>) returns (printed: seq<string>)
      ensures printed == Printed(eps)
    {
      printed := [];
      for j := 0 to |eps|
        invariant printed == Printed(eps)[..j]
      {
        printed := printed + [EndpointProtocolString(eps[j])];
      }
    }

    ghost function MonitorState(): Monitors.State
      reads this`lastMonitorHash, etcd`monitors
    {
      Monitors.State(lastMonitorHash, etcd.monitors)
    }

    /** One Get, and one Set of the wanted string unless the value read has the stored hash. */
    method SyncMonitors() returns (ok: bool, ghost call: Monitors.Call)
      modifies this`lastMonitorHash, etcd`monitors, etcd`log
      ensures Monitors.HonestSet(call)
      ensures var wantedString := Monitors.WantedMonitors(marshal, wanted);
              var o := Monitors.SyncMonitors(digest, wantedString, old(MonitorState()), call);
              && ok == o.ok && MonitorState() == o.state
              && etcd.log == old(etcd.log) + [Access.GetMonitors(call.getFails)]
                 + if o.setCalled then [Access.SetMonitors(wantedString, call.setOk, call.setApplied)] else []
    {
      var value;
      ghost var fails;
      value, fails := etcd.GetMonitors();
      call := Monitors.Call(fails, false, false);
      if value.Some? {
        var hash := digest(value.value);
        if hash == lastMonitorHash {
          return true, call;
        }
      }
      var localMonitors := GetWantedMonitorsAsString();
      ghost var applied;
      ok, applied := etcd.SetMonitors(localMonitors);
      call := Monitors.Call(fails, ok, applied);
      if !ok {
        return false, call;
      }
      lastMonitorHash := digest(localMonitors);
    }
  }

  /** A Go map read: 0 for a missing key. */
  function Count(m: map<string, nat>, key: string): nat {
    if key in m then m[key] else 0
  }
}
