/** The DNS controller: its methods and loops, proved against the state machine (dnsController.go). */
module DnsController {
  import opened Wrappers
  import opened Strings
  import opened Net
  import opened LoadbalancerLists
  import opened Matching
  import opened Zones
  import opened Reconciler
  import opened Runs
  import opened Convergence

  /** A DNS provider whose calls fail at will; a failing call changes nothing. It keeps a record of what
      failed: the reads of existing data, and for each UpdateZone call whether it succeeded. */
  class Provider {
    var zones: map<string, Zone>
    ghost var calls: seq<Zone>
    ghost var outcomes: seq<bool>
    ghost var failedReads: nat

    constructor (zones: map<string, Zone>)
      ensures this.zones == zones && calls == [] && outcomes == [] && failedReads == 0
    {
      this.zones := zones;
      calls, outcomes, failedReads := [], [], 0;
    }

    ghost predicate Named()
      reads this`zones
    {
      forall n :: n in zones ==> zones[n].name == n
    }

    method ListZones() returns (names: Option<seq<string>>)
      modifies this`failedReads
      ensures names.Some? ==> NameSet(names.value) == zones.Keys
      ensures failedReads == old(failedReads) + if names.None? then 1 else 0
    {
      var fails: bool := *;
      if fails {
        failedReads := failedReads + 1;
        return None;
      }
      var list: seq<string> := [];
      var rest := zones.Keys;
      while rest != {}
        invariant NameSet(list) + rest == zones.Keys
        decreases rest
      {
        var n :| n in rest;
        list := list + [n];
        rest := rest - {n};
      }
      return Some(list);
    }

    method GetZone(name: string) returns (z: Option<Zone>)
      modifies this`failedReads
      ensures z.Some? ==> name in zones && z.value == zones[name]
      ensures failedReads == old(failedReads) + if z.None? && name in zones then 1 else 0
    {
      if name !in zones {
        return None;
      }
      var fails: bool := *;
      if fails {
        failedReads := failedReads + 1;
        return None;
      }
      return Some(zones[name]);
    }

    method UpdateZone(z: Zone) returns (ok: bool)
      modifies this`zones, this`calls, this`outcomes
      ensures zones == if ok then old(zones)[z.name := z] else old(zones)
      ensures calls == old(calls) + [z] && outcomes == old(outcomes) + [ok]
    {
      ok := *;
      calls, outcomes := calls + [z], outcomes + [ok];
      if ok {
        zones := zones[z.name := z];
      }
    }
  }

  /** sort.Slice by descending length: a sorted rearrangement, ties in any order. */
  method SortByLengthDesc(names: seq<string>) returns (sorted: seq<string>)
    ensures multiset(sorted) == multiset(names) && ByLengthDesc(sorted)
  {
    sorted := [];
    for i := 0 to |names|
      invariant multiset(sorted) == multiset(names[..i]) && ByLengthDesc(sorted)
    {
      assert names[..i + 1] == names[..i] + [names[i]];
      InsertedElements(sorted, names[i]);
      InsertedInOrder(sorted, names[i]);
      sorted := Inserted(sorted, names[i]);
    }
    assert names[..|names|] == names;
  }

  lemma SameElements(a: seq<string>, b: seq<string>)
    requires multiset(a) == multiset(b)
    ensures NameSet(a) == NameSet(b)
  {
    forall s ensures s in a <==> s in b {
      assert s in a <==> s in multiset(a);
      assert s in b <==> s in multiset(b);
    }
  }

  lemma SelectedNext(lbs: seq<Loadbalancer>, i: nat, zones: seq<string>)
    requires i < |lbs|
    ensures Selected(lbs[..i + 1], zones)
         == Selected(lbs[..i], zones)
            + match FirstMatch(lbs[i].name, zones) case None => {} case Some(z) => {z}
  {
    assert lbs[..i + 1] == lbs[..i] + [lbs[i]];
    assert lbs[i] in lbs[..i + 1];
  }

  lemma BucketNext(lbs: seq<Loadbalancer>, i: nat, zones: seq<string>, zone: string)
    requires i < |lbs|
    ensures Bucket(lbs[..i + 1], zones, zone)
         == if FirstMatch(lbs[i].name, zones) == Some(zone) then Bucket(lbs[..i], zones, zone) + [lbs[i]]
            else Bucket(lbs[..i], zones, zone)
  {
    assert lbs[..i + 1][..i] == lbs[..i];
  }

  lemma SelectedAreListed(lbs: seq<Loadbalancer>, names: seq<string>)
    ensures Selected(lbs, names) <= NameSet(names)
  {
    forall n | n in Selected(lbs, names) ensures n in NameSet(names) {
      SelectedIsContained(lbs, names, n);
    }
  }

  /** Which of the attempts succeeded. */
  function Outcomes(attempts: seq<Zone>, ok: set<string>): seq<bool> {
    seq(|attempts|, i requires 0 <= i < |attempts| => attempts[i].name in ok)
  }

  /** The inner loop of the matching: the first zone whose name the loadbalancer's name contains. */
  method FindZone(name: string, zones: seq<string>) returns (zone: Option<string>)
    ensures zone == FirstMatch(name, zones)
  {
    var k := 0;
    assert zones[0..] == zones;
    while k < |zones|
      invariant 0 <= k <= |zones|
      invariant FirstMatch(name, zones) == FirstMatch(name, zones[k..])
    {
      assert zones[k..][1..] == zones[k + 1..];
      if Contains(name, zones[k]) {
        return Some(zones[k]);
      }
      k := k + 1;
    }
    return None;
  }

  class DNSController {
    const config: Config
    const dnsProvider: Provider
    var currentZonesEnforceSync: bool
    var currentZones: seq<Zone>
    var currentZonesHash: uint64
    var currentZonesHashMap: map<string, uint64>
    var currentZoneNames: seq<string>
    var wantedZones: seq<Zone>
    var wantedZonesHash: uint64
    var wantedZonesLBHash: uint64
    var wantedLBs: Option<LoadbalancerList>
    var wantedLBsCandidate: Option<LoadbalancerList>
    var lastCurrentZoneSync: Option<int>

    constructor (config: Config, dnsProvider: Provider)
      ensures this.config == config && this.dnsProvider == dnsProvider
      ensures Snapshot() == INITIAL && wantedLBsCandidate == None && Valid()
    {
      this.config := config;
      this.dnsProvider := dnsProvider;
      currentZonesEnforceSync := false;
      currentZones := [];
      currentZonesHash := 0;
      currentZonesHashMap := map[];
      currentZoneNames := [];
      wantedZones := [];
      wantedZonesHash := 0;
      wantedZonesLBHash := 0;
      wantedLBs := None;
      wantedLBsCandidate := None;
      lastCurrentZoneSync := None;
    }

    ghost function Snapshot(): State
      reads this
    {
      State(currentZonesEnforceSync, currentZones, currentZonesHash, currentZonesHashMap, currentZoneNames,
            wantedZones, wantedZonesHash, wantedZonesLBHash, wantedLBs, lastCurrentZoneSync)
    }

    ghost predicate Valid()
      reads this
    {
      Cached(config, Snapshot())
    }

    /** It fails only if a provider call does. */
    method UpdateCurrentZones(now: int) returns (err: bool, ghost f: Fetch)
      requires dnsProvider.Named()
      modifies this, dnsProvider`failedReads
      ensures dnsProvider.failedReads == old(dnsProvider.failedReads) + if wantedLBs.Some? && f.Failed? then 1 else 0
      ensures err <==> f.Failed?
      ensures wantedLBs == old(wantedLBs) && wantedLBsCandidate == old(wantedLBsCandidate)
      ensures wantedLBs.None? ==> err
      ensures wantedLBs.Some? ==> ValidFetch(wantedLBs.value.lbs, f) && HonestFetch(dnsProvider.zones, f)
      ensures Snapshot() == if f.Failed? then old(Snapshot())
                            else StoreFetch(config, old(Snapshot()), now, f.names, f.zones)
    {
      f := Failed;
      if wantedLBs.None? {
        return true, f;
      }
      var fetched := FetchCurrent(wantedLBs.value.lbs);
      f := fetched;
      if fetched.Failed? {
        return true, f;
      }
      StoreFetched(fetched.names, fetched.zones, now);
      return false, f;
    }

    /** The cache fields, all from one fetch. */
    method StoreFetched(names: seq<string>, zones: seq<Zone>, now: int)
      modifies this
      ensures Snapshot() == StoreFetch(config, old(Snapshot()), now, names, zones)
      ensures wantedLBsCandidate == old(wantedLBsCandidate)
    {
      var hashes := HashAll(zones);
      currentZones := zones;
      currentZoneNames := names;
      currentZonesHash := config.zonesHash(zones);
      currentZonesHashMap := hashes;
      currentZonesEnforceSync := false;
      lastCurrentZoneSync := Some(now);
    }

    /** The provider calls of a fetch. */
    method FetchCurrent(lbs: seq<Loadbalancer>) returns (f: Fetch)
      requires dnsProvider.Named()
      modifies dnsProvider`failedReads
      ensures ValidFetch(lbs, f) && HonestFetch(dnsProvider.zones, f)
      ensures dnsProvider.failedReads == old(dnsProvider.failedReads) + if f.Failed? then 1 else 0
    {
      var listed := dnsProvider.ListZones();
      if listed.None? {
        return Failed;
      }
      var allZoneNames := SortByLengthDesc(listed.value);
      SameElements(allZoneNames, listed.value);
      var zoneNames := SelectZones(lbs, allZoneNames);
      SelectedAreListed(lbs, allZoneNames);
      var zones := FetchZones(zoneNames);
      if zones.None? {
        return Failed;
      }
      return Fetched(allZoneNames, zones.value);
    }

    method SelectZones(lbs: seq<Loadbalancer>, allZoneNames: seq<string>) returns (zoneNames: set<string>)
      ensures zoneNames == Selected(lbs, allZoneNames)
    {
      zoneNames := {};
      for i := 0 to |lbs|
        invariant zoneNames == Selected(lbs[..i], allZoneNames)
      {
        SelectedNext(lbs, i, allZoneNames);
        var zone := FindZone(lbs[i].name, allZoneNames);
        if zone.Some? {
          zoneNames := zoneNames + {zone.value};
        }
      }
      assert lbs[..|lbs|] == lbs;
    }

    /** Iterates over the selected names in any order, as over a Go map. */
    method FetchZones(zoneNames: set<string>) returns (zones: Option<seq<Zone>>)
      requires dnsProvider.Named() && zoneNames <= dnsProvider.zones.Keys
      modifies dnsProvider`failedReads
      ensures dnsProvider.failedReads == old(dnsProvider.failedReads) + if zones.None? then 1 else 0
      ensures zones.Some? ==>
        && DistinctNames(zones.value) && ZoneNames(zones.value) == zoneNames
        && forall z :: z in zones.value ==> z.name in dnsProvider.zones && dnsProvider.zones[z.name] == z
    {
      var fetched: seq<Zone> := [];
      var rest := zoneNames;
      while rest != {}
        invariant rest <= zoneNames && ZoneNames(fetched) == zoneNames - rest && DistinctNames(fetched)
        invariant dnsProvider.failedReads == old(dnsProvider.failedReads)
        invariant forall z :: z in fetched ==> z.name in dnsProvider.zones && dnsProvider.zones[z.name] == z
        decreases rest
      {
        var n :| n in rest;
        var zone := dnsProvider.GetZone(n);
        if zone.None? {
          return None;
        }
        assert zone.value.name == n;
        assert forall i :: 0 <= i < |fetched| ==> fetched[i].name in ZoneNames(fetched);
        ZoneNamesSnoc(fetched, zone.value);
        fetched := fetched + [zone.value];
        rest := rest - {n};
      }
      return Some(fetched);
    }

    method HashAll(zones: seq<Zone>) returns (m: map<string, uint64>)
      ensures m == HashMap(config, zones)
    {
      m := map[];
      for i := 0 to |zones|
        invariant m == HashMap(config, zones[..i])
      {
        assert zones[..i + 1][..i] == zones[..i];
        m := m[zones[i].name := config.zoneHash(zones[i])];
      }
      assert zones[..|zones|] == zones;
    }

    method MapLBsToZones(lbs: seq<Loadbalancer>, zoneNames: seq<string>) returns (lbMap: map<string, seq<Loadbalancer>>)
      ensures lbMap.Keys == Selected(lbs, zoneNames)
      ensures forall z :: z in lbMap ==> lbMap[z] == Bucket(lbs, zoneNames, z)
    {
      lbMap := map[];
      for i := 0 to |lbs|
        invariant lbMap.Keys == Selected(lbs[..i], zoneNames)
        invariant forall z :: z in lbMap ==> lbMap[z] == Bucket(lbs[..i], zoneNames, z)
      {
        SelectedNext(lbs, i, zoneNames);
        forall z { BucketNext(lbs, i, zoneNames, z); }
        var zone := FindZone(lbs[i].name, zoneNames);
        if zone.Some? {
          SelectedIffBucket(lbs[..i], zoneNames, zone.value);
          var sofar := if zone.value in lbMap then lbMap[zone.value] else [];
          lbMap := lbMap[zone.value := sofar + [lbs[i]]];
        }
      }
      assert lbs[..|lbs|] == lbs;
    }

    method UpdateWantedZones()
      requires wantedLBs.Some?
      modifies this
      ensures Snapshot() == Rebuild(config, old(Snapshot()))
      ensures wantedLBsCandidate == old(wantedLBsCandidate)
    {
      var wanted := RebuildAll(currentZones, wantedLBs.value.lbs, currentZoneNames);
      wantedZones := wanted;
      wantedZonesHash := config.zonesHash(wanted);
      wantedZonesLBHash := wantedLBs.value.hash;
    }

    /** The loop over the copied zones. */
    method RebuildAll(current: seq<Zone>, lbs: seq<Loadbalancer>, names: seq<string>) returns (wanted: seq<Zone>)
      ensures wanted == RebuildZones(current, lbs, names)
    {
      ghost var rebuilt := RebuildZones(current, lbs, names);
      wanted := current;
      var lbMap := MapLBsToZones(lbs, names);
      for i := 0 to |current|
        invariant |wanted| == |current|
        invariant wanted[..i] == rebuilt[..i] && wanted[i..] == current[i..]
      {
        var zone := wanted[i];
        assert zone == current[i];
        SelectedIffBucket(lbs, names, zone.name);
        var mapped := if zone.name in lbMap then lbMap[zone.name] else [];
        RebuildWithout(zone);
        if |mapped| != 0 {
          zone := RebuildInPlace(zone, mapped);
        }
        wanted := wanted[i := zone];
      }
    }

    /** First every removal, then every addition. */
    method RebuildInPlace(z: Zone, lbs: seq<Loadbalancer>) returns (zone: Zone)
      ensures zone == RebuildZone(z, lbs)
    {
      var kept := RemoveClaimed(z.records, z.name, lbs);
      var records := AppendEndpoints(kept, z.name, lbs);
      zone := z.(records := records);
    }

    method RemoveClaimed(records: seq<Record>, zone: string, lbs: seq<Loadbalancer>) returns (kept: seq<Record>)
      ensures kept == Foreign(records, RecordNames(lbs, zone))
    {
      kept := records;
      ForeignNothing(records);
      assert RecordNames(lbs[..0], zone) == {};
      for j := 0 to |lbs|
        invariant kept == Foreign(records, RecordNames(lbs[..j], zone))
      {
        var aName := RecordName(lbs[j].name, zone);
        RemoveIsForeign(records, RecordNames(lbs[..j], zone), aName);
        RecordNamesNext(lbs, j, zone);
        kept := RemoveRecords(kept, aName, A);
      }
      assert lbs[..|lbs|] == lbs;
    }

    method AppendEndpoints(kept: seq<Record>, zone: string, lbs: seq<Loadbalancer>) returns (records: seq<Record>)
      ensures records == kept + Added(lbs, zone)
    {
      records := kept;
      for j := 0 to |lbs|
        invariant records == kept + Added(lbs[..j], zone)
      {
        ghost var before, all := records, ARecords(lbs[j], zone);
        var aName := RecordName(lbs[j].name, zone);
        for k := 0 to |lbs[j].endpoints|
          invariant records == before + all[..k]
        {
          var rec := Record(ClassIN, aName, 60, A, IPString(lbs[j].endpoints[k].endpoint.ip), 0);
          assert rec == all[k];
          records := records + [rec];
        }
        assert lbs[..j + 1][..j] == lbs[..j];
        assert all[..|lbs[j].endpoints|] == all;
      }
      assert lbs[..|lbs|] == lbs;
    }

    method Sync(force: bool, now: int) returns (ghost f: Fetch, ghost ok: set<string>)
      requires Valid() && wantedLBs.Some? && dnsProvider.Named()
      modifies this, dnsProvider
      ensures Valid() && dnsProvider.Named()
      ensures wantedLBs == old(wantedLBs) && wantedLBsCandidate == old(wantedLBsCandidate)
      ensures NeedsFetch(config, old(Snapshot()), force, now) ==>
                ValidFetch(wantedLBs.value.lbs, f) && HonestFetch(old(dnsProvider.zones), f)
      ensures var o := Reconciler.Sync(config, old(Snapshot()), force, now, f, ok);
              && Snapshot() == o.state
              && dnsProvider.calls == old(dnsProvider.calls) + o.attempts
              && dnsProvider.zones == Apply(old(dnsProvider.zones), o.attempts, ok)
              && dnsProvider.outcomes == old(dnsProvider.outcomes) + Outcomes(o.attempts, ok)
      ensures dnsProvider.failedReads
           == old(dnsProvider.failedReads) + if Proceeds(config, old(Snapshot()), force, now, f) then 0 else 1
    {
      var err;
      err, f := Refresh(force, now);
      ok := {};
      if err || (!force && currentZonesHash == wantedZonesHash) {
        return;
      }
      ok := WriteChanged();
    }

    /** The fetch and the rebuild, as far as they are due. */
    method Refresh(force: bool, now: int) returns (err: bool, ghost f: Fetch)
      requires Valid() && wantedLBs.Some? && dnsProvider.Named()
      modifies this, dnsProvider`failedReads
      ensures dnsProvider.failedReads == old(dnsProvider.failedReads) + if err then 1 else 0
      ensures Valid() && wantedLBs == old(wantedLBs) && wantedLBsCandidate == old(wantedLBsCandidate)
      ensures NeedsFetch(config, old(Snapshot()), force, now) ==>
                ValidFetch(wantedLBs.value.lbs, f) && HonestFetch(dnsProvider.zones, f)
      ensures err <==> !Proceeds(config, old(Snapshot()), force, now, f)
      ensures Snapshot() == if err then old(Snapshot()) else Prepare(config, old(Snapshot()), force, now, f)
    {
      f := Failed;
      if force || currentZonesEnforceSync || lastCurrentZoneSync.None?
         || now - lastCurrentZoneSync.value > config.interval {
        err, f := UpdateCurrentZones(now);
        if err {
          return;
        }
      }
      err := false;
      if force || wantedZonesLBHash != wantedLBs.value.hash {
        UpdateWantedZones();
      }
      PrepareKeepsCached(config, old(Snapshot()), force, now, f);
    }

    /** One UpdateZone call; if it succeeds, the next tick fetches again. */
    method UpdateOne(z: Zone) returns (written: bool)
      modifies this`currentZonesEnforceSync, dnsProvider`zones, dnsProvider`calls, dnsProvider`outcomes
      ensures dnsProvider.zones == if written then old(dnsProvider.zones)[z.name := z] else old(dnsProvider.zones)
      ensures dnsProvider.calls == old(dnsProvider.calls) + [z]
      ensures dnsProvider.outcomes == old(dnsProvider.outcomes) + [written]
      ensures currentZonesEnforceSync == (old(currentZonesEnforceSync) || written)
    {
      written := dnsProvider.UpdateZone(z);
      if written {
        currentZonesEnforceSync := true;
      }
    }

    /** The loop over the wanted zones. */
    method WriteChanged() returns (ghost ok: set<string>)
      requires DistinctNames(wantedZones) && dnsProvider.Named()
      modifies this`currentZonesEnforceSync, dnsProvider`zones, dnsProvider`calls, dnsProvider`outcomes
      ensures dnsProvider.Named()
      ensures var attempts := Changed(config, currentZonesHashMap, wantedZones);
              && dnsProvider.calls == old(dnsProvider.calls) + attempts
              && dnsProvider.zones == Apply(old(dnsProvider.zones), attempts, ok)
              && dnsProvider.outcomes == old(dnsProvider.outcomes) + Outcomes(attempts, ok)
              && currentZonesEnforceSync == (old(currentZonesEnforceSync) || AnyOf(attempts, ok))
    {
      ok := {};
      var hashes, wanted := currentZonesHashMap, wantedZones;
      ghost var up, calls, enforced := dnsProvider.zones, dnsProvider.calls, currentZonesEnforceSync;
      ghost var outcomes := dnsProvider.outcomes;
      ghost var attempts: seq<Zone> := [];
      for i := 0 to |wanted|
        invariant attempts == Changed(config, hashes, wanted[..i])
        invariant ok <= ZoneNames(wanted[..i])
        invariant dnsProvider.calls == calls + attempts
        invariant dnsProvider.outcomes == outcomes + Outcomes(attempts, ok)
        invariant dnsProvider.zones == Apply(up, attempts, ok)
        invariant currentZonesEnforceSync == (enforced || AnyOf(attempts, ok))
      {
        var z := wanted[i];
        var curHash := CachedHash(hashes, z.name);
        var newHash := config.zoneHash(z);
        ChangedNext(config, hashes, wanted, i);
        NotYetWritten(config, hashes, wanted, i);
        ZoneNamesNext(wanted, i);
        if curHash != newHash {
          var written := UpdateOne(z);
          ApplyNext(up, attempts, z, ok, written);
          OutcomesNext(attempts, z, ok, written);
          Associative(calls, attempts, [z]);
          Associative(outcomes, Outcomes(attempts, ok), [written]);
          attempts := attempts + [z];
          ok := if written then ok + {z.name} else ok;
        }
      }
      assert wanted[..|wanted|] == wanted;
      ApplyKeepsNames(up, attempts, ok);
    }

    /** The body of the tick in Run, between two waits. */
    method RunOnce(now: int) returns (ghost t: Tick)
      requires Valid() && dnsProvider.Named()
      modifies this, dnsProvider
      ensures Valid() && dnsProvider.Named()
      ensures t.promoted == old(wantedLBsCandidate) && t.now == now && wantedLBsCandidate == None
      ensures HonestTick(config, old(World(Snapshot(), dnsProvider.zones)), t)
      ensures World(Snapshot(), dnsProvider.zones)
           == Step(config, old(World(Snapshot(), dnsProvider.zones)), TickEvent(t))
      ensures var attempts := RunTick(config, old(Snapshot()), t).attempts;
              && dnsProvider.calls == old(dnsProvider.calls) + attempts
              && dnsProvider.outcomes == old(dnsProvider.outcomes) + Outcomes(attempts, t.ok)
      // the tick works unless a read of the provider failed in it or no list is current
      ensures Working(config, old(Snapshot()), t)
         <==> wantedLBs.Some? && dnsProvider.failedReads == old(dnsProvider.failedReads)
    {
      var force := false;
      t := Tick(wantedLBsCandidate, now, Failed, {}, {});
      if wantedLBsCandidate.Some? {
        wantedLBs := wantedLBsCandidate;
        wantedLBsCandidate := None;
        force := true;
      }
      if wantedLBs.None? {
        return;
      }
      assert Snapshot() == Promote(old(Snapshot()), t.promoted);
      ghost var f, ok := Sync(force, now);
      t := t.(fetch := f, ok := ok, applied := ok);
    }

    /** What the update loop does with a received list. */
    method Receive(newLBs: LoadbalancerList)
      modifies this`wantedLBsCandidate
      ensures wantedLBsCandidate
           == if wantedLBs.Some? && newLBs.hash == wantedLBs.value.hash then old(wantedLBsCandidate) else Some(newLBs)
    {
      if wantedLBs.Some? && newLBs.hash == wantedLBs.value.hash {
        return;
      }
      wantedLBsCandidate := Some(newLBs);
    }
  }

  lemma ZoneNamesSnoc(zs: seq<Zone>, z: Zone)
    ensures ZoneNames(zs + [z]) == ZoneNames(zs) + {z.name}
  {
    assert (zs + [z])[|zs|] == z;
  }

  lemma ZoneNamesNext(zs: seq<Zone>, i: nat)
    requires i < |zs|
    ensures ZoneNames(zs[..i + 1]) == ZoneNames(zs[..i]) + {zs[i].name}
  {
    assert zs[..i + 1] == zs[..i] + [zs[i]];
    ZoneNamesSnoc(zs[..i], zs[i]);
  }

  lemma RecordNamesNext(lbs: seq<Loadbalancer>, j: nat, zone: string)
    requires j < |lbs|
    ensures RecordNames(lbs[..j + 1], zone) == RecordNames(lbs[..j], zone) + {RecordName(lbs[j].name, zone)}
  {
    assert lbs[..j + 1] == lbs[..j] + [lbs[j]];
  }

  lemma ChangedNext(c: Config, hashMap: map<string, uint64>, zs: seq<Zone>, i: nat)
    requires i < |zs|
    ensures Changed(c, hashMap, zs[..i + 1])
         == Changed(c, hashMap, zs[..i]) + if CachedHash(hashMap, zs[i].name) != c.zoneHash(zs[i]) then [zs[i]] else []
  {
    assert zs[..i + 1][..i] == zs[..i];
  }

  lemma NotYetWritten(c: Config, hashMap: map<string, uint64>, zs: seq<Zone>, i: nat)
    requires i < |zs| && DistinctNames(zs)
    ensures zs[i].name !in ZoneNames(zs[..i])
    ensures zs[i].name !in ZoneNames(Changed(c, hashMap, zs[..i]))
  {
    ChangedMembers(c, hashMap, zs[..i]);
    assert forall z :: z in zs[..i] ==> exists k :: 0 <= k < i && zs[k] == z;
  }

  lemma {:induction false} ApplyIgnores(up: map<string, Zone>, attempts: seq<Zone>, ok: set<string>, n: string)
    requires n !in ZoneNames(attempts)
    ensures Apply(up, attempts, ok + {n}) == Apply(up, attempts, ok)
  {
    if attempts != [] {
      var k := |attempts| - 1;
      assert attempts[k] in attempts;
      assert forall z :: z in attempts[..k] ==> z in attempts;
      ApplyIgnores(up, attempts[..k], ok, n);
    }
  }

  lemma ApplyNext(up: map<string, Zone>, attempts: seq<Zone>, z: Zone, ok: set<string>, written: bool)
    requires z.name !in ZoneNames(attempts) && z.name !in ok
    ensures var ok' := if written then ok + {z.name} else ok;
            && Apply(up, attempts + [z], ok')
            == (if written then Apply(up, attempts, ok)[z.name := z] else Apply(up, attempts, ok))
            && (AnyOf(attempts + [z], ok') <==> AnyOf(attempts, ok) || written)
  {
    ApplyIgnores(up, attempts, ok, z.name);
    assert (attempts + [z])[..|attempts + [z]| - 1] == attempts;
    assert z in attempts + [z];
    assert forall y :: y in attempts ==> y in attempts + [z] && y.name in ZoneNames(attempts);
  }

  lemma ApplyKeepsNames(up: map<string, Zone>, attempts: seq<Zone>, ok: set<string>)
    requires forall n :: n in up ==> up[n].name == n
    ensures var m := Apply(up, attempts, ok);
            forall n :: n in m ==> m[n].name == n
  {
    var m := Apply(up, attempts, ok);
    forall n | n in m ensures m[n].name == n {
      ApplyAt(up, attempts, ok, n);
    }
  }

  lemma OutcomesNext(attempts: seq<Zone>, z: Zone, ok: set<string>, written: bool)
    requires z.name !in ZoneNames(attempts) && z.name !in ok
    ensures Outcomes(attempts + [z], if written then ok + {z.name} else ok) == Outcomes(attempts, ok) + [written]
  {
    assert forall y :: y in attempts ==> y.name in ZoneNames(attempts);
  }

  /** No write of a tick fails exactly when no UpdateZone call in it did. */
  lemma SucceededIff(c: Config, w: World, t: Tick)
    ensures WritesSucceed(c, w, t) <==> false !in Outcomes(RunTick(c, w.ctl, t).attempts, t.ok)
  {
    var attempts := RunTick(c, w.ctl, t).attempts;
    forall i | 0 <= i < |attempts| ensures Outcomes(attempts, t.ok)[i] <==> attempts[i].name in t.ok {
    }
  }
}
