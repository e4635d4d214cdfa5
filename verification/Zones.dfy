/** DNS zones as the dns library presents them, and the rebuild of one zone (dnsController.go). */
module Zones {
  import opened Wrappers
  import opened Net
  import opened LoadbalancerLists
  import opened Matching

  datatype SOA = SOA(mname: string, rname: string, serial: int, refresh: int, retry: int, expire: int, ttl: int)

  datatype Class = ClassIN | OtherClass(code: int)

  datatype RecordType = A | OtherType(code: int)

  datatype Record = Record(class_: Class, name: string, ttl: int, rtype: RecordType, value: string, preference: int)

  datatype Zone = Zone(name: string, soa: SOA, records: seq<Record>)

  /** dns.Zone.RemoveRecordsWithName: a stable filter on name and type. */
  function RemoveRecords(records: seq<Record>, name: string, rtype: RecordType): seq<Record> {
    if records == [] then []
    else
      var n := |records| - 1;
      var init := RemoveRecords(records[..n], name, rtype);
      if records[n].name == name && records[n].rtype == rtype then init else init + [records[n]]
  }

  function ARecord(lb: Loadbalancer, zone: string, k: nat): Record
    requires k < |lb.endpoints|
  {
    Record(ClassIN, RecordName(lb.name, zone), 60, A, IPString(lb.endpoints[k].endpoint.ip), 0)
  }

  function ARecords(lb: Loadbalancer, zone: string): (rs: seq<Record>)
    ensures |rs| == |lb.endpoints|
  {
    seq(|lb.endpoints|, k requires 0 <= k < |lb.endpoints| => ARecord(lb, zone, k))
  }

  /** Every endpoint of every loadbalancer, in list order. */
  function Added(lbs: seq<Loadbalancer>, zone: string): seq<Record> {
    if lbs == [] then []
    else Added(lbs[..|lbs| - 1], zone) + ARecords(lbs[|lbs| - 1], zone)
  }

  function RecordNames(lbs: seq<Loadbalancer>, zone: string): set<string> {
    set lb | lb in lbs :: RecordName(lb.name, zone)
  }

  /** The records that no loadbalancer in the list claims: everything but A records under their names. */
  function Foreign(records: seq<Record>, names: set<string>): seq<Record> {
    if records == [] then []
    else
      var n := |records| - 1;
      var init := Foreign(records[..n], names);
      if records[n].rtype == A && records[n].name in names then init else init + [records[n]]
  }

  /** All removals precede all additions. */
  function RebuildZone(z: Zone, lbs: seq<Loadbalancer>): Zone {
    z.(records := Foreign(z.records, RecordNames(lbs, z.name)) + Added(lbs, z.name))
  }

  /* ---------- the removal loop is one filter ---------- */

  lemma {:induction false} RemoveIsForeign(records: seq<Record>, names: set<string>, name: string)
    ensures RemoveRecords(Foreign(records, names), name, A) == Foreign(records, names + {name})
  {
    if records != [] {
      var n := |records| - 1;
      RemoveIsForeign(records[..n], names, name);
      var f := Foreign(records[..n], names);
      assert (f + [records[n]])[..|f|] == f;
    }
  }

  lemma {:induction false} ForeignNothing(records: seq<Record>)
    ensures Foreign(records, {}) == records
  {
    if records != [] {
      ForeignNothing(records[..|records| - 1]);
    }
  }

  lemma RebuildWithout(z: Zone)
    ensures RebuildZone(z, []) == z
  {
    ForeignNothing(z.records);
    assert RecordNames([], z.name) == {};
  }

  /* ---------- what the rebuilt zone serves ---------- */

  /** The values a zone serves for one name and type, in order. */
  function Values(records: seq<Record>, name: string, rtype: RecordType): seq<string> {
    if records == [] then []
    else
      var n := |records| - 1;
      var init := Values(records[..n], name, rtype);
      if records[n].name == name && records[n].rtype == rtype then init + [records[n].value] else init
  }

  /** The addresses of the endpoints, in order. */
  function Addresses(eps: seq<EndpointProtocol>): seq<string> {
    seq(|eps|, i requires 0 <= i < |eps| => IPString(eps[i].endpoint.ip))
  }

  /** The addresses of all endpoints of the loadbalancers that share a record name, in list order. */
  function SharedAddresses(lbs: seq<Loadbalancer>, zone: string, name: string): seq<string> {
    if lbs == [] then []
    else
      var lb := lbs[|lbs| - 1];
      var init := SharedAddresses(lbs[..|lbs| - 1], zone, name);
      if RecordName(lb.name, zone) == name then init + Addresses(lb.endpoints) else init
  }

  lemma {:induction false} ValuesAppend(a: seq<Record>, b: seq<Record>, name: string, rtype: RecordType)
    ensures Values(a + b, name, rtype) == Values(a, name, rtype) + Values(b, name, rtype)
  {
    if b == [] {
      assert a + b == a;
    } else {
      var n := |b| - 1;
      assert (a + b)[..|a + b| - 1] == a + b[..n];
      ValuesAppend(a, b[..n], name, rtype);
    }
  }

  lemma {:induction false} ValuesOfForeign(records: seq<Record>, names: set<string>, name: string, rtype: RecordType)
    ensures Values(Foreign(records, names), name, rtype)
         == if rtype == A && name in names then [] else Values(records, name, rtype)
  {
    if records != [] {
      var n := |records| - 1;
      ValuesOfForeign(records[..n], names, name, rtype);
      var f := Foreign(records[..n], names);
      assert (f + [records[n]])[..|f|] == f;
    }
  }

  lemma {:induction false} ValuesOfARecords(lb: Loadbalancer, zone: string, name: string, rtype: RecordType, k: nat)
    requires k <= |lb.endpoints|
    ensures Values(ARecords(lb, zone)[..k], name, rtype)
         == if rtype == A && RecordName(lb.name, zone) == name then Addresses(lb.endpoints)[..k] else []
  {
    if k > 0 {
      ValuesOfARecords(lb, zone, name, rtype, k - 1);
      assert ARecords(lb, zone)[..k][..k - 1] == ARecords(lb, zone)[..k - 1];
    }
  }

  lemma {:induction false} ValuesOfAdded(lbs: seq<Loadbalancer>, zone: string, name: string, rtype: RecordType)
    ensures Values(Added(lbs, zone), name, rtype)
         == if rtype == A then SharedAddresses(lbs, zone, name) else []
  {
    if lbs != [] {
      var n := |lbs| - 1;
      ValuesOfAdded(lbs[..n], zone, name, rtype);
      ValuesAppend(Added(lbs[..n], zone), ARecords(lbs[n], zone), name, rtype);
      ValuesOfARecords(lbs[n], zone, name, rtype, |lbs[n].endpoints|);
      assert ARecords(lbs[n], zone)[..|lbs[n].endpoints|] == ARecords(lbs[n], zone);
      assert Addresses(lbs[n].endpoints)[..|lbs[n].endpoints|] == Addresses(lbs[n].endpoints);
    }
  }

  lemma {:induction false} NoSharedAddresses(lbs: seq<Loadbalancer>, zone: string, name: string)
    requires name !in RecordNames(lbs, zone)
    ensures SharedAddresses(lbs, zone, name) == []
  {
    if lbs != [] {
      NoSharedAddresses(lbs[..|lbs| - 1], zone, name);
      assert lbs[|lbs| - 1] in lbs;
    }
  }

  /** A rebuilt zone answers A queries under the loadbalancers' names with their endpoints, with
      multiplicity and in order, and every other query as before. */
  lemma RebuildServes(z: Zone, lbs: seq<Loadbalancer>, name: string, rtype: RecordType)
    ensures Values(RebuildZone(z, lbs).records, name, rtype)
         == if rtype == A && name in RecordNames(lbs, z.name)
            then SharedAddresses(lbs, z.name, name)
            else Values(z.records, name, rtype)
    ensures RebuildZone(z, lbs).name == z.name && RebuildZone(z, lbs).soa == z.soa
  {
    var names := RecordNames(lbs, z.name);
    ValuesAppend(Foreign(z.records, names), Added(lbs, z.name), name, rtype);
    ValuesOfForeign(z.records, names, name, rtype);
    ValuesOfAdded(lbs, z.name, name, rtype);
    if name !in names {
      NoSharedAddresses(lbs, z.name, name);
    }
  }

  /** The record for one endpoint of a loadbalancer. */
  ghost predicate RecordOf(r: Record, lbs: seq<Loadbalancer>, zone: string) {
    exists lb, e :: lb in lbs && e in lb.endpoints
      && r == Record(ClassIN, RecordName(lb.name, zone), 60, A, IPString(e.endpoint.ip), 0)
  }

  lemma {:induction false} ForeignMembers(records: seq<Record>, names: set<string>)
    ensures forall r :: r in Foreign(records, names) <==> r in records && !(r.rtype == A && r.name in names)
  {
    if records != [] {
      ForeignMembers(records[..|records| - 1], names);
      assert records == records[..|records| - 1] + [records[|records| - 1]];
    }
  }

  lemma {:induction false} AddedMembers(lbs: seq<Loadbalancer>, zone: string)
    ensures forall r :: r in Added(lbs, zone) <==> RecordOf(r, lbs, zone)
  {
    if lbs != [] {
      var n := |lbs| - 1;
      AddedMembers(lbs[..n], zone);
      assert lbs == lbs[..n] + [lbs[n]];
      forall r ensures r in ARecords(lbs[n], zone) <==> RecordOf(r, [lbs[n]], zone) {
        ARecordsMembers(lbs[n], zone, r);
      }
      forall r ensures RecordOf(r, lbs, zone) <==> RecordOf(r, lbs[..n], zone) || RecordOf(r, [lbs[n]], zone) {
        assert forall lb :: lb in lbs <==> lb in lbs[..n] || lb in [lbs[n]];
      }
    }
  }

  lemma ARecordsMembers(lb: Loadbalancer, zone: string, r: Record)
    ensures r in ARecords(lb, zone) <==> RecordOf(r, [lb], zone)
  {
    assert lb in [lb];
    if r in ARecords(lb, zone) {
      var k :| 0 <= k < |lb.endpoints| && ARecords(lb, zone)[k] == r;
      assert lb.endpoints[k] in lb.endpoints;
    }
    if RecordOf(r, [lb], zone) {
      var e :| e in lb.endpoints && r == Record(ClassIN, RecordName(lb.name, zone), 60, A, IPString(e.endpoint.ip), 0);
      var k :| 0 <= k < |lb.endpoints| && lb.endpoints[k] == e;
      assert ARecords(lb, zone)[k] == r;
    }
  }

  /** The rebuilt zone holds the unclaimed old records and one full record for each endpoint, and no others. */
  lemma RebuildContents(z: Zone, lbs: seq<Loadbalancer>, r: Record)
    ensures r in RebuildZone(z, lbs).records <==>
            (r in z.records && !(r.rtype == A && r.name in RecordNames(lbs, z.name))) || RecordOf(r, lbs, z.name)
  {
    ForeignMembers(z.records, RecordNames(lbs, z.name));
    AddedMembers(lbs, z.name);
  }

  /** The apex answers as before unless a loadbalancer bears the zone's name, its dotted form or none. */
  lemma ApexAnswers(z: Zone, lbs: seq<Loadbalancer>)
    ensures Values(RebuildZone(z, lbs).records, "", A)
         == if exists lb :: lb in lbs && lb.name in {"", z.name, "." + z.name}
            then SharedAddresses(lbs, z.name, "") else Values(z.records, "", A)
  {
    RebuildServes(z, lbs, "", A);
    forall lb: Loadbalancer ensures RecordName(lb.name, z.name) == "" <==> lb.name in {"", z.name, "." + z.name} {
      ApexNames(lb.name, z.name);
    }
  }

  /* ---------- the order of the records ---------- */

  /** A loadbalancer's name claims the record. */
  predicate IsClaimed(r: Record, lbs: seq<Loadbalancer>, zone: string) {
    r.rtype == A && r.name in RecordNames(lbs, zone)
  }

  function UnclaimedBefore(records: seq<Record>, lbs: seq<Loadbalancer>, zone: string, i: nat): (n: nat)
    requires i <= |records|
    ensures n <= i
  {
    if i == 0 then 0
    else UnclaimedBefore(records, lbs, zone, i - 1) + if IsClaimed(records[i - 1], lbs, zone) then 0 else 1
  }

  function EndpointsBefore(lbs: seq<Loadbalancer>, i: nat): nat
    requires i <= |lbs|
  {
    if i == 0 then 0 else EndpointsBefore(lbs, i - 1) + |lbs[i - 1].endpoints|
  }

  lemma {:induction false} ForeignAt(records: seq<Record>, lbs: seq<Loadbalancer>, zone: string, i: nat)
    requires i < |records| && !IsClaimed(records[i], lbs, zone)
    ensures var kept := Foreign(records, RecordNames(lbs, zone));
            && |kept| == UnclaimedBefore(records, lbs, zone, |records|)
            && UnclaimedBefore(records, lbs, zone, i) < |kept|
            && kept[UnclaimedBefore(records, lbs, zone, i)] == records[i]
  {
    var n := |records| - 1;
    ForeignLength(records, lbs, zone);
    UnclaimedOfPrefix(records, lbs, zone, n, i);
    if i < n {
      ForeignAt(records[..n], lbs, zone, i);
    } else {
      ForeignLength(records[..n], lbs, zone);
      UnclaimedOfPrefix(records, lbs, zone, n, n);
    }
  }

  lemma {:induction false} ForeignLength(records: seq<Record>, lbs: seq<Loadbalancer>, zone: string)
    ensures |Foreign(records, RecordNames(lbs, zone))| == UnclaimedBefore(records, lbs, zone, |records|)
  {
    if records != [] {
      var n := |records| - 1;
      ForeignLength(records[..n], lbs, zone);
      UnclaimedOfPrefix(records, lbs, zone, n, n);
    }
  }

  lemma {:induction false} UnclaimedOfPrefix(records: seq<Record>, lbs: seq<Loadbalancer>, zone: string, n: nat, i: nat)
    requires i <= n <= |records|
    ensures UnclaimedBefore(records[..n], lbs, zone, i) == UnclaimedBefore(records, lbs, zone, i)
  {
    if i > 0 {
      UnclaimedOfPrefix(records, lbs, zone, n, i - 1);
    }
  }

  lemma {:induction false} EndpointsOfPrefix(lbs: seq<Loadbalancer>, n: nat, i: nat)
    requires i <= n <= |lbs|
    ensures EndpointsBefore(lbs[..n], i) == EndpointsBefore(lbs, i)
  {
    if i > 0 {
      EndpointsOfPrefix(lbs, n, i - 1);
    }
  }

  lemma {:induction false} AddedLength(lbs: seq<Loadbalancer>, zone: string)
    ensures |Added(lbs, zone)| == EndpointsBefore(lbs, |lbs|)
  {
    if lbs != [] {
      var n := |lbs| - 1;
      AddedLength(lbs[..n], zone);
      EndpointsOfPrefix(lbs, n, n);
    }
  }

  lemma {:induction false} AddedAt(lbs: seq<Loadbalancer>, zone: string, i: nat, k: nat)
    requires i < |lbs| && k < |lbs[i].endpoints|
    ensures var at := EndpointsBefore(lbs, i) + k;
            && at < |Added(lbs, zone)|
            && Added(lbs, zone)[at] == Record(ClassIN, RecordName(lbs[i].name, zone), 60, A,
                                              IPString(lbs[i].endpoints[k].endpoint.ip), 0)
  {
    var n := |lbs| - 1;
    EndpointsOfPrefix(lbs, n, i);
    AddedLength(lbs[..n], zone);
    if i < n {
      AddedAt(lbs[..n], zone, i, k);
    } else {
      EndpointsOfPrefix(lbs, n, n);
      assert Added(lbs, zone) == Added(lbs[..n], zone) + ARecords(lbs[n], zone);
      assert ARecords(lbs[n], zone)[k] == ARecord(lbs[n], zone, k);
    }
  }

  /** The first records of a rebuilt zone are the unclaimed old ones, in their old order. */
  lemma KeptComeFirst(z: Zone, lbs: seq<Loadbalancer>, i: nat)
    requires i < |z.records| && !IsClaimed(z.records[i], lbs, z.name)
    ensures var records, at := RebuildZone(z, lbs).records, UnclaimedBefore(z.records, lbs, z.name, i);
            && at < UnclaimedBefore(z.records, lbs, z.name, |z.records|) <= |records|
            && records[at] == z.records[i]
  {
    ForeignAt(z.records, lbs, z.name, i);
  }

  /** The others follow them: one for each endpoint, loadbalancer by loadbalancer, in list order. */
  lemma AddedComeLast(z: Zone, lbs: seq<Loadbalancer>, i: nat, k: nat)
    requires i < |lbs| && k < |lbs[i].endpoints|
    ensures var records, kept := RebuildZone(z, lbs).records, UnclaimedBefore(z.records, lbs, z.name, |z.records|);
            var at := kept + EndpointsBefore(lbs, i) + k;
            && |records| == kept + EndpointsBefore(lbs, |lbs|)
            && at < |records|
            && records[at] == Record(ClassIN, RecordName(lbs[i].name, z.name), 60, A,
                                     IPString(lbs[i].endpoints[k].endpoint.ip), 0)
  {
    ForeignLength(z.records, lbs, z.name);
    AddedLength(lbs, z.name);
    AddedAt(lbs, z.name, i, k);
  }

  /* ---------- idempotence ---------- */

  lemma {:induction false} ForeignAppend(a: seq<Record>, b: seq<Record>, names: set<string>)
    ensures Foreign(a + b, names) == Foreign(a, names) + Foreign(b, names)
  {
    if b == [] {
      assert a + b == a;
    } else {
      var n := |b| - 1;
      assert (a + b)[..|a + b| - 1] == a + b[..n];
      ForeignAppend(a, b[..n], names);
    }
  }

  lemma {:induction false} ForeignTwice(records: seq<Record>, names: set<string>)
    ensures Foreign(Foreign(records, names), names) == Foreign(records, names)
  {
    if records != [] {
      var n := |records| - 1;
      ForeignTwice(records[..n], names);
      var f := Foreign(records[..n], names);
      assert (f + [records[n]])[..|f|] == f;
    }
  }

  lemma {:induction false} NothingForeign(records: seq<Record>, names: set<string>)
    requires forall r :: r in records ==> r.rtype == A && r.name in names
    ensures Foreign(records, names) == []
  {
    if records != [] {
      NothingForeign(records[..|records| - 1], names);
      assert records[|records| - 1] in records;
    }
  }

  /** Rebuilding a rebuilt zone changes nothing, record order included. */
  lemma RebuildIdempotent(z: Zone, lbs: seq<Loadbalancer>)
    ensures RebuildZone(RebuildZone(z, lbs), lbs) == RebuildZone(z, lbs)
  {
    var names, added := RecordNames(lbs, z.name), Added(lbs, z.name);
    ForeignAppend(Foreign(z.records, names), added, names);
    ForeignTwice(z.records, names);
    AddedMembers(lbs, z.name);
    NothingForeign(added, names);
  }
}
