/** The majority vote over agent health reports (etcdController.go). */
module Tally {
  import opened Wrappers
  import opened Strings
  import opened Net
  import opened LoadbalancerLists

  datatype Status = Status(ip: IP, port: int, healthy: bool)

  /** What etcd holds for an agent: nothing readable, text that does not parse, or a report. */
  datatype Report = Missing | Unparseable | Parsed(statuses: seq<Status>, time: uint64)

  const NANOS_PER_SECOND := 1_000_000_000

  const MAX_STATUS_AGE := 45 * NANOS_PER_SECOND

  /** Seconds from the year 1, where Go's clock starts, to the Unix epoch. */
  const UNIX_TO_INTERNAL := 62_135_596_800

  /** A conversion to int64 or an int64 addition that overflows. */
  function Int64(n: int): int {
    var m := n % 0x1_0000_0000_0000_0000;
    if m < 0x8000_0000_0000_0000 then m else m - 0x1_0000_0000_0000_0000
  }

  /** time.Duration saturates. */
  function Saturated(n: int): int {
    if n > MAX_INT64 then MAX_INT64 else if n < -MAX_INT64 - 1 then -MAX_INT64 - 1 else n
  }

  /** time.Since(time.Unix(int64(time), 0)): `now` counts nanoseconds since the Unix epoch. */
  function Since(now: int, time: uint64): int {
    var internal := Int64(Int64(time) + UNIX_TO_INTERNAL);
    Saturated(now - (internal - UNIX_TO_INTERNAL) * NANOS_PER_SECOND)
  }

  /** The report parses and is at most 45 seconds old. */
  predicate Fresh(r: Report, now: int) {
    r.Parsed? && Since(now, r.time) <= MAX_STATUS_AGE
  }

  /** A report is trusted exactly when it is at most 45 seconds old or dated in the future, unless it
      is dated so far ahead that Go's clock overflows. */
  lemma FreshIffRecent(statuses: seq<Status>, time: uint64, now: int)
    requires now >= 0
    ensures Fresh(Parsed(statuses, time), now)
       <==> && now - Int64(time) * NANOS_PER_SECOND <= 45 * NANOS_PER_SECOND
            && Int64(time) <= MAX_INT64 - UNIX_TO_INTERNAL
  {
    var unix := Int64(time);
    if unix <= MAX_INT64 - UNIX_TO_INTERNAL {
      assert Int64(unix + UNIX_TO_INTERNAL) == unix + UNIX_TO_INTERNAL;
    } else {
      assert Int64(unix + UNIX_TO_INTERNAL) == unix + UNIX_TO_INTERNAL - 0x1_0000_0000_0000_0000;
    }
  }

  /** The healthy entries for one endpoint in one list of statuses. */
  function HealthyEntries(statuses: seq<Status>, ip: IP, port: int): nat {
    if statuses == [] then 0
    else
      var n := |statuses| - 1;
      HealthyEntries(statuses[..n], ip, port)
      + if statuses[n].healthy && statuses[n].ip == ip && statuses[n].port == port then 1 else 0
  }

  function VotesOf(r: Report, now: int, ip: IP, port: int): nat {
    if Fresh(r, now) then HealthyEntries(r.statuses, ip, port) else 0
  }

  function Votes(reports: seq<Report>, now: int, ip: IP, port: int): nat {
    if reports == [] then 0
    else
      var n := |reports| - 1;
      Votes(reports[..n], now, ip, port) + VotesOf(reports[n], now, ip, port)
  }

  /** More healthy entries than half of all agents, down ones included. */
  predicate Healthy(reports: seq<Report>, now: int, e: Endpoint) {
    Votes(reports, now, e.ip, e.port) > |reports| / 2
  }

  function Live(reports: seq<Report>, now: int, eps: seq<EndpointProtocol>): seq<EndpointProtocol> {
    if eps == [] then []
    else
      var n := |eps| - 1;
      var init := Live(reports, now, eps[..n]);
      if Healthy(reports, now, eps[n].endpoint) then init + [eps[n]] else init
  }

  /** The loadbalancers with a live endpoint, in configuration order, with their live endpoints. */
  function Published(reports: seq<Report>, now: int, wanted: seq<Loadbalancer>): seq<Loadbalancer> {
    if wanted == [] then []
    else
      var n := |wanted| - 1;
      var init := Published(reports, now, wanted[..n]);
      var live := Live(reports, now, wanted[n].endpoints);
      if live == [] then init else init + [Loadbalancer(wanted[n].name, live)]
  }

  /* ---------- what is published ---------- */

  lemma {:induction false} LiveCounts(reports: seq<Report>, now: int, eps: seq<EndpointProtocol>, e: EndpointProtocol)
    ensures multiset(Live(reports, now, eps))[e]
         == if Healthy(reports, now, e.endpoint) then multiset(eps)[e] else 0
  {
    if eps != [] {
      var n := |eps| - 1;
      LiveCounts(reports, now, eps[..n], e);
      assert eps == eps[..n] + [eps[n]];
    }
  }

  /** The live endpoints keep their order: the selection of a concatenation is the concatenation of
      the selections. */
  lemma {:induction false} LiveKeepsOrder(reports: seq<Report>, now: int,
                                          a: seq<EndpointProtocol>, b: seq<EndpointProtocol>)
    ensures Live(reports, now, a + b) == Live(reports, now, a) + Live(reports, now, b)
  {
    if b == [] {
      assert a + b == a;
    } else {
      assert (a + b)[..|a + b| - 1] == a + b[..|b| - 1];
      LiveKeepsOrder(reports, now, a, b[..|b| - 1]);
    }
  }

  /** And so do the published loadbalancers. */
  lemma {:induction false} PublishedKeepsOrder(reports: seq<Report>, now: int,
                                               a: seq<Loadbalancer>, b: seq<Loadbalancer>)
    ensures Published(reports, now, a + b) == Published(reports, now, a) + Published(reports, now, b)
  {
    if b == [] {
      assert a + b == a;
    } else {
      assert (a + b)[..|a + b| - 1] == a + b[..|b| - 1];
      PublishedKeepsOrder(reports, now, a, b[..|b| - 1]);
    }
  }

  /** Every published loadbalancer is a configured one cut down to its live endpoints, and none is empty. */
  lemma {:induction false} PublishedMembers(reports: seq<Report>, now: int, wanted: seq<Loadbalancer>)
    ensures forall lb :: lb in Published(reports, now, wanted) ==>
              lb.endpoints != [] &&
              exists w :: w in wanted && w.name == lb.name && lb.endpoints == Live(reports, now, w.endpoints)
    ensures forall w :: w in wanted && Live(reports, now, w.endpoints) != [] ==>
              Loadbalancer(w.name, Live(reports, now, w.endpoints)) in Published(reports, now, wanted)
  {
    if wanted != [] {
      var n := |wanted| - 1;
      PublishedMembers(reports, now, wanted[..n]);
      assert wanted == wanted[..n] + [wanted[n]];
      assert wanted[n] in wanted;
      assert forall w :: w in wanted[..n] ==> w in wanted;
    }
  }

  /** An endpoint is published exactly when it is configured and the vote calls it healthy. */
  lemma PublishedIffHealthy(reports: seq<Report>, now: int, wanted: seq<Loadbalancer>,
                            name: string, e: EndpointProtocol)
    ensures (exists lb :: lb in Published(reports, now, wanted) && lb.name == name && e in lb.endpoints)
       <==> (exists w :: w in wanted && w.name == name && e in w.endpoints) && Healthy(reports, now, e.endpoint)
  {
    PublishedMembers(reports, now, wanted);
    forall w | w in wanted
      ensures e in Live(reports, now, w.endpoints) <==> e in w.endpoints && Healthy(reports, now, e.endpoint)
    {
      LiveCounts(reports, now, w.endpoints, e);
      assert e in Live(reports, now, w.endpoints) <==> multiset(Live(reports, now, w.endpoints))[e] > 0;
      assert e in w.endpoints <==> multiset(w.endpoints)[e] > 0;
    }
    if w :| w in wanted && w.name == name && e in w.endpoints && Healthy(reports, now, e.endpoint) {
      assert Loadbalancer(w.name, Live(reports, now, w.endpoints)) in Published(reports, now, wanted);
    }
  }

  /* ---------- votes and agents ---------- */

  /** No fresh report has two healthy entries for the endpoint. */
  predicate OneVoteEach(reports: seq<Report>, now: int, e: Endpoint) {
    forall i :: 0 <= i < |reports| ==> VotesOf(reports[i], now, e.ip, e.port) <= 1
  }

  /** The agents that call the endpoint healthy in a fresh report. */
  function Voters(reports: seq<Report>, now: int, e: Endpoint): nat {
    if reports == [] then 0
    else
      var n := |reports| - 1;
      var last := reports[n];
      Voters(reports[..n], now, e)
      + if Fresh(last, now) && Status(e.ip, e.port, true) in last.statuses then 1 else 0
  }

  /** A strict majority of all agents calls the endpoint healthy. */
  predicate Majority(reports: seq<Report>, now: int, e: Endpoint) {
    2 * Voters(reports, now, e) > |reports|
  }

  lemma {:induction false} EntriesIffMember(statuses: seq<Status>, ip: IP, port: int)
    ensures HealthyEntries(statuses, ip, port) > 0 <==> Status(ip, port, true) in statuses
  {
    if statuses != [] {
      var n := |statuses| - 1;
      EntriesIffMember(statuses[..n], ip, port);
      assert statuses == statuses[..n] + [statuses[n]];
    }
  }

  /** Each healthy entry of a report is counted, and no other. */
  lemma {:induction false} EntriesAreCounted(statuses: seq<Status>, ip: IP, port: int)
    ensures HealthyEntries(statuses, ip, port) == multiset(statuses)[Status(ip, port, true)]
  {
    if statuses != [] {
      var n := |statuses| - 1;
      EntriesAreCounted(statuses[..n], ip, port);
      assert statuses == statuses[..n] + [statuses[n]];
    }
  }

  /** The votes number the voters exactly when each report votes once. */
  lemma {:induction false} VotesAreVoters(reports: seq<Report>, now: int, e: Endpoint)
    ensures Votes(reports, now, e.ip, e.port) >= Voters(reports, now, e)
    ensures Votes(reports, now, e.ip, e.port) == Voters(reports, now, e) <==> OneVoteEach(reports, now, e)
    ensures Voters(reports, now, e) <= |reports|
  {
    if reports != [] {
      var n := |reports| - 1;
      VotesAreVoters(reports[..n], now, e);
      if reports[n].Parsed? {
        EntriesIffMember(reports[n].statuses, e.ip, e.port);
      }
      assert OneVoteEach(reports, now, e)
        <==> OneVoteEach(reports[..n], now, e) && VotesOf(reports[n], now, e.ip, e.port) <= 1;
    }
  }

  lemma {:induction false} VotesAppend(a: seq<Report>, b: seq<Report>, now: int, e: Endpoint)
    ensures Votes(a + b, now, e.ip, e.port) == Votes(a, now, e.ip, e.port) + Votes(b, now, e.ip, e.port)
    ensures Voters(a + b, now, e) == Voters(a, now, e) + Voters(b, now, e)
  {
    if b == [] {
      assert a + b == a;
    } else {
      assert (a + b)[..|a + b| - 1] == a + b[..|b| - 1];
      VotesAppend(a, b[..|b| - 1], now, e);
    }
  }

  /** Among any further agents that vote once, the vote is the majority of the agents. */
  ghost predicate MajorityAmongOthers(reports: seq<Report>, now: int, e: Endpoint) {
    forall others :: OneVoteEach(others, now, e) ==>
      (Healthy(reports + others, now, e) <==> Majority(reports + others, now, e))
  }

  /** Company in which voters are exactly half of the agents. */
  lemma HalfVote(reports: seq<Report>, now: int, e: Endpoint) returns (others: seq<Report>)
    requires !OneVoteEach(reports, now, e)
    ensures OneVoteEach(others, now, e)
    ensures 2 * Voters(reports + others, now, e) == |reports + others|
  {
    VotesAreVoters(reports, now, e);
    var i :| 0 <= i < |reports| && VotesOf(reports[i], now, e.ip, e.port) > 1;
    var s := Status(e.ip, e.port, true);
    var n, v := |reports|, Voters(reports, now, e);
    var one := if 2 * v > n then Missing else Parsed([s], reports[i].time);
    var k: nat := if 2 * v > n then 2 * v - n else n - 2 * v;
    others := seq(k, _ => one);
    assert [s][..0] == [] && HealthyEntries([s], e.ip, e.port) == 1 && s in [s];
    SameVotes(others, one, now, e);
    VotesAppend(reports, others, now, e);
  }

  lemma {:induction false} SameVotes(reports: seq<Report>, one: Report, now: int, e: Endpoint)
    requires forall r :: r in reports ==> r == one
    ensures Voters(reports, now, e)
         == if Fresh(one, now) && Status(e.ip, e.port, true) in one.statuses then |reports| else 0
  {
    if reports != [] {
      var n := |reports| - 1;
      assert reports[n] in reports;
      assert forall r :: r in reports[..n] ==> r in reports;
      SameVotes(reports[..n], one, now, e);
    }
  }

  /** The vote is a vote of agents, in whatever company, exactly when no report repeats an entry. */
  lemma MajorityIffOneVoteEach(reports: seq<Report>, now: int, e: Endpoint)
    ensures MajorityAmongOthers(reports, now, e) <==> OneVoteEach(reports, now, e)
  {
    if OneVoteEach(reports, now, e) {
      forall others | OneVoteEach(others, now, e)
        ensures Healthy(reports + others, now, e) <==> Majority(reports + others, now, e)
      {
        VotesAreVoters(reports + others, now, e);
      }
    } else {
      var others := HalfVote(reports, now, e);
      VotesAreVoters(reports, now, e);
      VotesAreVoters(others, now, e);
      VotesAppend(reports, others, now, e);
      assert Healthy(reports + others, now, e) && !Majority(reports + others, now, e);
    }
  }

  /** With one vote each, an endpoint is published exactly when it is configured and a strict majority
      of all agents calls it healthy. */
  lemma PublishedIffMajority(reports: seq<Report>, now: int, wanted: seq<Loadbalancer>,
                             name: string, e: EndpointProtocol)
    requires OneVoteEach(reports, now, e.endpoint)
    ensures (exists lb :: lb in Published(reports, now, wanted) && lb.name == name && e in lb.endpoints)
       <==> (exists w :: w in wanted && w.name == name && e in w.endpoints) && Majority(reports, now, e.endpoint)
  {
    PublishedIffHealthy(reports, now, wanted, name, e);
    VotesAreVoters(reports, now, e.endpoint);
  }

  /* ---------- faults ---------- */

  function Below(faulty: set<nat>, n: nat): set<nat> {
    set i | i in faulty && i < n
  }

  lemma BelowNext(faulty: set<nat>, n: nat)
    ensures |Below(faulty, n + 1)| == |Below(faulty, n)| + if n in faulty then 1 else 0
  {
    if n in faulty {
      assert Below(faulty, n + 1) == Below(faulty, n) + {n};
    } else {
      assert Below(faulty, n + 1) == Below(faulty, n);
    }
  }

  lemma {:induction false} VotesAtLeast(reports: seq<Report>, now: int, e: Endpoint, faulty: set<nat>)
    requires forall i :: 0 <= i < |reports| && i !in faulty ==> VotesOf(reports[i], now, e.ip, e.port) >= 1
    ensures Votes(reports, now, e.ip, e.port) + |Below(faulty, |reports|)| >= |reports|
  {
    if reports != [] {
      VotesAtLeast(reports[..|reports| - 1], now, e, faulty);
      BelowNext(faulty, |reports| - 1);
    }
  }

  lemma {:induction false} VotesAtMost(reports: seq<Report>, now: int, e: Endpoint, faulty: set<nat>)
    requires forall i :: 0 <= i < |reports| ==>
               VotesOf(reports[i], now, e.ip, e.port) <= if i in faulty then 1 else 0
    ensures Votes(reports, now, e.ip, e.port) <= |Below(faulty, |reports|)|
  {
    if reports != [] {
      VotesAtMost(reports[..|reports| - 1], now, e, faulty);
      BelowNext(faulty, |reports| - 1);
    }
  }

  lemma FaultyBelow(faulty: set<nat>, n: nat)
    ensures |Below(faulty, n)| <= |faulty|
  {
    assert Below(faulty, n) <= faulty;
    SubsetSize(Below(faulty, n), faulty);
  }

  lemma SubsetSize(a: set<nat>, b: set<nat>)
    requires a <= b
    ensures |a| <= |b|
  {
    assert b == a + (b - a);
  }

  /** With fewer than half of the agents faulty in any way, an endpoint the others call healthy is healthy. */
  lemma HealthyDespiteFaults(reports: seq<Report>, now: int, e: Endpoint, faulty: set<nat>)
    requires 2 * |faulty| < |reports|
    requires forall i :: 0 <= i < |reports| && i !in faulty ==> VotesOf(reports[i], now, e.ip, e.port) >= 1
    ensures Healthy(reports, now, e)
  {
    VotesAtLeast(reports, now, e, faulty);
    FaultyBelow(faulty, |reports|);
  }

  /** With at most half of the agents faulty, an endpoint the others call down is not healthy. */
  lemma DownDespiteFaults(reports: seq<Report>, now: int, e: Endpoint, faulty: set<nat>)
    requires 2 * |faulty| <= |reports| && OneVoteEach(reports, now, e)
    requires forall i :: 0 <= i < |reports| && i !in faulty ==> VotesOf(reports[i], now, e.ip, e.port) == 0
    ensures !Healthy(reports, now, e)
  {
    VotesAtMost(reports, now, e, faulty);
    FaultyBelow(faulty, |reports|);
  }

  lemma {:induction false} VotesExactly(reports: seq<Report>, now: int, e: Endpoint, faulty: set<nat>)
    requires forall i :: 0 <= i < |reports| ==> VotesOf(reports[i], now, e.ip, e.port) == if i in faulty then 0 else 1
    ensures Votes(reports, now, e.ip, e.port) + |Below(faulty, |reports|)| == |reports|
  {
    if reports != [] {
      VotesExactly(reports[..|reports| - 1], now, e, faulty);
      BelowNext(faulty, |reports| - 1);
    }
  }

  /** The first bound is tight: when the faulty agents are silent and each other agent votes once, the
      endpoint is healthy exactly below half. */
  lemma SilentFaultsThreshold(reports: seq<Report>, now: int, e: Endpoint, faulty: set<nat>)
    requires forall i :: i in faulty ==> i < |reports|
    requires forall i :: 0 <= i < |reports| ==> VotesOf(reports[i], now, e.ip, e.port) == if i in faulty then 0 else 1
    ensures Healthy(reports, now, e) <==> 2 * |faulty| < |reports|
  {
    assert Below(faulty, |reports|) == faulty;
    VotesExactly(reports, now, e, faulty);
  }

  lemma {:induction false} VotesOfFaulty(reports: seq<Report>, now: int, e: Endpoint, faulty: set<nat>)
    requires forall i :: 0 <= i < |reports| ==> VotesOf(reports[i], now, e.ip, e.port) == if i in faulty then 1 else 0
    ensures Votes(reports, now, e.ip, e.port) == |Below(faulty, |reports|)|
  {
    if reports != [] {
      VotesOfFaulty(reports[..|reports| - 1], now, e, faulty);
      BelowNext(faulty, |reports| - 1);
    }
  }

  /** So is the second: when the faulty agents each vote once and no other agent does, the endpoint is
      healthy exactly above half. */
  lemma LoudFaultsThreshold(reports: seq<Report>, now: int, e: Endpoint, faulty: set<nat>)
    requires forall i :: i in faulty ==> i < |reports|
    requires forall i :: 0 <= i < |reports| ==> VotesOf(reports[i], now, e.ip, e.port) == if i in faulty then 1 else 0
    ensures Healthy(reports, now, e) <==> 2 * |faulty| > |reports|
  {
    assert Below(faulty, |reports|) == faulty;
    VotesOfFaulty(reports, now, e, faulty);
  }

  lemma {:induction false} AtMostOneOfTwo(reports: seq<Report>, now: int, e1: Endpoint, e2: Endpoint)
    requires forall i :: 0 <= i < |reports| ==>
               VotesOf(reports[i], now, e1.ip, e1.port) + VotesOf(reports[i], now, e2.ip, e2.port) <= 1
    ensures Votes(reports, now, e1.ip, e1.port) + Votes(reports, now, e2.ip, e2.port) <= |reports|
  {
    if reports != [] {
      AtMostOneOfTwo(reports[..|reports| - 1], now, e1, e2);
    }
  }

  /** Any two published endpoints were both called healthy by one and the same fresh agent. */
  lemma MajoritiesIntersect(reports: seq<Report>, now: int, e1: Endpoint, e2: Endpoint)
    requires Healthy(reports, now, e1) && Healthy(reports, now, e2)
    requires OneVoteEach(reports, now, e1) && OneVoteEach(reports, now, e2)
    ensures exists i :: 0 <= i < |reports| && Fresh(reports[i], now)
              && VotesOf(reports[i], now, e1.ip, e1.port) == 1 && VotesOf(reports[i], now, e2.ip, e2.port) == 1
  {
    if forall i :: 0 <= i < |reports| ==>
         VotesOf(reports[i], now, e1.ip, e1.port) + VotesOf(reports[i], now, e2.ip, e2.port) <= 1 {
      AtMostOneOfTwo(reports, now, e1, e2);
    }
  }

  /** Without one vote per report a single agent can be a majority. */
  lemma RepeatedEntriesOutvote(now: int, e: Endpoint, time: uint64, others: Report)
    requires Fresh(Parsed([Status(e.ip, e.port, true), Status(e.ip, e.port, true)], time), now) && others.Missing?
    ensures var s := Status(e.ip, e.port, true);
            var loud := Parsed([s, s], time);
            Healthy([loud, others, others], now, e) && !Majority([loud, others, others], now, e)
  {
    var s := Status(e.ip, e.port, true);
    var loud := Parsed([s, s], time);
    assert [s, s][..1] == [s] && [s][..0] == [];
    assert HealthyEntries([s], e.ip, e.port) == 1;
    assert HealthyEntries([s, s], e.ip, e.port) == 2;
    assert [loud, others, others][..2] == [loud, others] && [loud, others][..1] == [loud] && [loud][..0] == [];
    assert Votes([loud], now, e.ip, e.port) == VotesOf(loud, now, e.ip, e.port);
    assert Votes([loud, others], now, e.ip, e.port) == VotesOf(loud, now, e.ip, e.port);
    assert Voters([loud], now, e) == 1;
    assert Voters([loud, others], now, e) == 1;
  }

  /* ---------- monotonicity ---------- */

  /** `r'` is like `r` but possibly fresh where `r` is not, or healthy where `r` is not. */
  ghost predicate Improves(r: Report, r': Report, now: int) {
    Fresh(r, now) ==>
      && Fresh(r', now)
      && |r'.statuses| == |r.statuses|
      && forall k :: 0 <= k < |r.statuses| ==>
           && r'.statuses[k].ip == r.statuses[k].ip && r'.statuses[k].port == r.statuses[k].port
           && (r.statuses[k].healthy ==> r'.statuses[k].healthy)
  }

  ghost predicate AllImprove(rs: seq<Report>, rs': seq<Report>, now: int) {
    |rs'| == |rs| && forall i :: 0 <= i < |rs| ==> Improves(rs[i], rs'[i], now)
  }

  lemma {:induction false} EntriesMonotone(ss: seq<Status>, ss': seq<Status>, ip: IP, port: int)
    requires |ss'| == |ss|
    requires forall k :: 0 <= k < |ss| ==>
               ss'[k].ip == ss[k].ip && ss'[k].port == ss[k].port && (ss[k].healthy ==> ss'[k].healthy)
    ensures HealthyEntries(ss, ip, port) <= HealthyEntries(ss', ip, port)
  {
    if ss != [] {
      EntriesMonotone(ss[..|ss| - 1], ss'[..|ss| - 1], ip, port);
    }
  }

  lemma {:induction false} VotesMonotone(rs: seq<Report>, rs': seq<Report>, now: int, ip: IP, port: int)
    requires AllImprove(rs, rs', now)
    ensures Votes(rs, now, ip, port) <= Votes(rs', now, ip, port)
  {
    if rs != [] {
      var n := |rs| - 1;
      VotesMonotone(rs[..n], rs'[..n], now, ip, port);
      if Fresh(rs[n], now) {
        EntriesMonotone(rs[n].statuses, rs'[n].statuses, ip, port);
      }
    }
  }

  /** Turning reports fresh or healthy never removes a published endpoint. */
  lemma PublishedMonotone(rs: seq<Report>, rs': seq<Report>, now: int, wanted: seq<Loadbalancer>,
                          name: string, e: EndpointProtocol)
    requires AllImprove(rs, rs', now)
    requires exists lb :: lb in Published(rs, now, wanted) && lb.name == name && e in lb.endpoints
    ensures exists lb :: lb in Published(rs', now, wanted) && lb.name == name && e in lb.endpoints
  {
    PublishedIffHealthy(rs, now, wanted, name, e);
    VotesMonotone(rs, rs', now, e.endpoint.ip, e.endpoint.port);
    PublishedIffHealthy(rs', now, wanted, name, e);
  }
}
