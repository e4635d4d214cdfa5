/** What the reconciler never changes: the answers to queries that no list claims (dnsController.go). */
module Queries {
  import opened Wrappers
  import opened Strings
  import opened LoadbalancerLists
  import opened Matching
  import opened Zones
  import opened Reconciler
  import opened Runs
  import opened Convergence

  /** A query for records of one name and type in one zone. */
  datatype Query = Query(zone: string, name: string, rtype: RecordType)

  function Answer(z: Zone, q: Query): seq<string> {
    Values(z.records, q.name, q.rtype)
  }

  /** Some loadbalancer may belong to the zone and has the record name. */
  ghost predicate Claims(list: LoadbalancerList, q: Query) {
    q.rtype == A && exists lb :: lb in list.lbs && Contains(lb.name, q.zone) && RecordName(lb.name, q.zone) == q.name
  }

  lemma UnclaimedRebuild(z: Zone, list: LoadbalancerList, names: seq<string>, q: Query)
    requires !Claims(list, q) && z.name == q.zone
    ensures Answer(RebuildZone(z, Bucket(list.lbs, names, z.name)), q) == Answer(z, q)
  {
    var b := Bucket(list.lbs, names, z.name);
    RebuildServes(z, b, q.name, q.rtype);
    if q.rtype == A && q.name in RecordNames(b, z.name) {
      var lb :| lb in b && RecordName(lb.name, z.name) == q.name;
      BucketMembers(list.lbs, names, z.name);
      FirstMatchIsListed(lb.name, names);
    }
  }

  predicate AllAnswer(zs: seq<Zone>, q: Query, answer: seq<string>) {
    forall z :: z in zs && z.name == q.zone ==> Answer(z, q) == answer
  }

  /** The zone upstream and every copy of it give this answer. */
  ghost predicate Answers(w: World, q: Query, answer: seq<string>) {
    && q.zone in w.up && Answer(w.up[q.zone], q) == answer
    && AllAnswer(w.ctl.cur, q, answer) && AllAnswer(w.ctl.wanted, q, answer)
  }

  lemma RebuildKeepsAnswers(zs: seq<Zone>, list: LoadbalancerList, names: seq<string>, q: Query, answer: seq<string>)
    requires !Claims(list, q) && AllAnswer(zs, q, answer)
    ensures AllAnswer(RebuildZones(zs, list.lbs, names), q, answer)
  {
    var ws := RebuildZones(zs, list.lbs, names);
    forall z | z in ws && z.name == q.zone ensures Answer(z, q) == answer {
      var i :| 0 <= i < |ws| && ws[i] == z;
      assert zs[i] in zs;
      UnclaimedRebuild(zs[i], list, names, q);
    }
  }

  lemma PreparedAnswers(c: Config, w: World, t: Tick, q: Query, answer: seq<string>)
    requires HonestTick(c, w, t) && Working(c, w.ctl, t) && Answers(w, q, answer)
    requires !Claims(Promote(w.ctl, t.promoted).lbs.value, q)
    ensures Answers(World(Prepared(c, w.ctl, t), w.up), q, answer)
  {
    var p := Prepared(c, w.ctl, t);
    assert AllAnswer(p.cur, q, answer);
    RebuildKeepsAnswers(p.cur, p.lbs.value, p.names, q, answer);
  }

  /** A tick for a list that does not claim a query keeps its answer, whatever fails. */
  lemma TickKeepsAnswers(c: Config, w: World, t: Tick, q: Query, answer: seq<string>)
    requires HonestTick(c, w, t) && Answers(w, q, answer)
    requires var lbs := Promote(w.ctl, t.promoted).lbs; lbs.Some? ==> !Claims(lbs.value, q)
    ensures Answers(Step(c, w, TickEvent(t)), q, answer)
  {
    if Working(c, w.ctl, t) {
      var p, o := Prepared(c, w.ctl, t), RunTick(c, w.ctl, t);
      PreparedAnswers(c, w, t, q, answer);
      ChangedMembers(c, p.hashMap, p.wanted);
      ApplyAt(w.up, o.attempts, t.applied, q.zone);
    }
  }

  /** No list promoted in the run claims the query. */
  ghost predicate Unclaimed(es: seq<Event>, q: Query) {
    forall e :: e in es && e.TickEvent? && e.t.promoted.Some? ==> !Claims(e.t.promoted.value, q)
  }

  /** Over every run without outside writes, failures included, the answer to a query that no promoted
      list claims never changes, in the zones that loadbalancers belong to as well. */
  lemma {:induction false} UnclaimedAnswersStay(c: Config, up: map<string, Zone>, es: seq<Event>, q: Query)
    requires HonestRun(c, Start(up), es) && q.zone in up && Unclaimed(es, q)
    ensures Answers(Run(c, Start(up), es), q, Answer(up[q.zone], q))
  {
    if es != [] {
      var before, e := es[..|es| - 1], es[|es| - 1];
      assert e in es;
      assert forall e' :: e' in before ==> e' in es;
      UnclaimedAnswersStay(c, up, before, q);
      var w := Run(c, Start(up), before);
      CurrentListWasPromoted(c, up, before);
      TickKeepsAnswers(c, w, e.t, q, Answer(up[q.zone], q));
    }
  }
}
