/** Safety of the reconciler over whole runs, with arbitrary provider answers (dnsController.go). */
module Runs {
  import opened Wrappers
  import opened Strings
  import opened LoadbalancerLists
  import opened Matching
  import opened Zones
  import opened Reconciler

  /** The controller and the zones upstream. */
  datatype World = World(ctl: State, up: map<string, Zone>)

  /** A tick of the controller, or a write by somebody else. */
  datatype Event = TickEvent(t: Tick) | Outside(up: map<string, Zone>)

  /** The effect of a sync's UpdateZone calls upstream. */
  function Apply(up: map<string, Zone>, attempts: seq<Zone>, applied: set<string>): map<string, Zone> {
    if attempts == [] then up
    else
      var z := attempts[|attempts| - 1];
      var before := Apply(up, attempts[..|attempts| - 1], applied);
      if z.name in applied then before[z.name := z] else before
  }

  function Step(c: Config, w: World, e: Event): World {
    match e
    case Outside(up) => w.(up := up)
    case TickEvent(t) =>
      var o := RunTick(c, w.ctl, t);
      World(o.state, Apply(w.up, o.attempts, t.applied))
  }

  function Run(c: Config, w: World, es: seq<Event>): World {
    if es == [] then w else Step(c, Run(c, w, es[..|es| - 1]), es[|es| - 1])
  }

  /** Every answer meets the contract of a fetch; nothing is said about failures or outside writes. */
  predicate ValidRun(c: Config, w: World, es: seq<Event>) {
    es == [] || (
      var before, e := es[..|es| - 1], es[|es| - 1];
      ValidRun(c, w, before) && (e.TickEvent? ==> ValidTick(c, Run(c, w, before).ctl, e.t)))
  }

  /** All UpdateZone calls of a run. */
  function Writes(c: Config, w: World, es: seq<Event>): seq<Zone> {
    if es == [] then []
    else
      var before, e := es[..|es| - 1], es[|es| - 1];
      Writes(c, w, before) + if e.TickEvent? then RunTick(c, Run(c, w, before).ctl, e.t).attempts else []
  }

  function Start(up: map<string, Zone>): World {
    World(INITIAL, up)
  }

  lemma {:induction false} KeepsCachedFrom(c: Config, w: World, es: seq<Event>)
    requires Cached(c, w.ctl) && ValidRun(c, w, es)
    ensures Cached(c, Run(c, w, es).ctl)
  {
    if es != [] {
      var before, e := es[..|es| - 1], es[|es| - 1];
      KeepsCachedFrom(c, w, before);
      if e.TickEvent? {
        TickKeepsCached(c, Run(c, w, before).ctl, e.t);
      }
    }
  }

  /** The cache hashes match the cached zones in every reachable state. */
  lemma RunKeepsCached(c: Config, up: map<string, Zone>, es: seq<Event>)
    requires ValidRun(c, Start(up), es)
    ensures Cached(c, Run(c, Start(up), es).ctl)
  {
    KeepsCachedFrom(c, Start(up), es);
  }

  /* ---------- no failed write is forgotten ---------- */

  /** Between ticks every wanted zone is either cached as it is upstream, or both gates are open for it. */
  lemma RetryInvariant(c: Config, up: map<string, Zone>, es: seq<Event>)
    requires ValidRun(c, Start(up), es)
    requires NoCollision(c, Run(c, Start(up), es).ctl, false)
    ensures var s := Run(c, Start(up), es).ctl;
            forall w :: w in s.wanted ==>
              w in s.cur || (CachedHash(s.hashMap, w.name) != c.zoneHash(w) && s.curHash != s.wantedHash)
  {
    RunKeepsCached(c, up, es);
    var s := Run(c, Start(up), es).ctl;
    forall w | w in s.wanted && w !in s.cur
      ensures CachedHash(s.hashMap, w.name) != c.zoneHash(w) && s.curHash != s.wantedHash
    {
      ChangedIffMissing(c, s, w);
    }
  }

  /** Ticks whose fetch fails leave the whole state as it was. */
  lemma {:induction false} FailedFetchesChangeNothing(c: Config, w: World, ts: seq<Tick>)
    requires forall t :: t in ts ==> t.promoted.None? && !Working(c, w.ctl, t)
    ensures Run(c, w, seq(|ts|, i requires 0 <= i < |ts| => TickEvent(ts[i]))) == w
  {
    var es := seq(|ts|, i requires 0 <= i < |ts| => TickEvent(ts[i]));
    if ts != [] {
      var n := |ts| - 1;
      FailedFetchesChangeNothing(c, w, ts[..n]);
      assert es[..n] == seq(n, i requires 0 <= i < n => TickEvent(ts[..n][i]));
      assert ts[n] in ts;
    }
  }

  /** A list that is promoted but not rebuilt for. */
  predicate Pending(s: State) {
    s.lbs.Some? && s.wantedLBHash != s.lbs.value.hash
  }

  predicate NoPromotion(es: seq<Event>) {
    forall e :: e in es && e.TickEvent? ==> e.t.promoted.None?
  }

  /** Until the next promotion the wanted zones are frozen, whatever happens, and only they are written. */
  lemma {:induction false} WantedIsFrozen(c: Config, w: World, es: seq<Event>)
    requires w.ctl.lbs.Some? && !Pending(w.ctl) && NoPromotion(es)
    ensures var s := Run(c, w, es).ctl;
            s.wanted == w.ctl.wanted && s.lbs == w.ctl.lbs && s.wantedLBHash == w.ctl.wantedLBHash
    ensures forall z :: z in Writes(c, w, es) ==> z in w.ctl.wanted
  {
    if es != [] {
      var before, e := es[..|es| - 1], es[|es| - 1];
      assert e in es;
      assert forall e' :: e' in before ==> e' in es;
      WantedIsFrozen(c, w, before);
      var s := Run(c, w, before).ctl;
      if e.TickEvent? && Working(c, s, e.t) {
        ChangedMembers(c, Prepared(c, s, e.t).hashMap, s.wanted);
      }
    }
  }

  /** A zone whose write failed stays wanted through whatever happens until the next promotion. Then,
      however many failures lie between, a working tick writes it again exactly when the copy it works
      with still differs, as it does if nothing was fetched meanwhile. */
  lemma FailedWriteIsRetried(c: Config, w: World, t1: Tick, es: seq<Event>, t2: Tick, z: Zone)
    requires Cached(c, w.ctl) && ValidTick(c, w.ctl, t1) && Working(c, w.ctl, t1)
    requires z in RunTick(c, w.ctl, t1).attempts && z.name !in t1.ok
    requires var w1 := Step(c, w, TickEvent(t1));
             var s := Run(c, w1, es).ctl;
             && ValidRun(c, w1, es) && NoPromotion(es) && t2.promoted.None?
             && ValidTick(c, s, t2) && Working(c, s, t2) && NoCollision(c, Prepared(c, s, t2), false)
    ensures var s := Run(c, Step(c, w, TickEvent(t1)), es).ctl;
            var p1, p2 := Prepared(c, w.ctl, t1), Prepared(c, s, t2);
            var again := z in RunTick(c, s, t2).attempts;
            && z in p2.wanted
            && (again <==> z !in p2.cur)
            && (p2.cur == p1.cur ==> again)
  {
    var w1 := Step(c, w, TickEvent(t1));
    TickKeepsCached(c, w.ctl, t1);
    AttemptedIsWanted(c, w.ctl, t1, z);
    KeepsCachedFrom(c, w1, es);
    WantedIsFrozen(c, w1, es);
    WrittenIffMissing(c, Run(c, w1, es).ctl, t2, z);
  }

  lemma AttemptedIsWanted(c: Config, s: State, t: Tick, z: Zone)
    requires Cached(c, s) && ValidTick(c, s, t) && Working(c, s, t) && z in RunTick(c, s, t).attempts
    ensures var s' := RunTick(c, s, t).state;
            s'.lbs.Some? && !Pending(s') && z in s'.wanted && z !in Prepared(c, s, t).cur
  {
    TickKeepsCached(c, s, t);
    var p := Prepared(c, s, t);
    ChangedMembers(c, p.hashMap, p.wanted);
    HashMapHolds(c, p.cur);
  }

  lemma WrittenIffMissing(c: Config, s: State, t: Tick, z: Zone)
    requires Cached(c, s) && ValidTick(c, s, t) && Working(c, s, t) && t.promoted.None?
    requires !Pending(s) && z in s.wanted && NoCollision(c, Prepared(c, s, t), false)
    ensures var p := Prepared(c, s, t);
            z in p.wanted && (z in RunTick(c, s, t).attempts <==> z !in p.cur)
  {
    TickKeepsCached(c, s, t);
    var p := Prepared(c, s, t);
    AttemptsAreMissing(c, p, false);
    MissingMembers(p.wanted, p.cur);
  }

  lemma {:induction false} ChangedMembers(c: Config, hashMap: map<string, uint64>, zs: seq<Zone>)
    ensures forall z :: z in Changed(c, hashMap, zs) <==> z in zs && CachedHash(hashMap, z.name) != c.zoneHash(z)
  {
    if zs != [] {
      ChangedMembers(c, hashMap, zs[..|zs| - 1]);
      assert zs == zs[..|zs| - 1] + [zs[|zs| - 1]];
    }
  }

  /** What the gates compare, collisions included: a wanted zone is written exactly when its hash is not
      that of the cached zone of its name, or is not 0 if there is none, and the sync is forced or the
      hashes of the whole lists differ. */
  lemma AttemptedIff(c: Config, s: State, force: bool, w: Zone)
    requires Cached(c, s) && s.lastFetch.Some?
    ensures w in Attempts(c, s, force) <==>
            && w in s.wanted
            && (force || c.zonesHash(s.cur) != c.zonesHash(s.wanted))
            && (forall z :: z in s.cur && z.name == w.name ==> c.zoneHash(z) != c.zoneHash(w))
            && (w.name !in ZoneNames(s.cur) ==> c.zoneHash(w) != 0)
  {
    ChangedMembers(c, s.hashMap, s.wanted);
    HashMapHolds(c, s.cur);
    if w.name in ZoneNames(s.cur) {
      var z :| z in s.cur && z.name == w.name;
      assert CachedHash(s.hashMap, w.name) == c.zoneHash(z);
    }
  }

  /** After a tick that works, the next one refetches before the interval has passed exactly when one of
      the UpdateZone calls reported success; a sync whose writes all fail leaves it to the interval. */
  lemma RefetchesIffWritten(c: Config, s: State, t: Tick, next: Tick)
    requires Cached(c, s) && ValidTick(c, s, t) && Working(c, s, t) && next.promoted.None?
    ensures var o := RunTick(c, s, t);
            var fetched := if Fetches(c, s, t) then t.now else s.lastFetch.value;
            && (o.state.enforce <==> exists z :: z in o.attempts && z.name in t.ok)
            && o.state.lastFetch == Some(fetched)
            && (Fetches(c, o.state, next) <==> o.state.enforce || next.now - fetched > c.interval)
  {
  }

  /* ---------- foreign zones ---------- */

  /** The zones a tick's fetch selected for some loadbalancer of the list it fetched for. */
  function SelectedBy(c: Config, s: State, t: Tick): set<string> {
    if Fetches(c, s, t) && t.fetch.Fetched?
    then Selected(Promote(s, t.promoted).lbs.value.lbs, t.fetch.names)
    else {}
  }

  function SelectedSoFar(c: Config, w: World, es: seq<Event>): set<string> {
    if es == [] then {}
    else
      var before, e := es[..|es| - 1], es[|es| - 1];
      SelectedSoFar(c, w, before) + if e.TickEvent? then SelectedBy(c, Run(c, w, before).ctl, e.t) else {}
  }

  lemma TickStaysSelected(c: Config, s: State, t: Tick, selected: set<string>)
    requires ValidTick(c, s, t) && ZoneNames(s.cur) <= selected && ZoneNames(s.wanted) <= selected
    ensures var o, all := RunTick(c, s, t), selected + SelectedBy(c, s, t);
            ZoneNames(o.state.cur) <= all && ZoneNames(o.state.wanted) <= all && ZoneNames(o.attempts) <= all
  {
    if Working(c, s, t) {
      var s0, p := Promote(s, t.promoted), Prepared(c, s, t);
      RebuildKeepsNames(p.cur, s0.lbs.value.lbs, p.names);
      ChangedMembers(c, p.hashMap, p.wanted);
    }
  }

  /** UpdateZone is only ever called for a zone that a fetch selected for a loadbalancer. */
  lemma {:induction false} WritesAreSelected(c: Config, up: map<string, Zone>, es: seq<Event>)
    requires ValidRun(c, Start(up), es)
    ensures var s, selected := Run(c, Start(up), es).ctl, SelectedSoFar(c, Start(up), es);
            && ZoneNames(s.cur) <= selected
            && ZoneNames(s.wanted) <= selected
            && ZoneNames(Writes(c, Start(up), es)) <= selected
  {
    if es != [] {
      var before, e := es[..|es| - 1], es[|es| - 1];
      WritesAreSelected(c, up, before);
      if e.TickEvent? {
        TickStaysSelected(c, Run(c, Start(up), before).ctl, e.t, SelectedSoFar(c, Start(up), before));
      }
    }
  }

  /** Some promoted list of the run has a loadbalancer whose name contains `n`. */
  ghost predicate Claimed(es: seq<Event>, n: string) {
    exists e, lb :: e in es && e.TickEvent? && e.t.promoted.Some?
      && lb in e.t.promoted.value.lbs && Contains(lb.name, n)
  }

  lemma ClaimedGrows(es: seq<Event>, k: nat, n: string)
    requires k <= |es|
    ensures Claimed(es[..k], n) ==> Claimed(es, n)
  {
    assert forall e :: e in es[..k] ==> e in es;
  }

  lemma {:induction false} CurrentListWasPromoted(c: Config, up: map<string, Zone>, es: seq<Event>)
    ensures var lbs := Run(c, Start(up), es).ctl.lbs;
            lbs.Some? ==> exists e :: e in es && e.TickEvent? && e.t.promoted == lbs
  {
    if es != [] {
      var before, e := es[..|es| - 1], es[|es| - 1];
      CurrentListWasPromoted(c, up, before);
      assert forall e' :: e' in before ==> e' in es;
      assert e in es;
    }
  }

  lemma {:induction false} SelectedAreClaimed(c: Config, up: map<string, Zone>, es: seq<Event>, n: string)
    requires n in SelectedSoFar(c, Start(up), es)
    ensures Claimed(es, n)
  {
    var before, e := es[..|es| - 1], es[|es| - 1];
    if n in SelectedSoFar(c, Start(up), before) {
      SelectedAreClaimed(c, up, before, n);
      ClaimedGrows(es, |es| - 1, n);
    } else {
      var s0 := Promote(Run(c, Start(up), before).ctl, e.t.promoted);
      SelectedIsContained(s0.lbs.value.lbs, e.t.fetch.names, n);
      var lb :| lb in s0.lbs.value.lbs && Contains(lb.name, n);
      CurrentListWasPromoted(c, up, before);
      var e' :| (e' == e || e' in before) && e'.TickEvent? && e'.t.promoted == s0.lbs;
      assert e' in es;
    }
  }

  /** The zones as the outside writes alone leave them. */
  function OutsideOnly(up: map<string, Zone>, es: seq<Event>): map<string, Zone> {
    if es == [] then up
    else
      var e := es[|es| - 1];
      if e.Outside? then e.up else OutsideOnly(up, es[..|es| - 1])
  }

  predicate SameAt(m: map<string, Zone>, m': map<string, Zone>, n: string) {
    (n in m <==> n in m') && (n in m ==> m[n] == m'[n])
  }

  /** Upstream after a sync: the last applied attempt for a name, or the zone as it was. */
  lemma {:induction false} ApplyAt(up: map<string, Zone>, attempts: seq<Zone>, applied: set<string>, n: string)
    ensures var m := Apply(up, attempts, applied);
            if n in applied && n in ZoneNames(attempts)
            then n in m && m[n].name == n && m[n] in attempts
            else SameAt(m, up, n)
  {
    if attempts != [] {
      var k := |attempts| - 1;
      ApplyAt(up, attempts[..k], applied, n);
      assert attempts == attempts[..k] + [attempts[k]];
      assert n in ZoneNames(attempts) <==> n in ZoneNames(attempts[..k]) || attempts[k].name == n;
    }
  }

  /** A zone that a run does not write holds upstream exactly what others made it. */
  lemma {:induction false} UnwrittenIsUntouched(c: Config, w: World, es: seq<Event>, n: string)
    requires n !in ZoneNames(Writes(c, w, es))
    ensures SameAt(Run(c, w, es).up, OutsideOnly(w.up, es), n)
  {
    if es != [] {
      var before, e := es[..|es| - 1], es[|es| - 1];
      assert forall z :: z in Writes(c, w, before) ==> z in Writes(c, w, es);
      UnwrittenIsUntouched(c, w, before, n);
      if e.TickEvent? {
        var w1 := Run(c, w, before);
        var attempts := RunTick(c, w1.ctl, e.t).attempts;
        assert n !in ZoneNames(attempts) by {
          assert forall z :: z in attempts ==> z in Writes(c, w, es);
        }
        ApplyAt(w1.up, attempts, e.t.applied, n);
      }
    }
  }

  /** A zone that no promoted list ever matched is never written, and holds upstream exactly what
      others made it, over every run. */
  lemma ForeignZonesUntouched(c: Config, up: map<string, Zone>, es: seq<Event>, n: string)
    requires ValidRun(c, Start(up), es) && !Claimed(es, n)
    ensures n !in ZoneNames(Writes(c, Start(up), es))
    ensures SameAt(Run(c, Start(up), es).up, OutsideOnly(up, es), n)
  {
    WritesAreSelected(c, up, es);
    if n in SelectedSoFar(c, Start(up), es) {
      SelectedAreClaimed(c, up, es, n);
    }
    UnwrittenIsUntouched(c, Start(up), es, n);
  }
}
