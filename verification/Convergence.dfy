/** Convergence, quiescence and repair of the reconciler against the upstream zones (dnsController.go). */
module Convergence {
  import opened Wrappers
  import opened LoadbalancerLists
  import opened Matching
  import opened Zones
  import opened Reconciler
  import opened Runs

  /** A successful fetch read the zones as they are upstream. */
  predicate HonestFetch(up: map<string, Zone>, f: Fetch) {
    f.Fetched? ==> NameSet(f.names) == up.Keys && forall z :: z in f.zones ==> z.name in up && up[z.name] == z
  }

  /** The provider answers from `w.up`, and UpdateZone takes effect exactly when it reports success. */
  predicate HonestTick(c: Config, w: World, t: Tick) {
    ValidTick(c, w.ctl, t) && (Fetches(c, w.ctl, t) ==> HonestFetch(w.up, t.fetch)) && t.applied == t.ok
  }

  /** Unless a refetch is due, the cached zones are the upstream zones. */
  ghost predicate Coherent(w: World) {
    !w.ctl.enforce ==> AllUpstream(w.ctl.cur, w.up)
  }

  predicate AllUpstream(zs: seq<Zone>, up: map<string, Zone>) {
    forall z :: z in zs ==> z.name in up && up[z.name] == z
  }

  lemma {:induction false} NothingApplied(up: map<string, Zone>, attempts: seq<Zone>, applied: set<string>)
    requires !AnyOf(attempts, applied)
    ensures Apply(up, attempts, applied) == up
  {
    if attempts != [] {
      var n := |attempts| - 1;
      assert attempts[n] in attempts;
      assert forall z :: z in attempts[..n] ==> z in attempts;
      NothingApplied(up, attempts[..n], applied);
    }
  }

  lemma TickKeepsCoherent(c: Config, w: World, t: Tick)
    requires HonestTick(c, w, t) && (Coherent(w) || (Working(c, w.ctl, t) && Fetches(c, w.ctl, t)))
    ensures Coherent(Step(c, w, TickEvent(t)))
    ensures Working(c, w.ctl, t) ==> AllUpstream(Prepared(c, w.ctl, t).cur, w.up)
  {
    var o := RunTick(c, w.ctl, t);
    if !AnyOf(o.attempts, t.ok) {
      NothingApplied(w.up, o.attempts, t.applied);
    }
  }

  /** The provider fails at will but honestly, and nobody else writes. */
  predicate HonestRun(c: Config, w: World, es: seq<Event>) {
    es == [] || (
      var before, e := es[..|es| - 1], es[|es| - 1];
      HonestRun(c, w, before) && e.TickEvent? && HonestTick(c, Run(c, w, before), e.t))
  }

  lemma {:induction false} RunKeepsCoherent(c: Config, w: World, es: seq<Event>)
    requires Coherent(w) && HonestRun(c, w, es)
    ensures ValidRun(c, w, es) && Coherent(Run(c, w, es))
    ensures OutsideOnly(w.up, es) == w.up
  {
    if es != [] {
      var before, e := es[..|es| - 1], es[|es| - 1];
      RunKeepsCoherent(c, w, before);
      TickKeepsCoherent(c, Run(c, w, before), e.t);
    }
  }

  /** The cached listing is one of the zones upstream, and the controller holds no other zone. */
  ghost predicate Listed(w: World) {
    && (w.ctl.lastFetch.Some? ==> ByLengthDesc(w.ctl.names) && NameSet(w.ctl.names) == w.up.Keys)
    && ZoneNames(w.ctl.cur) <= w.up.Keys
    && ZoneNames(w.ctl.wanted) <= w.up.Keys
  }

  lemma PreparedIsListed(c: Config, w: World, t: Tick)
    requires Listed(w) && HonestTick(c, w, t) && Working(c, w.ctl, t)
    ensures Listed(World(Prepared(c, w.ctl, t), w.up))
  {
    var p := Prepared(c, w.ctl, t);
    if Fetches(c, w.ctl, t) {
      assert forall z :: z in p.cur ==> z.name in w.up;
    }
    RebuildKeepsNames(p.cur, p.lbs.value.lbs, p.names);
  }

  /** An honest tick neither adds nor removes a zone upstream. */
  lemma TickKeepsListed(c: Config, w: World, t: Tick)
    requires Listed(w) && HonestTick(c, w, t)
    ensures Listed(Step(c, w, TickEvent(t))) && Step(c, w, TickEvent(t)).up.Keys == w.up.Keys
  {
    if Working(c, w.ctl, t) {
      var p, o := Prepared(c, w.ctl, t), RunTick(c, w.ctl, t);
      PreparedIsListed(c, w, t);
      ChangedMembers(c, p.hashMap, p.wanted);
      KnownZonesOnly(w.up, o.attempts, t.applied);
    }
  }

  lemma KnownZonesOnly(up: map<string, Zone>, attempts: seq<Zone>, applied: set<string>)
    requires ZoneNames(attempts) <= up.Keys
    ensures Apply(up, attempts, applied).Keys == up.Keys
  {
    forall n ensures n in Apply(up, attempts, applied) <==> n in up {
      ApplyAt(up, attempts, applied, n);
    }
  }

  /** What every world satisfies that the controller reached on its own. */
  ghost predicate Sound(c: Config, w: World) {
    Cached(c, w.ctl) && Coherent(w) && Listed(w)
  }

  lemma TickKeepsSound(c: Config, w: World, t: Tick)
    requires Sound(c, w) && HonestTick(c, w, t)
    ensures Sound(c, Step(c, w, TickEvent(t)))
  {
    TickKeepsCached(c, w.ctl, t);
    TickKeepsCoherent(c, w, t);
    TickKeepsListed(c, w, t);
  }

  /** Over every run without outside writes, failures included, the caches are those of the zones
      upstream unless a refetch is due, and no zone appears or disappears. */
  lemma {:induction false} RunKeepsSound(c: Config, up: map<string, Zone>, es: seq<Event>)
    requires HonestRun(c, Start(up), es)
    ensures Sound(c, Run(c, Start(up), es)) && Run(c, Start(up), es).up.Keys == up.Keys
  {
    if es != [] {
      var before, e := es[..|es| - 1], es[|es| - 1];
      RunKeepsSound(c, up, before);
      TickKeepsSound(c, Run(c, Start(up), before), e.t);
      TickKeepsListed(c, Run(c, Start(up), before), e.t);
    }
  }

  /* ---------- what a tick does upstream ---------- */

  /** The tick sees the zones as they are: it fetches now, or nothing changed since it last did. */
  predicate SeesUpstream(c: Config, w: World, t: Tick) {
    HonestTick(c, w, t) && Working(c, w.ctl, t)
    && (Fetches(c, w.ctl, t) || AllUpstream(w.ctl.cur, w.up))
  }

  lemma PreparedIsUpstream(c: Config, w: World, t: Tick)
    requires SeesUpstream(c, w, t)
    ensures AllUpstream(Prepared(c, w.ctl, t).cur, w.up)
  {
  }

  /** A tick that sees the zones as they are writes exactly the wanted zones that differ from
      upstream, and those that it did not fetch. */
  lemma WritesWhatDiffers(c: Config, w: World, t: Tick, z: Zone)
    requires Cached(c, w.ctl) && SeesUpstream(c, w, t)
    requires NoCollision(c, Prepared(c, w.ctl, t), t.promoted.Some?)
    ensures var p := Prepared(c, w.ctl, t);
            z in RunTick(c, w.ctl, t).attempts
            <==> z in p.wanted && !(z.name in ZoneNames(p.cur) && w.up[z.name] == z)
  {
    TickKeepsCached(c, w.ctl, t);
    PreparedIsUpstream(c, w, t);
    var p := Prepared(c, w.ctl, t);
    AttemptsAreMissing(c, p, t.promoted.Some?);
    MissingMembers(p.wanted, p.cur);
  }

  /** In every run without outside writes, failures included, the next working tick writes exactly
      what differs: nothing that differs is forgotten, nothing that agrees is rewritten. */
  lemma EveryRunWritesWhatDiffers(c: Config, up: map<string, Zone>, es: seq<Event>, t: Tick, z: Zone)
    requires HonestRun(c, Start(up), es)
    requires var w := Run(c, Start(up), es);
             HonestTick(c, w, t) && Working(c, w.ctl, t) && NoCollision(c, Prepared(c, w.ctl, t), t.promoted.Some?)
    ensures var w := Run(c, Start(up), es);
            var p := Prepared(c, w.ctl, t);
            AllUpstream(p.cur, w.up) &&
            (z in RunTick(c, w.ctl, t).attempts
             <==> z in p.wanted && !(z.name in ZoneNames(p.cur) && w.up[z.name] == z))
  {
    RunKeepsSound(c, up, es);
    var w := Run(c, Start(up), es);
    TickKeepsCoherent(c, w, t);
    WritesWhatDiffers(c, w, t, z);
  }

  /** No write of the tick fails. */
  predicate WritesSucceed(c: Config, w: World, t: Tick) {
    forall z :: z in RunTick(c, w.ctl, t).attempts ==> z.name in t.ok
  }

  lemma SameNameSameZone(zs: seq<Zone>, y: Zone, z: Zone)
    requires DistinctNames(zs) && y in zs && z in zs && y.name == z.name
    ensures y == z
  {
    var i :| 0 <= i < |zs| && zs[i] == y;
    var j :| 0 <= j < |zs| && zs[j] == z;
    assert !(i < j) && !(j < i);
  }

  /** After such a tick every wanted zone is upstream, and every other zone is untouched. */
  lemma TickEstablishesWanted(c: Config, w: World, t: Tick)
    requires Cached(c, w.ctl) && SeesUpstream(c, w, t) && WritesSucceed(c, w, t)
    requires NoCollision(c, Prepared(c, w.ctl, t), t.promoted.Some?)
    ensures var p, w' := Prepared(c, w.ctl, t), Step(c, w, TickEvent(t));
            && AllUpstream(p.wanted, w'.up)
            && (forall n :: n !in ZoneNames(p.wanted) ==> SameAt(w'.up, w.up, n))
            && w'.ctl.wanted == p.wanted
  {
    TickKeepsCached(c, w.ctl, t);
    PreparedIsUpstream(c, w, t);
    var p, o, w' := Prepared(c, w.ctl, t), RunTick(c, w.ctl, t), Step(c, w, TickEvent(t));
    AttemptsAreMissing(c, p, t.promoted.Some?);
    MissingMembers(p.wanted, p.cur);
    forall z | z in p.wanted ensures z.name in w'.up && w'.up[z.name] == z {
      ApplyAt(w.up, o.attempts, t.applied, z.name);
      if z.name in ZoneNames(o.attempts) {
        var y :| y in o.attempts && y.name == z.name;
        SameNameSameZone(p.wanted, w'.up[z.name], z);
      }
    }
    forall n | n !in ZoneNames(p.wanted) ensures SameAt(w'.up, w.up, n) {
      ApplyAt(w.up, o.attempts, t.applied, n);
    }
  }

  /** A promotion forces past the gate on whole lists and finds every wanted zone in the cache, so only
      the hashes of single zones matter. */
  lemma PromotionGates(c: Config, s: State, t: Tick)
    requires t.promoted.Some? && t.fetch.Fetched?
    requires ZonesDoNotCollide(c, Prepared(c, s, t))
    ensures NoCollision(c, Prepared(c, s, t), true)
  {
    var p := Prepared(c, s, t);
    RebuildKeepsNames(p.cur, p.lbs.value.lbs, p.names);
    assert forall w :: w in p.wanted ==> w.name in ZoneNames(p.wanted);
  }

  /** Each zone selected for the loadbalancers holds the rebuild of what it held in `up`, and every other
      zone is as it was. */
  ghost predicate Rebuilt(up: map<string, Zone>, up': map<string, Zone>, lbs: seq<Loadbalancer>, names: seq<string>) {
    forall n :: if n in Selected(lbs, names)
                then n in up && n in up' && up'[n] == RebuildZone(up[n], Bucket(lbs, names, n))
                else SameAt(up', up, n)
  }

  lemma RebuiltAt(zs: seq<Zone>, lbs: seq<Loadbalancer>, names: seq<string>,
                  up: map<string, Zone>, up': map<string, Zone>, n: string)
    requires AllUpstream(zs, up) && AllUpstream(RebuildZones(zs, lbs, names), up') && n in ZoneNames(zs)
    ensures n in up && n in up' && up'[n] == RebuildZone(up[n], Bucket(lbs, names, n))
  {
    var ws := RebuildZones(zs, lbs, names);
    var i :| 0 <= i < |zs| && zs[i].name == n;
    assert zs[i] in zs && ws[i] in ws;
  }

  lemma WantedIsRebuilt(zs: seq<Zone>, lbs: seq<Loadbalancer>, names: seq<string>,
                        up: map<string, Zone>, up': map<string, Zone>)
    requires ZoneNames(zs) == Selected(lbs, names) && AllUpstream(zs, up)
    requires AllUpstream(RebuildZones(zs, lbs, names), up')
    requires forall n :: n !in Selected(lbs, names) ==> SameAt(up', up, n)
    ensures Rebuilt(up, up', lbs, names)
  {
    forall n | n in Selected(lbs, names)
      ensures n in up && n in up' && up'[n] == RebuildZone(up[n], Bucket(lbs, names, n))
    {
      RebuiltAt(zs, lbs, names, up, up', n);
    }
  }

  /** Convergence: after a failure-free tick that promotes a list, each zone selected for the list
      holds the rebuild of its former contents, and every other zone is untouched. */
  lemma PromotionConverges(c: Config, w: World, t: Tick)
    requires Cached(c, w.ctl) && t.promoted.Some? && t.fetch.Fetched?
    requires HonestTick(c, w, t) && WritesSucceed(c, w, t) && ZonesDoNotCollide(c, Prepared(c, w.ctl, t))
    ensures Rebuilt(w.up, Step(c, w, TickEvent(t)).up, t.promoted.value.lbs, t.fetch.names)
  {
    PromotionGates(c, w.ctl, t);
    TickEstablishesWanted(c, w, t);
    var lbs, names, zs := t.promoted.value.lbs, t.fetch.names, t.fetch.zones;
    RebuildKeepsNames(zs, lbs, names);
    WantedIsRebuilt(zs, lbs, names, w.up, Step(c, w, TickEvent(t)).up);
  }

  lemma SameAtTrans(a: map<string, Zone>, b: map<string, Zone>, d: map<string, Zone>, n: string)
    requires SameAt(a, b, n) && SameAt(b, d, n)
    ensures SameAt(a, d, n)
  {
  }

  /** What an honest promotion whose fetch worked leaves, however many of its writes failed. */
  lemma PromotionWants(c: Config, w: World, t: Tick)
    requires Cached(c, w.ctl) && HonestTick(c, w, t) && t.promoted.Some? && t.fetch.Fetched?
    ensures var lbs, names, w1 := t.promoted.value.lbs, t.fetch.names, Step(c, w, TickEvent(t));
            && Cached(c, w1.ctl) && Coherent(w1)
            && w1.ctl.lbs == t.promoted && !Pending(w1.ctl)
            && w1.ctl.wanted == RebuildZones(t.fetch.zones, lbs, names)
            && ZoneNames(w1.ctl.wanted) == Selected(lbs, names)
            && forall n :: n !in Selected(lbs, names) ==> SameAt(w1.up, w.up, n)
  {
    var lbs, names, w1 := t.promoted.value.lbs, t.fetch.names, Step(c, w, TickEvent(t));
    var p, o := Prepared(c, w.ctl, t), RunTick(c, w.ctl, t);
    TickKeepsCached(c, w.ctl, t);
    TickKeepsCoherent(c, w, t);
    RebuildKeepsNames(t.fetch.zones, lbs, names);
    ChangedMembers(c, p.hashMap, p.wanted);
    forall n | n !in Selected(lbs, names) ensures SameAt(w1.up, w.up, n) {
      ApplyAt(w.up, o.attempts, t.applied, n);
    }
  }

  /** Failures only delay: once the fetch of a promotion worked, its own writes and any number of later
      fetches and writes may fail. One later tick that works and whose writes succeed completes the
      rebuild, as if nothing had failed. */
  lemma FailuresOnlyDelay(c: Config, w: World, t: Tick, es: seq<Event>, last: Tick)
    requires Cached(c, w.ctl) && HonestTick(c, w, t) && t.promoted.Some? && t.fetch.Fetched?
    requires HonestRun(c, Step(c, w, TickEvent(t)), es) && NoPromotion(es) && last.promoted.None?
    requires var w2 := Run(c, Step(c, w, TickEvent(t)), es);
             && HonestTick(c, w2, last) && Working(c, w2.ctl, last) && WritesSucceed(c, w2, last)
             && NoCollision(c, Prepared(c, w2.ctl, last), false)
    ensures var w2 := Run(c, Step(c, w, TickEvent(t)), es);
            Rebuilt(w.up, Step(c, w2, TickEvent(last)).up, t.promoted.value.lbs, t.fetch.names)
  {
    var lbs, names, w1 := t.promoted.value.lbs, t.fetch.names, Step(c, w, TickEvent(t));
    PromotionWants(c, w, t);
    RunKeepsCoherent(c, w1, es);
    KeepsCachedFrom(c, w1, es);
    WantedIsFrozen(c, w1, es);
    var w2 := Run(c, w1, es);
    TickEstablishesWanted(c, w2, last);
    var up' := Step(c, w2, TickEvent(last)).up;
    forall n | n !in Selected(lbs, names) ensures SameAt(up', w.up, n) {
      assert n !in ZoneNames(w1.ctl.wanted);
      UnwrittenIsUntouched(c, w1, es, n);
      SameAtTrans(up', w2.up, w1.up, n);
      SameAtTrans(up', w1.up, w.up, n);
    }
    WantedIsRebuilt(t.fetch.zones, lbs, names, w.up, up');
  }

  lemma MissingIffRebuildChanges(zs: seq<Zone>, lbs: seq<Loadbalancer>, names: seq<string>,
                                 up: map<string, Zone>, n: string)
    requires AllUpstream(zs, up)
    ensures n in ZoneNames(Missing(RebuildZones(zs, lbs, names), zs))
       <==> n in ZoneNames(zs) && n in up && RebuildZone(up[n], Bucket(lbs, names, n)) != up[n]
  {
    var ws := RebuildZones(zs, lbs, names);
    MissingMembers(ws, zs);
    forall i | 0 <= i < |zs| && zs[i].name == n
      ensures ws[i] in Missing(ws, zs) <==> RebuildZone(up[n], Bucket(lbs, names, n)) != up[n]
    {
      assert zs[i] in zs && ws[i] in ws;
    }
    assert forall z :: z in zs ==> exists i :: 0 <= i < |zs| && zs[i] == z;
    assert forall z :: z in ws ==> exists i :: 0 <= i < |zs| && ws[i] == z && zs[i].name == z.name;
  }

  /** A tick that promotes a list, for whatever listing it got, writes exactly the selected zones that
      the rebuild for this listing changes. */
  lemma PromotionWritesIffRebuildChanges(c: Config, w: World, t: Tick, n: string)
    requires Cached(c, w.ctl) && t.promoted.Some? && t.fetch.Fetched?
    requires HonestTick(c, w, t) && ZonesDoNotCollide(c, Prepared(c, w.ctl, t))
    ensures var lbs, names := t.promoted.value.lbs, t.fetch.names;
            n in ZoneNames(RunTick(c, w.ctl, t).attempts)
            <==> n in Selected(lbs, names) && n in w.up && RebuildZone(w.up[n], Bucket(lbs, names, n)) != w.up[n]
  {
    PromotionGates(c, w.ctl, t);
    TickKeepsCached(c, w.ctl, t);
    AttemptsAreMissing(c, Prepared(c, w.ctl, t), true);
    MissingIffRebuildChanges(t.fetch.zones, t.promoted.value.lbs, t.fetch.names, w.up, n);
  }

  /** In a tick that promotes a list the fetch and the matching agree: the fetched zones are exactly
      those with a loadbalancer, and the zone of every matched loadbalancer was fetched. */
  lemma FetchAgreesWithMatching(c: Config, w: World, t: Tick)
    requires HonestTick(c, w, t) && t.promoted.Some? && t.fetch.Fetched?
    ensures var p, lbs := Prepared(c, w.ctl, t), t.promoted.value.lbs;
            && (forall z :: z in p.cur ==> Bucket(lbs, p.names, z.name) != [])
            && (forall lb :: lb in lbs && FirstMatch(lb.name, p.names).Some? ==>
                  FirstMatch(lb.name, p.names).value in ZoneNames(p.cur))
            && ZoneNames(p.cur) == ZoneNames(p.wanted)
  {
    var p, lbs := Prepared(c, w.ctl, t), t.promoted.value.lbs;
    forall z | z in p.cur ensures Bucket(lbs, p.names, z.name) != [] {
      assert z.name in ZoneNames(p.cur);
      SelectedIffBucket(lbs, p.names, z.name);
    }
    RebuildKeepsNames(p.cur, lbs, p.names);
  }

  /** Repair: whatever others did to the zones, a failure-free tick that refetches without a new list
      restores every wanted zone to the snapshot taken at the last rebuild. */
  lemma RefetchRepairs(c: Config, w: World, t: Tick)
    requires Cached(c, w.ctl) && w.ctl.lbs.Some? && w.ctl.wantedLBHash == w.ctl.lbs.value.hash
    requires w.ctl.enforce || w.ctl.lastFetch.None? || t.now - w.ctl.lastFetch.value > c.interval
    requires t.promoted.None? && t.fetch.Fetched?
    requires HonestTick(c, w, t) && WritesSucceed(c, w, t) && NoCollision(c, Prepared(c, w.ctl, t), false)
    ensures var w' := Step(c, w, TickEvent(t));
            && AllUpstream(w.ctl.wanted, w'.up)
            && w'.ctl.wanted == w.ctl.wanted
            && (forall n :: n !in ZoneNames(w.ctl.wanted) ==> SameAt(w'.up, w.up, n))
  {
    TickEstablishesWanted(c, w, t);
  }

  /* ---------- quiescence ---------- */

  /** The upstream zones are the wanted ones for `list`, and the controller knows or is about to. */
  ghost predicate Settled(c: Config, w: World, list: LoadbalancerList) {
    var s := w.ctl;
    && Cached(c, s)
    && s.lbs == Some(list) && s.wantedLBHash == list.hash && s.lastFetch.Some?
    && UniqueLongest(list.lbs, w.up.Keys)
    && ByLengthDesc(s.names) && NameSet(s.names) == w.up.Keys
    && AllUpstream(s.wanted, w.up)
    && ZoneNames(s.wanted) == Selected(list.lbs, s.names)
    && (forall z :: z in s.wanted ==> RebuildZone(z, Bucket(list.lbs, s.names, z.name)) == z)
    && (s.enforce || forall z :: z in s.wanted ==> z in s.cur)
  }

  lemma RebuiltIsFixed(zs: seq<Zone>, lbs: seq<Loadbalancer>, names: seq<string>)
    ensures forall z :: z in RebuildZones(zs, lbs, names) ==> RebuildZone(z, Bucket(lbs, names, z.name)) == z
  {
    var ws := RebuildZones(zs, lbs, names);
    forall z | z in ws ensures RebuildZone(z, Bucket(lbs, names, z.name)) == z {
      var i :| 0 <= i < |ws| && ws[i] == z;
      RebuildIdempotent(zs[i], Bucket(lbs, names, z.name));
    }
  }

  lemma PromotionKeepsZones(c: Config, w: World, t: Tick)
    requires t.promoted.Some? && t.fetch.Fetched? && HonestTick(c, w, t)
    ensures Step(c, w, TickEvent(t)).up.Keys == w.up.Keys
  {
    var p, o := Prepared(c, w.ctl, t), RunTick(c, w.ctl, t);
    RebuildKeepsNames(p.cur, p.lbs.value.lbs, p.names);
    ChangedMembers(c, p.hashMap, p.wanted);
    assert forall z :: z in p.cur ==> z.name in w.up;
    KnownZonesOnly(w.up, o.attempts, t.applied);
  }

  /** A tick that wrote nothing found every wanted zone in the cache; any other makes a refetch due. */
  lemma WrittenOrCached(c: Config, w: World, t: Tick)
    requires Cached(c, w.ctl) && HonestTick(c, w, t) && Working(c, w.ctl, t) && WritesSucceed(c, w, t)
    requires NoCollision(c, Prepared(c, w.ctl, t), t.promoted.Some?)
    ensures var s := Step(c, w, TickEvent(t)).ctl;
            s.enforce || forall z :: z in s.wanted ==> z in s.cur
  {
    TickKeepsCached(c, w.ctl, t);
    var p, o := Prepared(c, w.ctl, t), RunTick(c, w.ctl, t);
    AttemptsAreMissing(c, p, t.promoted.Some?);
    MissingMembers(p.wanted, p.cur);
    assert forall z :: z in o.attempts ==> z.name in t.ok;
  }

  lemma PromotionSettles(c: Config, w: World, t: Tick)
    requires Cached(c, w.ctl) && t.promoted.Some? && t.fetch.Fetched?
    requires HonestTick(c, w, t) && WritesSucceed(c, w, t) && ZonesDoNotCollide(c, Prepared(c, w.ctl, t))
    requires UniqueLongest(t.promoted.value.lbs, w.up.Keys)
    ensures Settled(c, Step(c, w, TickEvent(t)), t.promoted.value)
  {
    PromotionWants(c, w, t);
    PromotionGates(c, w.ctl, t);
    TickEstablishesWanted(c, w, t);
    PromotionKeepsZones(c, w, t);
    WrittenOrCached(c, w, t);
    RebuiltIsFixed(t.fetch.zones, t.promoted.value.lbs, t.fetch.names);
  }

  /** A tick for the same list, promoting it again or not; its fetch may fail. */
  predicate CalmTick(c: Config, w: World, t: Tick, list: LoadbalancerList) {
    HonestTick(c, w, t) && (t.promoted.Some? ==> t.promoted.value == list)
  }

  lemma ListingsAgree(lbs: seq<Loadbalancer>, names: seq<string>, names': seq<string>)
    requires NameSet(names) == NameSet(names') && UniqueLongest(lbs, NameSet(names))
    requires ByLengthDesc(names) && ByLengthDesc(names')
    ensures Selected(lbs, names) == Selected(lbs, names')
    ensures forall zone :: Bucket(lbs, names, zone) == Bucket(lbs, names', zone)
  {
    MatchIgnoresTies(lbs, names, names');
    forall zone ensures Bucket(lbs, names, zone) == Bucket(lbs, names', zone) {
      BucketIgnoresTies(lbs, names, names', zone);
    }
  }

  lemma SettledFetch(c: Config, w: World, list: LoadbalancerList, f: Fetch)
    requires Settled(c, w, list) && f.Fetched? && ValidFetch(list.lbs, f) && HonestFetch(w.up, f)
    ensures forall z :: z in w.ctl.wanted <==> z in f.zones
    ensures forall zone :: Bucket(list.lbs, f.names, zone) == Bucket(list.lbs, w.ctl.names, zone)
    ensures Selected(list.lbs, f.names) == Selected(list.lbs, w.ctl.names)
    ensures RebuildZones(f.zones, list.lbs, f.names) == f.zones
  {
    var s := w.ctl;
    ListingsAgree(list.lbs, f.names, s.names);
    forall z ensures z in s.wanted <==> z in f.zones {
      if z in s.wanted {
        assert z.name in ZoneNames(f.zones);
      }
      if z in f.zones {
        assert z.name in ZoneNames(s.wanted);
      }
    }
    var ws := RebuildZones(f.zones, list.lbs, f.names);
    forall i | 0 <= i < |ws| ensures ws[i] == f.zones[i] {
      assert f.zones[i] in f.zones;
    }
  }

  lemma {:induction false} NothingChanged(c: Config, s: State, ws: seq<Zone>)
    requires Cached(c, s) && forall z :: z in ws ==> z in s.cur
    ensures Changed(c, s.hashMap, ws) == []
  {
    if ws != [] {
      HashMapHolds(c, s.cur);
      assert ws[|ws| - 1] in s.cur;
      NothingChanged(c, s, ws[..|ws| - 1]);
    }
  }

  lemma CalmFetch(c: Config, w: World, t: Tick, list: LoadbalancerList)
    requires Settled(c, w, list) && CalmTick(c, w, t, list) && Working(c, w.ctl, t)
    ensures var p := Prepared(c, w.ctl, t);
            && Settled(c, World(p, w.up), list)
            && !p.enforce && (forall z :: z in p.wanted ==> z in p.cur)
            && p.lastFetch == if Fetches(c, w.ctl, t) then Some(t.now) else w.ctl.lastFetch
  {
    TickKeepsCached(c, w.ctl, t);
    if Fetches(c, w.ctl, t) {
      SettledFetch(c, w, list, t.fetch);
    }
  }

  /** A settled world stays settled and nothing is written; after a tick that works no refetch is due. */
  lemma CalmTickWritesNothing(c: Config, w: World, t: Tick, list: LoadbalancerList)
    requires Settled(c, w, list) && CalmTick(c, w, t, list)
    ensures var w' := Step(c, w, TickEvent(t));
            && RunTick(c, w.ctl, t).attempts == []
            && Settled(c, w', list)
            && w'.up == w.up
            && (if Working(c, w.ctl, t)
                then !w'.ctl.enforce
                     && w'.ctl.lastFetch == (if Fetches(c, w.ctl, t) then Some(t.now) else w.ctl.lastFetch)
                else w' == w)
  {
    if Working(c, w.ctl, t) {
      var p := Prepared(c, w.ctl, t);
      CalmFetch(c, w, t, list);
      NothingChanged(c, p, p.wanted);
      assert RunTick(c, w.ctl, t) == Outcome(p, []);
    } else {
      assert RunTick(c, w.ctl, t) == Outcome(w.ctl, []);
    }
  }

  /** Quiescence: after a failure-free promotion no later tick for the same list writes anything,
      however many there are, whether they are forced, interval-driven or plain, and whichever of their
      fetches fail. */
  lemma {:induction false} SettledForever(c: Config, w: World, ts: seq<Event>, list: LoadbalancerList)
    requires Settled(c, w, list) && CalmRun(c, w, ts, list)
    ensures Writes(c, w, ts) == []
    ensures Settled(c, Run(c, w, ts), list) && Run(c, w, ts).up == w.up
    ensures ts != [] && Working(c, Run(c, w, ts[..|ts| - 1]).ctl, ts[|ts| - 1].t) ==> !Run(c, w, ts).ctl.enforce
  {
    if ts != [] {
      var before, e := ts[..|ts| - 1], ts[|ts| - 1];
      SettledForever(c, w, before, list);
      CalmTickWritesNothing(c, Run(c, w, before), e.t, list);
    }
  }

  predicate CalmRun(c: Config, w: World, es: seq<Event>, list: LoadbalancerList) {
    es == [] || (
      var before, e := es[..|es| - 1], es[|es| - 1];
      CalmRun(c, w, before, list) && e.TickEvent? && CalmTick(c, Run(c, w, before), e.t, list))
  }

  /* ---------- settling late ---------- */

  /** The controller has rebuilt for `list`; what it wants may not be upstream yet. */
  ghost predicate Underway(c: Config, w: World, list: LoadbalancerList) {
    var s := w.ctl;
    && Sound(c, w)
    && s.lbs == Some(list) && s.wantedLBHash == list.hash && s.lastFetch.Some?
    && UniqueLongest(list.lbs, w.up.Keys)
    && ZoneNames(s.wanted) == Selected(list.lbs, s.names)
    && (forall z :: z in s.wanted ==> RebuildZone(z, Bucket(list.lbs, s.names, z.name)) == z)
  }

  /** A promotion whose fetch worked gets the rebuild under way, however many of its writes failed. */
  lemma PromotionIsUnderway(c: Config, w: World, t: Tick)
    requires Sound(c, w) && HonestTick(c, w, t) && t.promoted.Some? && t.fetch.Fetched?
    requires UniqueLongest(t.promoted.value.lbs, w.up.Keys)
    ensures Underway(c, Step(c, w, TickEvent(t)), t.promoted.value)
  {
    PromotionWants(c, w, t);
    TickKeepsSound(c, w, t);
    TickKeepsListed(c, w, t);
    RebuiltIsFixed(t.fetch.zones, t.promoted.value.lbs, t.fetch.names);
  }

  lemma TickKeepsUnderway(c: Config, w: World, t: Tick, list: LoadbalancerList)
    requires Underway(c, w, list) && CalmTick(c, w, t, list)
    ensures Underway(c, Step(c, w, TickEvent(t)), list)
  {
    TickKeepsSound(c, w, t);
    TickKeepsListed(c, w, t);
    if Working(c, w.ctl, t) {
      if t.promoted.Some? {
        PromotionIsUnderway(c, w, t);
      } else if Fetches(c, w.ctl, t) {
        ListingsAgree(list.lbs, w.ctl.names, t.fetch.names);
      }
    }
  }

  /** One tick that works and whose writes succeed settles what is under way. */
  lemma GoodTickSettles(c: Config, w: World, t: Tick, list: LoadbalancerList)
    requires Underway(c, w, list) && CalmTick(c, w, t, list)
    requires Working(c, w.ctl, t) && WritesSucceed(c, w, t)
    requires NoCollision(c, Prepared(c, w.ctl, t), t.promoted.Some?)
    ensures Settled(c, Step(c, w, TickEvent(t)), list)
  {
    TickKeepsUnderway(c, w, t, list);
    TickKeepsCoherent(c, w, t);
    TickEstablishesWanted(c, w, t);
    WrittenOrCached(c, w, t);
  }

  lemma {:induction false} RunKeepsUnderway(c: Config, w: World, es: seq<Event>, list: LoadbalancerList)
    requires Underway(c, w, list) && CalmRun(c, w, es, list)
    ensures Underway(c, Run(c, w, es), list)
  {
    if es != [] {
      var before, e := es[..|es| - 1], es[|es| - 1];
      RunKeepsUnderway(c, w, before, list);
      TickKeepsUnderway(c, Run(c, w, before), e.t, list);
    }
  }

  /** Failures only delay the settling too: after a promotion whose fetch worked, its writes and any
      number of later fetches and writes for the same list may fail; the first tick that works and whose
      writes succeed settles the world. */
  lemma DelayedPromotionSettles(c: Config, w: World, t: Tick, es: seq<Event>, last: Tick)
    requires Sound(c, w) && HonestTick(c, w, t) && t.promoted.Some? && t.fetch.Fetched?
    requires UniqueLongest(t.promoted.value.lbs, w.up.Keys)
    requires CalmRun(c, Step(c, w, TickEvent(t)), es, t.promoted.value)
    requires var w2 := Run(c, Step(c, w, TickEvent(t)), es);
             && CalmTick(c, w2, last, t.promoted.value) && Working(c, w2.ctl, last) && WritesSucceed(c, w2, last)
             && NoCollision(c, Prepared(c, w2.ctl, last), last.promoted.Some?)
    ensures var w2 := Run(c, Step(c, w, TickEvent(t)), es);
            Settled(c, Step(c, w2, TickEvent(last)), t.promoted.value)
  {
    PromotionIsUnderway(c, w, t);
    RunKeepsUnderway(c, Step(c, w, TickEvent(t)), es, t.promoted.value);
    GoodTickSettles(c, Run(c, Step(c, w, TickEvent(t)), es), last, t.promoted.value);
  }

  /* ---------- plain ticks ---------- */

  /** A settled controller that fetched in a calm tick does nothing in plain ticks within the interval:
      it calls neither fetch nor write and leaves the whole state as it is. */
  lemma PlainTicksAreSilent(c: Config, w: World, t1: Tick, t2: Tick, list: LoadbalancerList)
    requires Settled(c, w, list) && CalmTick(c, w, t1, list) && Fetches(c, w.ctl, t1) && t1.fetch.Fetched?
    requires t2.promoted.None? && t2.now - t1.now <= c.interval
    ensures var s := Step(c, w, TickEvent(t1)).ctl;
            !Fetches(c, s, t2) && RunTick(c, s, t2) == Outcome(s, [])
  {
    CalmTickWritesNothing(c, w, t1, list);
    var s := Step(c, w, TickEvent(t1)).ctl;
    NothingChanged(c, s, s.wanted);
  }
}
