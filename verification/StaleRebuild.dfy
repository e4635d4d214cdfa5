/**
 What happens to a promoted list whose forced fetch fails: the next tick is not forced, so it may
 rebuild from the zones cached for the list before it (dnsController.go).
 */
module StaleRebuild {
  import opened Wrappers
  import opened Strings
  import opened Net
  import opened LoadbalancerLists
  import opened Matching
  import opened Zones
  import opened Reconciler
  import opened Runs
  import opened Convergence

  lemma FailedForcedFetchLeavesPending(c: Config, s: State, t: Tick)
    requires t.promoted.Some? && t.fetch.Failed? && t.promoted.value.hash != s.wantedLBHash
    ensures var o := RunTick(c, s, t);
            Pending(o.state) && o.attempts == [] && o.state == s.(lbs := t.promoted)
  {
  }

  /** Once upstream, the wanted zones stay there until the next promotion, whatever fails. */
  lemma {:induction false} WantedStaysUpstream(c: Config, w: World, es: seq<Event>)
    requires Cached(c, w.ctl) && AllUpstream(w.ctl.wanted, w.up) && w.ctl.lbs.Some? && !Pending(w.ctl)
    requires HonestRun(c, w, es) && NoPromotion(es)
    ensures AllUpstream(w.ctl.wanted, Run(c, w, es).up)
  {
    if es != [] {
      var before, e := es[..|es| - 1], es[|es| - 1];
      assert forall e' :: e' in before ==> e' in es;
      WantedStaysUpstream(c, w, before);
      WantedIsFrozen(c, w, es);
      var w1 := Run(c, w, before);
      var attempts := RunTick(c, w1.ctl, e.t).attempts;
      assert forall z :: z in attempts ==> z in Writes(c, w, es);
      ApplyKeepsUpstream(w1.up, attempts, e.t.applied, w.ctl.wanted);
    }
  }

  lemma ApplyKeepsUpstream(up: map<string, Zone>, attempts: seq<Zone>, applied: set<string>, wanted: seq<Zone>)
    requires DistinctNames(wanted) && AllUpstream(wanted, up)
    requires forall z :: z in attempts ==> z in wanted
    ensures AllUpstream(wanted, Apply(up, attempts, applied))
  {
    var up' := Apply(up, attempts, applied);
    forall z | z in wanted ensures z.name in up' && up'[z.name] == z {
      ApplyAt(up, attempts, applied, z.name);
      if z.name in applied && z.name in ZoneNames(attempts) {
        SameNameSameZone(wanted, up'[z.name], z);
      }
    }
  }

  /** Each zone selected for the loadbalancers holds the rebuild of what it held in `up`. */
  ghost predicate Publishes(up: map<string, Zone>, up': map<string, Zone>, lbs: seq<Loadbalancer>, names: seq<string>) {
    forall n :: n in Selected(lbs, names) ==>
      n in up && n in up' && up'[n] == RebuildZone(up[n], Bucket(lbs, names, n))
  }

  /** The zones and the listing that `s` has cached do for the loadbalancers: the cached zones get the
      loadbalancers they should from the cached listing, and the other zones need no change. */
  ghost predicate CacheSuffices(up: map<string, Zone>, s: State, lbs: seq<Loadbalancer>, names: seq<string>) {
    forall n :: n in Selected(lbs, names) ==>
      n in up && RebuildZone(up[n], Bucket(lbs, names, n))
              == if n in ZoneNames(s.cur) then RebuildZone(up[n], Bucket(lbs, s.names, n)) else up[n]
  }

  lemma CachePublishes(up: map<string, Zone>, up': map<string, Zone>, s: State, lbs: seq<Loadbalancer>,
                       names: seq<string>)
    requires AllUpstream(s.cur, up) && AllUpstream(RebuildZones(s.cur, lbs, s.names), up')
    requires forall n :: n !in ZoneNames(s.cur) ==> SameAt(up', up, n)
    ensures Publishes(up, up', lbs, names) <==> CacheSuffices(up, s, lbs, names)
  {
    forall n | n in ZoneNames(s.cur)
      ensures n in up && n in up' && up'[n] == RebuildZone(up[n], Bucket(lbs, s.names, n))
    {
      RebuiltAt(s.cur, lbs, s.names, up, up', n);
    }
  }

  lemma FetchSuffices(up: map<string, Zone>, s: State, lbs: seq<Loadbalancer>)
    requires AllUpstream(s.cur, up) && ZoneNames(s.cur) == Selected(lbs, s.names)
    ensures CacheSuffices(up, s, lbs, s.names)
  {
  }

  lemma PendingTickWants(c: Config, w: World, t: Tick)
    requires Coherent(w) && Pending(w.ctl) && t.promoted.None? && HonestTick(c, w, t) && Working(c, w.ctl, t)
    ensures var p, lbs := Prepared(c, w.ctl, t), w.ctl.lbs.value.lbs;
            && p.lbs == w.ctl.lbs && !Pending(p)
            && p.wanted == RebuildZones(p.cur, lbs, p.names) && ZoneNames(p.wanted) == ZoneNames(p.cur)
            && AllUpstream(p.cur, w.up)
            && (if Fetches(c, w.ctl, t) then ZoneNames(p.cur) == Selected(lbs, p.names) && p.names == t.fetch.names
                else p.names == w.ctl.names && p.cur == w.ctl.cur)
  {
    TickKeepsCoherent(c, w, t);
    var p := Prepared(c, w.ctl, t);
    RebuildKeepsNames(p.cur, p.lbs.value.lbs, p.names);
  }

  lemma StaysOutside(c: Config, w: World, es: seq<Event>, n: string)
    requires Coherent(w) && w.ctl.lbs.Some? && !Pending(w.ctl) && n !in ZoneNames(w.ctl.wanted)
    requires HonestRun(c, w, es) && NoPromotion(es)
    ensures SameAt(Run(c, w, es).up, w.up, n)
  {
    RunKeepsCoherent(c, w, es);
    WantedIsFrozen(c, w, es);
    UnwrittenIsUntouched(c, w, es, n);
  }

  lemma PendingOutcome(c: Config, w: World, t: Tick, es: seq<Event>)
    requires Cached(c, w.ctl) && Coherent(w) && Pending(w.ctl) && t.promoted.None?
    requires HonestTick(c, w, t) && Working(c, w.ctl, t) && WritesSucceed(c, w, t)
    requires NoCollision(c, Prepared(c, w.ctl, t), false)
    requires HonestRun(c, Step(c, w, TickEvent(t)), es) && NoPromotion(es)
    ensures var p, up' := Prepared(c, w.ctl, t), Run(c, Step(c, w, TickEvent(t)), es).up;
            && AllUpstream(p.wanted, up')
            && forall n :: n !in ZoneNames(p.cur) ==> SameAt(up', w.up, n)
  {
    var p, w1 := Prepared(c, w.ctl, t), Step(c, w, TickEvent(t));
    var up' := Run(c, w1, es).up;
    PendingTickWants(c, w, t);
    TickEstablishesWanted(c, w, t);
    TickKeepsCached(c, w.ctl, t);
    TickKeepsCoherent(c, w, t);
    WantedStaysUpstream(c, w1, es);
    forall n | n !in ZoneNames(p.cur) ensures SameAt(up', w.up, n) {
      StaysOutside(c, w1, es, n);
      SameAtTrans(up', w1.up, w.up, n);
    }
  }

  /** What a pending list comes to. Let its next working tick have no failed write: then, at once and
      until the next promotion, every zone that matches upstream is rebuilt for it if and only if that
      tick fetched or the cache of the list before suffices. */
  lemma PendingPublishedIff(c: Config, w: World, t: Tick, es: seq<Event>, names: seq<string>)
    requires Cached(c, w.ctl) && Coherent(w) && Pending(w.ctl) && t.promoted.None?
    requires HonestTick(c, w, t) && Working(c, w.ctl, t) && WritesSucceed(c, w, t)
    requires NoCollision(c, Prepared(c, w.ctl, t), false)
    requires HonestRun(c, Step(c, w, TickEvent(t)), es) && NoPromotion(es)
    requires Fetches(c, w.ctl, t) ==> names == t.fetch.names
    ensures var lbs := w.ctl.lbs.value.lbs;
            Publishes(w.up, Run(c, Step(c, w, TickEvent(t)), es).up, lbs, names)
            <==> Fetches(c, w.ctl, t) || CacheSuffices(w.up, w.ctl, lbs, names)
  {
    var p, lbs := Prepared(c, w.ctl, t), w.ctl.lbs.value.lbs;
    PendingTickWants(c, w, t);
    PendingOutcome(c, w, t, es);
    CachePublishes(w.up, Run(c, Step(c, w, TickEvent(t)), es).up, p, lbs, names);
    if Fetches(c, w.ctl, t) {
      FetchSuffices(w.up, p, lbs);
    } else {
      SameCache(w.up, p, w.ctl, lbs, names);
    }
  }

  lemma SameCache(up: map<string, Zone>, s: State, s': State, lbs: seq<Loadbalancer>, names: seq<string>)
    requires s.cur == s'.cur && s.names == s'.names
    ensures CacheSuffices(up, s, lbs, names) <==> CacheSuffices(up, s', lbs, names)
  {
  }

  /** In a world that the controller reached on its own, with a unique longest match for each
      loadbalancer, the cache suffices exactly when no selected zone outside it needs a change. */
  lemma CacheSufficesIff(c: Config, w: World, lbs: seq<Loadbalancer>, names: seq<string>)
    requires Sound(c, w) && w.ctl.lastFetch.Some? && UniqueLongest(lbs, w.up.Keys)
    requires ByLengthDesc(names) && NameSet(names) == w.up.Keys
    ensures CacheSuffices(w.up, w.ctl, lbs, names)
       <==> forall n :: n in Selected(lbs, names) && n in w.up && n !in ZoneNames(w.ctl.cur) ==>
              RebuildZone(w.up[n], Bucket(lbs, names, n)) == w.up[n]
  {
    MatchIgnoresTies(lbs, names, w.ctl.names);
    forall n | n in Selected(lbs, names)
      ensures n in w.up && Bucket(lbs, names, n) == Bucket(lbs, w.ctl.names, n)
    {
      SelectedIsContained(lbs, names, n);
      assert n in NameSet(names);
      BucketIgnoresTies(lbs, names, w.ctl.names, n);
    }
  }

  /** A wanted zone that the fetch no longer selects is written on every tick, equal or not, and the
      write makes the next tick fetch again. */
  lemma UnselectedIsRewritten(c: Config, w: World, t: Tick, z: Zone)
    requires Cached(c, w.ctl) && HonestTick(c, w, t) && Working(c, w.ctl, t) && Fetches(c, w.ctl, t)
    requires t.promoted.None? && !Pending(w.ctl) && NoCollision(c, Prepared(c, w.ctl, t), false)
    requires z in w.ctl.wanted && z.name !in Selected(w.ctl.lbs.value.lbs, t.fetch.names)
    ensures var o := RunTick(c, w.ctl, t);
            z in o.attempts && z in o.state.wanted && (z.name in t.ok ==> o.state.enforce)
  {
    WritesWhatDiffers(c, w, t, z);
  }

  /** The controller has rebuilt for its list, and what it wants is upstream. */
  ghost predicate Standing(c: Config, w: World) {
    && Sound(c, w)
    && w.ctl.lbs.Some? && !Pending(w.ctl) && w.ctl.lastFetch.Some?
    && UniqueLongest(w.ctl.lbs.value.lbs, w.up.Keys)
    && AllUpstream(w.ctl.wanted, w.up)
  }

  /** The names of the zones that a fetch selects for the current list. */
  function SelectedNow(w: World): set<string>
    requires w.ctl.lbs.Some?
  {
    Selected(w.ctl.lbs.value.lbs, w.ctl.names)
  }

  lemma WantedStaysIn(c: Config, w: World, t: Tick)
    requires Cached(c, w.ctl) && AllUpstream(w.ctl.wanted, w.up)
    requires w.ctl.lbs.Some? && !Pending(w.ctl) && t.promoted.None?
    ensures AllUpstream(w.ctl.wanted, Step(c, w, TickEvent(t)).up)
  {
    if Working(c, w.ctl, t) {
      var p := Prepared(c, w.ctl, t);
      ChangedMembers(c, p.hashMap, p.wanted);
      ApplyKeepsUpstream(w.up, RunTick(c, w.ctl, t).attempts, t.applied, w.ctl.wanted);
    }
  }

  lemma TickStaysStanding(c: Config, w: World, t: Tick)
    requires Standing(c, w) && HonestTick(c, w, t) && t.promoted.None?
    ensures var w' := Step(c, w, TickEvent(t));
            && Standing(c, w') && SelectedNow(w') == SelectedNow(w)
            && w'.ctl.wanted == w.ctl.wanted && w'.up.Keys == w.up.Keys
  {
    TickKeepsSound(c, w, t);
    TickKeepsListed(c, w, t);
    WantedStaysIn(c, w, t);
    if Working(c, w.ctl, t) && Fetches(c, w.ctl, t) {
      ListingsAgree(w.ctl.lbs.value.lbs, w.ctl.names, t.fetch.names);
    }
  }

  lemma {:induction false} RunStaysStanding(c: Config, w: World, es: seq<Event>)
    requires Standing(c, w) && HonestRun(c, w, es) && NoPromotion(es)
    ensures var w' := Run(c, w, es);
            Standing(c, w') && SelectedNow(w') == SelectedNow(w) && w'.ctl.wanted == w.ctl.wanted
  {
    if es != [] {
      var before, e := es[..|es| - 1], es[|es| - 1];
      assert e in es && forall e' :: e' in before ==> e' in es;
      RunStaysStanding(c, w, before);
      TickStaysStanding(c, Run(c, w, before), e.t);
    }
  }

  /** Until the next promotion, however many failures come between, every tick that fetches writes
      exactly the wanted zones that are no longer selected. */
  lemma LeftOversAreRewritten(c: Config, w: World, es: seq<Event>, last: Tick, z: Zone)
    requires Standing(c, w) && HonestRun(c, w, es) && NoPromotion(es)
    requires var w2 := Run(c, w, es);
             && HonestTick(c, w2, last) && last.promoted.None? && Fetches(c, w2.ctl, last) && last.fetch.Fetched?
             && NoCollision(c, Prepared(c, w2.ctl, last), false)
    ensures z in RunTick(c, Run(c, w, es).ctl, last).attempts
       <==> z in w.ctl.wanted && z.name !in SelectedNow(w)
  {
    RunStaysStanding(c, w, es);
    FetchRewritesLeftOvers(c, Run(c, w, es), last, z);
  }

  lemma FetchRewritesLeftOvers(c: Config, w: World, t: Tick, z: Zone)
    requires Standing(c, w) && HonestTick(c, w, t) && t.promoted.None?
    requires Fetches(c, w.ctl, t) && t.fetch.Fetched? && NoCollision(c, Prepared(c, w.ctl, t), false)
    ensures z in RunTick(c, w.ctl, t).attempts <==> z in w.ctl.wanted && z.name !in SelectedNow(w)
  {
    WritesWhatDiffers(c, w, t, z);
    ListingsAgree(w.ctl.lbs.value.lbs, w.ctl.names, t.fetch.names);
  }

  /** The controller also knows that what it wants is upstream, or is about to fetch. */
  ghost predicate Known(w: World) {
    w.ctl.enforce || forall z :: z in w.ctl.wanted ==> z in w.ctl.cur
  }

  ghost predicate AllSelected(w: World) {
    w.ctl.lbs.Some? && ZoneNames(w.ctl.wanted) <= SelectedNow(w)
  }

  lemma AllSelectedTick(c: Config, w: World, t: Tick)
    requires Standing(c, w) && Known(w) && AllSelected(w) && HonestTick(c, w, t) && t.promoted.None?
    ensures RunTick(c, w.ctl, t).attempts == [] && Known(Step(c, w, TickEvent(t)))
  {
    TickKeepsCached(c, w.ctl, t);
    if Working(c, w.ctl, t) {
      var p := Prepared(c, w.ctl, t);
      if Fetches(c, w.ctl, t) {
        ListingsAgree(w.ctl.lbs.value.lbs, w.ctl.names, t.fetch.names);
        forall z | z in p.wanted ensures z in p.cur {
          assert z.name in ZoneNames(p.wanted);
          assert z.name in ZoneNames(p.cur);
        }
      }
      NothingChanged(c, p, p.wanted);
    }
  }

  lemma {:induction false} AllSelectedIsQuiet(c: Config, w: World, es: seq<Event>)
    requires Standing(c, w) && Known(w) && AllSelected(w) && HonestRun(c, w, es) && NoPromotion(es)
    ensures Writes(c, w, es) == [] && Known(Run(c, w, es))
  {
    if es != [] {
      var before, e := es[..|es| - 1], es[|es| - 1];
      assert e in es && forall e' :: e' in before ==> e' in es;
      AllSelectedIsQuiet(c, w, before);
      RunStaysStanding(c, w, before);
      AllSelectedTick(c, Run(c, w, before), e.t);
    }
  }

  /** Runs that fetch at their end are quiet if and only if every wanted zone is still selected. */
  lemma QuietIffAllSelected(c: Config, w: World, es: seq<Event>, last: Tick)
    requires Standing(c, w) && Known(w) && HonestRun(c, w, es) && NoPromotion(es)
    requires var w2 := Run(c, w, es);
             && HonestTick(c, w2, last) && last.promoted.None? && Fetches(c, w2.ctl, last) && last.fetch.Fetched?
             && NoCollision(c, Prepared(c, w2.ctl, last), false)
    ensures Writes(c, w, es) + RunTick(c, Run(c, w, es).ctl, last).attempts == [] <==> AllSelected(w)
  {
    var w2 := Run(c, w, es);
    var attempts := RunTick(c, w2.ctl, last).attempts;
    if AllSelected(w) {
      AllSelectedIsQuiet(c, w, es);
      RunStaysStanding(c, w, es);
      AllSelectedTick(c, w2, last);
    } else {
      var z :| z in w.ctl.wanted && z.name !in SelectedNow(w);
      LeftOversAreRewritten(c, w, es, last, z);
      assert z in attempts;
    }
  }

  /** So a list rebuilt from the cache of the list before becomes quiet if and only if every zone cached
      for that list is still selected for this one. */
  lemma RebuiltFromCacheIsQuietIff(c: Config, w: World, t: Tick, es: seq<Event>, last: Tick)
    requires Sound(c, w) && Pending(w.ctl) && t.promoted.None? && !Fetches(c, w.ctl, t)
    requires HonestTick(c, w, t) && WritesSucceed(c, w, t) && NoCollision(c, Prepared(c, w.ctl, t), false)
    requires UniqueLongest(w.ctl.lbs.value.lbs, w.up.Keys)
    requires var w1 := Step(c, w, TickEvent(t));
             var w2 := Run(c, w1, es);
             && HonestRun(c, w1, es) && NoPromotion(es)
             && HonestTick(c, w2, last) && last.promoted.None? && Fetches(c, w2.ctl, last) && last.fetch.Fetched?
             && NoCollision(c, Prepared(c, w2.ctl, last), false)
    ensures var w1 := Step(c, w, TickEvent(t));
            Writes(c, w1, es) + RunTick(c, Run(c, w1, es).ctl, last).attempts == []
            <==> ZoneNames(w.ctl.cur) <= SelectedNow(w)
  {
    RebuiltFromCacheStands(c, w, t);
    QuietIffAllSelected(c, Step(c, w, TickEvent(t)), es, last);
  }

  lemma RebuiltFromCacheStands(c: Config, w: World, t: Tick)
    requires Sound(c, w) && Pending(w.ctl) && t.promoted.None? && !Fetches(c, w.ctl, t)
    requires HonestTick(c, w, t) && WritesSucceed(c, w, t) && NoCollision(c, Prepared(c, w.ctl, t), false)
    requires UniqueLongest(w.ctl.lbs.value.lbs, w.up.Keys)
    ensures var w1 := Step(c, w, TickEvent(t));
            && Standing(c, w1) && Known(w1)
            && ZoneNames(w1.ctl.wanted) == ZoneNames(w.ctl.cur) && SelectedNow(w1) == SelectedNow(w)
  {
    PendingTickWants(c, w, t);
    TickKeepsSound(c, w, t);
    TickKeepsListed(c, w, t);
    TickEstablishesWanted(c, w, t);
    WrittenOrCached(c, w, t);
  }

  /** The whole failing family: the forced fetch for a new list fails, the next tick is not due to
      fetch, and from then on no zone outside the old cache is ever written for the list. */
  lemma FailedForcedFetchLosesZones(c: Config, w: World, t1: Tick, t2: Tick, es: seq<Event>, n: string)
    requires !w.ctl.enforce && w.ctl.lastFetch.Some? && t2.now - w.ctl.lastFetch.value <= c.interval
    requires t1.promoted.Some? && t1.fetch.Failed? && t1.promoted.value.hash != w.ctl.wantedLBHash
    requires t2.promoted.None? && NoPromotion(es) && n !in ZoneNames(w.ctl.cur)
    ensures var w1 := Step(c, w, TickEvent(t1));
            var w2 := Step(c, w1, TickEvent(t2));
            && Working(c, w1.ctl, t2)
            && w2.ctl.lbs == t1.promoted
            && Run(c, w2, es).ctl.lbs == t1.promoted
            && n !in ZoneNames(RunTick(c, w.ctl, t1).attempts)
            && n !in ZoneNames(RunTick(c, w1.ctl, t2).attempts)
            && n !in ZoneNames(Writes(c, w2, es))
  {
    FailedForcedFetchLeavesPending(c, w.ctl, t1);
    var w1 := Step(c, w, TickEvent(t1));
    var w2, p := Step(c, w1, TickEvent(t2)), Prepared(c, w1.ctl, t2);
    RebuildKeepsNames(p.cur, w1.ctl.lbs.value.lbs, p.names);
    ChangedMembers(c, p.hashMap, p.wanted);
    WantedIsFrozen(c, w2, es);
  }

  /** A controller that never rebuilt takes a list with hash 0 for rebuilt: if its forced fetch fails, the
      next fetch is followed by a rebuild if and only if the hash is not 0. */
  lemma ZeroHashIsNotRebuilt(c: Config, up: map<string, Zone>, t1: Tick, t2: Tick)
    requires t1.promoted.Some? && t1.fetch.Failed? && t2.promoted.None? && t2.fetch.Fetched?
    ensures var s1 := RunTick(c, Start(up).ctl, t1).state;
            var o := RunTick(c, s1, t2);
            && Working(c, s1, t2) && o.state.cur == t2.fetch.zones
            && o.state.wanted == (if t1.promoted.value.hash == 0 then []
                                  else RebuildZones(t2.fetch.zones, t1.promoted.value.lbs, t2.fetch.names))
  {
  }

  /* ---------- the smallest such run ---------- */

  const NOTHING := LoadbalancerList([], 1)
  const LIST := LoadbalancerList([Loadbalancer("b", [EndpointProtocol(Endpoint(V4(1, 2, 3, 4), 80), "tcp")])], 2)
  const UPSTREAM := map["b" := Zone("b", SOA("", "", 1, 2, 3, 4, 5), [])]

  /** The empty list is promoted; then a list with one loadbalancer, whose fetch fails; then a plain tick. */
  const T0 := Tick(Some(NOTHING), 0, Fetched(["b"], []), {}, {})
  const T1 := Tick(Some(LIST), 1, Failed, {}, {})
  const T2 := Tick(None, 2, Failed, {}, {})

  /** After three honest ticks from the start the loadbalancer is lost: its zone is upstream and
      matches, yet it is not written again until another list is promoted. */
  lemma LostLoadbalancer(c: Config, es: seq<Event>)
    requires c.interval >= 2 && NoPromotion(es)
    ensures var w0 := Start(UPSTREAM);
            var w1 := Step(c, w0, TickEvent(T0));
            var w2 := Step(c, w1, TickEvent(T1));
            var w3 := Step(c, w2, TickEvent(T2));
            && HonestTick(c, w0, T0) && HonestTick(c, w1, T1) && HonestTick(c, w2, T2)
            && w3.ctl.lbs == Some(LIST) && Selected(LIST.lbs, ["b"]) == {"b"} && w3.up == UPSTREAM
            && "b" !in ZoneNames(Writes(c, w3, es))
  {
    var w0 := Start(UPSTREAM);
    assert HonestTick(c, w0, T0) by {
      assert NameSet(["b"]) == {"b"} by { assert ["b"][0] == "b"; }
    }
    var w1 := Step(c, w0, TickEvent(T0));
    assert w1.up == UPSTREAM && w1.ctl.cur == [] && !w1.ctl.enforce;
    assert w1.ctl.lastFetch == Some(0) && w1.ctl.wantedLBHash == 1;
    FailedForcedFetchLosesZones(c, w1, T1, T2, es, "b");
    SelectedB();
  }

  lemma SelectedB()
    ensures Selected(LIST.lbs, ["b"]) == {"b"}
  {
    assert OccursAt("b", "b", 0);
    assert LIST.lbs[0] in LIST.lbs;
  }
}
