/**
 The DNS reconciler as a state machine over whole ticks (dnsController.go).

 The provider's answers are inputs of a tick, so a statement about every sequence of inputs covers
 every pattern of provider failures and of writes by others, also in the middle of a sync.
 */
module Reconciler {
  import opened Wrappers
  import opened LoadbalancerLists
  import opened Matching
  import opened Zones

  /** Zone.Hash and Zones.Hash of the dns library, and the enforce interval. */
  datatype Config = Config(zoneHash: Zone -> uint64, zonesHash: seq<Zone> -> uint64, interval: int)

  /** The fields of DNSController that outlive a tick. */
  datatype State = State(
    enforce: bool,
    cur: seq<Zone>,
    curHash: uint64,
    hashMap: map<string, uint64>,
    names: seq<string>,
    wanted: seq<Zone>,
    wantedHash: uint64,
    wantedLBHash: uint64,
    lbs: Option<LoadbalancerList>,
    lastFetch: Option<int>)

  const INITIAL := State(false, [], 0, map[], [], [], 0, 0, None, None)

  /** What updateCurrentZones gets: the sorted zone names and the selected zones, or an error. */
  datatype Fetch = Failed | Fetched(names: seq<string>, zones: seq<Zone>)

  /** One tick: the list it promotes if any, the clock, the provider's answers, the zones whose
      UpdateZone reports success, and those whose UpdateZone takes effect. */
  datatype Tick =
    Tick(promoted: Option<LoadbalancerList>, now: int, fetch: Fetch, ok: set<string>, applied: set<string>)

  datatype Outcome = Outcome(state: State, attempts: seq<Zone>)

  /* ---------- the transition function ---------- */

  function ZoneNames(zs: seq<Zone>): set<string> {
    set z | z in zs :: z.name
  }

  predicate DistinctNames(zs: seq<Zone>) {
    forall i, j :: 0 <= i < j < |zs| ==> zs[i].name != zs[j].name
  }

  /** The contract of a fetch: names sorted, one zone per selected name, each under its own name. */
  predicate ValidFetch(lbs: seq<Loadbalancer>, f: Fetch) {
    f.Fetched? ==> ByLengthDesc(f.names) && DistinctNames(f.zones) && ZoneNames(f.zones) == Selected(lbs, f.names)
  }

  function HashMap(c: Config, zs: seq<Zone>): map<string, uint64> {
    if zs == [] then map[]
    else
      var n := |zs| - 1;
      HashMap(c, zs[..n])[zs[n].name := c.zoneHash(zs[n])]
  }

  function CachedHash(hashMap: map<string, uint64>, name: string): uint64 {
    if name in hashMap then hashMap[name] else 0
  }

  predicate NeedsFetch(c: Config, s: State, force: bool, now: int) {
    force || s.enforce || s.lastFetch.None? || now - s.lastFetch.value > c.interval
  }

  function StoreFetch(c: Config, s: State, now: int, names: seq<string>, zones: seq<Zone>): State {
    s.(cur := zones, names := names, curHash := c.zonesHash(zones), hashMap := HashMap(c, zones),
       enforce := false, lastFetch := Some(now))
  }

  function RebuildZones(zs: seq<Zone>, lbs: seq<Loadbalancer>, names: seq<string>): (ws: seq<Zone>)
    ensures |ws| == |zs|
    ensures forall i :: 0 <= i < |zs| ==> ws[i] == RebuildZone(zs[i], Bucket(lbs, names, zs[i].name))
  {
    seq(|zs|, i requires 0 <= i < |zs| => RebuildZone(zs[i], Bucket(lbs, names, zs[i].name)))
  }

  function Rebuild(c: Config, s: State): State
    requires s.lbs.Some?
  {
    var wanted := RebuildZones(s.cur, s.lbs.value.lbs, s.names);
    s.(wanted := wanted, wantedHash := c.zonesHash(wanted), wantedLBHash := s.lbs.value.hash)
  }

  predicate Proceeds(c: Config, s: State, force: bool, now: int, f: Fetch) {
    NeedsFetch(c, s, force, now) ==> f.Fetched?
  }

  /** After the fetch and the rebuild, before any write. */
  function Prepare(c: Config, s: State, force: bool, now: int, f: Fetch): State
    requires s.lbs.Some? && Proceeds(c, s, force, now, f)
  {
    var s1 := if NeedsFetch(c, s, force, now) then StoreFetch(c, s, now, f.names, f.zones) else s;
    if force || s1.wantedLBHash != s1.lbs.value.hash then Rebuild(c, s1) else s1
  }

  /** The zones whose hash differs from the cached one, in order. */
  function Changed(c: Config, hashMap: map<string, uint64>, zs: seq<Zone>): seq<Zone> {
    if zs == [] then []
    else
      var n := |zs| - 1;
      var init := Changed(c, hashMap, zs[..n]);
      if CachedHash(hashMap, zs[n].name) != c.zoneHash(zs[n]) then init + [zs[n]] else init
  }

  /** The UpdateZone calls of a sync. */
  function Attempts(c: Config, s: State, force: bool): seq<Zone> {
    if !force && s.curHash == s.wantedHash then [] else Changed(c, s.hashMap, s.wanted)
  }

  predicate AnyOf(zs: seq<Zone>, names: set<string>) {
    exists z :: z in zs && z.name in names
  }

  function Sync(c: Config, s: State, force: bool, now: int, f: Fetch, ok: set<string>): Outcome
    requires s.lbs.Some?
  {
    if !Proceeds(c, s, force, now, f) then Outcome(s, [])
    else
      var p := Prepare(c, s, force, now, f);
      var attempts := Attempts(c, p, force);
      Outcome(p.(enforce := p.enforce || AnyOf(attempts, ok)), attempts)
  }

  function Promote(s: State, promoted: Option<LoadbalancerList>): State {
    if promoted.Some? then s.(lbs := promoted) else s
  }

  function RunTick(c: Config, s: State, t: Tick): Outcome {
    var s0 := Promote(s, t.promoted);
    if s0.lbs.None? then Outcome(s0, [])
    else Sync(c, s0, t.promoted.Some?, t.now, t.fetch, t.ok)
  }

  /** The tick reaches the write phase. */
  predicate Working(c: Config, s: State, t: Tick) {
    var s0 := Promote(s, t.promoted);
    s0.lbs.Some? && Proceeds(c, s0, t.promoted.Some?, t.now, t.fetch)
  }

  predicate Fetches(c: Config, s: State, t: Tick) {
    var s0 := Promote(s, t.promoted);
    s0.lbs.Some? && NeedsFetch(c, s0, t.promoted.Some?, t.now)
  }

  predicate ValidTick(c: Config, s: State, t: Tick) {
    Fetches(c, s, t) ==> ValidFetch(Promote(s, t.promoted).lbs.value.lbs, t.fetch)
  }

  function Prepared(c: Config, s: State, t: Tick): State
    requires Working(c, s, t)
  {
    Prepare(c, Promote(s, t.promoted), t.promoted.Some?, t.now, t.fetch)
  }

  /* ---------- the cache invariant, over every run ---------- */

  /** The cached hashes are those of the cached zones. */
  ghost predicate Cached(c: Config, s: State) {
    && DistinctNames(s.cur)
    && DistinctNames(s.wanted)
    && s.hashMap == HashMap(c, s.cur)
    && (s.lastFetch.Some? ==> s.curHash == c.zonesHash(s.cur))
    && (s.wanted == [] || s.wantedHash == c.zonesHash(s.wanted))
    && (s.lastFetch.None? ==> s.wanted == [])
  }

  lemma {:induction false} HashMapHolds(c: Config, zs: seq<Zone>)
    requires DistinctNames(zs)
    ensures HashMap(c, zs).Keys == ZoneNames(zs)
    ensures forall z :: z in zs ==> HashMap(c, zs)[z.name] == c.zoneHash(z)
  {
    if zs != [] {
      var n := |zs| - 1;
      HashMapHolds(c, zs[..n]);
      assert zs == zs[..n] + [zs[n]];
      forall z | z in zs[..n] ensures z.name != zs[n].name {
        var i :| 0 <= i < n && zs[i] == z;
      }
    }
  }

  lemma RebuildKeepsNames(zs: seq<Zone>, lbs: seq<Loadbalancer>, names: seq<string>)
    ensures ZoneNames(RebuildZones(zs, lbs, names)) == ZoneNames(zs)
    ensures DistinctNames(zs) ==> DistinctNames(RebuildZones(zs, lbs, names))
  {
    var ws := RebuildZones(zs, lbs, names);
    assert forall i :: 0 <= i < |zs| ==> ws[i].name == zs[i].name && ws[i] in ws && zs[i] in zs;
  }

  lemma PrepareKeepsCached(c: Config, s: State, force: bool, now: int, f: Fetch)
    requires Cached(c, s) && s.lbs.Some? && Proceeds(c, s, force, now, f)
    requires NeedsFetch(c, s, force, now) ==> ValidFetch(s.lbs.value.lbs, f)
    ensures Cached(c, Prepare(c, s, force, now, f))
    ensures Prepare(c, s, force, now, f).lastFetch.Some?
  {
    var s1 := if NeedsFetch(c, s, force, now) then StoreFetch(c, s, now, f.names, f.zones) else s;
    assert Cached(c, s1);
    RebuildKeepsNames(s1.cur, s1.lbs.value.lbs, s1.names);
  }

  /** A tick keeps the invariant whatever the provider answers; a failed fetch changes no cache field. */
  lemma TickKeepsCached(c: Config, s: State, t: Tick)
    requires Cached(c, s) && ValidTick(c, s, t)
    ensures Cached(c, RunTick(c, s, t).state)
    ensures !Working(c, s, t) ==> RunTick(c, s, t) == Outcome(Promote(s, t.promoted), [])
    ensures Working(c, s, t) ==> Cached(c, Prepared(c, s, t)) && Prepared(c, s, t).lastFetch.Some?
  {
    var s0 := Promote(s, t.promoted);
    assert Cached(c, s0);
    if Working(c, s, t) {
      PrepareKeepsCached(c, s0, t.promoted.Some?, t.now, t.fetch);
    }
  }

  /* ---------- what a sync writes ---------- */

  /** No wanted zone has the hash of a different cached zone of its name. */
  ghost predicate ZonesDoNotCollide(c: Config, s: State) {
    forall w, z :: w in s.wanted && z in s.cur && w.name == z.name && c.zoneHash(w) == c.zoneHash(z) ==> w == z
  }

  /** The hashes that a sync compares do not collide: the per-zone gate takes 0 for a zone that is not
      cached, and only a sync that is not forced compares the whole lists. */
  ghost predicate NoCollision(c: Config, s: State, force: bool) {
    && ZonesDoNotCollide(c, s)
    && (forall w :: w in s.wanted && w.name !in ZoneNames(s.cur) ==> c.zoneHash(w) != 0)
    && (!force && c.zonesHash(s.cur) == c.zonesHash(s.wanted) ==> forall w :: w in s.wanted ==> w in s.cur)
  }

  /** The zones of `ws` that are not among `zs`, in order. */
  function Missing(ws: seq<Zone>, zs: seq<Zone>): seq<Zone> {
    if ws == [] then []
    else
      var n := |ws| - 1;
      var init := Missing(ws[..n], zs);
      if ws[n] in zs then init else init + [ws[n]]
  }

  lemma {:induction false} MissingMembers(ws: seq<Zone>, zs: seq<Zone>)
    ensures forall w :: w in Missing(ws, zs) <==> w in ws && w !in zs
  {
    if ws != [] {
      MissingMembers(ws[..|ws| - 1], zs);
      assert ws == ws[..|ws| - 1] + [ws[|ws| - 1]];
    }
  }

  lemma ChangedIffMissing(c: Config, s: State, w: Zone)
    requires Cached(c, s) && NoCollision(c, s, true) && w in s.wanted
    ensures CachedHash(s.hashMap, w.name) != c.zoneHash(w) <==> w !in s.cur
  {
    HashMapHolds(c, s.cur);
    if w.name in s.hashMap {
      var z :| z in s.cur && z.name == w.name;
    }
  }

  lemma {:induction false} ChangedIsMissing(c: Config, s: State, ws: seq<Zone>)
    requires Cached(c, s) && NoCollision(c, s, true) && forall w :: w in ws ==> w in s.wanted
    ensures Changed(c, s.hashMap, ws) == Missing(ws, s.cur)
  {
    if ws != [] {
      ChangedIsMissing(c, s, ws[..|ws| - 1]);
      ChangedIffMissing(c, s, ws[|ws| - 1]);
    }
  }

  lemma {:induction false} NothingMissing(ws: seq<Zone>, zs: seq<Zone>)
    requires forall w :: w in ws ==> w in zs
    ensures Missing(ws, zs) == []
  {
    if ws != [] {
      NothingMissing(ws[..|ws| - 1], zs);
    }
  }

  /** Both gates together let through exactly the wanted zones that differ from the cached copies. */
  lemma AttemptsAreMissing(c: Config, s: State, force: bool)
    requires Cached(c, s) && NoCollision(c, s, force) && s.lastFetch.Some?
    ensures Attempts(c, s, force) == Missing(s.wanted, s.cur)
  {
    ChangedIsMissing(c, s, s.wanted);
    if !force && s.wanted != [] && s.curHash == s.wantedHash {
      NothingMissing(s.wanted, s.cur);
    }
  }
}
