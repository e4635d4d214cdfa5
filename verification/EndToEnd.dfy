/** From agent reports to DNS answers: the tally, the promotion and the reconciler together. */
module EndToEnd {
  import opened Wrappers
  import opened Net
  import opened LoadbalancerLists
  import opened Decodability
  import opened Matching
  import opened Zones
  import opened Tally
  import opened Reconciler
  import opened Runs
  import opened Convergence

  /** The addresses that a zone should serve under a record name: those of the majority-healthy
      endpoints of the configured loadbalancers that belong to the zone under that name. */
  function Expected(reports: seq<Report>, now: int, wanted: seq<Loadbalancer>, names: seq<string>,
                    zone: string, record: string): seq<string>
  {
    if wanted == [] then []
    else
      var n := |wanted| - 1;
      var lb := wanted[n];
      var init := Expected(reports, now, wanted[..n], names, zone, record);
      if FirstMatch(lb.name, names) == Some(zone) && RecordName(lb.name, zone) == record
      then init + Addresses(Live(reports, now, lb.endpoints)) else init
  }

  lemma SharedAddressesNext(lbs: seq<Loadbalancer>, lb: Loadbalancer, zone: string, record: string)
    ensures SharedAddresses(lbs + [lb], zone, record)
         == SharedAddresses(lbs, zone, record)
            + if RecordName(lb.name, zone) == record then Addresses(lb.endpoints) else []
  {
    assert (lbs + [lb])[..|lbs + [lb]| - 1] == lbs;
  }

  lemma BucketSnoc(lbs: seq<Loadbalancer>, lb: Loadbalancer, names: seq<string>, zone: string)
    ensures Bucket(lbs + [lb], names, zone)
         == Bucket(lbs, names, zone) + if FirstMatch(lb.name, names) == Some(zone) then [lb] else []
  {
    assert (lbs + [lb])[..|lbs + [lb]| - 1] == lbs;
  }

  /** The tally, the matching and the grouping by record name compose. */
  lemma {:induction false} BucketServesExpected(reports: seq<Report>, now: int, wanted: seq<Loadbalancer>,
                                                names: seq<string>, zone: string, record: string)
    ensures SharedAddresses(Bucket(Published(reports, now, wanted), names, zone), zone, record)
         == Expected(reports, now, wanted, names, zone, record)
  {
    if wanted != [] {
      var n := |wanted| - 1;
      var live := Live(reports, now, wanted[n].endpoints);
      var before := Published(reports, now, wanted[..n]);
      BucketServesExpected(reports, now, wanted[..n], names, zone, record);
      if live != [] {
        var lb := Loadbalancer(wanted[n].name, live);
        BucketSnoc(before, lb, names, zone);
        SharedAddressesNext(Bucket(before, names, zone), lb, zone, record);
      }
    }
  }

  lemma {:induction false} ServedIffClaimed(lbs: seq<Loadbalancer>, zone: string, record: string)
    requires forall lb :: lb in lbs ==> lb.endpoints != []
    ensures record in RecordNames(lbs, zone) <==> SharedAddresses(lbs, zone, record) != []
  {
    if lbs != [] {
      var n := |lbs| - 1;
      ServedIffClaimed(lbs[..n], zone, record);
      assert lbs == lbs[..n] + [lbs[n]] && lbs[n] in lbs;
      assert forall lb :: lb in lbs[..n] ==> lb in lbs;
      assert |Addresses(lbs[n].endpoints)| == |lbs[n].endpoints|;
    }
  }

  /** The list that the tally hands over. */
  function Handed(digest: Digest, reports: seq<Report>, now: int, wanted: seq<Loadbalancer>): LoadbalancerList {
    NewList(digest, Published(reports, now, wanted))
  }

  /**
   A failure-free tick that promotes a tallied list makes every zone answer every query as follows:
   A queries under a name with a majority-healthy endpoint get exactly the healthy endpoints'
   addresses, with multiplicity and in configuration order; every other query gets what it got before.
   */
  lemma ReportsToAnswers(c: Config, w: World, t: Tick, digest: Digest, reports: seq<Report>, tallied: int,
                         wanted: seq<Loadbalancer>, zone: string, record: string, rtype: RecordType)
    requires Cached(c, w.ctl) && t.promoted == Some(Handed(digest, reports, tallied, wanted)) && t.fetch.Fetched?
    requires HonestTick(c, w, t) && WritesSucceed(c, w, t) && ZonesDoNotCollide(c, Prepared(c, w.ctl, t))
    requires zone in w.up && w.up[zone].name == zone
    ensures var up' := Step(c, w, TickEvent(t)).up;
            var expected := Expected(reports, tallied, wanted, t.fetch.names, zone, record);
            zone in up' &&
            Values(up'[zone].records, record, rtype)
            == if rtype == A && expected != [] then expected else Values(w.up[zone].records, record, rtype)
  {
    var lbs, names := Published(reports, tallied, wanted), t.fetch.names;
    var b := Bucket(lbs, names, zone);
    PromotionConverges(c, w, t);
    BucketServesExpected(reports, tallied, wanted, names, zone, record);
    PublishedMembers(reports, tallied, wanted);
    BucketMembers(lbs, names, zone);
    ServedIffClaimed(b, zone, record);
    SelectedIffBucket(lbs, names, zone);
    RebuildServes(w.up[zone], b, record, rtype);
  }

  /** In a settled world every zone serves what it should under each name with a majority-healthy endpoint. */
  lemma SettledAnswers(c: Config, w: World, digest: Digest, reports: seq<Report>, tallied: int,
                       wanted: seq<Loadbalancer>, zone: string, record: string)
    requires Settled(c, w, Handed(digest, reports, tallied, wanted)) && zone in w.up
    requires Expected(reports, tallied, wanted, w.ctl.names, zone, record) != []
    ensures Values(w.up[zone].records, record, A) == Expected(reports, tallied, wanted, w.ctl.names, zone, record)
  {
    var lbs, names := Published(reports, tallied, wanted), w.ctl.names;
    var b := Bucket(lbs, names, zone);
    BucketServesExpected(reports, tallied, wanted, names, zone, record);
    PublishedMembers(reports, tallied, wanted);
    BucketMembers(lbs, names, zone);
    ServedIffClaimed(b, zone, record);
    SelectedIffBucket(lbs, names, zone);
    var z :| z in w.ctl.wanted && z.name == zone;
    RebuildServes(z, b, record, A);
  }

  /** Afterwards, however many ticks follow for the same list and whichever of their fetches fail, the
      answers stay. */
  lemma AnswersStay(c: Config, w: World, t: Tick, es: seq<Event>)
    requires Cached(c, w.ctl) && t.promoted.Some? && t.fetch.Fetched?
    requires HonestTick(c, w, t) && WritesSucceed(c, w, t) && ZonesDoNotCollide(c, Prepared(c, w.ctl, t))
    requires UniqueLongest(t.promoted.value.lbs, w.up.Keys)
    requires CalmRun(c, Step(c, w, TickEvent(t)), es, t.promoted.value)
    ensures var w' := Step(c, w, TickEvent(t));
            Run(c, w', es).up == w'.up && Writes(c, w', es) == []
  {
    PromotionSettles(c, w, t);
    SettledForever(c, Step(c, w, TickEvent(t)), es, t.promoted.value);
  }

  /* ---------- what the update loop may ignore ---------- */

  lemma {:induction false} SameBuckets(a: seq<Loadbalancer>, b: seq<Loadbalancer>, names: seq<string>, zone: string)
    requires SameUpToProtocol(a, b)
    ensures SameUpToProtocol(Bucket(a, names, zone), Bucket(b, names, zone))
  {
    if a != [] {
      SameBuckets(a[..|a| - 1], b[..|b| - 1], names, zone);
    }
  }

  lemma {:induction false} SameAdded(a: seq<Loadbalancer>, b: seq<Loadbalancer>, zone: string)
    requires SameUpToProtocol(a, b)
    ensures Added(a, zone) == Added(b, zone)
  {
    if a != [] {
      var n := |a| - 1;
      SameAdded(a[..n], b[..n], zone);
      SameARecords(a[n], b[n], zone);
    }
  }

  lemma SameRecordNames(a: seq<Loadbalancer>, b: seq<Loadbalancer>, zone: string)
    requires SameUpToProtocol(a, b)
    ensures RecordNames(a, zone) <= RecordNames(b, zone)
  {
    forall lb | lb in a ensures RecordName(lb.name, zone) in RecordNames(b, zone) {
      var i :| 0 <= i < |a| && a[i] == lb;
      assert b[i] in b;
    }
  }

  lemma SameARecords(x: Loadbalancer, y: Loadbalancer, zone: string)
    requires x.name == y.name && AddressTokens(x.endpoints) == AddressTokens(y.endpoints)
    ensures ARecords(x, zone) == ARecords(y, zone)
  {
    forall k | 0 <= k < |x.endpoints| ensures ARecords(x, zone)[k] == ARecords(y, zone)[k] {
      assert AddressTokens(x.endpoints)[k] == AddressTokens(y.endpoints)[k];
    }
  }

  lemma SameRebuild(z: Zone, a: seq<Loadbalancer>, b: seq<Loadbalancer>)
    requires SameUpToProtocol(a, b)
    ensures RebuildZone(z, a) == RebuildZone(z, b)
  {
    SameAdded(a, b, z.name);
    SameRecordNames(a, b, z.name);
    SameRecordNames(b, a, z.name);
    assert RecordNames(a, z.name) == RecordNames(b, z.name);
  }

  /** A delivery dropped for its hash would have changed no zone: where the digest does not collide on
      the two streams, lists with equal hashes rebuild every zone alike. */
  lemma EqualHashesRebuildAlike(digest: Digest, all: set<Token>, a: seq<Loadbalancer>, b: seq<Loadbalancer>,
                                names: seq<string>, z: Zone)
    requires NewList(digest, a).hash == NewList(digest, b).hash
    requires digest(Encode(a)) == digest(Encode(b)) ==> Encode(a) == Encode(b)
    requires Decodable(all) && Over(Tokens(a), all) && Over(Tokens(b), all)
    ensures RebuildZone(z, Bucket(a, names, z.name)) == RebuildZone(z, Bucket(b, names, z.name))
  {
    EncodeUniquelyDecodable(all, a, b);
    SameBuckets(a, b, names, z.name);
    SameRebuild(z, Bucket(a, names, z.name), Bucket(b, names, z.name));
  }

  /** The names and addresses of the configured loadbalancers. */
  function TokenSet(lbs: seq<Loadbalancer>): set<Token> {
    set t | t in Tokens(lbs)
  }

  lemma {:induction false} TokensMembers(lbs: seq<Loadbalancer>)
    ensures forall t :: t in Tokens(lbs) <==>
              exists lb :: lb in lbs && (t == Name(lb.name) || t in AddressTokens(lb.endpoints))
  {
    if lbs != [] {
      TokensMembers(lbs[1..]);
      assert lbs == [lbs[0]] + lbs[1..];
      assert forall lb :: lb in lbs <==> lb == lbs[0] || lb in lbs[1..];
    }
  }

  lemma LiveTokens(reports: seq<Report>, now: int, eps: seq<EndpointProtocol>, t: Token)
    requires t in AddressTokens(Live(reports, now, eps))
    ensures t in AddressTokens(eps)
  {
    var live := Live(reports, now, eps);
    var i :| 0 <= i < |live| && t == AddressTokens(live)[i];
    LiveCounts(reports, now, eps, live[i]);
    assert live[i] in multiset(live) && live[i] in multiset(eps);
    var k :| 0 <= k < |eps| && eps[k] == live[i];
    assert AddressTokens(eps)[k] == t;
  }

  lemma PublishedTokens(reports: seq<Report>, now: int, wanted: seq<Loadbalancer>)
    ensures Over(Tokens(Published(reports, now, wanted)), TokenSet(wanted))
  {
    var lbs := Published(reports, now, wanted);
    PublishedMembers(reports, now, wanted);
    TokensMembers(lbs);
    TokensMembers(wanted);
    forall t | t in Tokens(lbs) ensures t in Tokens(wanted) {
      var lb :| lb in lbs && (t == Name(lb.name) || t in AddressTokens(lb.endpoints));
      var w :| w in wanted && w.name == lb.name && lb.endpoints == Live(reports, now, w.endpoints);
      if t != Name(lb.name) {
        LiveTokens(reports, now, w.endpoints, t);
      }
    }
  }

  /** With a decodable configuration two tallies have the same stream only if they publish the same
      loadbalancers with the same addresses, so no change of health goes unnoticed. */
  lemma TallyChangesAreSeen(wanted: seq<Loadbalancer>, rs: seq<Report>, now: int, rs': seq<Report>, now': int)
    requires Decodable(TokenSet(wanted))
    ensures Encode(Published(rs, now, wanted)) == Encode(Published(rs', now', wanted))
       <==> SameUpToProtocol(Published(rs, now, wanted), Published(rs', now', wanted))
  {
    PublishedTokens(rs, now, wanted);
    PublishedTokens(rs', now', wanted);
    EncodeUniquelyDecodable(TokenSet(wanted), Published(rs, now, wanted), Published(rs', now', wanted));
  }
}
