/**
 The two goroutines together with the reconciler (dnsController.go): the ticks of the state machine are
 those that the hand-off lets through, so what is proved about each joins up from delivery to answers.
 */
module Pipeline {
  import opened Wrappers
  import opened Strings
  import opened LoadbalancerLists
  import opened Matching
  import opened Zones
  import opened Tally
  import opened Reconciler
  import opened Convergence
  import opened EndToEnd
  import opened Queries
  import HandOff
  import Runs

  /** A step of either loop; the last step of a tick also has the clock and the provider's answers. */
  datatype Move =
    Move(step: HandOff.Label, now: int, fetch: Fetch, ok: set<string>, applied: set<string>)

  datatype Joint = Joint(hand: HandOff.State, world: Runs.World)

  /** The sync that ends a tick: forced, for the promoted list, if the tick promoted one. */
  function TickOf(h: HandOff.State, m: Move): Tick {
    Tick(if h.ticker == HandOff.Decide(true) then h.lbs else None, m.now, m.fetch, m.ok, m.applied)
  }

  function Step(c: Config, j: Joint, m: Move): Joint
    requires HandOff.Enabled(j.hand, m.step)
  {
    Joint(HandOff.Step(j.hand, m.step),
          if m.step.Finish? then Runs.Step(c, j.world, Runs.TickEvent(TickOf(j.hand, m))) else j.world)
  }

  predicate ValidRun(c: Config, j: Joint, ms: seq<Move>)
    decreases |ms|
  {
    ms == [] || (HandOff.Enabled(j.hand, ms[0].step) && ValidRun(c, Step(c, j, ms[0]), ms[1..]))
  }

  function Run(c: Config, j: Joint, ms: seq<Move>): Joint
    requires ValidRun(c, j, ms)
    decreases |ms|
  {
    if ms == [] then j else Run(c, Step(c, j, ms[0]), ms[1..])
  }

  function Start(up: map<string, Zone>): Joint {
    Joint(HandOff.INITIAL, Runs.Start(up))
  }

  /* ---------- the two views of a joint run ---------- */

  function Labels(ms: seq<Move>): (ls: seq<HandOff.Label>)
    ensures |ls| == |ms|
    ensures forall i :: 0 <= i < |ms| ==> ls[i] == ms[i].step
  {
    seq(|ms|, i requires 0 <= i < |ms| => ms[i].step)
  }

  /** The event with which a step reaches the reconciler, if it ends a tick. */
  function EventOf(h: HandOff.State, m: Move): seq<Runs.Event> {
    if m.step.Finish? then [Runs.TickEvent(TickOf(h, m))] else []
  }

  function Events(h: HandOff.State, ms: seq<Move>): seq<Runs.Event>
    requires HandOff.ValidRun(h, Labels(ms))
    decreases |ms|
  {
    if ms == [] then []
    else
      assert Labels(ms)[1..] == Labels(ms[1..]);
      EventOf(h, ms[0]) + Events(HandOff.Step(h, ms[0].step), ms[1..])
  }

  lemma {:induction false} RunAppend(c: Config, w: Runs.World, a: seq<Runs.Event>, b: seq<Runs.Event>)
    ensures Runs.Run(c, w, a + b) == Runs.Run(c, Runs.Run(c, w, a), b)
  {
    if b == [] {
      assert a + b == a;
    } else {
      assert (a + b)[..|a + b| - 1] == a + b[..|b| - 1];
      RunAppend(c, w, a, b[..|b| - 1]);
    }
  }

  /** A joint run is a run of the hand-off, and a run of the reconciler whose ticks promote what the
      hand-off promotes. */
  lemma {:induction false} JointRunProjects(c: Config, j: Joint, ms: seq<Move>)
    requires ValidRun(c, j, ms)
    ensures HandOff.ValidRun(j.hand, Labels(ms))
    ensures Run(c, j, ms).hand == HandOff.Run(j.hand, Labels(ms))
    ensures Run(c, j, ms).world == Runs.Run(c, j.world, Events(j.hand, ms))
    decreases |ms|
  {
    if ms != [] {
      assert Labels(ms)[1..] == Labels(ms[1..]);
      var j' := Step(c, j, ms[0]);
      JointRunProjects(c, j', ms[1..]);
      var first := EventOf(j.hand, ms[0]);
      RunAppend(c, j.world, first, Events(j'.hand, ms[1..]));
      assert first[..0] == [];
      assert Runs.Run(c, j.world, first) == j'.world;
    }
  }

  /** The lists that the ticks of a run promote, in order. */
  function PromotedIn(es: seq<Runs.Event>): seq<LoadbalancerList> {
    if es == [] then []
    else
      (if es[0].TickEvent? && es[0].t.promoted.Some? then [es[0].t.promoted.value] else []) + PromotedIn(es[1..])
  }

  lemma {:induction false} PromotedInAppend(a: seq<Runs.Event>, b: seq<Runs.Event>)
    ensures PromotedIn(a + b) == PromotedIn(a) + PromotedIn(b)
  {
    if a == [] {
      assert a + b == b;
    } else {
      assert (a + b)[1..] == a[1..] + b;
      PromotedInAppend(a[1..], b);
    }
  }

  /** The promotions that have reached the reconciler: all but one whose sync is still to come. */
  function Synced(h: HandOff.State): seq<LoadbalancerList>
    requires HandOff.Safe(h)
  {
    h.promoted[..|h.promoted| - HandOff.Pending(h)]
  }

  lemma StepSyncs(h: HandOff.State, m: Move)
    requires HandOff.Safe(h) && HandOff.Enabled(h, m.step)
    ensures var h' := HandOff.Step(h, m.step);
            HandOff.Safe(h') && Synced(h') == Synced(h) + PromotedIn(EventOf(h, m))
  {
    HandOff.StepIsSafe(h, m.step);
    if m.step.Finish? {
      assert EventOf(h, m)[1..] == [] && PromotedIn([]) == [];
    }
  }

  lemma FirstStep(h: HandOff.State, ms: seq<Move>)
    requires ms != [] && HandOff.ValidRun(h, Labels(ms))
    ensures HandOff.Enabled(h, ms[0].step)
    ensures var h1 := HandOff.Step(h, ms[0].step);
            && HandOff.ValidRun(h1, Labels(ms[1..]))
            && HandOff.Run(h, Labels(ms)) == HandOff.Run(h1, Labels(ms[1..]))
            && PromotedIn(Events(h, ms)) == PromotedIn(EventOf(h, ms[0])) + PromotedIn(Events(h1, ms[1..]))
  {
    assert Labels(ms)[1..] == Labels(ms[1..]);
    PromotedInAppend(EventOf(h, ms[0]), Events(HandOff.Step(h, ms[0].step), ms[1..]));
  }

  /** Each promotion of the hand-off is one forced sync for the promoted list, in order, and no other
      sync is forced. */
  lemma {:induction false} EachPromotionIsOneSync(h: HandOff.State, ms: seq<Move>)
    requires HandOff.Safe(h) && HandOff.ValidRun(h, Labels(ms))
    ensures var h' := HandOff.Run(h, Labels(ms));
            HandOff.Safe(h') && Synced(h') == Synced(h) + PromotedIn(Events(h, ms))
    decreases |ms|
  {
    if ms != [] {
      var h1 := HandOff.Step(h, ms[0].step);
      FirstStep(h, ms);
      StepSyncs(h, ms[0]);
      EachPromotionIsOneSync(h1, ms[1..]);
      Associative(Synced(h), PromotedIn(EventOf(h, ms[0])), PromotedIn(Events(h1, ms[1..])));
    }
  }

  lemma {:induction false} PromotedInMember(es: seq<Runs.Event>, e: Runs.Event)
    requires e in es && e.TickEvent? && e.t.promoted.Some?
    ensures e.t.promoted.value in PromotedIn(es)
  {
    if es[0] != e {
      PromotedInMember(es[1..], e);
    }
  }

  lemma {:induction false} ReceivedWasDelivered(h: HandOff.State, ls: seq<HandOff.Label>, x: LoadbalancerList)
    requires HandOff.ValidRun(h, ls) && x in HandOff.Run(h, ls).received
    ensures x in h.received || HandOff.Receive(x) in ls
    decreases |ls|
  {
    if ls != [] {
      ReceivedWasDelivered(HandOff.Step(h, ls[0]), ls[1..], x);
    }
  }

  /** Over every joint run, whatever the provider answers and however the loops interleave, a zone that
      no delivered list matches is never written. */
  lemma UndeliveredZonesUntouched(c: Config, up: map<string, Zone>, ms: seq<Move>, n: string)
    requires ValidRun(c, Start(up), ms)
    requires HandOff.ValidRun(HandOff.INITIAL, Labels(ms))
          && Runs.ValidRun(c, Runs.Start(up), Events(HandOff.INITIAL, ms))
    requires forall m, lb :: m in ms && m.step.Receive? && lb in m.step.list.lbs ==> !Contains(lb.name, n)
    ensures n !in ZoneNames(Runs.Writes(c, Runs.Start(up), Events(HandOff.INITIAL, ms)))
    ensures Runs.SameAt(Run(c, Start(up), ms).world.up, up, n)
  {
    JointRunProjects(c, Start(up), ms);
    if Runs.Claimed(Events(HandOff.INITIAL, ms), n) {
      ClaimedWasDelivered(ms, n);
    }
    Runs.ForeignZonesUntouched(c, up, Events(HandOff.INITIAL, ms), n);
    TicksOnly(HandOff.INITIAL, ms, up);
  }

  lemma ClaimedWasDelivered(ms: seq<Move>, n: string)
    requires HandOff.ValidRun(HandOff.INITIAL, Labels(ms)) && Runs.Claimed(Events(HandOff.INITIAL, ms), n)
    ensures exists m, lb :: m in ms && m.step.Receive? && lb in m.step.list.lbs && Contains(lb.name, n)
  {
    var es := Events(HandOff.INITIAL, ms);
    var e, lb :| e in es && e.TickEvent? && e.t.promoted.Some? && lb in e.t.promoted.value.lbs && Contains(lb.name, n);
    PromotedWasDelivered(ms, e);
    var i :| 0 <= i < |ms| && Labels(ms)[i] == HandOff.Receive(e.t.promoted.value);
    assert ms[i] in ms;
  }

  lemma PromotedWasDelivered(ms: seq<Move>, e: Runs.Event)
    requires HandOff.ValidRun(HandOff.INITIAL, Labels(ms)) && e in Events(HandOff.INITIAL, ms)
    requires e.TickEvent? && e.t.promoted.Some?
    ensures HandOff.Receive(e.t.promoted.value) in Labels(ms)
  {
    PromotedInMember(Events(HandOff.INITIAL, ms), e);
    PromotedWasReceived(ms);
    ReceivedWasDelivered(HandOff.INITIAL, Labels(ms), e.t.promoted.value);
    assert HandOff.INITIAL.received == [];
  }

  lemma PromotedWasReceived(ms: seq<Move>)
    requires HandOff.ValidRun(HandOff.INITIAL, Labels(ms))
    ensures forall x :: x in PromotedIn(Events(HandOff.INITIAL, ms)) ==>
              x in HandOff.Run(HandOff.INITIAL, Labels(ms)).received
  {
    EachPromotionIsOneSync(HandOff.INITIAL, ms);
    SyncedWasReceived(HandOff.Run(HandOff.INITIAL, Labels(ms)));
  }

  lemma SyncedWasReceived(h: HandOff.State)
    requires HandOff.Safe(h)
    ensures forall x :: x in Synced(h) ==> x in h.received
  {
    assert forall x :: x in Synced(h) ==> x in h.promoted;
  }

  lemma {:induction false} TicksOnly(h: HandOff.State, ms: seq<Move>, up: map<string, Zone>)
    requires HandOff.ValidRun(h, Labels(ms))
    ensures forall e :: e in Events(h, ms) ==> e.TickEvent?
    ensures Runs.OutsideOnly(up, Events(h, ms)) == up
    decreases |ms|
  {
    if ms != [] {
      assert Labels(ms)[1..] == Labels(ms[1..]);
      TicksOnly(HandOff.Step(h, ms[0].step), ms[1..], up);
    }
    NoOutside(Events(h, ms), up);
  }

  lemma {:induction false} NoOutside(es: seq<Runs.Event>, up: map<string, Zone>)
    requires forall e :: e in es ==> e.TickEvent?
    ensures Runs.OutsideOnly(up, es) == up
  {
    if es != [] {
      assert es[|es| - 1] in es;
      NoOutside(es[..|es| - 1], up);
    }
  }

  /* ---------- from delivery to answers ---------- */

  /** The provider answers honestly, and nobody else writes. */
  predicate Honest(c: Config, j: Joint, m: Move) {
    m.step.Finish? ==> HonestTick(c, j.world, TickOf(j.hand, m))
  }

  predicate HonestJointRun(c: Config, j: Joint, ms: seq<Move>)
    decreases |ms|
  {
    ms == [] || (
      && HandOff.Enabled(j.hand, ms[0].step)
      && Honest(c, j, ms[0])
      && HonestJointRun(c, Step(c, j, ms[0]), ms[1..]))
  }

  predicate Promotes(t: Tick, list: LoadbalancerList) {
    t.promoted.Some? && t.promoted.value.hash == list.hash
  }

  /** The fetch of a sync for `list` that a promotion forces works. */
  predicate Smooth(j: Joint, m: Move, list: LoadbalancerList) {
    m.step.Finish? && Promotes(TickOf(j.hand, m), list) ==> m.fetch.Fetched?
  }

  predicate SmoothRun(c: Config, j: Joint, ms: seq<Move>, list: LoadbalancerList)
    decreases |ms|
  {
    ms == [] || (
      && HandOff.Enabled(j.hand, ms[0].step)
      && Honest(c, j, ms[0]) && Smooth(j, ms[0], list)
      && SmoothRun(c, Step(c, j, ms[0]), ms[1..], list))
  }

  predicate OnlyDelivers(ms: seq<Move>, list: LoadbalancerList) {
    forall m :: m in ms && m.step.Receive? ==> m.step.list == list
  }

  /** The tick works, none of its writes fails, and the hashes it compares do not collide. */
  ghost predicate GoodTick(c: Config, w: Runs.World, t: Tick) {
    Working(c, w.ctl, t) && WritesSucceed(c, w, t) && NoCollision(c, Prepared(c, w.ctl, t), t.promoted.Some?)
  }

  /** Whether, after the step, a good tick for `list` has come since another list was last promoted. */
  ghost predicate CaughtUpBy(c: Config, j: Joint, m: Move, list: LoadbalancerList, already: bool) {
    if !m.step.Finish? then already
    else
      var t := TickOf(j.hand, m);
      (t.promoted.Some? ==> Promotes(t, list))
      && (already || (HandOff.Has(j.hand.lbs, list.hash) && GoodTick(c, j.world, t)))
  }

  ghost predicate CaughtUp(c: Config, j: Joint, ms: seq<Move>, list: LoadbalancerList, already: bool)
    requires ValidRun(c, j, ms)
    decreases |ms|
  {
    if ms == [] then already
    else CaughtUp(c, Step(c, j, ms[0]), ms[1..], list, CaughtUpBy(c, j, ms[0], list, already))
  }

  /** Nothing but `list` has its hash; if it is the current list and its sync is done, the rebuild for it
      is under way; and once caught up the zones are settled. */
  ghost predicate OnCourse(c: Config, j: Joint, list: LoadbalancerList, caughtUp: bool) {
    && HandOff.Safe(j.hand) && Sound(c, j.world)
    && UniqueLongest(list.lbs, j.world.up.Keys)
    && (forall x :: x in j.hand.received && x.hash == list.hash ==> x == list)
    && (HandOff.Pending(j.hand) == 0 && HandOff.Has(j.hand.lbs, list.hash) ==> Underway(c, j.world, list))
    && (caughtUp ==> Settled(c, j.world, list))
  }

  lemma StepStaysOnCourse(c: Config, j: Joint, m: Move, list: LoadbalancerList, already: bool)
    requires OnCourse(c, j, list, already) && HandOff.Enabled(j.hand, m.step)
    requires Honest(c, j, m) && Smooth(j, m, list) && (m.step.Receive? ==> m.step.list == list)
    ensures OnCourse(c, Step(c, j, m), list, CaughtUpBy(c, j, m, list, already))
  {
    HandOff.StepIsSafe(j.hand, m.step);
    if m.step.Finish? {
      TickKeepsSound(c, j.world, TickOf(j.hand, m));
      TickKeepsListed(c, j.world, TickOf(j.hand, m));
      FinishStaysUnderway(c, j, m, list, already);
      if CaughtUpBy(c, j, m, list, already) {
        CaughtUpSettles(c, j, m, list, already);
      }
    }
  }

  lemma CurrentIsList(c: Config, j: Joint, list: LoadbalancerList, already: bool)
    requires OnCourse(c, j, list, already) && HandOff.Has(j.hand.lbs, list.hash)
    ensures j.hand.lbs == Some(list)
  {
    assert j.hand.lbs.value in j.hand.promoted;
  }

  lemma FinishStaysUnderway(c: Config, j: Joint, m: Move, list: LoadbalancerList, already: bool)
    requires OnCourse(c, j, list, already) && HandOff.Enabled(j.hand, m.step) && m.step.Finish?
    requires Honest(c, j, m) && Smooth(j, m, list)
    ensures HandOff.Has(j.hand.lbs, list.hash) ==> Underway(c, Step(c, j, m).world, list)
  {
    var t := TickOf(j.hand, m);
    if HandOff.Has(j.hand.lbs, list.hash) {
      CurrentIsList(c, j, list, already);
      if t.promoted.Some? {
        PromotionIsUnderway(c, j.world, t);
      } else {
        TickKeepsUnderway(c, j.world, t, list);
      }
    }
  }

  lemma CaughtUpSettles(c: Config, j: Joint, m: Move, list: LoadbalancerList, already: bool)
    requires OnCourse(c, j, list, already) && HandOff.Enabled(j.hand, m.step) && m.step.Finish?
    requires Honest(c, j, m) && Smooth(j, m, list) && CaughtUpBy(c, j, m, list, already)
    ensures Settled(c, Step(c, j, m).world, list)
  {
    var t := TickOf(j.hand, m);
    if t.promoted.Some? {
      CurrentIsList(c, j, list, already);
    }
    if already {
      CalmTickWritesNothing(c, j.world, t, list);
    } else if t.promoted.Some? {
      PromotionSettles(c, j.world, t);
    } else {
      GoodTickSettles(c, j.world, t, list);
    }
  }

  lemma {:induction false} RunStaysOnCourse(c: Config, j: Joint, ms: seq<Move>, list: LoadbalancerList, already: bool)
    requires OnCourse(c, j, list, already) && SmoothRun(c, j, ms, list) && OnlyDelivers(ms, list)
    ensures ValidRun(c, j, ms) && OnCourse(c, Run(c, j, ms), list, CaughtUp(c, j, ms, list, already))
    decreases |ms|
  {
    if ms != [] {
      assert ms[0] in ms && forall m :: m in ms[1..] ==> m in ms;
      StepStaysOnCourse(c, j, ms[0], list, already);
      RunStaysOnCourse(c, Step(c, j, ms[0]), ms[1..], list, CaughtUpBy(c, j, ms[0], list, already));
    }
  }

  lemma {:induction false} HonestJointRunIsSound(c: Config, j: Joint, ms: seq<Move>)
    requires HandOff.Safe(j.hand) && Sound(c, j.world) && HonestJointRun(c, j, ms)
    ensures ValidRun(c, j, ms)
    ensures HandOff.Safe(Run(c, j, ms).hand) && Sound(c, Run(c, j, ms).world)
    ensures Run(c, j, ms).world.up.Keys == j.world.up.Keys
    decreases |ms|
  {
    if ms != [] {
      HandOff.StepIsSafe(j.hand, ms[0].step);
      if ms[0].step.Finish? {
        TickKeepsSound(c, j.world, TickOf(j.hand, ms[0]));
        TickKeepsListed(c, j.world, TickOf(j.hand, ms[0]));
      }
      HonestJointRunIsSound(c, Step(c, j, ms[0]), ms[1..]);
    }
  }

  /** From any state on course, with a stale candidate, a stale list in flight or a tick under way: let
      only `list` be delivered, one delivery be handled before each tick that starts, and the fetches of
      the forced syncs for `list` work; any other fetch and any write may fail. After two full ticks, when
      no tick is under way, the list is current and its rebuild under way, and it is settled as soon as one
      good tick has come since another list was promoted. */
  lemma DeliverySettles(c: Config, j: Joint, ms: seq<Move>, list: LoadbalancerList)
    requires OnCourse(c, j, list, false) && SmoothRun(c, j, ms, list) && OnlyDelivers(ms, list)
    requires HandOff.FairRun(j.hand, Labels(ms), HandOff.NotYet)
    requires HandOff.Ticks(Labels(ms)) >= if j.hand.ticker.Waiting? then 2 else 3
    ensures ValidRun(c, j, ms)
    ensures var j' := Run(c, j, ms);
            j'.hand.ticker.Waiting? ==>
              && j'.hand.lbs == Some(list) && Underway(c, j'.world, list)
              && (CaughtUp(c, j, ms, list, false) ==> Settled(c, j'.world, list))
  {
    RunStaysOnCourse(c, j, ms, list, false);
    JointRunProjects(c, j, ms);
    OnlyDeliversLabels(ms, list);
    HandOff.FairTicksConverge(j.hand, Labels(ms), list.hash);
    if Run(c, j, ms).hand.ticker.Waiting? {
      CurrentIsList(c, Run(c, j, ms), list, CaughtUp(c, j, ms, list, false));
    }
  }

  /** Forced syncs for `list` that do not fail at all are good ticks. */
  ghost predicate UnfailingRun(c: Config, j: Joint, ms: seq<Move>, list: LoadbalancerList)
    decreases |ms|
  {
    ms == [] || (
      && HandOff.Enabled(j.hand, ms[0].step)
      && (ms[0].step.Finish? && Promotes(TickOf(j.hand, ms[0]), list) ==>
            ms[0].fetch.Fetched? && GoodTick(c, j.world, TickOf(j.hand, ms[0])))
      && UnfailingRun(c, Step(c, j, ms[0]), ms[1..], list))
  }

  /** If the list was not current before and its forced syncs do not fail, no further tick is needed to
      catch up. */
  lemma {:induction false} UnfailingCatchesUp(c: Config, j: Joint, ms: seq<Move>, list: LoadbalancerList, already: bool)
    requires HandOff.Safe(j.hand) && ValidRun(c, j, ms) && UnfailingRun(c, j, ms, list)
    requires HandOff.Pending(j.hand) == 0 && HandOff.Has(j.hand.lbs, list.hash) ==> already
    ensures var h := Run(c, j, ms).hand;
            HandOff.Pending(h) == 0 && HandOff.Has(h.lbs, list.hash) ==> CaughtUp(c, j, ms, list, already)
    decreases |ms|
  {
    if ms != [] {
      HandOff.StepIsSafe(j.hand, ms[0].step);
      UnfailingCatchesUp(c, Step(c, j, ms[0]), ms[1..], list, CaughtUpBy(c, j, ms[0], list, already));
    }
  }

  /** What is asked of the run after the moment `j`. */
  ghost predicate FirstDeliveredAfter(c: Config, j: Joint, ms: seq<Move>, list: LoadbalancerList) {
    // nothing in play has the list's hash but the list, it is not current, and its matches are unique
    && (forall x :: x in j.hand.received && x.hash == list.hash ==> x == list)
    && !HandOff.Has(j.hand.lbs, list.hash)
    && UniqueLongest(list.lbs, j.world.up.Keys)
    // only the list is delivered, fairly, and the fetches of its forced syncs work
    && OnlyDelivers(ms, list)
    && HandOff.FairRun(j.hand, Labels(ms), HandOff.NotYet)
    && SmoothRun(c, j, ms, list)
    // two full ticks, none under way at the end, and a good one since another list was promoted
    && HandOff.Ticks(Labels(ms)) >= (if j.hand.ticker.Waiting? then 2 else 3)
    && ValidRun(c, j, ms) && Run(c, j, ms).hand.ticker.Waiting?
    && CaughtUp(c, j, ms, list, false)
  }

  lemma AfterDelivery(c: Config, j: Joint, ms: seq<Move>, list: LoadbalancerList)
    requires HandOff.Safe(j.hand) && Sound(c, j.world) && FirstDeliveredAfter(c, j, ms, list)
    ensures Settled(c, Run(c, j, ms).world, list)
    ensures Run(c, j, ms).world.up.Keys == j.world.up.Keys
  {
    DeliverySettles(c, j, ms, list);
    SmoothIsHonest(c, j, ms, list);
    HonestJointRunIsSound(c, j, ms);
  }

  lemma SettledServes(c: Config, w: Runs.World, digest: Digest, reports: seq<Report>, tallied: int,
                      wanted: seq<Loadbalancer>)
    requires Settled(c, w, Handed(digest, reports, tallied, wanted))
    ensures Serves(w, reports, tallied, wanted)
  {
    forall zone, record |
      zone in w.up && Expected(reports, tallied, wanted, w.ctl.names, zone, record) != []
      ensures Values(w.up[zone].records, record, A) == Expected(reports, tallied, wanted, w.ctl.names, zone, record)
    {
      SettledAnswers(c, w, digest, reports, tallied, wanted, zone, record);
    }
  }

  /** Every zone serves, under every name with a majority-healthy endpoint, exactly those endpoints'
      addresses, with multiplicity and in configuration order. */
  ghost predicate Serves(w: Runs.World, reports: seq<Report>, tallied: int, wanted: seq<Loadbalancer>) {
    forall zone, record ::
      zone in w.up && Expected(reports, tallied, wanted, w.ctl.names, zone, record) != [] ==>
        Values(w.up[zone].records, record, A) == Expected(reports, tallied, wanted, w.ctl.names, zone, record)
  }

  /** Nothing has happened yet. */
  predicate AtStart(j: Joint) {
    j.hand == HandOff.INITIAL && j.world.ctl == INITIAL
  }

  lemma StartIsSound(c: Config, start: Joint)
    requires AtStart(start)
    ensures HandOff.Safe(start.hand) && Sound(c, start.world)
  {
    HandOff.EveryInterleavingIsSafe([]);
    RunKeepsSound(c, start.world.up, []);
  }

  /** Some delivered list claims the query. */
  ghost predicate Delivers(ms: seq<Move>, q: Query) {
    exists m :: m in ms && m.step.Receive? && Claims(m.step.list, q)
  }

  ghost predicate NoneClaims(lists: seq<LoadbalancerList>, q: Query) {
    forall x :: x in lists ==> !Claims(x, q)
  }

  /** Nothing that was received claims the query, and the zone and its copies give the answer. */
  ghost predicate Undisturbed(j: Joint, q: Query, answer: seq<string>) {
    && HandOff.Safe(j.hand) && NoneClaims(j.hand.received, q)
    && (j.world.ctl.lbs.Some? ==> !Claims(j.world.ctl.lbs.value, q))
    && Answers(j.world, q, answer)
  }

  lemma FinishStaysUndisturbed(c: Config, j: Joint, m: Move, q: Query, answer: seq<string>)
    requires Undisturbed(j, q, answer) && HandOff.Enabled(j.hand, m.step) && m.step.Finish? && Honest(c, j, m)
    ensures var w' := Step(c, j, m).world;
            Answers(w', q, answer) && (w'.ctl.lbs.Some? ==> !Claims(w'.ctl.lbs.value, q))
  {
    var t := TickOf(j.hand, m);
    if t.promoted.Some? {
      assert t.promoted.value in j.hand.promoted;
    }
    TickKeepsAnswers(c, j.world, t, q, answer);
    TickKeepsList(c, j.world.ctl, t);
  }

  lemma TickKeepsList(c: Config, s: State, t: Tick)
    ensures RunTick(c, s, t).state.lbs == if t.promoted.Some? then t.promoted else s.lbs
  {
  }

  lemma StepStaysUndisturbed(c: Config, j: Joint, m: Move, q: Query, answer: seq<string>)
    requires Undisturbed(j, q, answer) && HandOff.Enabled(j.hand, m.step) && Honest(c, j, m)
    requires m.step.Receive? ==> !Claims(m.step.list, q)
    ensures Undisturbed(Step(c, j, m), q, answer)
  {
    HandOff.StepIsSafe(j.hand, m.step);
    if m.step.Finish? {
      FinishStaysUndisturbed(c, j, m, q, answer);
    }
  }

  lemma {:induction false} RunStaysUndisturbed(c: Config, j: Joint, ms: seq<Move>, q: Query, answer: seq<string>)
    requires Undisturbed(j, q, answer) && HonestJointRun(c, j, ms) && !Delivers(ms, q)
    ensures ValidRun(c, j, ms) && Undisturbed(Run(c, j, ms), q, answer)
    decreases |ms|
  {
    if ms != [] {
      assert ms[0] in ms && forall m :: m in ms[1..] ==> m in ms;
      StepStaysUndisturbed(c, j, ms[0], q, answer);
      RunStaysUndisturbed(c, Step(c, j, ms[0]), ms[1..], q, answer);
    }
  }

  lemma UndisturbedAnswers(c: Config, j: Joint, ms: seq<Move>, q: Query, answer: seq<string>)
    requires Undisturbed(j, q, answer) && HonestJointRun(c, j, ms) && !Delivers(ms, q)
    ensures ValidRun(c, j, ms)
    ensures var up' := Run(c, j, ms).world.up;
            q.zone in up' && Answer(up'[q.zone], q) == answer
  {
    RunStaysUndisturbed(c, j, ms, q, answer);
  }

  lemma UndisturbedTwice(c: Config, j: Joint, before: seq<Move>, ms: seq<Move>, q: Query, answer: seq<string>)
    requires Undisturbed(j, q, answer) && !Delivers(before, q) && !Delivers(ms, q)
    requires HonestJointRun(c, j, before) && ValidRun(c, j, before)
    requires HonestJointRun(c, Run(c, j, before), ms) && ValidRun(c, Run(c, j, before), ms)
    ensures var up' := Run(c, Run(c, j, before), ms).world.up;
            q.zone in up' && Answer(up'[q.zone], q) == answer
  {
    RunStaysUndisturbed(c, j, before, q, answer);
    UndisturbedAnswers(c, Run(c, j, before), ms, q, answer);
  }

  lemma StartAnswers(start: Joint, q: Query)
    requires AtStart(start) && q.zone in start.world.up
    ensures Answers(start.world, q, Answer(start.world.up[q.zone], q))
    ensures start.world.ctl.lbs.None? && start.hand.received == []
  {
  }

  lemma NothingReceived(j: Joint, q: Query, answer: seq<string>)
    requires HandOff.Safe(j.hand) && j.hand.received == [] && j.world.ctl.lbs.None? && Answers(j.world, q, answer)
    ensures Undisturbed(j, q, answer)
  {
  }

  lemma StartIsUndisturbed(c: Config, start: Joint, q: Query)
    requires AtStart(start) && q.zone in start.world.up
    ensures Undisturbed(start, q, Answer(start.world.up[q.zone], q))
  {
    StartIsSound(c, start);
    StartAnswers(start, q);
    NothingReceived(start, q, Answer(start.world.up[q.zone], q));
  }

  /** Over every joint run without outside writes, whatever fails and however the loops interleave, a
      query that no delivered list claims gets the answer it got at the start. */
  lemma UndeliveredAnswersStay(c: Config, start: Joint, ms: seq<Move>, q: Query)
    requires AtStart(start) && HonestJointRun(c, start, ms) && q.zone in start.world.up && !Delivers(ms, q)
    ensures ValidRun(c, start, ms)
    ensures var up' := Run(c, start, ms).world.up;
            q.zone in up' && Answer(up'[q.zone], q) == Answer(start.world.up[q.zone], q)
  {
    StartIsUndisturbed(c, start, q);
    UndisturbedAnswers(c, start, ms, q, Answer(start.world.up[q.zone], q));
  }

  lemma StillUndisturbed(c: Config, start: Joint, before: seq<Move>, ms: seq<Move>, q: Query)
    requires AtStart(start) && HonestJointRun(c, start, before) && ValidRun(c, start, before)
    requires HonestJointRun(c, Run(c, start, before), ms) && ValidRun(c, Run(c, start, before), ms)
    requires q.zone in start.world.up && !Delivers(before, q) && !Delivers(ms, q)
    ensures var up' := Run(c, Run(c, start, before), ms).world.up;
            q.zone in up' && Answer(up'[q.zone], q) == Answer(start.world.up[q.zone], q)
  {
    StartIsUndisturbed(c, start, q);
    UndisturbedTwice(c, start, before, ms, q, Answer(start.world.up[q.zone], q));
  }

  /** A query that none of the delivered lists claims gets the answer it got at the start. */
  ghost predicate KeepsUnclaimed(start: Joint, before: seq<Move>, ms: seq<Move>, w: Runs.World) {
    forall q: Query :: q.zone in start.world.up && q.zone in w.up && !Delivers(before, q) && !Delivers(ms, q) ==>
      Answer(w.up[q.zone], q) == Answer(start.world.up[q.zone], q)
  }

  lemma UnclaimedKept(c: Config, start: Joint, before: seq<Move>, ms: seq<Move>)
    requires AtStart(start) && HonestJointRun(c, start, before) && ValidRun(c, start, before)
    requires HonestJointRun(c, Run(c, start, before), ms) && ValidRun(c, Run(c, start, before), ms)
    ensures KeepsUnclaimed(start, before, ms, Run(c, Run(c, start, before), ms).world)
  {
    var w' := Run(c, Run(c, start, before), ms).world;
    forall q: Query | q.zone in start.world.up && q.zone in w'.up && !Delivers(before, q) && !Delivers(ms, q)
      ensures Answer(w'.up[q.zone], q) == Answer(start.world.up[q.zone], q)
    {
      StillUndisturbed(c, start, before, ms, q);
    }
  }

  /** Delivery to answers. Let anything happen up to a moment at which the tallied list is not current:
      any lists delivered in any interleaving, any fetches and writes failed. From then on let only this
      list be delivered, one delivery be handled before each tick that starts, and the fetches of its own
      forced syncs work. After two full ticks, one of them or a later one without a failed write, the
      zones, still the same ones, serve what the tally wants; and a query that no list ever delivered
      claims gets the answer it got at the start. */
  lemma DeliveryReachesAnswers(c: Config, start: Joint, before: seq<Move>, ms: seq<Move>, digest: Digest,
                               reports: seq<Report>, tallied: int, wanted: seq<Loadbalancer>)
    requires AtStart(start) && HonestJointRun(c, start, before) && ValidRun(c, start, before)
    requires FirstDeliveredAfter(c, Run(c, start, before), ms, Handed(digest, reports, tallied, wanted))
    ensures var w' := Run(c, Run(c, start, before), ms).world;
            && w'.up.Keys == start.world.up.Keys
            && Serves(w', reports, tallied, wanted)
            && KeepsUnclaimed(start, before, ms, w')
  {
    StartIsSound(c, start);
    HonestJointRunIsSound(c, start, before);
    var j, list := Run(c, start, before), Handed(digest, reports, tallied, wanted);
    AfterDelivery(c, j, ms, list);
    SettledServes(c, Run(c, j, ms).world, digest, reports, tallied, wanted);
    SmoothIsHonest(c, j, ms, list);
    UnclaimedKept(c, start, before, ms);
  }

  lemma {:induction false} SmoothIsHonest(c: Config, j: Joint, ms: seq<Move>, list: LoadbalancerList)
    requires SmoothRun(c, j, ms, list)
    ensures HonestJointRun(c, j, ms)
    decreases |ms|
  {
    if ms != [] {
      SmoothIsHonest(c, Step(c, j, ms[0]), ms[1..], list);
    }
  }

  lemma OnlyDeliversLabels(ms: seq<Move>, list: LoadbalancerList)
    requires OnlyDelivers(ms, list)
    ensures HandOff.OnlyDelivers(Labels(ms), list.hash)
  {
    forall l | l in Labels(ms) && l.Receive? ensures l.list.hash == list.hash {
      var i :| 0 <= i < |ms| && Labels(ms)[i] == l;
      assert ms[i] in ms;
    }
  }
}
