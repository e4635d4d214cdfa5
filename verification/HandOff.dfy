/**
 The hand-off of loadbalancer lists between the update loop and the ticking loop (dnsController.go).
 Two goroutines share the current list, the candidate and a lock. Each step below is one access to
 shared state; the two loops interleave freely.
 */
module HandOff {
  import opened Wrappers
  import opened LoadbalancerLists

  datatype Lock = Free | HeldByUpdater | HeldByTicker

  /** The update loop: waiting, holding a received list, past the comparison, inside the lock, done storing. */
  datatype UpdaterPC =
    | Idle
    | Received(list: LoadbalancerList)
    | Differs(list: LoadbalancerList)
    | Locked(list: LoadbalancerList)
    | Stored

  /** The tick: waiting, past the unlocked test, inside the lock, past the inner test and promotion,
      unlocked again with the force flag, inside sync. */
  datatype TickerPC =
    | Waiting
    | SawCandidate
    | InLock
    | Promoted(force: bool)
    | Decide(force: bool)

  datatype State = State(
    lbs: Option<LoadbalancerList>,
    candidate: Option<LoadbalancerList>,
    lock: Lock,
    updater: UpdaterPC,
    ticker: TickerPC,
    // history
    received: seq<LoadbalancerList>,
    stored: seq<LoadbalancerList>,
    promoted: seq<LoadbalancerList>,
    overwritten: nat,
    forcedSyncs: nat,
    plainSyncs: nat)

  const INITIAL := State(None, None, Free, Idle, Waiting, [], [], [], 0, 0, 0)

  datatype Label =
    | Receive(list: LoadbalancerList) | Compare | Acquire | Store | Release
    | Test | TickAcquire | TestAgain | TickRelease | Finish

  /** The step is possible. `TestAgain` follows the log statement that dereferences the candidate,
      `TickRelease` the one that dereferences the current list. */
  predicate Enabled(s: State, l: Label) {
    match l
    case Receive(_) => s.updater.Idle?
    case Compare => s.updater.Received?
    case Acquire => s.updater.Differs? && s.lock.Free?
    case Store => s.updater.Locked?
    case Release => s.updater.Stored?
    case Test => s.ticker.Waiting?
    case TickAcquire => s.ticker.SawCandidate? && s.lock.Free?
    case TestAgain => s.ticker.InLock?
    case TickRelease => s.ticker.Promoted?
    case Finish => s.ticker.Decide?
  }

  function Step(s: State, l: Label): State
    requires Enabled(s, l)
  {
    match l
    case Receive(list) => s.(updater := Received(list), received := s.received + [list])
    case Compare =>
      if s.lbs.Some? && s.updater.list.hash == s.lbs.value.hash then s.(updater := Idle)
      else s.(updater := Differs(s.updater.list))
    case Acquire => s.(updater := Locked(s.updater.list), lock := HeldByUpdater)
    case Store =>
      s.(candidate := Some(s.updater.list), updater := Stored, stored := s.stored + [s.updater.list],
         overwritten := if s.candidate.Some? then s.overwritten + 1 else s.overwritten)
    case Release => s.(updater := Idle, lock := Free)
    case Test => if s.candidate.Some? then s.(ticker := SawCandidate) else s.(ticker := Decide(false))
    case TickAcquire => s.(ticker := InLock, lock := HeldByTicker)
    case TestAgain =>
      if s.candidate.Some?
      then s.(lbs := s.candidate, candidate := None, ticker := Promoted(true),
              promoted := s.promoted + [s.candidate.value])
      else s.(ticker := Promoted(false))
    case TickRelease => s.(ticker := Decide(s.ticker.force), lock := Free)
    case Finish =>
      if s.lbs.None? then s.(ticker := Waiting)
      else if s.ticker.force then s.(ticker := Waiting, forcedSyncs := s.forcedSyncs + 1)
      else s.(ticker := Waiting, plainSyncs := s.plainSyncs + 1)
  }

  predicate ValidRun(s: State, ls: seq<Label>)
    decreases |ls|
  {
    ls == [] || (Enabled(s, ls[0]) && ValidRun(Step(s, ls[0]), ls[1..]))
  }

  function Run(s: State, ls: seq<Label>): State
    requires ValidRun(s, ls)
    decreases |ls|
  {
    if ls == [] then s else Run(Step(s, ls[0]), ls[1..])
  }

  /* ---------- safety in every interleaving ---------- */

  function Pending(s: State): nat {
    if s.ticker == Promoted(true) || s.ticker == Decide(true) then 1 else 0
  }

  predicate InFlight(u: UpdaterPC) {
    u.Received? || u.Differs? || u.Locked?
  }

  /** What every reachable state satisfies. */
  ghost predicate Safe(s: State) {
    // the two dereferences under the lock never meet nil
    && (s.ticker.SawCandidate? || s.ticker.InLock? ==> s.candidate.Some?)
    && (s.ticker.Promoted? ==> s.ticker.force && s.lbs.Some?)
    && (s.ticker.Decide? && s.ticker.force ==> s.lbs.Some?)
    // mutual exclusion
    && (s.lock.HeldByUpdater? <==> s.updater.Locked? || s.updater.Stored?)
    && (s.lock.HeldByTicker? <==> s.ticker.InLock? || s.ticker.Promoted?)
    // the current list is the last promoted one, and every list in play was received
    && (s.lbs == if s.promoted == [] then None else Some(s.promoted[|s.promoted| - 1]))
    && (InFlight(s.updater) ==> s.updater.list in s.received)
    && (s.candidate.Some? ==> s.candidate.value in s.received)
    && (forall p :: p in s.promoted ==> p in s.received)
    // one forced sync for each promotion
    && s.forcedSyncs + Pending(s) == |s.promoted|
    // every stored list was promoted, overwritten by a later one, or is still the candidate
    && |s.stored| == |s.promoted| + s.overwritten + (if s.candidate.Some? then 1 else 0)
  }

  predicate OfUpdater(l: Label) {
    l.Receive? || l.Compare? || l.Acquire? || l.Store? || l.Release?
  }

  lemma UpdaterStepIsSafe(s: State, l: Label)
    requires Safe(s) && Enabled(s, l) && OfUpdater(l)
    ensures Safe(Step(s, l))
  {
    var s' := Step(s, l);
    assert forall x :: x in s.received ==> x in s'.received;
    if l.Receive? {
      assert s'.received[|s.received|] == l.list;
    }
  }

  lemma TickerStepIsSafe(s: State, l: Label)
    requires Safe(s) && Enabled(s, l) && !OfUpdater(l)
    ensures Safe(Step(s, l))
  {
  }

  lemma StepIsSafe(s: State, l: Label)
    requires Safe(s) && Enabled(s, l)
    ensures Safe(Step(s, l))
    ensures s.lbs.Some? ==> Step(s, l).lbs.Some?
    ensures s.candidate.Some? && Step(s, l).candidate != s.candidate ==>
      || (l.TestAgain? && Step(s, l).promoted == s.promoted + [s.candidate.value])
      || (l.Store? && Step(s, l).overwritten == s.overwritten + 1)
  {
    if OfUpdater(l) {
      UpdaterStepIsSafe(s, l);
    } else {
      TickerStepIsSafe(s, l);
    }
  }

  lemma {:induction false} RunIsSafe(s: State, ls: seq<Label>)
    requires Safe(s) && ValidRun(s, ls)
    ensures Safe(Run(s, ls))
    ensures s.lbs.Some? ==> Run(s, ls).lbs.Some?
    decreases |ls|
  {
    if ls != [] {
      StepIsSafe(s, ls[0]);
      RunIsSafe(Step(s, ls[0]), ls[1..]);
    }
  }

  /** Every interleaving from the start is safe. */
  lemma EveryInterleavingIsSafe(ls: seq<Label>)
    requires ValidRun(INITIAL, ls)
    ensures Safe(Run(INITIAL, ls))
  {
    RunIsSafe(INITIAL, ls);
  }

  /** Neither loop is ever stuck: one that cannot take its next step waits for the lock, and then the
      other loop, which holds it, can. A waiting update loop can receive any list. */
  lemma NoDeadlock(s: State, list: LoadbalancerList)
    requires Safe(s)
    ensures (exists l :: OfUpdater(l) && Enabled(s, l)) ||
            (s.updater.Differs? && s.lock.HeldByTicker? && exists l :: !OfUpdater(l) && Enabled(s, l))
    ensures (exists l :: !OfUpdater(l) && Enabled(s, l)) ||
            (s.ticker.SawCandidate? && s.lock.HeldByUpdater? && exists l :: OfUpdater(l) && Enabled(s, l))
    ensures s.updater.Idle? ==> Enabled(s, Receive(list))
  {
    var u := match s.updater
      case Idle => Receive(list)
      case Received(_) => Compare
      case Differs(_) => Acquire
      case Locked(_) => Store
      case Stored => Release;
    var t := match s.ticker
      case Waiting => Test
      case SawCandidate => TickAcquire
      case InLock => TestAgain
      case Promoted(_) => TickRelease
      case Decide(_) => Finish;
    assert OfUpdater(u) && !OfUpdater(t);
    assert Enabled(s, u) || (s.updater.Differs? && !s.lock.Free?);
    assert Enabled(s, t) || (s.ticker.SawCandidate? && !s.lock.Free?);
  }

  /** What the update loop does with a delivery when it is not disturbed: it drops a list with the current
      hash and makes any other the candidate. */
  lemma UndisturbedDelivery(s: State, list: LoadbalancerList) returns (ls: seq<Label>)
    requires s.updater.Idle? && s.lock.Free?
    ensures forall l :: l in ls ==> OfUpdater(l)
    ensures ValidRun(s, ls)
    ensures var s' := Run(s, ls);
            && s'.updater.Idle? && s'.lock.Free? && s'.ticker == s.ticker && s'.lbs == s.lbs
            && s'.promoted == s.promoted && s'.received == s.received + [list]
            && s'.candidate == if s.lbs.Some? && s.lbs.value.hash == list.hash then s.candidate else Some(list)
  {
    var s1 := Step(s, Receive(list));
    var s2 := Step(s1, Compare);
    ls := [];
    if !s2.updater.Idle? {
      var s3 := Step(s2, Acquire);
      var s4 := Step(s3, Store);
      ls := Then(s4, Release, ls);
      ls := Then(s3, Store, ls);
      ls := Then(s2, Acquire, ls);
    }
    ls := Then(s1, Compare, ls);
    ls := Then(s, Receive(list), ls);
  }

  /** And an undisturbed tick promotes the candidate, if there is one, and then forces one sync; otherwise
      it syncs without force, if a list is current. */
  lemma UndisturbedTick(s: State) returns (ls: seq<Label>)
    requires s.ticker.Waiting? && s.lock.Free?
    ensures forall l :: l in ls ==> !OfUpdater(l)
    ensures ValidRun(s, ls)
    ensures var s' := Run(s, ls);
            && s'.ticker.Waiting? && s'.lock.Free? && s'.updater == s.updater && s'.candidate == None
            && if s.candidate.Some?
               then && s'.lbs == s.candidate && s'.promoted == s.promoted + [s.candidate.value]
                    && s'.forcedSyncs == s.forcedSyncs + 1 && s'.plainSyncs == s.plainSyncs
               else && s'.lbs == s.lbs && s'.promoted == s.promoted && s'.forcedSyncs == s.forcedSyncs
                    && s'.plainSyncs == s.plainSyncs + if s.lbs.Some? then 1 else 0
  {
    var s1 := Step(s, Test);
    if s.candidate.Some? {
      var s2 := Step(s1, TickAcquire);
      var s3 := Step(s2, TestAgain);
      var s4 := Step(s3, TickRelease);
      ls := Then(s4, Finish, []);
      ls := Then(s3, TickRelease, ls);
      ls := Then(s2, TestAgain, ls);
      ls := Then(s1, TickAcquire, ls);
    } else {
      ls := Then(s1, Finish, []);
    }
    ls := Then(s, Test, ls);
  }

  lemma Then(s: State, l: Label, rest: seq<Label>) returns (ls: seq<Label>)
    requires Enabled(s, l) && ValidRun(Step(s, l), rest)
    ensures ls == [l] + rest && ValidRun(s, ls) && Run(s, ls) == Run(Step(s, l), rest)
  {
    ls := [l] + rest;
    assert ls[1..] == rest;
  }

  /* ---------- convergence when one list keeps being delivered ---------- */

  /** Only lists with the hash `h` are delivered. */
  predicate OnlyDelivers(ls: seq<Label>, h: uint64) {
    forall l :: l in ls && l.Receive? ==> l.list.hash == h
  }

  predicate Carries(u: UpdaterPC, h: uint64) {
    InFlight(u) ==> u.list.hash == h
  }

  predicate Has(o: Option<LoadbalancerList>, h: uint64) {
    o.Some? && o.value.hash == h
  }

  /** How many promotions away the hash is: two with a stale candidate, one without the list, else none. */
  function Distance(s: State, h: uint64): nat {
    if s.candidate.Some? && s.candidate.value.hash != h then 2
    else if !Has(s.lbs, h) then 1
    else 0
  }

  /** Candidate and store still to come once the distance is 0. */
  function Residue(s: State): nat {
    (if s.updater.Differs? || s.updater.Locked? then 2 else 0) + (if s.candidate.Some? then 1 else 0)
  }

  /** The distance never grows; at distance 0 it stays 0, and every store and promotion uses up residue. */
  lemma DistanceNeverGrows(s: State, l: Label, h: uint64)
    requires Safe(s) && Enabled(s, l) && Carries(s.updater, h) && (l.Receive? ==> l.list.hash == h)
    ensures var s' := Step(s, l);
            && Carries(s'.updater, h)
            && Distance(s', h) <= Distance(s, h)
            && (s'.promoted != s.promoted ==> Distance(s', h) <= (if Distance(s, h) == 2 then 1 else 0))
            && (Distance(s, h) == 0 ==>
                  && |s'.stored| - |s.stored| + |s'.promoted| - |s.promoted| <= Residue(s) - Residue(s'))
  {
  }

  /** From any safe state: within two promotions the current list has the hash, and at most three
      stores and promotions happen once it is settled. */
  lemma {:induction false} TwoPromotionsSuffice(s: State, ls: seq<Label>, h: uint64)
    requires Safe(s) && ValidRun(s, ls) && Carries(s.updater, h) && OnlyDelivers(ls, h)
    ensures var s' := Run(s, ls);
            && Carries(s'.updater, h)
            && Distance(s', h) <= Distance(s, h)
            && Distance(s', h) <= (if |s'.promoted| - |s.promoted| >= Distance(s, h) then 0 else Distance(s, h))
            && (Distance(s, h) == 0 ==>
                  |s'.stored| - |s.stored| + |s'.promoted| - |s.promoted| <= Residue(s) - Residue(s'))
            && |s'.promoted| >= |s.promoted|
    decreases |ls|
  {
    if ls != [] {
      assert ls[0] in ls;
      StepIsSafe(s, ls[0]);
      DistanceNeverGrows(s, ls[0], h);
      var t := Step(s, ls[0]);
      assert forall l :: l in ls[1..] ==> l in ls;
      TwoPromotionsSuffice(t, ls[1..], h);
    }
  }

  /** Settled for good: no store and no promotion ever again, in any interleaving. */
  lemma SettledStaysQuiet(s: State, ls: seq<Label>, h: uint64)
    requires Safe(s) && ValidRun(s, ls) && Carries(s.updater, h) && OnlyDelivers(ls, h)
    requires Distance(s, h) == 0 && Residue(s) == 0
    ensures var s' := Run(s, ls);
            && s'.stored == s.stored && s'.promoted == s.promoted && s'.lbs == s.lbs && Has(s'.lbs, h)
  {
    RunIsSafe(s, ls);
    RunKeepsHistory(s, ls);
    TwoPromotionsSuffice(s, ls, h);
  }

  lemma {:induction false} RunKeepsHistory(s: State, ls: seq<Label>)
    requires ValidRun(s, ls)
    ensures s.received <= Run(s, ls).received && s.stored <= Run(s, ls).stored && s.promoted <= Run(s, ls).promoted
    decreases |ls|
  {
    if ls != [] {
      RunKeepsHistory(Step(s, ls[0]), ls[1..]);
    }
  }

  /* ---------- fairness: a delivery is handled between ticks ---------- */

  /** Where the gap before the next tick stands: no delivery begun in it, one begun, one handled. */
  datatype Gap = NotYet | Begun | Handled

  function NextGap(s: State, l: Label, g: Gap): Gap
    requires Enabled(s, l)
  {
    if l.Finish? then NotYet
    else if !s.ticker.Waiting? || l.Test? || g.Handled? then g
    else if l.Receive? then Begun
    else if g.Begun? && Step(s, l).updater.Idle? then Handled
    else g
  }

  /** Each tick starts only after a delivery was received and handled since the tick before. */
  predicate FairRun(s: State, ls: seq<Label>, g: Gap)
    decreases |ls|
  {
    ls == [] || (
      && Enabled(s, ls[0])
      && (ls[0].Test? ==> g.Handled?)
      && FairRun(Step(s, ls[0]), ls[1..], NextGap(s, ls[0], g)))
  }

  lemma {:induction false} FairIsValid(s: State, ls: seq<Label>, g: Gap)
    requires FairRun(s, ls, g)
    ensures ValidRun(s, ls)
    decreases |ls|
  {
    if ls != [] {
      FairIsValid(Step(s, ls[0]), ls[1..], NextGap(s, ls[0], g));
    }
  }

  /** The ticks completed in a run. */
  function Ticks(ls: seq<Label>): nat {
    if ls == [] then 0 else (if ls[0].Finish? then 1 else 0) + Ticks(ls[1..])
  }

  /** A handled delivery leaves the hash current or a candidate behind, one in flight will, and one begun
      with the hash current is dropped. */
  ghost predicate GapFacts(s: State, g: Gap, h: uint64) {
    && (s.ticker.Waiting? && !g.NotYet? && s.updater.Idle? ==> Has(s.lbs, h) || s.candidate.Some?)
    && (s.ticker.Waiting? && g.Handled? ==> Has(s.lbs, h) || s.candidate.Some?)
    && (s.ticker.Waiting? && g.Begun? && s.updater.Stored? ==> s.candidate.Some?)
    && ((s.ticker.Waiting? && !g.NotYet?) || s.ticker.SawCandidate? || s.ticker.InLock? ==>
          Has(s.lbs, h) && Carries(s.updater, h) ==> !s.updater.Differs? && !s.updater.Locked?)
    && (s.ticker.Waiting? && !Carries(s.updater, h) ==> g.NotYet?)
  }

  /** Ticks still needed to promote a stale candidate, then the list, then what else was stored of it. */
  function Promotions(s: State, h: uint64): nat {
    if Distance(s, h) > 0 then Distance(s, h) + 1 else if Residue(s) > 0 then 1 else 0
  }

  /** Ticks still to complete until nothing is left to do. A promotion has already used up its own tick;
      a stale list in flight will be handled before the next tick starts. */
  function Ahead(s: State, h: uint64): nat {
    if !Carries(s.updater, h) then (if s.ticker.Waiting? then 3 else 4)
    else if (s.ticker.Promoted? || s.ticker.Decide?) && Promotions(s, h) > 0 then Promotions(s, h) + 1
    else Promotions(s, h)
  }

  lemma FairStep(s: State, l: Label, g: Gap, h: uint64)
    requires Safe(s) && Enabled(s, l) && (l.Receive? ==> l.list.hash == h)
    requires (l.Test? ==> g.Handled?) && GapFacts(s, g, h)
    ensures GapFacts(Step(s, l), NextGap(s, l, g), h)
    ensures Ahead(Step(s, l), h) <= if l.Finish? && Ahead(s, h) > 0 then Ahead(s, h) - 1 else Ahead(s, h)
  {
  }

  lemma {:induction false} FairTicksCountDown(s: State, ls: seq<Label>, g: Gap, h: uint64)
    requires Safe(s) && OnlyDelivers(ls, h) && FairRun(s, ls, g) && GapFacts(s, g, h)
    ensures ValidRun(s, ls)
    ensures Ahead(Run(s, ls), h) <= if Ticks(ls) >= Ahead(s, h) then 0 else Ahead(s, h) - Ticks(ls)
    decreases |ls|
  {
    FairIsValid(s, ls, g);
    if ls != [] {
      assert ls[0] in ls;
      assert forall l :: l in ls[1..] ==> l in ls;
      StepIsSafe(s, ls[0]);
      FairStep(s, ls[0], g, h);
      FairTicksCountDown(Step(s, ls[0]), ls[1..], NextGap(s, ls[0], g), h);
    }
  }

  /** Nothing is left to do: the hash is current, and nothing else is stored or on its way. */
  predicate Quiet(s: State, h: uint64) {
    Carries(s.updater, h) && Distance(s, h) == 0 && Residue(s) == 0
  }

  /** Once quiet, it stays quiet in every interleaving, fair or not. */
  lemma QuietStaysQuiet(s: State, ls: seq<Label>, h: uint64)
    requires Safe(s) && ValidRun(s, ls) && OnlyDelivers(ls, h) && Quiet(s, h)
    ensures Quiet(Run(s, ls), h) && Run(s, ls).promoted == s.promoted && Run(s, ls).stored == s.stored
  {
    SettledStaysQuiet(s, ls, h);
    TwoPromotionsSuffice(s, ls, h);
  }

  lemma {:induction false} FromMidTick(s: State, ls: seq<Label>, g: Gap, h: uint64)
    requires Safe(s) && OnlyDelivers(ls, h) && FairRun(s, ls, g) && !s.ticker.Waiting?
    ensures ValidRun(s, ls)
    ensures Ticks(ls) > 0 ==> Ahead(Run(s, ls), h) <= if Ticks(ls) >= 4 then 0 else 4 - Ticks(ls)
    decreases |ls|
  {
    FairIsValid(s, ls, g);
    if ls != [] {
      var t, rest, g' := Step(s, ls[0]), ls[1..], NextGap(s, ls[0], g);
      assert forall l :: l in rest ==> l in ls;
      StepIsSafe(s, ls[0]);
      if ls[0].Finish? {
        FairTicksCountDown(t, rest, g', h);
      } else {
        FromMidTick(t, rest, g', h);
      }
    }
  }

  /** From any reachable state whatever, with a stale candidate, a stale list in flight and a tick under
      way: if only lists with hash `h` are delivered, one at least handled before each tick that starts,
      the current list has the hash after two full ticks, and after one more nothing is stored or
      pending. A tick under way counts as one more. */
  lemma FairTicksConverge(s: State, ls: seq<Label>, h: uint64)
    requires Safe(s) && OnlyDelivers(ls, h) && FairRun(s, ls, NotYet)
    ensures ValidRun(s, ls)
    ensures var needed := if s.ticker.Waiting? then 2 else 3;
            && (Ticks(ls) >= needed ==> Distance(Run(s, ls), h) == 0 && Has(Run(s, ls).lbs, h))
            && (Ticks(ls) >= needed + 1 ==> Quiet(Run(s, ls), h))
  {
    if s.ticker.Waiting? {
      FairTicksCountDown(s, ls, NotYet, h);
    } else {
      FromMidTick(s, ls, NotYet, h);
    }
  }

  /* ---------- when the last delivery wins ---------- */

  /** The list is current and a stale candidate pending: deliveries are dropped until it is promoted. */
  ghost predicate StaleWins(s: State, h: uint64) {
    && Carries(s.updater, h)
    && s.ticker != Decide(false)
    && (if s.ticker.Promoted? || s.ticker.Decide? then !Has(s.lbs, h)
        else && Has(s.lbs, h) && s.candidate.Some? && s.candidate.value.hash != h
             && (s.updater.Idle? || s.updater.Received?))
  }

  /** Otherwise the list is current and stays so, or the delivery handled in the gap is the candidate. */
  ghost predicate DeliveryWins(s: State, g: Gap, h: uint64) {
    && Carries(s.updater, h)
    && (if s.ticker.Promoted? || s.ticker.Decide? then Has(s.lbs, h)
        else if Has(s.lbs, h) then Distance(s, h) == 0
        else if s.ticker.Waiting? && (g.NotYet? || (g.Begun? && InFlight(s.updater))) then true
        else Has(s.candidate, h))
  }

  lemma StaleWinsStep(s: State, l: Label, h: uint64)
    requires Safe(s) && Enabled(s, l) && (l.Receive? ==> l.list.hash == h) && StaleWins(s, h)
    ensures if l.Finish? then !Has(Step(s, l).lbs, h) else StaleWins(Step(s, l), h)
  {
  }

  lemma DeliveryWinsStep(s: State, l: Label, g: Gap, h: uint64)
    requires Safe(s) && Enabled(s, l) && (l.Receive? ==> l.list.hash == h) && (l.Test? ==> g.Handled?)
    requires DeliveryWins(s, g, h)
    ensures if l.Finish? then Has(Step(s, l).lbs, h) else DeliveryWins(Step(s, l), NextGap(s, l, g), h)
  {
  }

  predicate OneTick(ls: seq<Label>) {
    Ticks(ls) == 1 && ls[|ls| - 1].Finish?
  }

  lemma OneTickNext(ls: seq<Label>)
    requires OneTick(ls)
    ensures if ls[0].Finish? then ls[1..] == [] else OneTick(ls[1..])
  {
    if ls[1..] != [] {
      FinishTicks(ls[1..]);
    }
  }

  lemma {:induction false} FinishTicks(ls: seq<Label>)
    requires ls != [] && ls[|ls| - 1].Finish?
    ensures Ticks(ls) > 0
  {
    if |ls| > 1 {
      FinishTicks(ls[1..]);
    }
  }

  lemma {:induction false} OneTickDecides(s: State, ls: seq<Label>, g: Gap, h: uint64)
    requires Safe(s) && OnlyDelivers(ls, h) && FairRun(s, ls, g) && OneTick(ls)
    requires StaleWins(s, h) || DeliveryWins(s, g, h)
    ensures ValidRun(s, ls)
    ensures Has(Run(s, ls).lbs, h) <==> !StaleWins(s, h)
    decreases |ls|
  {
    FairIsValid(s, ls, g);
    var l, t, rest := ls[0], Step(s, ls[0]), ls[1..];
    assert l in ls && forall x :: x in rest ==> x in ls;
    OneTickNext(ls);
    StepIsSafe(s, l);
    if StaleWins(s, h) {
      StaleWinsStep(s, l, h);
    } else {
      DeliveryWinsStep(s, l, g, h);
    }
    if !l.Finish? {
      OneTickDecides(t, rest, NextGap(s, l, g), h);
    }
  }

  /** When the last delivery wins. Between ticks with nothing in flight, let only lists with hash `h` be
      delivered and one at least be handled before the next tick: that tick leaves the hash current
      unless it was current all along while another candidate was pending, and then it never does. */
  lemma LastDeliveryWinsIff(s: State, ls: seq<Label>, h: uint64)
    requires Safe(s) && s.ticker.Waiting? && s.updater.Idle?
    requires OnlyDelivers(ls, h) && FairRun(s, ls, NotYet) && OneTick(ls)
    ensures ValidRun(s, ls)
    ensures Has(Run(s, ls).lbs, h) <==> !(Has(s.lbs, h) && s.candidate.Some? && s.candidate.value.hash != h)
  {
    OneTickDecides(s, ls, NotYet, h);
  }

  lemma FairCons(s: State, l: Label, ls: seq<Label>, g: Gap)
    requires Enabled(s, l) && (l.Test? ==> g.Handled?)
    requires FairRun(Step(s, l), ls, NextGap(s, l, g)) && ValidRun(Step(s, l), ls)
    ensures FairRun(s, [l] + ls, g) && ValidRun(s, [l] + ls)
    ensures Run(s, [l] + ls) == Run(Step(s, l), ls)
    ensures Ticks([l] + ls) == Ticks(ls) + if l.Finish? then 1 else 0
  {
    assert ([l] + ls)[1..] == ls;
  }

  /** One tick is not enough, and the last delivery does not always win: a delivery equal to the
      current list is dropped although a different candidate is pending, which the tick then promotes. */
  lemma EqualDeliveryLosesToStaleCandidate(s: State, x: LoadbalancerList, y: LoadbalancerList) returns (ls: seq<Label>)
    requires Safe(s) && s.ticker.Waiting? && s.updater.Idle? && s.lock.Free?
    requires s.lbs == Some(x) && s.candidate == Some(y)
    ensures OnlyDelivers(ls, x.hash) && Ticks(ls) == 1
    ensures FairRun(s, ls, NotYet) && ValidRun(s, ls) && Run(s, ls).lbs == Some(y)
  {
    var s1 := Step(s, Receive(x));
    var s2 := Step(s1, Compare);
    ls := PromotingTick(s2, y);
    FairCons(s1, Compare, ls, Begun);
    ls := [Compare] + ls;
    FairCons(s, Receive(x), ls, NotYet);
    ls := [Receive(x)] + ls;
  }

  /** An undisturbed tick promotes the candidate. */
  lemma PromotingTick(s: State, y: LoadbalancerList) returns (ls: seq<Label>)
    requires s.ticker.Waiting? && s.lock.Free? && s.candidate == Some(y)
    ensures forall l :: l in ls ==> !l.Receive?
    ensures Ticks(ls) == 1
    ensures FairRun(s, ls, Handled) && ValidRun(s, ls) && Run(s, ls).lbs == Some(y)
  {
    var s3 := Step(s, Test);
    var s4 := Step(s3, TickAcquire);
    var s5 := Step(s4, TestAgain);
    var s6 := Step(s5, TickRelease);
    FairCons(s6, Finish, [], Handled);
    ls := [Finish] + [];
    FairCons(s5, TickRelease, ls, Handled);
    ls := [TickRelease] + ls;
    FairCons(s4, TestAgain, ls, Handled);
    ls := [TestAgain] + ls;
    FairCons(s3, TickAcquire, ls, Handled);
    ls := [TickAcquire] + ls;
    FairCons(s, Test, ls, Handled);
    ls := [Test] + ls;
  }
}
