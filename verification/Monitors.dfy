/** The hash-cached repair of the `monitors` key (etcdController.go). */
module Monitors {
  import opened Wrappers
  import opened Strings
  import opened Net
  import opened LoadbalancerLists

  /** json.Marshal on a list of strings, which cannot fail. */
  type Marshal = seq<string> -> string

  function AllPrinted(lbs: seq<Loadbalancer>): seq<string> {
    if lbs == [] then [] else AllPrinted(lbs[..|lbs| - 1]) + Printed(lbs[|lbs| - 1].endpoints)
  }

  lemma AllPrintedNext(lbs: seq<Loadbalancer>, i: nat)
    requires i < |lbs|
    ensures AllPrinted(lbs[..i + 1]) == AllPrinted(lbs[..i]) + Printed(lbs[i].endpoints)
  {
    assert lbs[..i + 1][..i] == lbs[..i];
  }

  function WantedMonitors(marshal: Marshal, wanted: seq<Loadbalancer>): string {
    marshal(AllPrinted(wanted))
  }

  function AllEndpoints(lbs: seq<Loadbalancer>): seq<EndpointProtocol> {
    if lbs == [] then [] else AllEndpoints(lbs[..|lbs| - 1]) + lbs[|lbs| - 1].endpoints
  }

  lemma {:induction false} AllPrintedIsPrinted(lbs: seq<Loadbalancer>)
    ensures AllPrinted(lbs) == Printed(AllEndpoints(lbs))
  {
    if lbs != [] {
      var n := |lbs| - 1;
      AllPrintedIsPrinted(lbs[..n]);
      PrintedAppend(AllEndpoints(lbs[..n]), lbs[n].endpoints);
    }
  }

  lemma AllEndpointsSnoc(lbs: seq<Loadbalancer>, lb: Loadbalancer)
    ensures AllEndpoints(lbs + [lb]) == AllEndpoints(lbs) + lb.endpoints
  {
    assert (lbs + [lb])[..|lbs|] == lbs;
  }

  /** All endpoints of all loadbalancers, in list order. */
  lemma {:induction false} AllEndpointsAppend(a: seq<Loadbalancer>, b: seq<Loadbalancer>)
    ensures AllEndpoints(a + b) == AllEndpoints(a) + AllEndpoints(b)
    ensures |b| == 1 ==> AllEndpoints(b) == b[0].endpoints
  {
    if b == [] {
      assert a + b == a;
    } else {
      var init, last := b[..|b| - 1], b[|b| - 1];
      assert b == init + [last] && a + b == (a + init) + [last];
      AllEndpointsAppend(a, init);
      AllEndpointsSnoc(a + init, last);
      AllEndpointsSnoc(init, last);
      Associative(AllEndpoints(a), AllEndpoints(init), last.endpoints);
    }
  }

  /** The monitors list every endpoint of every configured loadbalancer, in configuration order. */
  lemma MonitorsListEveryEndpoint(wanted: seq<Loadbalancer>, marshal: Marshal)
    ensures WantedMonitors(marshal, wanted) == marshal(Printed(AllEndpoints(wanted)))
  {
    AllPrintedIsPrinted(wanted);
  }

  lemma PrintedAppend(a: seq<EndpointProtocol>, b: seq<EndpointProtocol>)
    ensures Printed(a + b) == Printed(a) + Printed(b)
  {
    var whole, parts := Printed(a + b), Printed(a) + Printed(b);
    forall i | 0 <= i < |whole| ensures whole[i] == parts[i] {
      assert whole[i] == EndpointProtocolString((a + b)[i]);
    }
  }

  /** Whoever parses the published monitors gets every configured endpoint back, in order, exactly when
      no protocol holds "://". */
  lemma MonitorsParseBack(lbs: seq<Loadbalancer>)
    ensures ParseAll(AllPrinted(lbs)) == Ok(AllEndpoints(lbs))
       <==> forall e :: e in AllEndpoints(lbs) ==> !Contains(e.protocol, "://")
  {
    AllPrintedIsPrinted(lbs);
    ParsePrinted(AllEndpoints(lbs));
  }

  /** The last hash written, and the value under the key. */
  datatype State = State(lastHash: uint64, monitors: Option<string>)

  /** One call with etcd's answers: whether Get fails, whether Set reports success, and whether it took effect. */
  datatype Call = Call(getFails: bool, setOk: bool, setApplied: bool)

  datatype Outcome = Outcome(state: State, ok: bool, setCalled: bool)

  function SyncMonitors(digest: Digest, wanted: string, s: State, call: Call): Outcome {
    if !call.getFails && s.monitors.Some? && digest(s.monitors.value) == s.lastHash then Outcome(s, true, false)
    else
      var monitors := if call.setApplied then Some(wanted) else s.monitors;
      if call.setOk then Outcome(State(digest(wanted), monitors), true, true)
      else Outcome(State(s.lastHash, monitors), false, true)
  }

  datatype Event = Sync(call: Call) | Outside(monitors: Option<string>)

  function Step(digest: Digest, wanted: string, s: State, e: Event): State {
    match e
    case Sync(call) => SyncMonitors(digest, wanted, s, call).state
    case Outside(m) => s.(monitors := m)
  }

  function Run(digest: Digest, wanted: string, s: State, es: seq<Event>): State {
    if es == [] then s
    else Step(digest, wanted, Run(digest, wanted, s, es[..|es| - 1]), es[|es| - 1])
  }

  /** Set takes effect whenever it reports success. */
  predicate HonestSet(call: Call) { call.setOk ==> call.setApplied }

  /** The value under the key has a hash of its own. */
  predicate NoCollision(digest: Digest, wanted: string, s: State) {
    s.monitors.Some? ==>
      digest(s.monitors.value) != 0 && (digest(s.monitors.value) == digest(wanted) ==> s.monitors.value == wanted)
  }

  /** Some call of the run wrote the key with success. */
  predicate EverSet(digest: Digest, wanted: string, s: State, es: seq<Event>) {
    es != [] && (
      var before, e := es[..|es| - 1], es[|es| - 1];
      EverSet(digest, wanted, s, before)
      || (e.Sync? && e.call.setOk && SyncMonitors(digest, wanted, Run(digest, wanted, s, before), e.call).setCalled))
  }

  /** Over every run, failures and outside writes included, the last hash is the wanted string's from
      the first successful Set on, and 0 before. */
  lemma {:induction false} LastHashIsWanted(digest: Digest, wanted: string, m: Option<string>, es: seq<Event>)
    ensures Run(digest, wanted, State(0, m), es).lastHash
         == if EverSet(digest, wanted, State(0, m), es) then digest(wanted) else 0
  {
    if es != [] {
      LastHashIsWanted(digest, wanted, m, es[..|es| - 1]);
    }
  }

  /** A call returns nil exactly when it found nothing to repair or its Set succeeded, and then only the
      repair changes anything: an unreadable, absent or differing key is set to the wanted string. */
  lemma RepairsWhatItCannotConfirm(digest: Digest, wanted: string, s: State, call: Call)
    requires HonestSet(call)
    ensures var o := SyncMonitors(digest, wanted, s, call);
            var confirmed := !call.getFails && s.monitors.Some? && digest(s.monitors.value) == s.lastHash;
            && o.setCalled == !confirmed
            && (o.ok <==> confirmed || call.setOk)
            && (!confirmed && call.setOk ==> o.state == State(digest(wanted), Some(wanted)))
            && (!confirmed && !call.setOk ==> o.state.lastHash == s.lastHash)
            && (confirmed ==> o.state == s)
  {
  }

  /** After any run, failures and outside writes included, a call whose Set would succeed returns nil and
      leaves the key as wanted, whatever its Get does and whatever the key held: nothing keeps the key
      from being repaired but a failing Set. */
  lemma WorkingSetRepairs(digest: Digest, wanted: string, m: Option<string>, es: seq<Event>, call: Call)
    requires var s := Run(digest, wanted, State(0, m), es);
             NoCollision(digest, wanted, s) && HonestSet(call) && call.setOk
    ensures var o := SyncMonitors(digest, wanted, Run(digest, wanted, State(0, m), es), call);
            o.ok && o.state.monitors == Some(wanted)
  {
    LastHashIsWanted(digest, wanted, m, es);
  }

  /** After any run, a call that returns nil leaves the key as wanted, and the next call with a working
      Get and no outside write in between calls no Set. */
  lemma NilMeansRepaired(digest: Digest, wanted: string, m: Option<string>, es: seq<Event>, call: Call, next: Call)
    requires var s := Run(digest, wanted, State(0, m), es);
             NoCollision(digest, wanted, s) && HonestSet(call) && SyncMonitors(digest, wanted, s, call).ok
    ensures var o := SyncMonitors(digest, wanted, Run(digest, wanted, State(0, m), es), call);
            && o.state.monitors == Some(wanted)
            && (!next.getFails ==> SyncMonitors(digest, wanted, o.state, next) == Outcome(o.state, true, false))
  {
    LastHashIsWanted(digest, wanted, m, es);
  }

  /** The premise is needed and enough: a call with a working Get skips the repair of a value that is
      not wanted exactly when that value collides with the wanted one after a successful Set, or hashes
      to 0 before the first. */
  lemma SkipsWrongValueIffCollision(digest: Digest, wanted: string, m: Option<string>, es: seq<Event>, call: Call)
    requires var s := Run(digest, wanted, State(0, m), es);
             !call.getFails && s.monitors.Some? && s.monitors.value != wanted
    ensures var s := Run(digest, wanted, State(0, m), es);
            var o := SyncMonitors(digest, wanted, s, call);
            !o.setCalled <==>
            digest(s.monitors.value) == if EverSet(digest, wanted, State(0, m), es) then digest(wanted) else 0
  {
    LastHashIsWanted(digest, wanted, m, es);
  }
}
