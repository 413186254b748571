/**
 Bypass events reported by the database agents: reports of a session already on record are
 dropped for five minutes, and the third event of a client in five minutes is blocked.  The
 gateway adds a blocked event of its own for a query it refuses, where its screenshot
 package is installed; without the package that event is rolled back.
 */
module BypassEvents {
  const WINDOW: nat := 300

  datatype Event = Event(
    id: nat,
    tenant: nat,
    agent: nat,
    pid: string,           // "" when the agent reports no session
    ip: string,            // "" when the agent reports no address
    at: nat,
    blocked: bool,
    acknowledged: bool)

  datatype Report = Report(tenant: nat, agent: nat, pid: string, ip: string, blocked: bool)

  datatype Step =
    | Receive(now: nat, report: Report)
    | Refuse(now: nat, tenant: nat, agent: nat, ip: string)   // a query the gateway refuses
    | Acknowledge(tenant: nat, id: nat)
    | Clear(tenant: nat)

  datatype Outcome = Deduplicated | Recorded(id: nat, autoBlocked: bool)

  // ----- the handlers, as functions on the stored events -----

  predicate SameSession(e: Event, now: nat, r: Report) {
    e.agent == r.agent && e.pid == r.pid && e.at + WINDOW >= now
  }

  predicate SameClient(e: Event, now: nat, r: Report) {
    e.agent == r.agent && e.ip == r.ip && e.at + WINDOW >= now
  }

  predicate OnRecord(es: seq<Event>, now: nat, r: Report) {
    r.pid != "" && exists i :: 0 <= i < |es| && SameSession(es[i], now, r)
  }

  function CountClient(es: seq<Event>, now: nat, r: Report): nat {
    if es == [] then 0
    else CountClient(es[..|es| - 1], now, r) + if SameClient(es[|es| - 1], now, r) then 1 else 0
  }

  predicate AutoBlocked(es: seq<Event>, now: nat, r: Report) {
    r.ip != "" && CountClient(es, now, r) >= 2
  }

  function NewEvent(es: seq<Event>, id: nat, now: nat, r: Report): Event {
    Event(id, r.tenant, r.agent, r.pid, r.ip, now, r.blocked || AutoBlocked(es, now, r), false)
  }

  /** The gateway's event has no session, and is neither dropped nor counted for. */
  function RefusedEvent(id: nat, now: nat, tenant: nat, agent: nat, ip: string): Event {
    Event(id, tenant, agent, "", ip, now, true, false)
  }

  /** The place of the tenant's event with this number, or the end. */
  function PlaceOf(es: seq<Event>, tenant: nat, id: nat): (i: nat)
    ensures i <= |es|
    ensures i < |es| ==> es[i].id == id && es[i].tenant == tenant
    ensures forall j | 0 <= j < i :: es[j].id != id || es[j].tenant != tenant
  {
    if es == [] || (es[0].id == id && es[0].tenant == tenant) then 0 else 1 + PlaceOf(es[1..], tenant, id)
  }

  function Acknowledged(es: seq<Event>, tenant: nat, id: nat): seq<Event> {
    var i := PlaceOf(es, tenant, id);
    if i < |es| then es[i := es[i].(acknowledged := true)] else es
  }

  function Cleared(es: seq<Event>, tenant: nat): seq<Event> {
    if es == [] then []
    else
      var rest, last := Cleared(es[..|es| - 1], tenant), es[|es| - 1];
      if last.tenant == tenant && last.acknowledged then rest else rest + [last]
  }

  datatype Log = Log(events: seq<Event>, nextId: nat)

  function Next(log: Log, step: Step): Log {
    match step
    case Receive(now, r) =>
      if OnRecord(log.events, now, r) then log
      else Log(log.events + [NewEvent(log.events, log.nextId, now, r)], log.nextId + 1)
    case Refuse(now, t, agent, ip) =>
      Log(log.events + [RefusedEvent(log.nextId, now, t, agent, ip)], log.nextId + 1)
    case Acknowledge(t, id) => log.(events := Acknowledged(log.events, t, id))
    case Clear(t) => log.(events := Cleared(log.events, t))
  }

  function Run(steps: seq<Step>): Log {
    if steps == [] then Log([], 0) else Next(Run(steps[..|steps| - 1]), steps[|steps| - 1])
  }

  class SecurityLog {
    var events: seq<Event>
    var nextId: nat

    function State(): Log
      reads this
    {
      Log(events, nextId)
    }

    constructor ()
      ensures State() == Log([], 0)
    {
      events, nextId := [], 0;
    }

    method ReceiveActivity(now: nat, r: Report) returns (outcome: Outcome)
      modifies this
      ensures State() == Next(old(State()), Receive(now, r))
      ensures outcome.Deduplicated? <==>
                r.pid != "" && exists i :: 0 <= i < |old(events)| && old(events)[i].agent == r.agent
                                           && old(events)[i].pid == r.pid && now <= old(events)[i].at + 300
      ensures outcome.Deduplicated? ==> events == old(events)
      ensures outcome.Recorded? ==>
                && outcome.autoBlocked == AutoBlocked(old(events), now, r) && outcome.id == old(nextId)
                && |events| == |old(events)| + 1 && events[..|old(events)|] == old(events)
                && var e := events[|old(events)|];
                   && e.id == outcome.id && e.tenant == r.tenant && e.agent == r.agent && e.pid == r.pid && e.ip == r.ip
                   && e.at == now && !e.acknowledged && e.blocked == (r.blocked || outcome.autoBlocked)
    {
      assert r.pid != "" && (exists i :: 0 <= i < |events| && SameSession(events[i], now, r))
             <==> OnRecord(events, now, r);
      if r.pid != "" {
        if exists i :: 0 <= i < |events| && SameSession(events[i], now, r) { return Deduplicated; }
      }
      var autoBlocked := false;
      if r.ip != "" {
        var recent := 0;
        for i := 0 to |events|
          invariant recent == CountClient(events[..i], now, r)
        {
          assert events[..i + 1][..i] == events[..i];
          if SameClient(events[i], now, r) { recent := recent + 1; }
        }
        assert events[..|events|] == events;
        if recent >= 2 { autoBlocked := true; }
      }
      events := events + [Event(nextId, r.tenant, r.agent, r.pid, r.ip, now, r.blocked || autoBlocked, false)];
      nextId := nextId + 1;
      outcome := Recorded(nextId - 1, autoBlocked);
    }

    method RecordRefusal(now: nat, tenant: nat, agent: nat, ip: string)
      modifies this
      ensures State() == Next(old(State()), Refuse(now, tenant, agent, ip))
    {
      events := events + [Event(nextId, tenant, agent, "", ip, now, true, false)];
      nextId := nextId + 1;
    }

    /** One event is looked up and marked. */
    method AcknowledgeEvent(tenant: nat, id: nat) returns (found: bool)
      modifies this`events
      ensures State() == Next(old(State()), Acknowledge(tenant, id))
      ensures found <==>
                exists i :: 0 <= i < |old(events)| && old(events)[i].id == id && old(events)[i].tenant == tenant
    {
      var i := 0;
      while i < |events| && !(events[i].id == id && events[i].tenant == tenant)
        invariant 0 <= i <= |events|
        invariant forall j | 0 <= j < i :: events[j].id != id || events[j].tenant != tenant
      {
        i := i + 1;
      }
      found := i < |events|;
      if found { events := events[i := events[i].(acknowledged := true)]; }
    }

    method ClearAcknowledgedEvents(tenant: nat) returns (deleted: nat)
      modifies this`events
      ensures State() == Next(old(State()), Clear(tenant))
      ensures deleted == |old(events)| - |events|
    {
      var kept: seq<Event> := [];
      deleted := 0;
      for i := 0 to |events|
        invariant kept == Cleared(events[..i], tenant) && deleted == i - |kept|
      {
        assert events[..i + 1][..i] == events[..i];
        if events[i].tenant == tenant && events[i].acknowledged {
          deleted := deleted + 1;
        } else {
          kept := kept + [events[i]];
        }
      }
      assert events[..|events|] == events;
      events := kept;
    }
  }

  // ----- what every run keeps -----

  predicate InOrder(es: seq<Event>) {
    forall i, j | 0 <= i < j < |es| :: es[i].at <= es[j].at
  }

  /** Two events of one session of one agent are more than five minutes apart. */
  predicate SessionsApart(es: seq<Event>) {
    forall i, j | 0 <= i < j < |es| && es[i].agent == es[j].agent && es[i].pid == es[j].pid != "" ::
      es[i].at + WINDOW < es[j].at
  }

  predicate ThreeClose(a: Event, b: Event, c: Event) {
    a.agent == b.agent == c.agent && a.ip == b.ip == c.ip && a.ip != "" && c.at <= a.at + WINDOW
  }

  /** Of three events of one client within five minutes the latest is blocked. */
  predicate ThirdBlocked(es: seq<Event>) {
    forall i, j, k | 0 <= i < j < k < |es| && ThreeClose(es[i], es[j], es[k]) :: es[k].blocked
  }

  predicate Sound(es: seq<Event>) {
    InOrder(es) && SessionsApart(es) && ThirdBlocked(es)
  }

  lemma {:induction false} CountOne(es: seq<Event>, now: nat, r: Report, i: nat)
    requires i < |es| && SameClient(es[i], now, r)
    ensures CountClient(es, now, r) >= 1
  {
    if i < |es| - 1 { CountOne(es[..|es| - 1], now, r, i); }
  }

  lemma {:induction false} CountTwo(es: seq<Event>, now: nat, r: Report, i: nat, j: nat)
    requires i < j < |es| && SameClient(es[i], now, r) && SameClient(es[j], now, r)
    ensures CountClient(es, now, r) >= 2
  {
    if j < |es| - 1 {
      CountTwo(es[..|es| - 1], now, r, i, j);
    } else {
      CountOne(es[..|es| - 1], now, r, i);
    }
  }

  lemma {:induction false} CountIsTwo(es: seq<Event>, now: nat, r: Report) returns (i: nat, j: nat)
    requires CountClient(es, now, r) >= 2
    ensures i < j < |es| && SameClient(es[i], now, r) && SameClient(es[j], now, r)
  {
    var k := |es| - 1;
    if CountClient(es[..k], now, r) >= 2 {
      i, j := CountIsTwo(es[..k], now, r);
    } else {
      i := CountIsOne(es[..k], now, r);
      j := k;
    }
  }

  lemma {:induction false} CountIsOne(es: seq<Event>, now: nat, r: Report) returns (i: nat)
    requires CountClient(es, now, r) >= 1
    ensures i < |es| && SameClient(es[i], now, r)
  {
    var k := |es| - 1;
    if SameClient(es[k], now, r) { i := k; } else { i := CountIsOne(es[..k], now, r); }
  }

  /** A report is blocked of itself exactly when two events of its client in the last five minutes are on record. */
  lemma {:induction false} AutoBlockedExact(es: seq<Event>, now: nat, r: Report)
    ensures AutoBlocked(es, now, r)
            <==> r.ip != "" && exists i, j ::
              0 <= i < j < |es| && SameClient(es[i], now, r) && SameClient(es[j], now, r)
  {
    if AutoBlocked(es, now, r) { var i, j := CountIsTwo(es, now, r); }
    if i, j :| 0 <= i < j < |es| && SameClient(es[i], now, r) && SameClient(es[j], now, r) {
      CountTwo(es, now, r, i, j);
    }
  }

  /**
   A report is dropped exactly when it names a session of which the agent reported within the last five
   minutes; otherwise one event is added, with the report's fields.
   */
  lemma {:induction false} DroppedExactly(log: Log, now: nat, r: Report)
    ensures Next(log, Receive(now, r)) == log <==>
              r.pid != "" && exists i :: 0 <= i < |log.events| && log.events[i].agent == r.agent
                                         && log.events[i].pid == r.pid && now <= log.events[i].at + 300
    ensures var es, n := Next(log, Receive(now, r)).events, |log.events|;
            Next(log, Receive(now, r)) != log ==>
              && Next(log, Receive(now, r)).nextId == log.nextId + 1
              && |es| == n + 1 && es[..n] == log.events
              && var e := es[n];
                 && e.id == log.nextId && e.tenant == r.tenant && e.agent == r.agent && e.pid == r.pid && e.ip == r.ip
                 && e.at == now && !e.acknowledged && e.blocked == (r.blocked || AutoBlocked(log.events, now, r))
  {
    assert (exists i :: 0 <= i < |log.events| && SameSession(log.events[i], now, r))
      <==> exists i :: 0 <= i < |log.events| && log.events[i].agent == r.agent
                       && log.events[i].pid == r.pid && now <= log.events[i].at + 300;
  }

  /** A refused query adds one blocked event of the tenant and agent, without a session and not yet acknowledged. */
  lemma {:induction false} RefusalRecorded(log: Log, now: nat, tenant: nat, agent: nat, ip: string)
    ensures var after, n := Next(log, Refuse(now, tenant, agent, ip)), |log.events|;
            && after.nextId == log.nextId + 1 && |after.events| == n + 1 && after.events[..n] == log.events
            && var e := after.events[n];
               && e.id == log.nextId && e.tenant == tenant && e.agent == agent && e.pid == "" && e.ip == ip
               && e.at == now && e.blocked && !e.acknowledged
  {
  }

  /** Of the last five minutes means at most three hundred seconds old. */
  lemma {:induction false} BlockedExactly(es: seq<Event>, now: nat, r: Report)
    ensures AutoBlocked(es, now, r)
            <==> r.ip != ""
                 && exists i, j :: 0 <= i < j < |es|
                                   && es[i].agent == es[j].agent == r.agent && es[i].ip == es[j].ip == r.ip
                                   && now <= es[i].at + 300 && now <= es[j].at + 300
  {
    AutoBlockedExact(es, now, r);
    if i, j :| 0 <= i < j < |es| && es[i].agent == es[j].agent == r.agent && es[i].ip == es[j].ip == r.ip
               && now <= es[i].at + 300 && now <= es[j].at + 300 {
      assert SameClient(es[i], now, r) && SameClient(es[j], now, r);
    }
  }

  lemma {:induction false} ClearedMembers(es: seq<Event>, tenant: nat, e: Event)
    ensures e in Cleared(es, tenant) <==> e in es && !(e.tenant == tenant && e.acknowledged)
  {
    if es != [] {
      ClearedMembers(es[..|es| - 1], tenant, e);
      assert es == es[..|es| - 1] + [es[|es| - 1]];
    }
  }

  /** Clearing takes the tenant's acknowledged events and no others; acknowledging marks one event and no more. */
  lemma {:induction false} MarkedAndCleared(es: seq<Event>, tenant: nat, id: nat)
    ensures forall e :: e in Cleared(es, tenant) <==> e in es && !(e.tenant == tenant && e.acknowledged)
    ensures |Acknowledged(es, tenant, id)| == |es|
    ensures forall i | 0 <= i < |es| ::
              var e := Acknowledged(es, tenant, id)[i];
              if es[i].id == id && es[i].tenant == tenant
                 && (forall j | 0 <= j < i :: es[j].id != id || es[j].tenant != tenant)
              then e == es[i].(acknowledged := true) else e == es[i]
  {
    forall e { ClearedMembers(es, tenant, e); }
  }

  lemma {:induction false} AppendApart(es: seq<Event>, e: Event)
    requires SessionsApart(es)
    requires forall i | 0 <= i < |es| && es[i].agent == e.agent && es[i].pid == e.pid != "" :: es[i].at + WINDOW < e.at
    ensures SessionsApart(es + [e])
  {
  }

  lemma {:induction false} AppendThird(es: seq<Event>, e: Event)
    requires ThirdBlocked(es)
    requires forall i, j | 0 <= i < j < |es| && ThreeClose(es[i], es[j], e) :: e.blocked
    ensures ThirdBlocked(es + [e])
  {
  }

  lemma {:induction false} ReceiveSound(es: seq<Event>, id: nat, now: nat, r: Report)
    requires Sound(es) && !OnRecord(es, now, r) && forall e | e in es :: e.at <= now
    ensures Sound(es + [NewEvent(es, id, now, r)])
  {
    var e := NewEvent(es, id, now, r);
    assert forall i | 0 <= i < |es| :: es[i] in es;
    forall i | 0 <= i < |es| && es[i].agent == e.agent && es[i].pid == e.pid != ""
      ensures es[i].at + WINDOW < e.at
    {
      assert !SameSession(es[i], now, r);
    }
    AppendApart(es, e);
    forall i, j | 0 <= i < j < |es| && ThreeClose(es[i], es[j], e)
      ensures e.blocked
    {
      CountTwo(es, now, r, i, j);
    }
    AppendThird(es, e);
  }

  /** A refused query's event never makes a session come twice or a third event pass. */
  lemma {:induction false} RefuseSound(es: seq<Event>, id: nat, now: nat, tenant: nat, agent: nat, ip: string)
    requires Sound(es) && forall e | e in es :: e.at <= now
    ensures Sound(es + [RefusedEvent(id, now, tenant, agent, ip)])
  {
    var e := RefusedEvent(id, now, tenant, agent, ip);
    assert forall i | 0 <= i < |es| :: es[i] in es;
    AppendApart(es, e);
    AppendThird(es, e);
  }

  predicate Timed(step: Step) {
    step.Receive? || step.Refuse?
  }

  lemma {:induction false} AcknowledgeSound(es: seq<Event>, tenant: nat, id: nat)
    requires Sound(es)
    ensures Sound(Acknowledged(es, tenant, id))
  {
    var more := Acknowledged(es, tenant, id);
    forall i, j, k | 0 <= i < j < k < |more| && ThreeClose(more[i], more[j], more[k])
      ensures more[k].blocked
    {
      assert ThreeClose(es[i], es[j], es[k]);
    }
  }

  /** What is left after clearing is in the order it was. */
  lemma {:induction false} ClearedFrom(es: seq<Event>, tenant: nat) returns (from: seq<nat>)
    ensures |from| == |Cleared(es, tenant)|
    ensures forall i | 0 <= i < |from| :: from[i] < |es| && Cleared(es, tenant)[i] == es[from[i]]
    ensures forall i, j | 0 <= i < j < |from| :: from[i] < from[j]
  {
    if es == [] {
      from := [];
    } else {
      var k := |es| - 1;
      from := ClearedFrom(es[..k], tenant);
      if !(es[k].tenant == tenant && es[k].acknowledged) { from := from + [k]; }
    }
  }

  lemma {:induction false} ClearSound(es: seq<Event>, tenant: nat)
    requires Sound(es)
    ensures Sound(Cleared(es, tenant))
  {
    var from := ClearedFrom(es, tenant);
    var less := Cleared(es, tenant);
    forall i, j, k | 0 <= i < j < k < |less| && ThreeClose(less[i], less[j], less[k])
      ensures less[k].blocked
    {
      assert from[i] < from[j] < from[k];
      assert ThreeClose(es[from[i]], es[from[j]], es[from[k]]);
    }
    forall i, j | 0 <= i < j < |less|
      ensures less[i].at <= less[j].at
      ensures less[i].agent == less[j].agent && less[i].pid == less[j].pid != "" ==> less[i].at + WINDOW < less[j].at
    {
      assert from[i] < from[j];
    }
  }

  predicate ClockForward(steps: seq<Step>) {
    forall i, j | 0 <= i < j < |steps| && Timed(steps[i]) && Timed(steps[j]) :: steps[i].now <= steps[j].now
  }

  /** A time no step before `n` has passed. */
  predicate Past(steps: seq<Step>, now: nat) {
    forall i | 0 <= i < |steps| && Timed(steps[i]) :: steps[i].now <= now
  }

  lemma {:induction false} EventsPast(steps: seq<Step>, now: nat)
    requires Past(steps, now)
    ensures forall e | e in Run(steps).events :: e.at <= now
  {
    if steps != [] {
      var k := |steps| - 1;
      EventsPast(steps[..k], now);
      var es := Run(steps[..k]).events;
      assert forall i | 0 <= i < |es| :: es[i] in es;
      if steps[k].Clear? {
        var from := ClearedFrom(es, steps[k].tenant);
      }
    }
  }

  /** Whatever is reported, refused, acknowledged and cleared, sessions stay apart and third events stay blocked. */
  lemma {:induction false} RunsAreSound(steps: seq<Step>)
    requires ClockForward(steps)
    ensures Sound(Run(steps).events)
  {
    if steps != [] {
      var k := |steps| - 1;
      var es := Run(steps[..k]).events;
      RunsAreSound(steps[..k]);
      match steps[k] {
        case Receive(now, r) =>
          EventsPast(steps[..k], now);
          if !OnRecord(es, now, r) { ReceiveSound(es, Run(steps[..k]).nextId, now, r); }
        case Refuse(now, t, agent, ip) =>
          EventsPast(steps[..k], now);
          RefuseSound(es, Run(steps[..k]).nextId, now, t, agent, ip);
        case Acknowledge(t, id) => AcknowledgeSound(es, t, id);
        case Clear(t) => ClearSound(es, t);
      }
    }
  }

  // ----- what is not promised: three reports -----

  /** Clearing acknowledged events forgets them: a client's third report in five minutes is then no longer blocked. */
  lemma {:induction false} ClearingForgets(e1: Event, e2: Event, now: nat, r: Report)
    requires SameClient(e1, now, r) && SameClient(e2, now, r) && r.ip != ""
    requires e1.tenant == e2.tenant && e1.id != e2.id && !e2.acknowledged
    ensures AutoBlocked([e1, e2], now, r)
    ensures var log := Next(Next(Log([e1, e2], 2), Acknowledge(e1.tenant, e1.id)), Clear(e1.tenant));
            log.events == [e2] && !AutoBlocked(log.events, now, r)
  {
    CountTwo([e1, e2], now, r, 0, 1);
    var e := e1.(acknowledged := true);
    assert Acknowledged([e1, e2], e1.tenant, e1.id) == [e, e2];
    assert [e, e2][..1] == [e] && [e][..0] == [] && [e2][..0] == [];
    assert Cleared([e], e.tenant) == [];
    assert Cleared([e, e2], e.tenant) == [] + [e2];
    assert CountClient([e2], now, r) == 1;
  }
}
