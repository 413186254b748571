/**
 Approval of critical queries: a request is approved or rejected by someone else, and its
 token lets the requester run that query once.
 */
module Approvals {
  import opened Wrappers
  import opened Text

  const TTL: nat := 24 * 3600

  datatype Status = Pending | Approved | Rejected | Used

  datatype Approval = Approval(
    tenant: nat,
    requester: string,
    source: nat,
    sql: string,
    status: Status,
    approver: string,
    token: string,
    expires: nat)

  /** A critical query that was let through, and the approval it was let through on. */
  datatype Execution = Execution(tenant: nat, user: string, sql: string, at: nat, approval: nat)

  /** An approval's id is its place. */
  datatype Desk = Desk(approvals: seq<Approval>, executed: seq<Execution>)

  datatype Step =
    | Submit(now: nat, tenant: nat, user: string, source: nat, sql: string, token: string)   // a query scored CRITICAL
    | Approve(now: nat, tenant: nat, id: nat, admin: string, newToken: string)
    | Reject(tenant: nat, id: nat, admin: string)

  datatype Answer = Executed | Requested(id: nat) | Refused

  // ----- the handlers -----

  predicate Decidable(d: Desk, tenant: nat, id: nat, admin: string) {
    && id < |d.approvals| && d.approvals[id].tenant == tenant
    && d.approvals[id].status == Pending && d.approvals[id].requester != admin
  }

  /** The place of the approved request that a token belongs to; past the end if there is none. */
  function Find(approvals: seq<Approval>, tenant: nat, token: string): (i: nat)
    ensures i <= |approvals|
    ensures i < |approvals|
            ==> approvals[i].tenant == tenant && approvals[i].token == token && approvals[i].status == Approved
  {
    if approvals == [] then 0
    else if approvals[0].tenant == tenant && approvals[0].token == token && approvals[0].status == Approved then 0
    else 1 + Find(approvals[1..], tenant, token)
  }

  predicate ValidToken(d: Desk, now: nat, tenant: nat, sql: string, token: string) {
    var i := Find(d.approvals, tenant, token);
    i < |d.approvals| && now <= d.approvals[i].expires && Strip(d.approvals[i].sql) == Strip(sql)
  }

  function WithStatus(d: Desk, id: nat, status: Status): Desk
    requires id < |d.approvals|
  {
    d.(approvals := d.approvals[id := d.approvals[id].(status := status)])
  }

  function ApproveRequest(d: Desk, now: nat, tenant: nat, id: nat, admin: string, token: string): Desk {
    if !Decidable(d, tenant, id, admin) then d
    else
      var a := d.approvals[id].(status := Approved, approver := admin, token := token, expires := now + TTL);
      d.(approvals := d.approvals[id := a])
  }

  function RejectRequest(d: Desk, tenant: nat, id: nat, admin: string): Desk {
    if !Decidable(d, tenant, id, admin) then d
    else d.(approvals := d.approvals[id := d.approvals[id].(status := Rejected, approver := admin)])
  }

  /** The gate: without a token a request is made; a valid token is used up before its holder is checked. */
  function SubmitCritical(d: Desk, now: nat, tenant: nat, user: string, source: nat, sql: string, token: string)
    : (Desk, Answer)
  {
    if token == "" then
      (d.(approvals := d.approvals + [Approval(tenant, user, source, sql, Pending, "", "", 0)]),
        Requested(|d.approvals|))
    else if !ValidToken(d, now, tenant, sql, token) then (d, Refused)
    else
      var i := Find(d.approvals, tenant, token);
      var used := WithStatus(d, i, Used);
      if d.approvals[i].requester != user then (used, Refused)
      else (used.(executed := d.executed + [Execution(tenant, user, sql, now, i)]), Executed)
  }

  function Next(d: Desk, step: Step): Desk {
    match step
    case Submit(now, t, user, source, sql, token) => SubmitCritical(d, now, t, user, source, sql, token).0
    case Approve(now, t, id, admin, token) => ApproveRequest(d, now, t, id, admin, token)
    case Reject(t, id, admin) => RejectRequest(d, t, id, admin)
  }

  function Run(steps: seq<Step>): Desk {
    if steps == [] then Desk([], []) else Next(Run(steps[..|steps| - 1]), steps[|steps| - 1])
  }

  class ApprovalDesk {
    var approvals: seq<Approval>
    var executed: seq<Execution>

    function State(): Desk
      reads this
    {
      Desk(approvals, executed)
    }

    constructor ()
      ensures State() == Desk([], [])
    {
      approvals, executed := [], [];
    }

    method Approve(now: nat, tenant: nat, id: nat, admin: string, token: string) returns (ok: bool)
      modifies this`approvals
      ensures State() == ApproveRequest(old(State()), now, tenant, id, admin, token)
      ensures ok == Decidable(old(State()), tenant, id, admin)
    {
      if id >= |approvals| || approvals[id].tenant != tenant { return false; }
      var a := approvals[id];
      if a.status != Pending { return false; }
      if a.requester == admin { return false; }
      a := a.(status := Approved, approver := admin);
      a := a.(token := token);
      a := a.(expires := now + TTL);
      approvals := approvals[id := a];
      ok := true;
    }

    method Reject(tenant: nat, id: nat, admin: string) returns (ok: bool)
      modifies this`approvals
      ensures State() == RejectRequest(old(State()), tenant, id, admin)
      ensures ok == Decidable(old(State()), tenant, id, admin)
    {
      if id >= |approvals| || approvals[id].tenant != tenant { return false; }
      var a := approvals[id];
      if a.status != Pending { return false; }
      if a.requester == admin { return false; }
      approvals := approvals[id := a.(status := Rejected, approver := admin)];
      ok := true;
    }

    /** The approval a token was good for, now used; None if the token is unknown, expired or for another query. */
    method ValidateToken(now: nat, tenant: nat, sql: string, token: string) returns (id: Option<nat>)
      modifies this`approvals
      ensures id == if ValidToken(old(State()), now, tenant, sql, token) then Some(Find(old(approvals), tenant, token))
              else None
      ensures State() == if id.Some? then WithStatus(old(State()), id.value, Used) else old(State())
    {
      var i := Find(approvals, tenant, token);
      if i == |approvals| { return None; }
      if approvals[i].expires < now { return None; }
      if Strip(approvals[i].sql) != Strip(sql) { return None; }
      approvals := approvals[i := approvals[i].(status := Used)];
      id := Some(i);
    }

    method SubmitQuery(now: nat, tenant: nat, user: string, source: nat, sql: string, token: string)
      returns (answer: Answer)
      modifies this
      ensures (State(), answer) == SubmitCritical(old(State()), now, tenant, user, source, sql, token)
    {
      if token == "" {
        approvals := approvals + [Approval(tenant, user, source, sql, Pending, "", "", 0)];
        return Requested(|approvals| - 1);
      }
      var id := ValidateToken(now, tenant, sql, token);
      if id.None? { return Refused; }
      if approvals[id.value].requester != user { return Refused; }
      executed := executed + [Execution(tenant, user, sql, now, id.value)];
      answer := Executed;
    }
  }

  // ----- every execution has its own approval -----

  /** The approval an execution rests on: used, in time, given by someone else, for this user and this query. */
  predicate Covered(e: Execution, a: Approval) {
    && a.status == Used && e.at <= a.expires
    && a.approver != a.requester && a.requester == e.user
    && a.tenant == e.tenant && Strip(a.sql) == Strip(e.sql)
  }

  predicate SomeoneElse(approvals: seq<Approval>) {
    forall i | 0 <= i < |approvals| && approvals[i].status in {Approved, Rejected, Used} ::
      approvals[i].approver != approvals[i].requester
  }

  predicate Sound(d: Desk) {
    && SomeoneElse(d.approvals)
    && (forall k | 0 <= k < |d.executed| ::
      d.executed[k].approval < |d.approvals| && Covered(d.executed[k], d.approvals[d.executed[k].approval]))
    && forall k, l | 0 <= k < l < |d.executed| :: d.executed[k].approval != d.executed[l].approval
  }

  lemma {:induction false} DecideSound(d: Desk, id: nat, a: Approval)
    requires Sound(d) && id < |d.approvals| && d.approvals[id].status == Pending && a.approver != a.requester
    ensures Sound(d.(approvals := d.approvals[id := a]))
  {
    forall k | 0 <= k < |d.executed| ensures d.executed[k].approval != id {
      assert Covered(d.executed[k], d.approvals[d.executed[k].approval]);
    }
  }

  lemma {:induction false} SubmitSound(d: Desk, now: nat, tenant: nat, user: string, source: nat, sql: string,
                                       token: string)
    requires Sound(d)
    ensures Sound(SubmitCritical(d, now, tenant, user, source, sql, token).0)
  {
    if token != "" && ValidToken(d, now, tenant, sql, token) {
      var i := Find(d.approvals, tenant, token);
      var used := WithStatus(d, i, Used);
      forall k | 0 <= k < |d.executed|
        ensures d.executed[k].approval != i
      {
        assert Covered(d.executed[k], d.approvals[d.executed[k].approval]);
      }
      assert Sound(used);
    }
  }

  /** Over every run, executions map one to one to approvals that cover them. */
  lemma {:induction false} ExecutionsAreApproved(steps: seq<Step>)
    ensures Sound(Run(steps))
  {
    if steps != [] {
      var k := |steps| - 1;
      var d := Run(steps[..k]);
      ExecutionsAreApproved(steps[..k]);
      match steps[k] {
        case Submit(now, t, user, source, sql, token) => SubmitSound(d, now, t, user, source, sql, token);
        case Approve(now, t, id, admin, token) =>
          if Decidable(d, t, id, admin) {
            var a := d.approvals[id].(status := Approved, approver := admin, token := token, expires := now + TTL);
            DecideSound(d, id, a);
          }
        case Reject(t, id, admin) =>
          if Decidable(d, t, id, admin) { DecideSound(d, id, d.approvals[id].(status := Rejected, approver := admin)); }
      }
    }
  }

  // ----- a token is used once -----

  /** What a request goes through: decided once, used only from approved, and nothing after that. */
  predicate Follows(before: Approval, after: Approval) {
    || after == before
    || (before.status == Pending && after.status in {Approved, Rejected})
    || (before.status == Approved && after == before.(status := Used))
  }

  lemma {:induction false} StatusMoves(d: Desk, step: Step, i: nat)
    requires i < |d.approvals|
    ensures i < |Next(d, step).approvals| && Follows(d.approvals[i], Next(d, step).approvals[i])
  {
  }

  lemma {:induction false} UsedForever(steps: seq<Step>, more: seq<Step>, i: nat)
    requires i < |Run(steps).approvals| && Run(steps).approvals[i].status in {Used, Rejected}
    ensures i < |Run(steps + more).approvals| && Run(steps + more).approvals[i] == Run(steps).approvals[i]
  {
    if more == [] {
      assert steps + more == steps;
    } else {
      var k := |more| - 1;
      assert (steps + more)[..|steps| + k] == steps + more[..k];
      UsedForever(steps, more[..k], i);
      StatusMoves(Run(steps + more[..k]), more[k], i);
    }
  }

  /** Each approval gives its request a token no approval gave before. */
  predicate FreshTokens(steps: seq<Step>) {
    && (forall i | 0 <= i < |steps| && steps[i].Approve? :: steps[i].newToken != "")
    && forall i, j | 0 <= i < j < |steps| && steps[i].Approve? && steps[j].Approve? ::
      steps[i].newToken != steps[j].newToken
  }

  predicate TokensDistinct(approvals: seq<Approval>) {
    forall i, j | 0 <= i < j < |approvals| && approvals[i].token != "" :: approvals[i].token != approvals[j].token
  }

  lemma {:induction false} TokensGiven(steps: seq<Step>, i: nat)
    requires i < |Run(steps).approvals| && Run(steps).approvals[i].token != ""
    ensures exists k :: 0 <= k < |steps| && steps[k].Approve? && steps[k].newToken == Run(steps).approvals[i].token
  {
    var k := |steps| - 1;
    var d := Run(steps[..k]);
    if i < |d.approvals| && d.approvals[i].token == Run(steps).approvals[i].token {
      TokensGiven(steps[..k], i);
      var j :| 0 <= j < k && steps[..k][j].Approve? && steps[..k][j].newToken == d.approvals[i].token;
      assert steps[j].newToken == d.approvals[i].token;
    } else {
      assert steps[k].Approve? && steps[k].newToken == Run(steps).approvals[i].token;
    }
  }

  lemma {:induction false} TokensStayDistinct(steps: seq<Step>)
    requires FreshTokens(steps)
    ensures TokensDistinct(Run(steps).approvals)
  {
    if steps != [] {
      var k := |steps| - 1;
      var d := Run(steps[..k]);
      TokensStayDistinct(steps[..k]);
      if steps[k].Approve? && Decidable(d, steps[k].tenant, steps[k].id, steps[k].admin) {
        forall i | 0 <= i < |d.approvals| ensures d.approvals[i].token != steps[k].newToken {
          if d.approvals[i].token != "" {
            TokensGiven(steps[..k], i);
            var j :| 0 <= j < k && steps[..k][j].Approve? && steps[..k][j].newToken == d.approvals[i].token;
            assert steps[j].newToken != steps[k].newToken;
          }
        }
      }
    }
  }

  lemma {:induction false} FindNothing(approvals: seq<Approval>, tenant: nat, token: string)
    requires forall i | 0 <= i < |approvals| && approvals[i].token == token :: approvals[i].status != Approved
    ensures Find(approvals, tenant, token) == |approvals|
  {
    if approvals != [] {
      forall i | 0 <= i < |approvals[1..]| && approvals[1..][i].token == token
        ensures approvals[1..][i].status != Approved
      {
        assert approvals[1..][i] == approvals[i + 1];
      }
      FindNothing(approvals[1..], tenant, token);
    }
  }

  /** With fresh tokens, one that was presented validly is refused ever after, whoever presents it. */
  lemma {:induction false} TokenWorksOnce(steps: seq<Step>, use: Step, more: seq<Step>, now: nat, sql: string)
    requires FreshTokens(steps + [use] + more) && use.Submit? && use.token != ""
    requires ValidToken(Run(steps), use.now, use.tenant, use.sql, use.token)
    ensures !ValidToken(Run(steps + [use] + more), now, use.tenant, sql, use.token)
  {
    var d, after, last := Run(steps), Run(steps + [use]), Run(steps + [use] + more);
    var i := Find(d.approvals, use.tenant, use.token);
    assert (steps + [use])[..|steps|] == steps;
    assert after.approvals[i].status == Used && after.approvals[i].token == use.token;
    UsedForever(steps + [use], more, i);
    TokensStayDistinct(steps + [use] + more);
    forall j | 0 <= j < |last.approvals| && last.approvals[j].token == use.token
      ensures last.approvals[j].status != Approved
    {
      assert j == i;
    }
    FindNothing(last.approvals, use.tenant, use.token);
  }

  /** A valid token is used up whoever presents it, and the query runs exactly for the requester. */
  lemma {:induction false} PresentedToken(d: Desk, now: nat, tenant: nat, user: string, source: nat, sql: string,
                                          token: string)
    requires token != "" && ValidToken(d, now, tenant, sql, token)
    ensures var i, r := Find(d.approvals, tenant, token), SubmitCritical(d, now, tenant, user, source, sql, token);
            && r.0.approvals[i].status == Used
            && (r.1 == Executed <==> d.approvals[i].requester == user)
            && (r.1 == Executed <==> |r.0.executed| > |d.executed|)
  {
  }

  // ----- what the handlers bring about -----

  /** Without a token a pending request for the query is made, and nothing else happens. */
  lemma {:induction false} RequestMade(d: Desk, now: nat, tenant: nat, user: string, source: nat, sql: string)
    ensures var r, n := SubmitCritical(d, now, tenant, user, source, sql, ""), |d.approvals|;
            && r.1 == Requested(n) && |r.0.approvals| == n + 1 && r.0.approvals[..n] == d.approvals
            && r.0.executed == d.executed
            && var a := r.0.approvals[n];
               a.tenant == tenant && a.requester == user && a.source == source && a.sql == sql && a.status == Pending
  {
  }

  /** A request can be decided by anyone else of the tenant, while it is pending. */
  predicate Awaits(d: Desk, tenant: nat, id: nat, admin: string) {
    id < |d.approvals| && d.approvals[id].tenant == tenant && d.approvals[id].status == Pending
      && d.approvals[id].requester != admin
  }

  lemma {:induction false} FindOnly(approvals: seq<Approval>, tenant: nat, token: string, id: nat)
    requires id < |approvals| && approvals[id].tenant == tenant && approvals[id].token == token
    requires approvals[id].status == Approved
    requires forall i | 0 <= i < id :: approvals[i].token != token
    ensures Find(approvals, tenant, token) == id
  {
    if id > 0 { FindOnly(approvals[1..], tenant, token, id - 1); }
  }

  /**
   The token of an approved request is good for its query, up to whitespace around it, until a day after the
   approval and not longer.
   */
  lemma {:induction false} ApprovedForADay(d: Desk, now: nat, tenant: nat, id: nat, admin: string, token: string,
                                           later: nat, sql: string)
    requires Awaits(d, tenant, id, admin) && forall i | 0 <= i < |d.approvals| :: d.approvals[i].token != token
    ensures ValidToken(ApproveRequest(d, now, tenant, id, admin, token), later, tenant, sql, token)
            <==> later <= now + 86400 && Strip(sql) == Strip(d.approvals[id].sql)
  {
    FindOnly(ApproveRequest(d, now, tenant, id, admin, token).approvals, tenant, token, id);
  }

  /** Approved in time, the query of the requester runs. */
  lemma {:induction false} ApprovedRuns(d: Desk, now: nat, tenant: nat, id: nat, admin: string, token: string,
                                        later: nat, source: nat)
    requires Awaits(d, tenant, id, admin) && token != "" && later <= now + 86400
    requires forall i | 0 <= i < |d.approvals| :: d.approvals[i].token != token
    ensures var a, after := d.approvals[id], ApproveRequest(d, now, tenant, id, admin, token);
            SubmitCritical(after, later, tenant, a.requester, source, a.sql, token).1 == Executed
  {
    ApprovedForADay(d, now, tenant, id, admin, token, later, d.approvals[id].sql);
    FindOnly(ApproveRequest(d, now, tenant, id, admin, token).approvals, tenant, token, id);
  }

  /** Deciding changes the awaiting request alone: its status, its approver, and with an approval its token. */
  lemma {:induction false} DecidedExactly(d: Desk, now: nat, tenant: nat, id: nat, admin: string, token: string)
    ensures var yes, no := ApproveRequest(d, now, tenant, id, admin, token), RejectRequest(d, tenant, id, admin);
            if Awaits(d, tenant, id, admin) then
              && yes.approvals[id].status == Approved && yes.approvals[id].token == token
              && no.approvals[id].status == Rejected && no.approvals[id].token == d.approvals[id].token
              && yes.approvals[id].approver == no.approvals[id].approver == admin
              && (forall i | 0 <= i < |d.approvals| && i != id ::
                    yes.approvals[i] == no.approvals[i] == d.approvals[i])
            else yes == d && no == d
  {
  }
}
