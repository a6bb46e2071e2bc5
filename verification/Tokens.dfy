/** Access tokens kept fresh by any number of callers that share one session.

    Callers take the session's row lock, may refresh the tokens at the provider, make their
    resource request, and commit the row. The provider accepts one refresh token at a time
    and may replace it on every refresh (section 6 of RFC 6749). */
module Tokens {
  import opened Wrappers
  import Faults

  const MARGIN_SECONDS := 60
  const MAX_EXPIRES_IN := 86400

  datatype Tokens = Tokens(access: string, refresh: string, expiresAt: int, scope: string)

  /** The body of a token response; fields the server omitted are empty. */
  datatype TokenBody = TokenBody(access: string, refresh: string, bearer: bool, expiresIn: int, scope: string)

  function TokenFrom(body: TokenBody, now: int): Option<Tokens> {
    if body.access == "" || !body.bearer || body.expiresIn <= 0 || body.expiresIn > MAX_EXPIRES_IN then None
    else Some(Tokens(body.access, body.refresh, now + body.expiresIn, body.scope))
  }

  /** An authorization code is only worth storing with a refresh token. */
  function Exchanged(body: TokenBody, now: int): Option<Tokens> {
    match TokenFrom(body, now)
    case Some(t) => if t.refresh == "" then None else Some(t)
    case None => None
  }

  function Refreshed(previous: Tokens, body: TokenBody, now: int): Option<Tokens> {
    match TokenFrom(body, now)
    case None => None
    case Some(t) =>
      Some(t.(refresh := if t.refresh == "" then previous.refresh else t.refresh,
              scope := if t.scope == "" then previous.scope else t.scope))
  }

  /** A response is used exactly if it names an access token of the bearer kind that lives at
      most a day. The tokens then live as long as it says; what it omitted is kept, what it
      named replaces the old; and a token that can be refreshed can be refreshed again. */
  lemma RefreshKeepsUsable(previous: Tokens, body: TokenBody, now: int)
    ensures Refreshed(previous, body, now).Some? <==> body.access != "" && body.bearer && 1 <= body.expiresIn <= 86400
    ensures Refreshed(previous, body, now).Some? ==>
              var t := Refreshed(previous, body, now).value;
              && t.access == body.access && t.expiresAt == now + body.expiresIn
              && (body.refresh != "" ==> t.refresh == body.refresh)
              && (body.refresh == "" ==> t.refresh == previous.refresh)
              && (body.scope != "" ==> t.scope == body.scope)
              && (body.scope == "" ==> t.scope == previous.scope)
              && (previous.refresh != "" ==> t.refresh != "")
  {
  }

  predicate NeedsRefresh(t: Tokens, now: int) {
    t.expiresAt <= now + MARGIN_SECONDS
  }

  // ---- The provider's side ----

  /** The one refresh token the provider honours, and all it ever issued to this session. */
  datatype Grant = Grant(live: string, issued: set<string>)

  /** What redeeming a token does: it is honoured only if live; honouring it may replace it by
      a token never issued before, which the response then names. */
  ghost predicate Redeems(g: Grant, presented: string, body: Option<TokenBody>, g': Grant) {
    if g'.live == g.live then
      && g' == g
      && (body.Some? ==> presented == g.live && body.value.refresh in {"", g.live})
    else
      && presented == g.live
      && g'.live !in g.issued && g'.live != "" && g'.issued == g.issued + {g'.live}
      && (body.Some? ==> body.value.refresh == g'.live)
  }

  // ---- The callers' side ----

  datatype Stage =
    | Expired       // refresh before the request
    | Requesting    // make the request
    | Denied        // answered 401 without a refresh so far: refresh, then ask again
    | AskingAgain
    | Committing

  datatype Lock = Free | Held(caller: nat, local: Tokens, refreshes: nat, requests: nat, stage: Stage)

  /** The session row, its lock, the provider's grant, and two counters kept for the proofs:
      replacements of the refresh token that never reached the row, and uses of a superseded token. */
  datatype Session = Session(row: Option<Tokens>, lock: Lock, grant: Grant, lost: nat, stale: nat, refreshed: nat)

  datatype Step =
    | Acquire(caller: nat, now: int)
    | Refresh(body: Option<TokenBody>, now: int)  // None: refused, or the response never arrived
    | Request(unauthorized: bool)
    | Commit
    | Abandon                                      // crash, cancelled context, or failed commit: roll back
    | Disconnect

  ghost predicate Rotated(s: Session) {
    s.lock.Held? && s.row.Some? && s.lock.local.refresh != s.row.value.refresh
  }

  /** Where a caller starts that has just taken the row. */
  ghost function FirstStage(t: Tokens, now: int): Stage {
    if NeedsRefresh(t, now) then Expired else Requesting
  }

  ghost predicate Next(s: Session, step: Step, s': Session) {
    match step
    case Acquire(caller, now) =>
      && s.lock.Free? && s.row.Some?
      && s' == s.(lock := Held(caller, s.row.value, 0, 0, FirstStage(s.row.value, now)))
    case Refresh(body, now) =>
      && s.lock.Held? && s.lock.stage in {Expired, Denied}
      && Redeems(s.grant, s.lock.local.refresh, body, s'.grant)
      && s' == AfterRefresh(s, body, now, s'.grant)
    case Request(unauthorized) =>
      && s.lock.Held? && s.lock.stage in {Requesting, AskingAgain}
      && s' == s.(lock := s.lock.(requests := s.lock.requests + 1,
                                  stage := if unauthorized && s.lock.stage == Requesting && s.lock.refreshes == 0
                                           then Denied else Committing))
    case Commit =>
      && s.lock.Held? && s.lock.stage == Committing
      && s' == s.(row := Some(s.lock.local), lock := Free)
    case Abandon =>
      && s.lock.Held?
      && s' == s.(lock := Free, lost := s.lost + if Rotated(s) then 1 else 0)
    case Disconnect =>
      && s.lock.Free? && s' == s.(row := None)
  }

  ghost function AfterRefresh(s: Session, body: Option<TokenBody>, now: int, grant: Grant): Session
    requires s.lock.Held?
  {
    var stale := s.stale + if s.lock.local.refresh == s.grant.live then 0 else 1;
    var renewed := if body.Some? then Refreshed(s.lock.local, body.value, now) else None;
    match renewed
    case Some(t) =>
      s.(grant := grant, stale := stale, refreshed := s.refreshed + 1,
         lock := s.lock.(local := t, refreshes := s.lock.refreshes + 1,
                         stage := if s.lock.stage == Expired then Requesting else AskingAgain))
    case None =>
      s.(grant := grant, stale := stale, lock := Free,
         lost := s.lost + if grant.live != s.grant.live then 1 else 0)
  }

  ghost predicate Connected(s: Session) {
    && s.row.Some? && s.lock.Free? && s.lost == 0 && s.stale == 0
    && s.grant.live == s.row.value.refresh != "" && s.grant.live in s.grant.issued
    && s.row.value.access != ""
  }

  /** The session that a code exchange opens, given all the provider has issued to it before. */
  ghost function Opened(body: TokenBody, now: int, issued: set<string>): Session {
    Session(Exchanged(body, now), Free, Grant(body.refresh, issued + {body.refresh}), 0, 0, 0)
  }

  /** An authorization code exchange connects a session whose tokens can be used and refreshed. */
  lemma ExchangeConnects(body: TokenBody, now: int, issued: set<string>)
    ensures Exchanged(body, now).Some? <==>
            body.access != "" && body.refresh != "" && body.bearer && 1 <= body.expiresIn <= 86400
    ensures Exchanged(body, now).Some? ==>
              && Connected(Opened(body, now, issued))
              && Opened(body, now, issued).row ==
                 Some(Tokens(body.access, body.refresh, now + body.expiresIn, body.scope))
  {
  }

  ghost predicate Inv(s: Session) {
    && s.grant.live in s.grant.issued && s.grant.live != ""
    && (s.lock.Held? ==>
          && s.row.Some?
          && s.lock.refreshes <= 1 && s.lock.requests <= 2
          && (s.lock.stage == Expired ==> s.lock.refreshes == 0 && s.lock.requests == 0)
          && (s.lock.stage == Requesting ==> s.lock.requests == 0)
          && (s.lock.stage == Denied ==> s.lock.refreshes == 0 && s.lock.requests == 1)
          && (s.lock.stage == AskingAgain ==> s.lock.refreshes == 1 && s.lock.requests == 1)
          && (s.lock.refreshes == 0 ==> s.lock.local == s.row.value)
          && s.lock.local.refresh != "" && s.lock.local.access != "")
    && (s.row.Some? ==>
          s.row.value.refresh != "" && s.row.value.refresh in s.grant.issued && s.row.value.access != "")
    && (s.lost == 0 ==> s.stale == 0)
    && (s.row.Some? ==> (Believed(s).refresh == s.grant.live <==> s.lost == 0))
    && (s.lost > 0 && s.lock.Held? ==> s.lock.local == s.row.value)
  }

  /** The tokens the current holder of the row works with. */
  ghost function Believed(s: Session): Tokens
    requires s.row.Some?
  {
    if s.lock.Held? then s.lock.local else s.row.value
  }

  lemma RefreshKeepsInv(s: Session, body: Option<TokenBody>, now: int, s': Session)
    requires Inv(s) && Next(s, Refresh(body, now), s')
    ensures Inv(s')
  {
    if s'.lock.Held? {
      RefreshKeepsUsable(s.lock.local, body.value, now);
    }
  }

  lemma InvKept(s: Session, step: Step, s': Session)
    requires Inv(s) && Next(s, step, s')
    ensures Inv(s')
  {
    match step
    case Refresh(body, now) => RefreshKeepsInv(s, body, now, s');
    case _ =>
  }

  /** States joined by steps. */
  ghost predicate Path(states: seq<Session>, steps: seq<Step>) {
    && |states| == |steps| + 1
    && forall i :: 0 <= i < |steps| ==> Next(states[i], steps[i], states[i + 1])
  }

  /** A history of the session, from the code exchange that opened it. */
  ghost predicate Run(states: seq<Session>, steps: seq<Step>) {
    Path(states, steps) && Started(states[0])
  }

  ghost predicate Started(s: Session) {
    exists body, now, issued :: Exchanged(body, now).Some? && s == Opened(body, now, issued)
  }

  lemma StartedIsConnected(s: Session)
    requires Started(s)
    ensures Connected(s)
  {
    var body, now, issued :| Exchanged(body, now).Some? && s == Opened(body, now, issued);
    ExchangeConnects(body, now, issued);
  }

  lemma {:induction false} RunInv(states: seq<Session>, steps: seq<Step>, i: nat)
    requires Run(states, steps) && i < |states|
    ensures Inv(states[i])
  {
    if i > 0 {
      RunInv(states, steps, i - 1);
      InvKept(states[i - 1], steps[i - 1], states[i]);
    } else {
      StartedIsConnected(states[0]);
    }
  }

  /** Over every interleaving: while the session is connected and unlocked, the stored refresh
      token is the provider's current one exactly when no replacement was lost, no stored token is
      ever empty, and until then no superseded token is ever redeemed. Every caller refreshes at
      most once and makes at most two requests. */
  lemma RefreshSerialised(states: seq<Session>, steps: seq<Step>, i: nat)
    requires Run(states, steps) && i < |states|
    ensures var s := states[i];
            && (s.row.Some? && s.lock.Free? ==> (s.row.value.refresh == s.grant.live <==> s.lost == 0))
            && (s.row.Some? ==> s.row.value.refresh != "" && s.row.value.access != "")
            && (s.lost == 0 ==> s.stale == 0)
            && (s.lock.Held? ==> s.lock.refreshes <= 1 && s.lock.requests <= 2)
  {
    RunInv(states, steps, i);
  }

  /** A caller is not interrupted and every token response that replaced the token arrives intact. */
  ghost predicate Faultless(s: Session, step: Step, s': Session) {
    !step.Abandon? && (step.Refresh? && s'.lock.Free? ==> s'.grant.live == s.grant.live)
  }

  /** Nothing is lost without a fault: once a refresh succeeded the caller goes on to commit it,
      whatever the resource request answers. */
  lemma {:induction false} FaultlessLosesNothing(states: seq<Session>, steps: seq<Step>, i: nat)
    requires Run(states, steps) && i < |states|
    requires forall j :: 0 <= j < |steps| ==> Faultless(states[j], steps[j], states[j + 1])
    ensures states[i].lost == 0 && states[i].stale == 0
    ensures states[i].row.Some? && states[i].lock.Free? ==> states[i].row.value.refresh == states[i].grant.live
  {
    RunInv(states, steps, i);
    if i > 0 {
      FaultlessLosesNothing(states, steps, i - 1);
      assert Faultless(states[i - 1], steps[i - 1], states[i]);
    } else {
      StartedIsConnected(states[0]);
    }
  }

  /** Nothing goes wrong, callers arrive until the horizon, and every refresh brings a token that
      lives more than a minute beyond it. */
  ghost predicate Quiet(s: Session, step: Step, s': Session, horizon: int) {
    && Faultless(s, step, s')
    && (step.Acquire? ==> step.now <= horizon)
    && (step.Refresh? && step.body.Some? ==> step.now + step.body.value.expiresIn > horizon + 60)
    && (step.Request? ==> !step.unauthorized)
  }

  ghost predicate SettledBy(s: Session, horizon: int) {
    s.row.Some? ==>
      && !NeedsRefresh(Believed(s), horizon)
      && (s.lock.Held? ==> s.lock.stage in {Requesting, Committing})
  }

  /** One expired token causes one refresh: callers that arrive before the new token nears its
      expiry, and are not told otherwise by the provider, never refresh again. */
  lemma {:induction false} OneRefresh(states: seq<Session>, steps: seq<Step>, horizon: int, first: nat, last: nat)
    requires Run(states, steps) && first <= last < |states| && states[first].lock.Free?
    requires forall j :: first <= j < last ==> Quiet(states[j], steps[j], states[j + 1], horizon)
    ensures states[last].refreshed <= states[first].refreshed + 1
    ensures states[last].refreshed > states[first].refreshed ==> SettledBy(states[last], horizon)
    ensures states[last].lock.Held? ==> states[last].lock.stage in {Expired, Requesting, Committing}
    decreases last
  {
    if first < last {
      OneRefresh(states, steps, horizon, first, last - 1);
      assert Quiet(states[last - 1], steps[last - 1], states[last], horizon);
      if steps[last - 1].Refresh? && steps[last - 1].body.Some? && states[last - 1].lock.Held? {
        RefreshKeepsUsable(states[last - 1].lock.local, steps[last - 1].body.value, steps[last - 1].now);
      }
      RunInv(states, steps, last - 1);
    }
  }

  // ---- The code that takes the steps ----

  datatype Reply = Answered | Unauthorized | OtherError

  datatype CallError = NoConnection | RefreshFailed | CommitFailed

  lemma Extend(states: seq<Session>, steps: seq<Step>, step: Step, s': Session)
    requires Path(states, steps) && Next(states[|steps|], step, s')
    ensures Path(states + [s'], steps + [step])
  {
    var all, labels := states + [s'], steps + [step];
    forall i | 0 <= i < |labels| ensures Next(all[i], labels[i], all[i + 1]) {
      if i < |steps| {
        assert Next(states[i], steps[i], states[i + 1]);
      }
    }
  }

  /** The path ends by writing the tokens in hand to the row. */
  ghost predicate Committed(states: seq<Session>, steps: seq<Step>, row: Option<Tokens>) {
    && |states| == |steps| + 1 && steps != [] && steps[|steps| - 1].Commit?
    && states[|steps| - 1].lock.Held? && row == Some(states[|steps| - 1].lock.local)
  }

  class SessionStore {
    var row: Option<Tokens>
    var grant: Grant
    ghost var session: Session   // what the state machine makes of the fields

    ghost predicate Valid()
      reads this
    {
      session.row == row && session.grant == grant
    }

    /** A response that names what it must. */
    static predicate Usable(body: TokenBody) {
      body.access != "" && body.bearer && 1 <= body.expiresIn <= 86400
    }

    /** The provider honours a live token, replaces it or not, and may fail to deliver its response,
        or deliver an unusable one, unless nothing goes wrong. */
    method Redeem(presented: string, smooth: bool) returns (body: Option<TokenBody>)
      modifies this`grant
      ensures Redeems(old(grant), presented, body, grant)
      ensures smooth && presented == old(grant).live ==> body.Some? && Usable(body.value)
    {
      body := None;
      if presented == grant.live {
        var token: string := *;
        var response: TokenBody := *;
        if smooth && !Usable(response) {
          response := TokenBody("access", "", true, 3600, "");
        }
        var delivered := Faults.Chance(smooth);
        if token != "" && token != grant.live && token !in grant.issued {
          grant := Grant(token, grant.issued + {token});
          body := if delivered then Some(response.(refresh := token)) else None;
        } else {
          body := if delivered then Some(response.(refresh := "")) else None;
        }
      }
    }

    method Call() returns (reply: Reply)
    {
      reply := *;
    }

    /** Refresh the tokens in hand, or roll back. */
    method RefreshStep(local: Tokens, now: int, smooth: bool, ghost states: seq<Session>, ghost steps: seq<Step>)
      returns (renewed: Option<Tokens>, ghost states': seq<Session>, ghost steps': seq<Step>)
      requires Valid() && Path(states, steps) && states[|steps|] == session
      requires session.lock.Held? && session.lock.stage in {Expired, Denied} && session.lock.local == local
      modifies this`grant, this`session
      ensures Valid() && row == old(row) && Path(states', steps') && states'[|steps'|] == session
      ensures states <= states' && |states'| == |states| + 1
      ensures renewed.Some? ==>
                && old(session).grant.live == local.refresh
                && session.lock == old(session).lock.(
                     local := renewed.value, refreshes := old(session).lock.refreshes + 1,
                     stage := if old(session).lock.stage == Expired then Requesting else AskingAgain)
      ensures renewed.None? ==> session.lock.Free?
      ensures |steps'| == |steps| + 1 && steps <= steps' && steps'[|steps|].Refresh?
      ensures smooth && local.refresh == old(grant).live ==> renewed.Some?
    {
      var body := Redeem(local.refresh, smooth);
      if body.Some? {
        RefreshKeepsUsable(local, body.value, now);
      }
      renewed := if body.Some? then Refreshed(local, body.value, now) else None;
      ghost var step := Refresh(body, now);
      ghost var s' := AfterRefresh(session, body, now, grant);
      Extend(states, steps, step, s');
      states', steps' := states + [s'], steps + [step];
      session := s';
    }

    /** One resource request under the row lock. Every path is a path of the state machine that
        takes the lock and releases it, with a refresh before the request exactly if the token
        is within a minute of its expiry, and one after it if the provider refuses a token that
        was not refreshed: only a refreshed one is refused for good. Whenever an answer is
        returned, the tokens in hand have been committed; and one is returned if nothing goes
        wrong and the stored token is live. */
    method WithConnection(caller: nat, now: int, later: int, smooth: bool)
      returns (result: Result<Reply, CallError>, ghost states: seq<Session>, ghost steps: seq<Step>)
      requires Valid() && session.lock.Free?
      modifies this
      ensures Valid() && session.lock.Free?
      ensures Path(states, steps) && states[0] == old(session) && states[|steps|] == session
      ensures result.Failure? ==> row == old(row) || (result.error == CommitFailed && Committed(states, steps, row))
      ensures result.Success? ==>
                && |steps| >= 3 && Committed(states, steps, row)
                && steps[|steps| - 2] == Request(result.value == Unauthorized)
      ensures result.Failure? && result.error == NoConnection <==> old(row).None?
      ensures old(row).Some? ==>
                && |steps| >= 2 && steps[0] == Acquire(caller, now)
                && (steps[1].Refresh? <==> old(row).value.expiresAt <= now + 60)
      ensures result == Success(Unauthorized) ==> exists i :: 0 <= i < |steps| && steps[i].Refresh?
      ensures smooth && old(row).Some? && old(row).value.refresh == old(grant).live != "" ==> result.Success?
    {
      states, steps := [session], [];
      if row.None? {
        return Failure(NoConnection), states, steps;
      }
      var local := row.value;
      var refreshed := false;
      ghost var s := session.(lock := Held(caller, local, 0, 0, FirstStage(local, now)));
      Extend(states, steps, Acquire(caller, now), s);
      states, steps, session := states + [s], steps + [Acquire(caller, now)], s;
      if NeedsRefresh(local, now) {
        var renewed;
        renewed, states, steps := RefreshStep(local, now, smooth, states, steps);
        if renewed.None? {
          return Failure(RefreshFailed), states, steps;
        }
        local, refreshed := renewed.value, true;
      }
      var reply := Call();
      ghost var step := Request(reply == Unauthorized);
      ghost var stage := if reply == Unauthorized && !refreshed then Denied else Committing;
      s := session.(lock := session.lock.(requests := 1, stage := stage));
      Extend(states, steps, step, s);
      states, steps, session := states + [s], steps + [step], s;
      if !refreshed && reply == Unauthorized {
        var renewed;
        renewed, states, steps := RefreshStep(local, later, smooth, states, steps);
        if renewed.None? {
          return Failure(RefreshFailed), states, steps;
        }
        local := renewed.value;
        reply := Call();
        step := Request(reply == Unauthorized);
        s := session.(lock := session.lock.(requests := 2, stage := Committing));
        Extend(states, steps, step, s);
        states, steps, session := states + [s], steps + [step], s;
      }
      assert reply == Unauthorized ==> steps[if refreshed then 1 else 2].Refresh?;
      var confirmed;
      confirmed, states, steps := CommitStep(local, smooth, states, steps);
      result := if confirmed then Success(reply) else Failure(CommitFailed);
    }

    /** Write the tokens back and release the lock, or fail and roll back. A commit may be
        applied although no confirmation arrives. */
    method CommitStep(local: Tokens, smooth: bool, ghost states: seq<Session>, ghost steps: seq<Step>)
      returns (confirmed: bool, ghost states': seq<Session>, ghost steps': seq<Step>)
      requires Valid() && Path(states, steps) && states[|steps|] == session
      requires session.lock.Held? && session.lock.stage == Committing && session.lock.local == local
      modifies this`row, this`session
      ensures Valid() && session.lock.Free? && Path(states', steps') && states'[|steps'|] == session
      ensures states' == states + [session] && |steps'| == |steps| + 1 && steps <= steps'
      ensures (steps' == steps + [Commit] && row == Some(local)) || (steps' == steps + [Abandon] && row == old(row))
      ensures confirmed ==> steps' == steps + [Commit]
      ensures smooth ==> confirmed
    {
      var applied := Faults.Chance(smooth);
      confirmed := Faults.Chance(smooth);
      confirmed := confirmed && applied;
      ghost var step, s;
      if applied {
        row := Some(local);
        step, s := Commit, session.(row := row, lock := Free);
      } else {
        step, s := Abandon, session.(lock := Free, lost := session.lost + if Rotated(session) then 1 else 0);
      }
      Extend(states, steps, step, s);
      states', steps', session := states + [s], steps + [step], s;
    }
  }
}
