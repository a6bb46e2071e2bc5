/** Pending authorization attempts: a bounded, expiring table whose entries are used once. */
module Auth {
  import opened Wrappers

  const MAX_PENDING := 1024
  const LIFETIME := 600

  datatype Attempt = Attempt(verifier: string, expires: int)

  /** A code exchange as the provider sees it. */
  datatype Exchange = Exchange(state: string, verifier: string, time: int)

  /** The table, the attempts that callbacks have taken out of it and not yet dealt with, and
      what is remembered for the proofs: every attempt ever started and every exchange made. */
  datatype Table = Table(
    pending: map<string, Attempt>, taken: map<string, Attempt>, started: map<string, Attempt>, exchanges: seq<Exchange>)

  datatype Step =
    | Start(state: string, verifier: string, now: int)
    | Take(state: string)
    | Redeem(state: string, now: int)   // exchange the code, unless the attempt has expired
    | Drop(state: string)               // authorization refused, or no code

  function Unexpired(pending: map<string, Attempt>, now: int): map<string, Attempt> {
    map s | s in pending && pending[s].expires > now :: pending[s]
  }

  ghost predicate Next(t: Table, step: Step, t': Table) {
    match step
    case Start(state, verifier, now) =>
      && state !in t.started
      && var kept := Unexpired(t.pending, now);
      && var attempt := Attempt(verifier, now + LIFETIME);
      && t' == if |kept| >= MAX_PENDING then t.(pending := kept)
               else t.(pending := kept[state := attempt], started := t.started[state := attempt])
    case Take(state) =>
      t' == if state !in t.pending then t
            else t.(pending := t.pending - {state}, taken := t.taken[state := t.pending[state]])
    case Redeem(state, now) =>
      && state in t.taken
      && t' == t.(taken := t.taken - {state},
                  exchanges := if t.taken[state].expires <= now then t.exchanges
                               else t.exchanges + [Exchange(state, t.taken[state].verifier, now)])
    case Drop(state) =>
      state in t.taken && t' == t.(taken := t.taken - {state})
  }

  ghost predicate Spent(t: Table, e: Exchange) {
    && e.state in t.started && e.state !in t.pending && e.state !in t.taken
    && e.verifier == t.started[e.state].verifier && e.time < t.started[e.state].expires
  }

  ghost predicate Inv(t: Table) {
    && |t.pending| <= MAX_PENDING
    && (forall s :: s in t.pending ==> s in t.started && t.started[s] == t.pending[s] && s !in t.taken)
    && (forall s :: s in t.taken ==> s in t.started && t.started[s] == t.taken[s])
    && (forall i :: 0 <= i < |t.exchanges| ==> Spent(t, t.exchanges[i]))
    && (forall i, j :: 0 <= i < j < |t.exchanges| ==> t.exchanges[i].state != t.exchanges[j].state)
  }

  lemma SmallerMap(a: map<string, Attempt>, b: map<string, Attempt>)
    requires a.Keys <= b.Keys
    ensures |a| <= |b|
  {
    assert |a| == |a.Keys| && |b| == |b.Keys|;
    assert b.Keys == a.Keys + (b.Keys - a.Keys);
  }

  lemma StartKeepsInv(t: Table, state: string, verifier: string, now: int, t': Table)
    requires Inv(t) && Next(t, Start(state, verifier, now), t')
    ensures Inv(t')
  {
    SmallerMap(Unexpired(t.pending, now), t.pending);
    forall i | 0 <= i < |t'.exchanges| ensures Spent(t', t'.exchanges[i]) {
      assert Spent(t, t.exchanges[i]);
    }
  }

  lemma InvKept(t: Table, step: Step, t': Table)
    requires Inv(t) && Next(t, step, t')
    ensures Inv(t')
  {
    match step
    case Start(state, verifier, now) => StartKeepsInv(t, state, verifier, now, t');
    case Take(state) =>
      SmallerMap(t'.pending, t.pending);
      assert forall i :: 0 <= i < |t.exchanges| && Spent(t, t.exchanges[i]) ==> Spent(t', t.exchanges[i]);
    case Drop(state) =>
      assert forall i :: 0 <= i < |t.exchanges| && Spent(t, t.exchanges[i]) ==> Spent(t', t.exchanges[i]);
    case Redeem(state, now) =>
      RedeemKeepsInv(t, state, now, t');
  }

  lemma RedeemKeepsInv(t: Table, state: string, now: int, t': Table)
    requires Inv(t) && Next(t, Redeem(state, now), t')
    ensures Inv(t')
  {
    forall i | 0 <= i < |t'.exchanges| ensures Spent(t', t'.exchanges[i]) {
      assert i < |t.exchanges| ==> Spent(t, t.exchanges[i]);
    }
  }

  ghost predicate Run(tables: seq<Table>, steps: seq<Step>) {
    && |tables| == |steps| + 1
    && tables[0] == Table(map[], map[], map[], [])
    && forall i :: 0 <= i < |steps| ==> Next(tables[i], steps[i], tables[i + 1])
  }

  lemma {:induction false} RunInv(tables: seq<Table>, steps: seq<Step>, i: nat)
    requires Run(tables, steps) && i < |tables|
    ensures Inv(tables[i])
  {
    if i > 0 {
      RunInv(tables, steps, i - 1);
      InvKept(tables[i - 1], steps[i - 1], tables[i]);
    }
  }

  /** Over every interleaving of starts and callbacks, the table never holds more than 1024
      attempts, and a state leads to at most one code exchange, within ten minutes of its start
      and with the verifier it was started with. */
  lemma AttemptsUsedOnce(tables: seq<Table>, steps: seq<Step>, i: nat)
    requires Run(tables, steps) && i < |tables|
    ensures var t := tables[i];
            && |t.pending| <= 1024
            && (forall a, b :: 0 <= a < b < |t.exchanges| ==> t.exchanges[a].state != t.exchanges[b].state)
            && (forall a :: 0 <= a < |t.exchanges| ==>
                  var e := t.exchanges[a];
                  && e.state in t.started && e.verifier == t.started[e.state].verifier
                  && exists j :: 0 <= j < i && StartsInTime(steps[j], e))
  {
    RunInv(tables, steps, i);
    forall a | 0 <= a < |tables[i].exchanges|
      ensures exists j :: 0 <= j < i && StartsInTime(steps[j], tables[i].exchanges[a])
    {
      var e := tables[i].exchanges[a];
      assert Spent(tables[i], e);
      var j := Origin(tables, steps, i, e.state);
      assert StartsInTime(steps[j], e);
    }
  }

  /** The exchange is made within ten minutes of the start of its attempt, and with its verifier. */
  predicate StartsInTime(step: Step, e: Exchange) {
    step.Start? && step.state == e.state && step.verifier == e.verifier && e.time < step.now + 600
  }

  /** Every attempt was started by a step. */
  lemma {:induction false} Origin(tables: seq<Table>, steps: seq<Step>, i: nat, state: string) returns (j: nat)
    requires Run(tables, steps) && i < |tables| && state in tables[i].started
    ensures j < i && steps[j].Start? && steps[j].state == state
    ensures tables[i].started[state] == Attempt(steps[j].verifier, steps[j].now + 600)
  {
    if i == 0 || state !in tables[i - 1].started {
      j := i - 1;
      assert Next(tables[i - 1], steps[i - 1], tables[i]);
    } else {
      j := Origin(tables, steps, i - 1, state);
      assert Next(tables[i - 1], steps[i - 1], tables[i]);
    }
  }

  datatype Callback = InvalidState | ExpiredOrUsed | Refused | MissingCode | Exchanging(verifier: string)

  class Authorizer {
    var pending: map<string, Attempt>
    ghost var table: Table

    ghost predicate Valid()
      reads this
    {
      table.pending == pending && Inv(table)
    }

    /** Delete what has expired. */
    method Purge(now: int)
      modifies this`pending
      ensures pending == Unexpired(old(pending), now)
      ensures forall s :: s in pending <==> s in old(pending) && now < old(pending)[s].expires
      ensures forall s :: s in pending ==> pending[s] == old(pending)[s]
    {
      var keys := pending.Keys;
      ghost var before := pending;
      while keys != {}
        invariant keys <= before.Keys
        invariant forall s :: s in pending ==>
                    s in before && pending[s] == before[s] && (s !in keys ==> pending[s].expires > now)
        invariant forall s :: s in before && before[s].expires > now ==> s in pending
        decreases keys
      {
        var key :| key in keys;
        keys := keys - {key};
        if key in pending && pending[key].expires <= now {
          pending := pending - {key};
        }
      }
    }

    /** Purge, then add the attempt if there is room. */
    method Begin(state: string, verifier: string, now: int) returns (accepted: bool)
      requires Valid() && state !in table.started
      modifies this
      ensures Valid() && Next(old(table), Start(state, verifier, now), table)
      ensures accepted <==> |Unexpired(old(pending), now)| < 1024
      ensures accepted ==> state in pending && pending[state] == Attempt(verifier, now + 600)
      ensures forall s :: s != state ==> (s in pending <==> s in old(pending) && now < old(pending)[s].expires)
      ensures forall s :: s != state && s in pending ==> pending[s] == old(pending)[s]
    {
      ghost var before := table;
      Purge(now);
      accepted := |pending| < MAX_PENDING;
      if accepted {
        pending := pending[state := Attempt(verifier, now + LIFETIME)];
        table := table.(pending := pending, started := table.started[state := Attempt(verifier, now + LIFETIME)]);
      } else {
        table := table.(pending := pending);
      }
      StartKeepsInv(before, state, verifier, now, table);
    }

    /** Take the attempt of a state out of the table, if it is there. */
    method TakeAttempt(state: string) returns (flow: Option<Attempt>)
      requires Valid()
      modifies this
      ensures Valid() && Next(old(table), Take(state), table)
      ensures pending == old(pending) - {state}
      ensures flow == if state in old(pending) then Some(old(pending)[state]) else None
      ensures flow.Some? ==> state in table.taken && table.taken[state] == flow.value
      ensures flow.None? ==> table == old(table)
    {
      ghost var before := table;
      if state !in pending {
        assert pending - {state} == pending;
        return None;
      }
      flow := Some(pending[state]);
      pending := pending - {state};
      table := table.(pending := pending, taken := table.taken[state := flow.value]);
      InvKept(before, Take(state), table);
    }

    /** Deal with a taken attempt, however much later: exchange the code if the attempt is still
        good, drop it otherwise. */
    method Settle(state: string, flow: Attempt, now: int, refused: bool, code: string) returns (r: Callback)
      requires Valid() && state in table.taken && table.taken[state] == flow
      modifies this`table
      ensures Valid()
      ensures Next(old(table), if r.Exchanging? then Redeem(state, now) else Drop(state), table)
      ensures r == if flow.expires <= now then ExpiredOrUsed else if refused then Refused
                   else if code == "" then MissingCode else Exchanging(flow.verifier)
      ensures table.exchanges == old(table).exchanges + if r.Exchanging? then [Exchange(state, r.verifier, now)] else []
    {
      ghost var before := table;
      if flow.expires <= now || refused || code == "" {
        table := table.(taken := table.taken - {state});
        InvKept(before, Drop(state), table);
        return if flow.expires <= now then ExpiredOrUsed else if refused then Refused else MissingCode;
      }
      table := table.(taken := table.taken - {state},
                      exchanges := table.exchanges + [Exchange(state, flow.verifier, now)]);
      InvKept(before, Redeem(state, now), table);
      r := Exchanging(flow.verifier);
    }

    /** Handle the provider's redirect: the attempt is taken out of the table before anything
        else is decided, so a second callback for it finds nothing. The callback is a taking
        step and, if it found something, a redeeming or dropping step. */
    method Finish(state: string, cookie: Option<string>, now: int, refused: bool, code: string)
        returns (r: Callback, ghost taken: Table)
      requires Valid()
      modifies this
      ensures Valid()
      ensures r == InvalidState <==> state == "" || cookie != Some(state)
      ensures r == InvalidState ==> table == old(table)
      ensures r != InvalidState ==>
                && Next(old(table), Take(state), taken)
                && (state in old(pending) ==>
                     Next(taken, if r.Exchanging? then Redeem(state, now) else Drop(state), table))
                && (state !in old(pending) ==> table == taken)
      ensures r != InvalidState ==> pending == old(pending) - {state}
      ensures r.Exchanging? <==>
                && state != "" && cookie == Some(state) && state in old(pending) && now < old(pending)[state].expires
                && !refused && code != ""
      ensures r.Exchanging? ==> r.verifier == old(pending)[state].verifier
      ensures r == ExpiredOrUsed <==>
                state != "" && cookie == Some(state) && !(state in old(pending) && now < old(pending)[state].expires)
      ensures table.exchanges == old(table).exchanges + if r.Exchanging? then [Exchange(state, r.verifier, now)] else []
    {
      taken := table;
      if cookie.None? || state == "" || cookie.value != state {
        return InvalidState, table;
      }
      var flow := TakeAttempt(state);
      taken := table;
      if flow.None? {
        return ExpiredOrUsed, table;
      }
      r := Settle(state, flow.value, now, refused, code);
    }
  }
}
