/** Stored previews and the runs made from them. */
module TransferStore {
  import opened Wrappers
  import opened Models
  import Faults
  import TransferRun

  type Id = string
  type JobId = nat

  /** What makes a preview unique: session, source and destination. */
  datatype PreviewKey = PreviewKey(hash: string, sourceProvider: string, snapshotId: string, destination: string)

  datatype Preview = Preview(key: PreviewKey, sourceName: string, rows: map<nat, PreviewEntry>)

  datatype RunRow = RunRow(previewId: Id, hash: string, job: JobId, status: TransferRun.Row)

  /** The tables; a job row names the run it works on. */
  datatype Tables = Tables(previews: map<Id, Preview>, runs: map<Id, RunRow>, jobs: map<JobId, Id>)

  ghost predicate Contiguous(rows: map<nat, PreviewEntry>) {
    forall p: nat :: p in rows <==> p < |rows|
  }

  predicate Numbered(entries: seq<PreviewEntry>) {
    forall i :: 0 <= i < |entries| ==> entries[i].position == i
  }

  /** The stored entries in order of position. */
  ghost function Listed(rows: map<nat, PreviewEntry>): seq<PreviewEntry>
    requires Contiguous(rows)
  {
    seq(|rows|, p requires 0 <= p < |rows| => rows[p])
  }

  // Rows keyed by position: a later entry for the same position replaces an earlier one.
  function Upserted(rows: map<nat, PreviewEntry>, entries: seq<PreviewEntry>): map<nat, PreviewEntry>
    decreases |entries|
  {
    if entries == [] then rows else Upserted(rows[entries[0].position := entries[0]], entries[1..])
  }

  lemma {:induction false} UpsertedAppend(rows: map<nat, PreviewEntry>, entries: seq<PreviewEntry>, e: PreviewEntry)
    ensures Upserted(rows, entries + [e]) == Upserted(rows, entries)[e.position := e]
    decreases |entries|
  {
    if entries == [] {
      assert [e][1..] == [];
    } else {
      assert (entries + [e])[1..] == entries[1..] + [e];
      UpsertedAppend(rows[entries[0].position := entries[0]], entries[1..], e);
    }
  }

  lemma {:induction false} UpsertedRows(rows: map<nat, PreviewEntry>, entries: seq<PreviewEntry>)
    requires Numbered(entries)
    ensures forall p: nat :: p in Upserted(rows, entries) <==> p in rows || p < |entries|
    ensures forall p: nat :: p in Upserted(rows, entries) ==>
              Upserted(rows, entries)[p] == if p < |entries| then entries[p] else rows[p]
  {
    if entries != [] {
      var last := |entries| - 1;
      assert entries == entries[..last] + [entries[last]];
      UpsertedRows(rows, entries[..last]);
      UpsertedAppend(rows, entries[..last], entries[last]);
    }
  }

  lemma {:induction false} CountRows(rows: map<nat, PreviewEntry>, count: nat)
    requires forall p: nat :: p in rows <==> p < count
    ensures |rows| == count
  {
    if count > 0 {
      var fewer := rows - {count - 1};
      CountRows(fewer, count - 1);
      assert rows == fewer[count - 1 := rows[count - 1]];
    } else {
      assert rows == map[];
    }
  }

  /** Saving a preview again leaves exactly the latest entries, none of them stale, exactly
      when it has at least as many entries as were stored. */
  lemma ResavedIff(rows: map<nat, PreviewEntry>, entries: seq<PreviewEntry>)
    requires Contiguous(rows) && Numbered(entries)
    ensures Contiguous(Upserted(rows, entries))
    ensures Listed(Upserted(rows, entries)) == entries <==> |rows| <= |entries|
  {
    UpsertedRows(rows, entries);
    CountRows(Upserted(rows, entries), if |rows| <= |entries| then |entries| else |rows|);
  }

  // ---- Invariant ----

  ghost predicate PreviewsValid(previews: map<Id, Preview>) {
    && (forall a, b :: a in previews && b in previews && previews[a].key == previews[b].key ==> a == b)
    && (forall id :: id in previews ==> Contiguous(previews[id].rows))
  }

  ghost predicate RunsValid(t: Tables) {
    && (forall r :: r in t.runs ==>
         t.runs[r].previewId in t.previews && t.runs[r].hash == t.previews[t.runs[r].previewId].key.hash)
    && (forall r, q :: r in t.runs && q in t.runs && t.runs[r].previewId == t.runs[q].previewId ==> r == q)
    && (forall r :: r in t.runs ==> t.runs[r].job in t.jobs && t.jobs[t.runs[r].job] == r)
    && (forall j :: j in t.jobs ==> t.jobs[j] in t.runs && t.runs[t.jobs[j]].job == j)
  }

  ghost predicate Valid(t: Tables) {
    PreviewsValid(t.previews) && RunsValid(t)
  }

  function WithKey(previews: map<Id, Preview>, key: PreviewKey): set<Id> {
    set id | id in previews && previews[id].key == key
  }

  function RunsOf(t: Tables, previewId: Id): set<Id> {
    set r | r in t.runs && t.runs[r].previewId == previewId
  }

  /** The state after a preview is saved under an ID. */
  function Saved(t: Tables, id: Id, key: PreviewKey, sourceName: string, entries: seq<PreviewEntry>): Tables {
    var before := if id in t.previews then t.previews[id] else Preview(key, sourceName, map[]);
    t.(previews := t.previews[id := before.(rows := Upserted(before.rows, entries))])
  }

  lemma SavedKeepsPreviews(t: Tables, id: Id, key: PreviewKey, sourceName: string, entries: seq<PreviewEntry>)
    requires PreviewsValid(t.previews) && Numbered(entries)
    requires if id in t.previews then t.previews[id].key == key else WithKey(t.previews, key) == {}
    ensures PreviewsValid(Saved(t, id, key, sourceName, entries).previews)
  {
    var before := if id in t.previews then t.previews[id] else Preview(key, sourceName, map[]);
    ResavedIff(before.rows, entries);
    forall a | a in t.previews && t.previews[a].key == key ensures a == id {
      assert a in WithKey(t.previews, key);
    }
  }

  lemma SavedKeepsValid(t: Tables, id: Id, key: PreviewKey, sourceName: string, entries: seq<PreviewEntry>)
    requires Valid(t) && Numbered(entries)
    requires if id in t.previews then t.previews[id].key == key else WithKey(t.previews, key) == {}
    ensures Valid(Saved(t, id, key, sourceName, entries))
  {
    SavedKeepsPreviews(t, id, key, sourceName, entries);
  }

  function WithRun(t: Tables, run: Id, previewId: Id, hash: string, job: JobId): Tables {
    t.(runs := t.runs[run := RunRow(previewId, hash, job, TransferRun.Row(TransferRun.Queued, "", "", 0))],
       jobs := t.jobs[job := run])
  }

  lemma RunKeepsValid(t: Tables, run: Id, previewId: Id, hash: string, job: JobId)
    requires Valid(t) && previewId in t.previews && t.previews[previewId].key.hash == hash
    requires RunsOf(t, previewId) == {} && run !in t.runs && job !in t.jobs
    ensures Valid(WithRun(t, run, previewId, hash, job))
  {
    forall r | r in t.runs ensures t.runs[r].previewId != previewId {
      assert r !in RunsOf(t, previewId);
    }
  }

  lemma OnlyRun(t: Tables, run: Id, previewId: Id, hash: string, job: JobId)
    requires RunsOf(t, previewId) == {} && run !in t.runs
    ensures RunsOf(WithRun(t, run, previewId, hash, job), previewId) == {run}
  {
    assert RunsOf(WithRun(t, run, previewId, hash, job), previewId) == RunsOf(t, previewId) + {run};
  }

  // ---- Many callers ----

  /** A request to enqueue a run of a preview, with the IDs its run and job would get. */
  datatype Ticket = Ticket(previewId: Id, hash: string, run: Id, job: JobId)

  /** The tables, and the requests that have seen no run and are about to insert one. */
  datatype Store = Store(tables: Tables, looked: set<Ticket>)

  datatype Step =
    | Save(id: Id, key: PreviewKey, sourceName: string, entries: seq<PreviewEntry>)
    | Look(ticket: Ticket)
    | Insert(ticket: Ticket, commits: bool)
    | Update(run: Id, status: TransferRun.Row)

  /** Does the database accept the run and the job? */
  predicate Insertable(t: Tables, ticket: Ticket) {
    RunsOf(t, ticket.previewId) == {} && ticket.run !in t.runs && ticket.job !in t.jobs
  }

  function Inserted(t: Tables, ticket: Ticket): Tables {
    WithRun(t, ticket.run, ticket.previewId, ticket.hash, ticket.job)
  }

  function Updated(t: Tables, run: Id, status: TransferRun.Row): Tables {
    if run in t.runs then t.(runs := t.runs[run := t.runs[run].(status := status)]) else t
  }

  predicate HasPreview(t: Tables, previewId: Id, hash: string) {
    previewId in t.previews && t.previews[previewId].key.hash == hash
  }

  predicate Next(s: Store, step: Step, s': Store) {
    match step
    case Save(id, key, sourceName, entries) =>
      && Numbered(entries)
      && (if id in s.tables.previews then s.tables.previews[id].key == key else WithKey(s.tables.previews, key) == {})
      && s' == s.(tables := Saved(s.tables, id, key, sourceName, entries))
    case Look(ticket) =>
      && HasPreview(s.tables, ticket.previewId, ticket.hash)
      && s' == if RunsOf(s.tables, ticket.previewId) == {} then s.(looked := s.looked + {ticket}) else s
    case Insert(ticket, commits) =>
      && ticket in s.looked
      && s' == Store(if commits && Insertable(s.tables, ticket) then Inserted(s.tables, ticket) else s.tables,
                     s.looked - {ticket})
    case Update(run, status) =>
      s' == s.(tables := Updated(s.tables, run, status))
  }

  predicate Path(states: seq<Store>, steps: seq<Step>) {
    && |states| == |steps| + 1
    && forall i {:trigger steps[i]} :: 0 <= i < |steps| ==> Next(states[i], steps[i], states[i + 1])
  }

  predicate Run(states: seq<Store>, steps: seq<Step>) {
    Path(states, steps) && states[0] == Store(Tables(map[], map[], map[]), {})
  }

  lemma PathStep(states: seq<Store>, steps: seq<Step>, step: Step, s: Store)
    requires Path(states, steps) && Next(states[|steps|], step, s)
    ensures Path(states + [s], steps + [step]) && (states + [s])[|steps| + 1] == s
  {
  }

  /** What one call from t to t' looked like: it began by looking; it ended there if there was a
      run, and otherwise by trying to insert one, which it did if it succeeded. */
  ghost predicate Call(t: Tables, t': Tables, ticket: Ticket, success: bool, states: seq<Store>, steps: seq<Step>) {
    && Path(states, steps) && states[0] == Store(t, {}) && states[|steps|] == Store(t', {})
    && steps != [] && steps[0] == Look(ticket)
    && (if RunsOf(t, ticket.previewId) != {} then |steps| == 1 && t' == t
        else exists applied :: steps[|steps| - 1] == Insert(ticket, applied) && (success ==> applied))
  }

  lemma LookOnly(t: Tables, ticket: Ticket, success: bool) returns (states: seq<Store>, steps: seq<Step>)
    requires HasPreview(t, ticket.previewId, ticket.hash) && RunsOf(t, ticket.previewId) != {}
    ensures Call(t, t, ticket, success, states, steps)
  {
    states, steps := [Store(t, {}), Store(t, {})], [Look(ticket)];
  }

  lemma LookFirst(t: Tables, ticket: Ticket) returns (states: seq<Store>, steps: seq<Step>)
    requires HasPreview(t, ticket.previewId, ticket.hash) && RunsOf(t, ticket.previewId) == {}
    ensures Path(states, steps) && states[0] == Store(t, {}) && states[|steps|] == Store(t, {ticket})
    ensures steps == [Look(ticket)]
  {
    assert {} + {ticket} == {ticket};
    states, steps := [Store(t, {}), Store(t, {ticket})], [Look(ticket)];
  }

  lemma InsertLast(t: Tables, states: seq<Store>, steps: seq<Step>, ticket: Ticket, applied: bool, t': Tables,
                   success: bool)
      returns (states': seq<Store>, steps': seq<Step>)
    requires Path(states, steps) && states[0] == Store(t, {}) && steps != [] && steps[0] == Look(ticket)
    requires Next(states[|steps|], Insert(ticket, applied), Store(t', {})) && (success ==> applied)
    requires RunsOf(t, ticket.previewId) == {}
    ensures Call(t, t', ticket, success, states', steps')
  {
    PathStep(states, steps, Insert(ticket, applied), Store(t', {}));
    states', steps' := states + [Store(t', {})], steps + [Insert(ticket, applied)];
  }

  /** The run of the ticket is there, waiting, with nothing done, and has the ticket's job. */
  ghost predicate StartsQueued(t: Tables, ticket: Ticket) {
    && ticket.run in t.runs && t.runs[ticket.run].previewId == ticket.previewId
    && t.runs[ticket.run].hash == ticket.hash && t.runs[ticket.run].job == ticket.job
    && t.runs[ticket.run].status.state.Queued? && t.runs[ticket.run].status.errorCode == ""
    && t.runs[ticket.run].status.playlistId == "" && t.runs[ticket.run].status.next == 0
    && ticket.job in t.jobs && t.jobs[ticket.job] == ticket.run
  }

  /** Runs are only added. */
  ghost predicate KeepsRuns(t: Tables, t': Tables) {
    forall r :: r in t.runs ==> r in t'.runs && t'.runs[r] == t.runs[r]
  }

  /** Another caller looks and inserts. */
  lemma OtherRun(states: seq<Store>, steps: seq<Step>, ticket: Ticket) returns (states': seq<Store>, steps': seq<Step>)
    requires Path(states, steps) && ticket !in states[|steps|].looked
    requires var t := states[|steps|].tables; HasPreview(t, ticket.previewId, ticket.hash) && Insertable(t, ticket)
    ensures Path(states', steps') && states <= states' && steps <= steps'
    ensures states'[|steps'|] == Store(Inserted(states[|steps|].tables, ticket), states[|steps|].looked)
  {
    var s := states[|steps|];
    var s' := s.(looked := s.looked + {ticket});
    PathStep(states, steps, Look(ticket), s');
    var s'' := Store(Inserted(s.tables, ticket), s'.looked - {ticket});
    PathStep(states + [s'], steps + [Look(ticket)], Insert(ticket, true), s'');
    states', steps' := states + [s'] + [s''], steps + [Look(ticket)] + [Insert(ticket, true)];
  }

  /** The tables are valid, and whoever is about to insert a run has an existing preview. */
  ghost predicate Inv(s: Store) {
    Valid(s.tables) && forall ticket :: ticket in s.looked ==> HasPreview(s.tables, ticket.previewId, ticket.hash)
  }

  lemma ValidKept(s: Store, step: Step, s': Store)
    requires Inv(s) && Next(s, step, s')
    ensures Valid(s'.tables)
  {
    match step
    case Save(id, key, sourceName, entries) => SavedKeepsValid(s.tables, id, key, sourceName, entries);
    case Insert(ticket, commits) =>
      if commits && Insertable(s.tables, ticket) {
        RunKeepsValid(s.tables, ticket.run, ticket.previewId, ticket.hash, ticket.job);
      }
    case _ =>
  }

  lemma InvKept(s: Store, step: Step, s': Store)
    requires Inv(s) && Next(s, step, s')
    ensures Inv(s')
  {
    ValidKept(s, step, s');
    forall ticket | ticket in s'.looked ensures HasPreview(s'.tables, ticket.previewId, ticket.hash) {
      assert ticket in s.looked || step == Look(ticket);
      assert HasPreview(s.tables, ticket.previewId, ticket.hash);
    }
  }

  // ---- The operations ----

  datatype StoreError = PreviewNotFound | DatabaseError

  /** The preview was saved under the ID it had or else the new one. */
  ghost predicate MaySave(t: Tables, newId: Id, key: PreviewKey, sourceName: string, entries: seq<PreviewEntry>,
                          t': Tables)
  {
    exists id ::
      && (if WithKey(t.previews, key) == {} then id == newId else WithKey(t.previews, key) == {id})
      && Next(Store(t, {}), Save(id, key, sourceName, entries), Store(t', {}))
  }

  class PreviewStore {
    var tables: Tables

    /** Save a preview: the ID of an earlier preview of the same source, session and destination
        is kept, otherwise the new one is taken. The commit may be applied although no
        confirmation arrives. */
    method SavePreview(newId: Id, key: PreviewKey, sourceName: string, entries: seq<PreviewEntry>,
                       smooth: bool)
        returns (r: Result<Id, StoreError>)
      requires Valid(tables) && Numbered(entries) && newId !in tables.previews
      modifies this
      ensures Valid(tables)
      ensures smooth ==> r.Success?
      ensures r.Failure? ==> tables == old(tables) || MaySave(old(tables), newId, key, sourceName, entries, tables)
      ensures r.Success? ==>
                && r.value in tables.previews && tables.previews[r.value].key == key
                && (if WithKey(old(tables).previews, key) == {} then r.value == newId
                     else WithKey(old(tables).previews, key) == {r.value})
                && tables == Saved(old(tables), r.value, key, sourceName, entries)
                && tables.previews[r.value].sourceName ==
                   (if r.value in old(tables).previews then old(tables).previews[r.value].sourceName else sourceName)
                && Next(Store(old(tables), {}), Save(r.value, key, sourceName, entries), Store(tables, {}))
                && (Listed(tables.previews[r.value].rows) == entries <==>
                      r.value !in old(tables).previews || |old(tables).previews[r.value].rows| <= |entries|)
    {
      var existing := WithKey(tables.previews, key);
      var id := newId;
      if existing != {} {
        var found :| found in existing;
        id := found;
        assert existing == {found};
      }
      var preview := if id in tables.previews then tables.previews[id] else Preview(key, sourceName, map[]);
      var rows := preview.rows;
      for i := 0 to |entries|
        invariant tables == old(tables) && rows == Upserted(preview.rows, entries[..i])
      {
        UpsertedAppend(preview.rows, entries[..i], entries[i]);
        assert entries[..i + 1] == entries[..i] + [entries[i]];
        rows := rows[entries[i].position := entries[i]];
      }
      assert entries[..|entries|] == entries;
      var applied := Faults.Chance(smooth);
      var confirmed := Faults.Chance(smooth);
      if !applied {
        return Failure(DatabaseError);
      }
      SavedKeepsValid(tables, id, key, sourceName, entries);
      ResavedIff(preview.rows, entries);
      tables := tables.(previews := tables.previews[id := preview.(rows := rows)]);
      assert Next(Store(old(tables), {}), Save(id, key, sourceName, entries), Store(tables, {}));
      r := if confirmed then Success(id) else Failure(DatabaseError);
    }

    /** While one caller is about to insert, any number of others may enqueue runs of any previews,
        that caller's included. */
    method Interfere(ours: Ticket, smooth: bool, ghost states: seq<Store>, ghost steps: seq<Step>)
        returns (ghost states': seq<Store>, ghost steps': seq<Step>)
      requires Valid(tables) && HasPreview(tables, ours.previewId, ours.hash)
      requires Path(states, steps) && states[|steps|] == Store(tables, {ours})
      modifies this
      ensures Valid(tables) && tables.previews == old(tables).previews && KeepsRuns(old(tables), tables)
      ensures Path(states', steps') && states <= states' && steps <= steps'
      ensures states'[|steps'|] == Store(tables, {ours})
      ensures smooth ==> tables == old(tables)
    {
      states', steps' := states, steps;
      var others: int := *;
      while 0 < others && !smooth
        invariant smooth ==> tables == old(tables)
        invariant Valid(tables) && tables.previews == old(tables).previews && KeepsRuns(old(tables), tables)
        invariant Path(states', steps') && states <= states' && steps <= steps'
        invariant states'[|steps'|] == Store(tables, {ours})
      {
        states', steps' := OtherCaller(ours, states', steps');
        others := others - 1;
      }
    }

    /** One of the others, unless it is refused. */
    method OtherCaller(ours: Ticket, ghost states: seq<Store>, ghost steps: seq<Step>)
        returns (ghost states': seq<Store>, ghost steps': seq<Step>)
      requires Valid(tables) && Path(states, steps) && states[|steps|] == Store(tables, {ours})
      modifies this
      ensures Valid(tables) && tables.previews == old(tables).previews && KeepsRuns(old(tables), tables)
      ensures Path(states', steps') && states <= states' && steps <= steps'
      ensures states'[|steps'|] == Store(tables, {ours})
    {
      states', steps' := states, steps;
      var ticket: Ticket := *;
      if ticket != ours && HasPreview(tables, ticket.previewId, ticket.hash) && Insertable(tables, ticket) {
        states', steps' := OtherRun(states, steps, ticket);
        RunKeepsValid(tables, ticket.run, ticket.previewId, ticket.hash, ticket.job);
        tables := Inserted(tables, ticket);
      }
    }

    method FindRun(previewId: Id) returns (found: Option<Id>)
      requires Valid(tables)
      ensures RunsOf(tables, previewId) == if found.Some? then {found.value} else {}
      ensures found.None? <==> RunsOf(tables, previewId) == {}
    {
      var existing := RunsOf(tables, previewId);
      found := None;
      if existing != {} {
        var run :| run in existing;
        assert existing == {run};
        found := Some(run);
      }
    }

    /** Enqueue the run of a preview without a lock: look first, then insert run and job in one
        transaction that the uniqueness of the preview may refuse. Whatever other callers insert
        in between, success means that the preview has exactly the returned run; and what
        happened is a path of the steps of this caller and the others. */
    method EnqueueRun(hash: string, previewId: Id, run: Id, job: JobId, smooth: bool)
        returns (r: Result<Id, StoreError>, ghost states: seq<Store>, ghost steps: seq<Step>)
      requires Valid(tables)
      modifies this
      ensures Valid(tables) && tables.previews == old(tables).previews && KeepsRuns(old(tables), tables)
      ensures r == Failure(PreviewNotFound) <==> !HasPreview(old(tables), previewId, hash)
      ensures r.Success? ==> RunsOf(tables, previewId) == {r.value}
      ensures r.Success? && RunsOf(old(tables), previewId) == {} ==>
                && r.value == run && StartsQueued(tables, Ticket(previewId, hash, run, job))
      ensures smooth && HasPreview(old(tables), previewId, hash)
              && (RunsOf(old(tables), previewId) == {} ==> run !in old(tables).runs && job !in old(tables).jobs) ==>
                r.Success?
      ensures !HasPreview(old(tables), previewId, hash) ==> tables == old(tables)
      ensures HasPreview(old(tables), previewId, hash) ==>
                Call(old(tables), tables, Ticket(previewId, hash, run, job), r.Success?, states, steps)
    {
      if previewId !in tables.previews || tables.previews[previewId].key.hash != hash {
        return Failure(PreviewNotFound), [], [];
      }
      r, states, steps := LookAndInsert(Ticket(previewId, hash, run, job), smooth);
    }

    /** The rest of the call, once the preview has been found. */
    method LookAndInsert(ticket: Ticket, smooth: bool)
        returns (r: Result<Id, StoreError>, ghost states: seq<Store>, ghost steps: seq<Step>)
      requires Valid(tables) && HasPreview(tables, ticket.previewId, ticket.hash)
      modifies this
      ensures Valid(tables) && tables.previews == old(tables).previews && KeepsRuns(old(tables), tables)
      ensures r.Success? ==> RunsOf(tables, ticket.previewId) == {r.value}
      ensures r.Failure? ==> r.error == DatabaseError
      ensures r.Success? && RunsOf(old(tables), ticket.previewId) == {} ==>
                r.value == ticket.run && StartsQueued(tables, ticket)
      ensures smooth && (RunsOf(old(tables), ticket.previewId) == {} ==> Insertable(old(tables), ticket)) ==> r.Success?
      ensures Call(old(tables), tables, ticket, r.Success?, states, steps)
    {
      var found := FindRun(ticket.previewId);
      if found.Some? {
        var confirmed := Faults.Chance(smooth);
        r := if confirmed then Success(found.value) else Failure(DatabaseError);
        states, steps := LookOnly(tables, ticket, confirmed);
        return;
      }
      r, states, steps := InsertMeanwhile(ticket, smooth);
    }

    /** The rest of the call, once it has seen no run. */
    method InsertMeanwhile(ticket: Ticket, smooth: bool)
        returns (r: Result<Id, StoreError>, ghost states: seq<Store>, ghost steps: seq<Step>)
      requires Valid(tables) && HasPreview(tables, ticket.previewId, ticket.hash)
      requires RunsOf(tables, ticket.previewId) == {}
      modifies this
      ensures Valid(tables) && tables.previews == old(tables).previews && KeepsRuns(old(tables), tables)
      ensures r.Success? ==> RunsOf(tables, ticket.previewId) == {r.value}
      ensures r.Failure? ==> r.error == DatabaseError
      ensures r.Success? ==> r.value == ticket.run && StartsQueued(tables, ticket)
      ensures smooth && Insertable(old(tables), ticket) ==> r.Success?
      ensures Call(old(tables), tables, ticket, r.Success?, states, steps)
    {
      ghost var applied;
      states, steps := LookFirst(tables, ticket);
      ghost var before := tables;
      states, steps := Interfere(ticket, smooth, states, steps);
      r, applied := InsertRun(ticket, smooth);
      states, steps := InsertLast(before, states, steps, ticket, applied, tables, r.Success?);
    }

    /** Insert run and job together unless the preview has a run by now. The commit may be applied
        although no confirmation arrives. */
    method InsertRun(ticket: Ticket, smooth: bool) returns (r: Result<Id, StoreError>, ghost applied: bool)
      requires Valid(tables) && HasPreview(tables, ticket.previewId, ticket.hash)
      modifies this
      ensures Valid(tables) && tables.previews == old(tables).previews && KeepsRuns(old(tables), tables)
      ensures Next(Store(old(tables), {ticket}), Insert(ticket, applied), Store(tables, {}))
      ensures r.Success? ==> applied && r.value == ticket.run
      ensures r.Failure? ==> r.error == DatabaseError
      ensures if applied then Insertable(old(tables), ticket) && tables == Inserted(old(tables), ticket)
              else tables == old(tables)
      ensures applied ==> RunsOf(tables, ticket.previewId) == {ticket.run} && StartsQueued(tables, ticket)
      ensures smooth && Insertable(old(tables), ticket) ==> r.Success?
    {
      var commits := Faults.Chance(smooth);
      var confirmed := Faults.Chance(smooth);
      if !commits || !Insertable(tables, ticket) {
        return Failure(DatabaseError), false;
      }
      RunKeepsValid(tables, ticket.run, ticket.previewId, ticket.hash, ticket.job);
      OnlyRun(tables, ticket.run, ticket.previewId, ticket.hash, ticket.job);
      tables := Inserted(tables, ticket);
      r, applied := if confirmed then Success(ticket.run) else Failure(DatabaseError), true;
    }

    /** A run's progress is rewritten in place. */
    method UpdateRunState(run: Id, status: TransferRun.Row)
      requires Valid(tables)
      modifies this
      ensures Valid(tables)
      ensures tables == Updated(old(tables), run, status)
      ensures Next(Store(old(tables), {}), Update(run, status), Store(tables, {}))
      ensures tables.previews == old(tables).previews && tables.jobs == old(tables).jobs
      ensures tables.runs.Keys == old(tables).runs.Keys
      ensures run in tables.runs ==>
                && tables.runs[run].status == status
                && old(tables).runs[run] == tables.runs[run].(status := old(tables).runs[run].status)
      ensures forall r :: r in tables.runs && r != run ==> tables.runs[r] == old(tables).runs[r]
    {
      if run in tables.runs {
        tables := tables.(runs := tables.runs[run := tables.runs[run].(status := status)]);
      }
    }
  }

  lemma OneRunEach(t: Tables, previewId: Id)
    requires Valid(t)
    ensures |RunsOf(t, previewId)| <= 1
  {
    if r :| r in RunsOf(t, previewId) {
      assert RunsOf(t, previewId) == {r};
    }
  }

  // ---- What holds in every history ----

  /** In every state, however callers that look and callers that insert take turns, a preview
      has at most one run, and runs and committed jobs correspond one to one. */
  lemma {:induction false} OneRunPerPreview(states: seq<Store>, steps: seq<Step>, i: nat)
    requires Run(states, steps) && i < |states|
    ensures Inv(states[i])
    ensures forall previewId :: |RunsOf(states[i].tables, previewId)| <= 1
    ensures var t := states[i].tables;
            forall r, q | r in t.runs && q in t.runs && t.runs[r].job == t.runs[q].job :: r == q
  {
    if i > 0 {
      OneRunPerPreview(states, steps, i - 1);
      InvKept(states[i - 1], steps[i - 1], states[i]);
    }
    forall previewId ensures |RunsOf(states[i].tables, previewId)| <= 1 {
      OneRunEach(states[i].tables, previewId);
    }
  }

  /** The ID of the first save of a key and the entries of the latest, if there was one. */
  function Latest(steps: seq<Step>, key: PreviewKey): Option<(Id, seq<PreviewEntry>)> {
    if steps == [] then None
    else
      var earlier := Latest(steps[..|steps| - 1], key);
      match steps[|steps| - 1]
      case Save(id, k, _, entries) =>
        if k == key then Some((if earlier.Some? then earlier.value.0 else id, entries)) else earlier
      case _ => earlier
  }

  /** A snapshot never changes, so its previews all have one length: then, however often it is
      previewed and whatever else happens, the first ID is kept for good and the stored entries
      are the latest ones, none of them stale. */
  lemma {:induction false} RepreviewKeepsId(states: seq<Store>, steps: seq<Step>, i: nat, key: PreviewKey, length: nat)
    requires Run(states, steps) && i <= |steps|
    requires forall j :: 0 <= j < |steps| && steps[j].Save? && steps[j].key == key ==> |steps[j].entries| == length
    ensures Valid(states[i].tables)
    ensures match Latest(steps[..i], key)
            case None => WithKey(states[i].tables.previews, key) == {}
            case Some((id, entries)) =>
              && WithKey(states[i].tables.previews, key) == {id}
              && |entries| == length && Listed(states[i].tables.previews[id].rows) == entries
  {
    OneRunPerPreview(states, steps, i);
    if i > 0 {
      RepreviewKeepsId(states, steps, i - 1, key, length);
      assert steps[..i][..i - 1] == steps[..i - 1];
      assert steps[..i][i - 1] == steps[i - 1];
      if steps[i - 1].Save? && steps[i - 1].key == key {
        SaveSetsKey(states[i - 1], steps[i - 1], states[i]);
        SaveSetsLatest(states[i - 1], steps[i - 1], states[i]);
        var id := steps[i - 1].id;
        var previews := states[i - 1].tables.previews;
        assert id in previews ==> |Listed(previews[id].rows)| == |previews[id].rows| == length;
      } else {
        OthersKeepLatest(states[i - 1], steps[i - 1], states[i], key);
      }
    }
  }

  lemma SaveSetsKey(s: Store, step: Step, s': Store)
    requires PreviewsValid(s.tables.previews) && step.Save? && Next(s, step, s')
    ensures WithKey(s'.tables.previews, step.key) == {step.id}
    ensures WithKey(s.tables.previews, step.key) == if step.id in s.tables.previews then {step.id} else {}
  {
    forall id | id in s.tables.previews && s.tables.previews[id].key == step.key ensures id == step.id {
      assert id in WithKey(s.tables.previews, step.key);
    }
  }

  lemma SaveSetsLatest(s: Store, step: Step, s': Store)
    requires PreviewsValid(s.tables.previews) && step.Save? && Next(s, step, s')
    ensures step.id in s'.tables.previews && Contiguous(s'.tables.previews[step.id].rows)
    ensures (step.id in s.tables.previews ==> |s.tables.previews[step.id].rows| <= |step.entries|) ==>
            Listed(s'.tables.previews[step.id].rows) == step.entries
  {
    var before := if step.id in s.tables.previews then s.tables.previews[step.id].rows else map[];
    ResavedIff(before, step.entries);
  }

  lemma OthersKeepLatest(s: Store, step: Step, s': Store, key: PreviewKey)
    requires Next(s, step, s') && !(step.Save? && step.key == key)
    ensures WithKey(s'.tables.previews, key) == WithKey(s.tables.previews, key)
    ensures forall id :: id in WithKey(s.tables.previews, key) ==> s'.tables.previews[id] == s.tables.previews[id]
  {
  }
}
