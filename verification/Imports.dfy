/** Playlist imports: admission under the connection's row lock, publication of immutable
    snapshots by jobs that may be delivered repeatedly, and disconnection at any time. */
module Imports {
  import opened Wrappers
  import opened Occurrences
  import Faults
  import Paging

  type Hash = string
  type Id = string
  type JobId = nat

  const MAX_ACTIVE := 10

  datatype JobState = Active | Terminal

  datatype Import = Import(hash: Hash, playlistId: string, job: JobId, errorCode: string)

  datatype SnapshotRow = SnapshotRow(playlistId: string, snapshotId: string, name: string, itemCount: nat)

  /** A snapshot row with the entry rows that refer to it, keyed by position. */
  datatype Stored = Stored(row: SnapshotRow, rows: map<nat, Entry>)

  /** The tables; the locks that admissions in progress hold, with the playlist each asks for;
      and what is remembered for the proofs: every session, import and job ever inserted, every
      import a worker has started on, and every publication in order. */
  datatype Db = Db(
    now: int,
    connections: map<Hash, int>,
    imports: map<Id, Import>,
    jobs: map<JobId, JobState>,
    snapshots: map<Id, Stored>,
    locks: map<Hash, string>,
    everHashes: set<Hash>,
    jobOf: map<Id, JobId>,
    ownerOf: map<JobId, Id>,
    deliveries: set<(Id, Hash)>,
    published: seq<Id>)

  predicate Live(db: Db, hash: Hash) {
    hash in db.connections && db.connections[hash] > db.now
  }

  /** The imports whose job has not ended, with the session and the playlist of each. */
  function Actives(db: Db): map<Id, (Hash, string)> {
    map id | id in db.imports && db.imports[id].job in db.jobs && db.jobs[db.imports[id].job] == Active
      :: (db.imports[id].hash, db.imports[id].playlistId)
  }

  function Of(actives: map<Id, (Hash, string)>, hash: Hash): set<Id> {
    set id | id in actives && actives[id].0 == hash
  }

  function For(actives: map<Id, (Hash, string)>, hash: Hash, playlistId: string): set<Id> {
    set id | id in actives && actives[id] == (hash, playlistId)
  }

  datatype Step =
    | Connect(hash: Hash, expires: int)
    | Tick(now: int)
    | Admit(hash: Hash, playlistId: string)            // lock, no duplicate, room left
    | Insert(hash: Hash, id: Id, job: JobId)           // import and job, then commit
    | Release(hash: Hash)                              // roll back
    | MoveJob(job: JobId, state: JobState)
    | PurgeJob(job: JobId)
    | Deliver(id: Id)                                  // a worker looks up the session
    | Publish(id: Id, hash: Hash, row: SnapshotRow, content: seq<Entry>)
    | RecordError(id: Id, code: string)
    | Disconnect(hash: Hash)

  predicate Numbered(content: seq<Entry>) {
    forall i :: 0 <= i < |content| ==> content[i].position == i
  }

  function Rows(content: seq<Entry>): map<nat, Entry> {
    map i: nat | 0 <= i < |content| :: content[i]
  }

  function Published(db: Db, id: Id, row: SnapshotRow, content: seq<Entry>): Db {
    db.(snapshots := db.snapshots[id := Stored(row.(itemCount := |content|), Rows(content))],
        imports := if id in db.imports then db.imports[id := db.imports[id].(errorCode := "")] else db.imports,
        published := db.published + [id])
  }

  // Deleting a connection deletes what refers to it.
  function Disconnected(db: Db, hash: Hash): Db {
    var gone := set id | id in db.imports && db.imports[id].hash == hash;
    db.(connections := db.connections - {hash},
        imports := db.imports - gone,
        snapshots := db.snapshots - gone)
  }

  ghost predicate Next(db: Db, step: Step, db': Db) {
    match step
    case Connect(hash, expires) =>
      && hash !in db.everHashes
      && db' == db.(connections := db.connections[hash := expires], everHashes := db.everHashes + {hash})
    case Tick(now) =>
      now >= db.now && db' == db.(now := now)
    case Admit(hash, playlistId) =>
      && Live(db, hash) && hash !in db.locks
      && For(Actives(db), hash, playlistId) == {} && |Of(Actives(db), hash)| < MAX_ACTIVE
      && db' == db.(locks := db.locks[hash := playlistId])
    case Insert(hash, id, job) =>
      && hash in db.locks && id !in db.jobOf && job !in db.ownerOf
      && db' == db.(imports := db.imports[id := Import(hash, db.locks[hash], job, "")],
                    jobs := db.jobs[job := Active],
                    jobOf := db.jobOf[id := job],
                    ownerOf := db.ownerOf[job := id],
                    locks := db.locks - {hash})
    case Release(hash) =>
      hash in db.locks && db' == db.(locks := db.locks - {hash})
    case MoveJob(job, state) =>
      && job in db.jobs && (db.jobs[job] == Terminal ==> state == Terminal)
      && db' == db.(jobs := db.jobs[job := state])
    case PurgeJob(job) =>
      job in db.jobs && db.jobs[job] == Terminal && db' == db.(jobs := db.jobs - {job})
    case Deliver(id) =>
      && id in db.imports && Live(db, db.imports[id].hash)
      && db' == db.(deliveries := db.deliveries + {(id, db.imports[id].hash)})
    case Publish(id, hash, row, content) =>
      && (id, hash) in db.deliveries && Live(db, hash) && hash !in db.locks && Numbered(content)
      && db' == if id in db.snapshots then db else Published(db, id, row, content)
    case RecordError(id, code) =>
      db' == if id in db.imports then db.(imports := db.imports[id := db.imports[id].(errorCode := code)]) else db
    case Disconnect(hash) =>
      hash !in db.locks && db' == Disconnected(db, hash)
  }

  ghost predicate StepAt(states: seq<Db>, steps: seq<Step>, i: nat)
    requires |states| == |steps| + 1 && i < |steps|
  {
    Next(states[i], steps[i], states[i + 1])
  }

  ghost predicate Path(states: seq<Db>, steps: seq<Step>) {
    && |states| == |steps| + 1
    && forall i: nat :: i < |steps| ==> StepAt(states, steps, i)
  }

  ghost predicate Empty(db: Db) {
    db == Db(db.now, map[], map[], map[], map[], map[], {}, map[], map[], {}, [])
  }

  ghost predicate Run(states: seq<Db>, steps: seq<Step>) {
    Path(states, steps) && Empty(states[0])
  }

  // ---- The invariant, table by table ----

  /** Every import ever inserted has exactly one job, made together with it. */
  ghost predicate JobsMatch(db: Db) {
    && (forall id :: id in db.jobOf ==> db.jobOf[id] in db.ownerOf && db.ownerOf[db.jobOf[id]] == id)
    && (forall job :: job in db.ownerOf ==> db.ownerOf[job] in db.jobOf && db.jobOf[db.ownerOf[job]] == job)
    && (forall id :: id in db.imports ==> id in db.jobOf && db.imports[id].job == db.jobOf[id])
    && (forall job :: job in db.jobs ==> job in db.ownerOf)
  }

  ghost predicate References(db: Db) {
    && (forall hash :: hash in db.connections ==> hash in db.everHashes)
    && (forall id :: id in db.imports ==> db.imports[id].hash in db.connections)
    && (forall id :: id in db.snapshots ==> id in db.imports)
    && (forall hash :: hash in db.locks ==> hash in db.connections)
  }

  ghost predicate WholeRows(s: Stored) {
    && (forall p: nat :: p in s.rows <==> p < s.row.itemCount)
    && (forall p: nat :: p in s.rows ==> s.rows[p].position == p)
  }

  /** Every visible snapshot has as many entries as it says, at positions 0, 1, 2 and so on. */
  ghost predicate Whole(db: Db) {
    forall id :: id in db.snapshots ==> WholeRows(db.snapshots[id])
  }

  ghost predicate Bounds(actives: map<Id, (Hash, string)>, locks: map<Hash, string>) {
    && (forall hash :: |Of(actives, hash)| <= MAX_ACTIVE)
    && (forall a, b :: a in actives && b in actives && actives[a] == actives[b] ==> a == b)
    && (forall hash :: hash in locks ==> |Of(actives, hash)| < MAX_ACTIVE && For(actives, hash, locks[hash]) == {})
  }

  ghost predicate DeliveriesMatch(db: Db) {
    forall d :: d in db.deliveries ==>
      && d.0 in db.jobOf && d.1 in db.everHashes
      && (d.0 in db.imports ==> db.imports[d.0].hash == d.1)
      && (d.1 in db.connections ==> d.0 in db.imports)
  }

  ghost predicate OnceEach(db: Db) {
    && (forall i, j :: 0 <= i < j < |db.published| ==> db.published[i] != db.published[j])
    && (forall id :: id in db.published ==> id in db.jobOf && (id in db.imports ==> id in db.snapshots))
    && (forall id :: id in db.snapshots ==> id in db.published)
  }

  ghost predicate Inv(db: Db) {
    && JobsMatch(db) && References(db) && Whole(db) && DeliveriesMatch(db) && OnceEach(db)
    && Bounds(Actives(db), db.locks)
  }

  lemma JobsInserted(db: Db, hash: Hash, id: Id, job: JobId, db': Db)
    requires JobsMatch(db) && Next(db, Insert(hash, id, job), db')
    ensures JobsMatch(db')
  {
    forall x | x in db'.jobOf ensures db'.jobOf[x] in db'.ownerOf && db'.ownerOf[db'.jobOf[x]] == x {
      if x != id {
        assert db'.jobOf[x] == db.jobOf[x] != job;
      }
    }
    forall j | j in db'.ownerOf ensures db'.ownerOf[j] in db'.jobOf && db'.jobOf[db'.ownerOf[j]] == j {
      if j != job {
        assert db'.ownerOf[j] == db.ownerOf[j] != id;
      }
    }
  }

  lemma JobsKept(db: Db, step: Step, db': Db)
    requires JobsMatch(db) && Next(db, step, db')
    ensures JobsMatch(db')
  {
    if step.Insert? {
      JobsInserted(db, step.hash, step.id, step.job, db');
    } else {
      RowsOnlyShrink(db, step, db');
    }
  }

  /** Import rows may go or change their error code, nothing else. */
  ghost predicate ImportsShrink(imports: map<Id, Import>, imports': map<Id, Import>) {
    forall id :: id in imports' ==> id in imports && imports'[id].(errorCode := "") == imports[id].(errorCode := "")
  }

  /** Job rows may go or change their state, but never out of a terminal one. */
  ghost predicate JobsSettle(jobs: map<JobId, JobState>, jobs': map<JobId, JobState>) {
    forall job :: job in jobs' ==> job in jobs && (jobs[job] == Terminal ==> jobs'[job] == Terminal)
  }

  lemma JobsOnlySettle(db: Db, step: Step, db': Db)
    requires Next(db, step, db') && !step.Insert?
    ensures db'.jobOf == db.jobOf && db'.ownerOf == db.ownerOf && JobsSettle(db.jobs, db'.jobs)
  {
    match step
    case MoveJob(job, state) => assert db'.jobs == db.jobs[job := state];
    case PurgeJob(job) => assert db'.jobs == db.jobs - {job};
    case _ =>
  }

  lemma ImportsOnlyShrink(db: Db, step: Step, db': Db)
    requires Next(db, step, db') && !step.Insert?
    ensures ImportsShrink(db.imports, db'.imports)
  {
    match step
    case Publish(id, hash, row, content) =>
      assert db'.imports == db.imports || db'.imports == Published(db, id, row, content).imports;
    case RecordError(id, code) =>
      assert id !in db.imports ==> db'.imports == db.imports;
    case Disconnect(hash) => assert db'.imports == Disconnected(db, hash).imports;
    case _ =>
  }

  /** Apart from insertion, no step adds an import or a job row or changes whose they are. */
  lemma RowsOnlyShrink(db: Db, step: Step, db': Db)
    requires Next(db, step, db') && !step.Insert?
    ensures db'.jobOf == db.jobOf && db'.ownerOf == db.ownerOf
    ensures forall id :: id in db'.imports ==>
              id in db.imports && db'.imports[id].(errorCode := "") == db.imports[id].(errorCode := "")
    ensures forall job :: job in db'.jobs ==> job in db.jobs && (db.jobs[job] == Terminal ==> db'.jobs[job] == Terminal)
  {
    JobsOnlySettle(db, step, db');
    ImportsOnlyShrink(db, step, db');
  }

  lemma ReferencesKept(db: Db, step: Step, db': Db)
    requires References(db) && DeliveriesMatch(db) && Next(db, step, db')
    ensures References(db')
  {
    match step
    case Publish(id, hash, _, _) =>
      assert (id, hash) in db.deliveries;
    case Disconnect(hash) =>
      ReferencesAfterDisconnect(db, hash, db');
    case _ =>
  }

  lemma ReferencesAfterDisconnect(db: Db, hash: Hash, db': Db)
    requires References(db) && Next(db, Disconnect(hash), db')
    ensures References(db')
  {
  }

  lemma WholeKept(db: Db, step: Step, db': Db)
    requires Whole(db) && Next(db, step, db')
    ensures Whole(db')
  {
    forall x | x in db'.snapshots ensures WholeRows(db'.snapshots[x]) {
      if step.Publish? && x == step.id && x !in db.snapshots {
        assert db'.snapshots[x].rows == Rows(step.content);
      } else {
        assert x in db.snapshots && db'.snapshots[x] == db.snapshots[x];
      }
    }
  }

  lemma DeliveriesKept(db: Db, step: Step, db': Db)
    requires DeliveriesMatch(db) && References(db) && JobsMatch(db) && Next(db, step, db')
    ensures DeliveriesMatch(db')
  {
    match step
    case Disconnect(hash) => DeliveriesAfterDisconnect(db, hash, db');
    case Insert(_, id, _) =>
      assert id !in db.imports;
    case Publish(id, _, _, _) =>
      assert forall x :: x in db'.imports <==> x in db.imports || (id !in db.snapshots && x == id && id in db.imports);
    case Deliver(id) =>
      assert id in db.jobOf;
    case _ =>
  }

  lemma DeliveriesAfterDisconnect(db: Db, hash: Hash, db': Db)
    requires DeliveriesMatch(db) && Next(db, Disconnect(hash), db')
    ensures DeliveriesMatch(db')
  {
    forall d | d in db'.deliveries && d.1 in db'.connections ensures d.0 in db'.imports {
      assert d in db.deliveries;
      assert db.imports[d.0].hash == d.1 != hash;
    }
  }

  lemma OnceKept(db: Db, step: Step, db': Db)
    requires OnceEach(db) && References(db) && DeliveriesMatch(db) && JobsMatch(db) && Next(db, step, db')
    ensures OnceEach(db')
  {
    if step.Publish? {
      PublishedAnew(db, step, db');
    } else {
      OthersKeepPublished(db, step, db');
    }
  }

  lemma OthersKeepPublished(db: Db, step: Step, db': Db)
    requires Next(db, step, db') && !step.Publish?
    ensures db'.published == db.published
    ensures forall id :: id in db'.snapshots ==> id in db.snapshots && db'.snapshots[id] == db.snapshots[id]
    ensures forall id :: id in db'.imports && id in db.snapshots ==> id in db'.snapshots
    ensures forall id :: id in db'.imports ==> id in db.imports || (id !in db.jobOf && id in db'.jobOf)
    ensures forall id :: id in db.jobOf ==> id in db'.jobOf
  {
  }

  lemma PublishedAnew(db: Db, step: Step, db': Db)
    requires step.Publish? && OnceEach(db) && References(db) && DeliveriesMatch(db) && Next(db, step, db')
    ensures OnceEach(db')
  {
    assert (step.id, step.hash) in db.deliveries;
    assert step.id in db.imports;
    if step.id !in db.snapshots {
      assert step.id !in db.published;
      assert db'.published == db.published + [step.id];
    }
  }

  // ---- The bounds ----

  // Fewer active imports and fewer locks, same bounds.
  lemma BoundsShrink(a: map<Id, (Hash, string)>, locks: map<Hash, string>,
                     a': map<Id, (Hash, string)>, locks': map<Hash, string>)
    requires Bounds(a, locks)
    requires forall id :: id in a' ==> id in a && a'[id] == a[id]
    requires forall hash :: hash in locks' ==> hash in locks && locks'[hash] == locks[hash]
    ensures Bounds(a', locks')
  {
    forall hash ensures |Of(a', hash)| <= |Of(a, hash)| {
      Subset(Of(a', hash), Of(a, hash));
    }
    forall hash | hash in locks' ensures For(a', hash, locks'[hash]) == {} {
      assert For(a', hash, locks'[hash]) <= For(a, hash, locks[hash]);
    }
  }

  lemma Subset(a: set<Id>, b: set<Id>)
    requires a <= b
    ensures |a| <= |b|
  {
    assert b == a + (b - a);
  }

  lemma OfAfter(a: map<Id, (Hash, string)>, id: Id, hash: Hash, playlistId: string)
    requires id !in a
    ensures var a' := a[id := (hash, playlistId)];
            && Of(a', hash) == Of(a, hash) + {id} && |Of(a', hash)| == |Of(a, hash)| + 1
            && (forall h :: h != hash ==> Of(a', h) == Of(a, h))
            && (forall h, p :: h != hash ==> For(a', h, p) == For(a, h, p))
  {
    var a' := a[id := (hash, playlistId)];
    assert Of(a', hash) == Of(a, hash) + {id};
    forall h | h != hash ensures Of(a', h) == Of(a, h) {
    }
    forall h, p | h != hash ensures For(a', h, p) == For(a, h, p) {
    }
  }

  // The checks made under the lock still hold when the import is inserted.
  lemma BoundsGrow(a: map<Id, (Hash, string)>, locks: map<Hash, string>, hash: Hash, id: Id)
    requires Bounds(a, locks) && hash in locks && id !in a
    ensures Bounds(a[id := (hash, locks[hash])], locks - {hash})
  {
    OfAfter(a, id, hash, locks[hash]);
    forall x | x in a ensures a[x] != (hash, locks[hash]) {
      assert x !in For(a, hash, locks[hash]);
    }
  }

  lemma ActivesAfter(db: Db, step: Step, db': Db)
    requires References(db) && JobsMatch(db) && Next(db, step, db')
    ensures step.Insert? ==>
              step.id !in Actives(db) && Actives(db') == Actives(db)[step.id := (step.hash, db.locks[step.hash])]
    ensures !step.Insert? ==> forall id :: id in Actives(db') ==>
              id in Actives(db) && Actives(db')[id] == Actives(db)[id]
  {
    if step.Insert? {
      ActivesInserted(db, step.hash, step.id, step.job, db');
    } else {
      RowsOnlyShrink(db, step, db');
    }
  }

  lemma ActivesInserted(db: Db, hash: Hash, id: Id, job: JobId, db': Db)
    requires References(db) && JobsMatch(db) && Next(db, Insert(hash, id, job), db')
    ensures id !in Actives(db) && Actives(db') == Actives(db)[id := (hash, db.locks[hash])]
  {
    assert id !in db.imports;
    forall x | x in db.imports ensures db.imports[x].job != job {
      assert db.jobOf[x] in db.ownerOf;
    }
  }

  lemma BoundsKept(db: Db, step: Step, db': Db)
    requires References(db) && JobsMatch(db) && Bounds(Actives(db), db.locks) && Next(db, step, db')
    ensures Bounds(Actives(db'), db'.locks)
  {
    ActivesAfter(db, step, db');
    if step.Insert? {
      BoundsGrow(Actives(db), db.locks, step.hash, step.id);
    } else if step.Admit? {
      assert Actives(db') == Actives(db);
    } else {
      BoundsShrink(Actives(db), db.locks, Actives(db'), db'.locks);
    }
  }

  lemma InvKept(db: Db, step: Step, db': Db)
    requires Inv(db) && Next(db, step, db')
    ensures Inv(db')
  {
    JobsKept(db, step, db');
    ReferencesKept(db, step, db');
    WholeKept(db, step, db');
    DeliveriesKept(db, step, db');
    OnceKept(db, step, db');
    BoundsKept(db, step, db');
  }

  lemma {:induction false} RunInv(states: seq<Db>, steps: seq<Step>, i: nat)
    requires Run(states, steps) && i < |states|
    ensures Inv(states[i])
  {
    if i > 0 {
      RunInv(states, steps, i - 1);
      assert StepAt(states, steps, i - 1);
      InvKept(states[i - 1], steps[i - 1], states[i]);
    } else {
      assert Actives(states[0]) == map[];
      assert forall hash :: Of(Actives(states[0]), hash) == {};
    }
  }

  // ---- What holds in every history ----

  /** The imports of a session whose jobs have not ended. */
  ghost function Unfinished(db: Db, hash: Hash): set<Id> {
    set id | id in db.imports && db.imports[id].hash == hash
             && db.imports[id].job in db.jobs && db.jobs[db.imports[id].job].Active?
  }

  lemma ActivesAreUnfinished(db: Db, hash: Hash)
    ensures Of(Actives(db), hash) == Unfinished(db, hash)
    ensures forall playlistId, id :: id in For(Actives(db), hash, playlistId) <==>
              id in Unfinished(db, hash) && db.imports[id].playlistId == playlistId
  {
  }

  /** In every state, a session has at most 10 active imports and at most one for a playlist,
      and every import row has its own job, inserted with it. */
  lemma AdmissionBounds(states: seq<Db>, steps: seq<Step>, i: nat)
    requires Run(states, steps) && i < |states|
    ensures var s := states[i];
            && (forall hash :: |Unfinished(s, hash)| <= 10)
            && (forall hash, a, b | a in Unfinished(s, hash) && b in Unfinished(s, hash)
                                    && s.imports[a].playlistId == s.imports[b].playlistId :: a == b)
            && (forall id :: id in s.imports ==> s.imports[id].job in s.ownerOf && s.ownerOf[s.imports[id].job] == id)
            && (forall a, b :: a in s.imports && b in s.imports && s.imports[a].job == s.imports[b].job ==> a == b)
            && |s.ownerOf| == |s.jobOf|
  {
    RunInv(states, steps, i);
    SameSize(states[i]);
    forall hash ensures Of(Actives(states[i]), hash) == Unfinished(states[i], hash) {
      ActivesAreUnfinished(states[i], hash);
    }
    forall hash, a, b | a in Unfinished(states[i], hash) && b in Unfinished(states[i], hash)
                        && states[i].imports[a].playlistId == states[i].imports[b].playlistId
      ensures a == b
    {
      assert Actives(states[i])[a] == Actives(states[i])[b];
    }
  }

  // As many jobs as imports were ever inserted.
  lemma SameSize(db: Db)
    requires JobsMatch(db)
    ensures |db.ownerOf| == |db.jobOf|
  {
    Injected(db.jobOf.Keys, db.ownerOf.Keys, db.jobOf, db.ownerOf);
    assert |db.jobOf| == |db.jobOf.Keys| && |db.ownerOf| == |db.ownerOf.Keys|;
  }

  lemma {:induction false} Injected(ids: set<Id>, jobs: set<JobId>, jobOf: map<Id, JobId>, ownerOf: map<JobId, Id>)
    requires forall id :: id in ids ==>
               id in jobOf && jobOf[id] in jobs && jobOf[id] in ownerOf && ownerOf[jobOf[id]] == id
    requires forall job :: job in jobs ==>
               job in ownerOf && ownerOf[job] in ids && ownerOf[job] in jobOf && jobOf[ownerOf[job]] == job
    ensures |ids| == |jobs|
    decreases ids
  {
    if ids == {} {
      assert jobs == {};
    } else {
      var id :| id in ids;
      Injected(ids - {id}, jobs - {jobOf[id]}, jobOf, ownerOf);
    }
  }

  ghost predicate SameOrGone(db: Db, db': Db, id: Id) {
    if id in db'.imports
    then id in db.snapshots && id in db'.snapshots && db'.snapshots[id] == db.snapshots[id]
    else id in db'.jobOf
  }

  lemma {:induction false} SnapshotKept(states: seq<Db>, steps: seq<Step>, i: nat, j: nat, id: Id)
    requires Run(states, steps) && i <= j < |states| && id in states[i].snapshots
    ensures SameOrGone(states[i], states[j], id)
    decreases j
  {
    if i < j {
      SnapshotKept(states, steps, i, j - 1, id);
      KeptAt(states, steps, states[i], j - 1, id);
    } else {
      RunInv(states, steps, i);
      KeptAtFirst(states[i], id);
    }
  }

  lemma KeptAtFirst(db: Db, id: Id)
    requires Inv(db) && id in db.snapshots
    ensures SameOrGone(db, db, id)
  {
  }

  lemma KeptByStep(first: Db, db: Db, step: Step, db': Db, id: Id)
    requires SameOrGone(first, db, id) && JobsMatch(db) && References(db) && Next(db, step, db')
    ensures SameOrGone(first, db', id)
  {
    if !step.Publish? {
      OthersKeepPublished(db, step, db');
    }
  }

  lemma KeptAt(states: seq<Db>, steps: seq<Step>, first: Db, j: nat, id: Id)
    requires Run(states, steps) && j < |steps| && SameOrGone(first, states[j], id)
    ensures SameOrGone(first, states[j + 1], id)
  {
    RunInv(states, steps, j);
    assert StepAt(states, steps, j);
    KeptByStep(first, states[j], steps[j], states[j + 1], id);
  }

  function Content(s: Stored): seq<Entry>
    requires forall p: nat :: p < s.row.itemCount ==> p in s.rows
  {
    seq(s.row.itemCount, p requires 0 <= p < s.row.itemCount => s.rows[p])
  }

  /** A publication lasts: from then on, for as long as the session is connected, the snapshot
      consists of exactly the published entries in order, whatever is delivered again. */
  lemma PublicationLasts(states: seq<Db>, steps: seq<Step>, i: nat, j: nat)
    requires Run(states, steps) && i < |steps| && i < j < |states|
    requires steps[i].Publish? && steps[i].id !in states[i].snapshots && steps[i].id in states[j].imports
    ensures var s := states[j]; var id := steps[i].id;
            && id in s.snapshots
            && s.snapshots[id].row == steps[i].row.(itemCount := |steps[i].content|)
            && (forall p: nat :: p < s.snapshots[id].row.itemCount ==> p in s.snapshots[id].rows)
            && Content(s.snapshots[id]) == steps[i].content
  {
    assert StepAt(states, steps, i);
    SnapshotKept(states, steps, i + 1, j, steps[i].id);
    assert states[j].snapshots[steps[i].id].rows == Rows(steps[i].content);
  }

  /** Nothing partial is ever visible, and no import is published twice. */
  lemma PublishedOnceAndWhole(states: seq<Db>, steps: seq<Step>, i: nat)
    requires Run(states, steps) && i < |states|
    ensures var s := states[i];
            && (forall id :: id in s.snapshots ==> WholeRows(s.snapshots[id]))
            && (forall a, b :: 0 <= a < b < |s.published| ==> s.published[a] != s.published[b])
  {
    RunInv(states, steps, i);
  }

  ghost predicate Gone(db: Db, hash: Hash) {
    hash in db.everHashes && hash !in db.connections
  }

  lemma GoneByStep(db: Db, step: Step, db': Db, hash: Hash)
    requires Gone(db, hash) && Next(db, step, db')
    ensures Gone(db', hash)
  {
  }

  lemma {:induction false} StaysGone(states: seq<Db>, steps: seq<Step>, i: nat, j: nat, hash: Hash)
    requires Path(states, steps) && i <= j < |states| && Gone(states[i], hash)
    ensures Gone(states[j], hash)
    decreases j
  {
    if i < j {
      StaysGone(states, steps, i, j - 1, hash);
      assert StepAt(states, steps, j - 1);
      GoneByStep(states[j - 1], steps[j - 1], states[j], hash);
    }
  }

  /** Once a session is disconnected, no worker that started on one of its imports, before or
      since, leaves a snapshot of it behind. */
  lemma NothingAfterDisconnection(states: seq<Db>, steps: seq<Step>, i: nat, j: nat, hash: Hash)
    requires Run(states, steps) && i <= j < |states| && Gone(states[i], hash)
    ensures forall id :: (id, hash) in states[j].deliveries ==> id !in states[j].snapshots
    ensures forall id :: id in states[j].imports ==> states[j].imports[id].hash != hash
  {
    StaysGone(states, steps, i, j, hash);
    RunInv(states, steps, j);
  }

  // ---- The code that takes the steps ----

  datatype ImportError = NoConnection | TooManyImports | ImportNotFound | DatabaseError

  function Inserted(db: Db, hash: Hash, playlistId: string, id: Id, job: JobId): Db {
    db.(imports := db.imports[id := Import(hash, playlistId, job, "")], jobs := db.jobs[job := Active],
        jobOf := db.jobOf[id := job], ownerOf := db.ownerOf[job := id])
  }

  ghost predicate Admits(db: Db, hash: Hash, playlistId: string, id: Id, job: JobId, db': Db) {
    exists mid :: Next(db, Admit(hash, playlistId), mid) && Next(mid, Insert(hash, id, job), db')
  }

  lemma AdmitThenInsert(db: Db, hash: Hash, playlistId: string, id: Id, job: JobId)
    requires Inv(db) && Live(db, hash) && hash !in db.locks && id !in db.jobOf && job !in db.ownerOf
    requires For(Actives(db), hash, playlistId) == {} && |Of(Actives(db), hash)| < MAX_ACTIVE
    ensures var db' := Inserted(db, hash, playlistId, id, job);
            && Admits(db, hash, playlistId, id, job, db') && Inv(db')
            && id in Actives(db') && Actives(db')[id] == (hash, playlistId) && db' != db
  {
    var mid := db.(locks := db.locks[hash := playlistId]);
    InvKept(db, Admit(hash, playlistId), mid);
    InsertAdmitted(db, mid, hash, playlistId, id, job);
    assert Actives(mid) == Actives(db);
  }

  lemma InsertAdmitted(db: Db, mid: Db, hash: Hash, playlistId: string, id: Id, job: JobId)
    requires hash !in db.locks && mid == db.(locks := db.locks[hash := playlistId]) && Inv(mid)
    requires id !in db.jobOf && job !in db.ownerOf
    ensures var db' := Inserted(db, hash, playlistId, id, job);
            && Next(mid, Insert(hash, id, job), db') && Inv(db') && db' != db
            && id in Actives(db') && Actives(db')[id] == (hash, playlistId)
  {
    var db' := Inserted(db, hash, playlistId, id, job);
    assert mid.locks - {hash} == db.locks;
    InvKept(mid, Insert(hash, id, job), db');
    ActivesInserted(mid, hash, id, job, db');
  }

  /** Rows for entries, keyed by position. */
  method NewRows(content: seq<Entry>) returns (rows: map<nat, Entry>)
    requires Numbered(content)
    ensures rows == Rows(content)
  {
    rows := map[];
    for i := 0 to |content|
      invariant rows == Rows(content[..i])
    {
      rows := rows[content[i].position := content[i]];
      assert content[..i + 1] == content[..i] + [content[i]];
    }
    assert content[..|content|] == content;
  }

  lemma ContentOfRows(row: SnapshotRow, content: seq<Entry>)
    requires Numbered(content)
    ensures var stored := Stored(row.(itemCount := |content|), Rows(content));
            WholeRows(stored) && Content(stored) == content
  {
  }

  /** What a first publication of an import leaves behind. */
  lemma PublishedSpec(db: Db, id: Id, hash: Hash, row: SnapshotRow, content: seq<Entry>)
    requires Inv(db) && (id, hash) in db.deliveries && Live(db, hash) && hash !in db.locks && Numbered(content)
    requires id !in db.snapshots
    ensures var db' := Published(db, id, row, content);
            && id in db.imports && Inv(db') && Next(db, Publish(id, hash, row, content), db')
            && db'.imports == db.imports[id := db.imports[id].(errorCode := "")]
            && WholeRows(db'.snapshots[id]) && Content(db'.snapshots[id]) == content
  {
    InvKept(db, Publish(id, hash, row, content), Published(db, id, row, content));
    ContentOfRows(row, content);
  }

  /** The session is connected and has not expired. */
  ghost predicate Connected(db: Db, hash: Hash) {
    hash in db.connections && db.now < db.connections[hash]
  }

  class Importer {
    var db: Db

    /** Admit an import and insert it with its job, or reuse the one already active. A commit may
        be applied although no confirmation arrives. */
    method Enqueue(hash: Hash, playlistId: string, id: Id, job: JobId, smooth: bool)
        returns (r: Result<Id, ImportError>)
      requires Inv(db) && hash !in db.locks && id !in db.jobOf && job !in db.ownerOf
      modifies this
      ensures Inv(db)
      ensures r.Success? ==> r.value in Unfinished(db, hash) && db.imports[r.value].playlistId == playlistId
      ensures r.Success? && db != old(db) ==>
                r.value == id && Admits(old(db), hash, playlistId, id, job, db)
      ensures r.Success? ==> Connected(db, hash)
      ensures r.Failure? ==>
                db == old(db) || (r.error == DatabaseError && Admits(old(db), hash, playlistId, id, job, db))
      ensures r == Failure(NoConnection) <==> !Connected(old(db), hash)
      ensures r == Failure(TooManyImports) <==>
                && Connected(old(db), hash) && |Unfinished(old(db), hash)| == 10
                && forall x :: x in Unfinished(old(db), hash) ==> old(db).imports[x].playlistId != playlistId
      ensures smooth && Connected(old(db), hash) && r.Failure? ==> r.error == TooManyImports
      ensures forall x :: x in Unfinished(old(db), hash) && old(db).imports[x].playlistId == playlistId ==>
                db == old(db)
    {
      ActivesAreUnfinished(db, hash);

      if !Live(db, hash) {
        return Failure(NoConnection);
      }
      var confirmed := Faults.Chance(smooth);
      var existing := For(Actives(db), hash, playlistId);
      if existing != {} {
        var found :| found in existing;
        return if confirmed then Success(found) else Failure(DatabaseError);
      }
      if |Of(Actives(db), hash)| >= MAX_ACTIVE {
        return Failure(TooManyImports);
      }
      var applied := Faults.Chance(smooth);
      if !applied {
        return Failure(DatabaseError);
      }
      AdmitThenInsert(db, hash, playlistId, id, job);
      db := Inserted(db, hash, playlistId, id, job);
      ActivesAreUnfinished(db, hash);
      r := if confirmed then Success(id) else Failure(DatabaseError);
    }

    /** Publish what a worker has read, in one transaction; a second delivery changes nothing. The
        commit may be applied although no confirmation arrives. */
    method SaveSnapshot(id: Id, hash: Hash, row: SnapshotRow, content: seq<Entry>, smooth: bool)
        returns (r: Result<(), ImportError>)
      requires Inv(db) && (id, hash) in db.deliveries && hash !in db.locks && Numbered(content)
      modifies this
      ensures Inv(db)
      ensures r.Success? ==> Next(old(db), Publish(id, hash, row, content), db) && id in db.snapshots
      ensures r.Failure? ==>
                db == old(db) || (r.error == DatabaseError && Next(old(db), Publish(id, hash, row, content), db))
      ensures r.Success? && id !in old(db).snapshots ==>
                && Content(db.snapshots[id]) == content
                && db.snapshots[id].row == SnapshotRow(row.playlistId, row.snapshotId, row.name, |content|)
                && id in db.imports && db.imports[id].errorCode == ""
      ensures id in old(db).snapshots ==> db == old(db)
      ensures r == Failure(NoConnection) <==> !Connected(old(db), hash)
      ensures smooth && Connected(old(db), hash) ==> r.Success?
    {
      if !Live(db, hash) {
        return Failure(NoConnection);
      }
      var confirmed := Faults.Chance(smooth);
      if id in db.snapshots {
        return if confirmed then Success(()) else Failure(DatabaseError);
      }
      var rows := NewRows(content);
      var applied := Faults.Chance(smooth);
      if !applied {
        return Failure(DatabaseError);
      }
      PublishedSpec(db, id, hash, row, content);
      db := db.(snapshots := db.snapshots[id := Stored(row.(itemCount := |content|), rows)],
                imports := db.imports[id := db.imports[id].(errorCode := "")],
                published := db.published + [id]);
      r := if confirmed then Success(()) else Failure(DatabaseError);
    }

    /** One page of a stored snapshot, for its owner only. */
    method ReadPage(hash: Hash, id: Id, offset: nat, limit: nat) returns (r: Result<Paging.Page<Entry>, ImportError>)
      requires References(db) && Whole(db)
      ensures r.Success? <==> id in db.snapshots && db.imports[id].hash == hash && Connected(db, hash)
      ensures r.Success? ==> r.value == Paging.StoredPage(Content(db.snapshots[id]), offset, limit).(offset := offset)
    {
      if id !in db.snapshots || db.imports[id].hash != hash || !Live(db, hash) {
        return Failure(ImportNotFound);
      }
      var total := db.snapshots[id].row.itemCount;
      assert WholeRows(db.snapshots[id]);
      var items := ReadRows(db.snapshots[id].rows, total, offset, limit);
      var next := offset + |items|;
      r := Success(Paging.Page(items, offset, if next < total then Some(next) else None));
    }
  }

  /** Scan rows in order of position, from an offset, up to a limit. */
  method ReadRows(rows: map<nat, Entry>, total: nat, offset: nat, limit: nat) returns (items: seq<Entry>)
    requires forall p: nat :: p in rows <==> p < total
    ensures var all := seq(total, p requires 0 <= p < total => rows[p]);
            items == Paging.StoredPage(all, offset, limit).items
  {
    items := [];
    var first := Paging.Min(offset, total);
    var position := first;
    while position < total && |items| < limit
      invariant first <= position <= total && |items| == position - first <= limit
      invariant forall k :: 0 <= k < |items| ==> items[k] == rows[first + k]
    {
      items := items + [rows[position]];
      position := position + 1;
    }
  }
}
