/** The transfer run as a protocol: attempts that may die at any point copy a list of matched
    tracks into one destination playlist.

    An attempt works under the lock of its run row and commits once, at its end. Provider
    writes are not undone when it dies, so the next attempt must find out from the
    destination how far the last one came. */
module TransferRun {
  import opened Wrappers
  import opened Text

  // ---- The destination account ----

  type Id = string

  // An entry without a track is one the provider cannot show.
  datatype Playlist = Playlist(name: string, entries: seq<Option<Id>>)

  /** Playlists by ID, and the order in which the account lists them. */
  datatype Library = Library(order: seq<Id>, lists: map<Id, Playlist>)

  predicate WellFormed(lib: Library) {
    && (forall i, j :: 0 <= i < j < |lib.order| ==> lib.order[i] != lib.order[j])
    && (forall id :: id in lib.order ==> id in lib.lists)
    && (forall id :: id in lib.lists ==> id in lib.order)
    && "" !in lib.lists
  }

  function AllIds(ids: seq<Id>): string {
    if ids == [] then "" else ids[0] + AllIds(ids[1..])
  }

  /** An ID that the account has no playlist of. */
  function SpareId(lib: Library): Id {
    AllIds(lib.order) + "x"
  }

  lemma {:induction false} LongerThanEach(ids: seq<Id>, id: Id)
    requires id in ids
    ensures |id| <= |AllIds(ids)|
  {
    if id != ids[0] {
      LongerThanEach(ids[1..], id);
    }
  }

  lemma SpareIdIsNew(lib: Library)
    requires WellFormed(lib)
    ensures SpareId(lib) != "" && SpareId(lib) !in lib.lists
  {
    if SpareId(lib) in lib.order {
      LongerThanEach(lib.order, SpareId(lib));
    }
  }

  // ---- The run ----

  datatype RunState = Queued | Failed | Completed

  datatype Row = Row(state: RunState, errorCode: string, playlistId: Id, next: nat)

  /** What stays fixed over all attempts: the name to look for, the tracks to copy, and how
      long a name the destination accepts. */
  datatype Job = Job(name: string, matched: seq<Id>, nameLimit: nat)

  function DestinationName(sourceName: string, previewId: string): string {
    if |previewId| > 8 then sourceName + " (transfer " + previewId[..8] + ")" else sourceName
  }

  const PAGE_LIMIT := 50
  const MAX_OFFSET := 100000
  const SPOTIFY_NAME_LIMIT := 100
  const APPLE_NAME_LIMIT := 255

  /** The name a playlist gets when it is created. */
  function CreatedName(job: Job): string {
    TrimSpace(job.name)
  }

  predicate AcceptsName(job: Job) {
    0 < |CreatedName(job)| <= job.nameLimit
  }

  datatype Phase =
    | Idle
    | Listing(offset: nat)                     // about to list playlists from offset
    | Creating                                 // listed them all, found none
    | Reconciling(playlistId: Id, next: nat)   // about to read position next, or to finish
    | Appending(playlistId: Id, next: nat)     // position next was empty

  /** created lists the playlists this run has created, oldest first. */
  datatype State = State(row: Row, library: Library, phase: Phase, created: seq<Id>)

  datatype Step =
    | Begin
    | ListPage(size: nat)
    | Create(id: Id, place: nat, delivered: bool)
    | ReadEntry
    | Append(delivered: bool)
    | Finish
    | Unavailable   // no such destination provider: record the failure
    | Refuse        // the provider does not support the operation: record the failure
    | Abandon       // an error, a crash or a failed commit: roll back
    | Environment   // others use the account

  function Contents(s: State, id: Id): seq<Option<Id>>
    requires id in s.library.lists
  {
    s.library.lists[id].entries
  }

  /** The first of some listed playlists that bears the name. */
  function FindNamed(lib: Library, ids: seq<Id>, name: string): Option<Id> {
    if ids == [] then None
    else if ids[0] in lib.lists && lib.lists[ids[0]].name == name then Some(ids[0])
    else FindNamed(lib, ids[1..], name)
  }

  function AfterPage(job: Job, s: State, page: seq<Id>): Phase
    requires s.phase.Listing?
  {
    match FindNamed(s.library, page, job.name)
    case Some(id) => Reconciling(id, s.row.next)
    case None => if s.phase.offset + |page| < |s.library.order| then Listing(s.phase.offset + |page|) else Creating
  }

  function AddPlaylist(lib: Library, id: Id, name: string, place: nat): Library
    requires place <= |lib.order|
  {
    Library(lib.order[..place] + [id] + lib.order[place..], lib.lists[id := Playlist(name, [])])
  }

  function AddTrack(lib: Library, id: Id, track: Id): Library
    requires id in lib.lists
  {
    lib.(lists := lib.lists[id := lib.lists[id].(entries := lib.lists[id].entries + [Some(track)])])
  }

  /** Others may do anything in the account except touch the given playlists, and touch, add or
      remove playlists that bear the run's name. */
  predicate Harmless(name: string, ids: seq<Id>, lib: Library, lib': Library) {
    && WellFormed(lib')
    && (forall id :: id in lib.lists && (id in ids || lib.lists[id].name == name) ==>
          id in lib'.lists && lib'.lists[id] == lib.lists[id])
    && (forall id :: id in lib'.lists && lib'.lists[id].name == name ==>
          id in lib.lists && lib.lists[id].name == name)
  }

  ghost predicate Next(job: Job, s: State, step: Step, s': State) {
    match step
    case Begin =>
      && s.phase.Idle? && !s.row.state.Completed?
      && s' == s.(phase := if s.row.playlistId == "" then Listing(0) else Reconciling(s.row.playlistId, s.row.next))
    case ListPage(size) =>
      && s.phase.Listing? && s.phase.offset <= MAX_OFFSET
      && size <= PAGE_LIMIT
      && (if s.phase.offset < |s.library.order| then 0 < size <= |s.library.order| - s.phase.offset else size == 0)
      && var page := if size == 0 then [] else s.library.order[s.phase.offset..s.phase.offset + size];
      && s' == s.(phase := AfterPage(job, s, page))
    case Create(id, place, delivered) =>
      && s.phase.Creating? && AcceptsName(job)
      && id != "" && id !in s.library.lists && place <= |s.library.order|
      && s' == s.(library := AddPlaylist(s.library, id, CreatedName(job), place),
                  created := s.created + [id],
                  phase := if delivered then Reconciling(id, s.row.next) else Idle)
    case ReadEntry =>
      && s.phase.Reconciling? && s.phase.next < |job.matched| && s.phase.playlistId in s.library.lists
      && s' == s.(phase := AfterRead(job, s))
    case Append(delivered) =>
      && s.phase.Appending? && s.phase.next < |job.matched| && s.phase.playlistId in s.library.lists
      && s' == s.(library := AddTrack(s.library, s.phase.playlistId, job.matched[s.phase.next]),
                  phase := if delivered then Reconciling(s.phase.playlistId, s.phase.next + 1) else Idle)
    case Finish =>
      && s.phase.Reconciling? && s.phase.next >= |job.matched|
      && s' == s.(phase := Idle, row := Row(Completed, "", s.phase.playlistId, s.phase.next))
    case Unavailable =>
      && s.phase.Idle? && !s.row.state.Completed?
      && s' == s.(row := s.row.(state := Failed, errorCode := "destination_provider_unavailable"))
    case Refuse =>
      && !s.phase.Idle?
      && s' == s.(phase := Idle, row := Refused(s))
    case Abandon =>
      && !s.phase.Idle?
      && s' == s.(phase := Idle)
    case Environment =>
      && Harmless(job.name, s.created, s.library, s'.library)
      && s' == s.(library := s'.library)
  }

  function AfterRead(job: Job, s: State): Phase
    requires s.phase.Reconciling? && s.phase.next < |job.matched| && s.phase.playlistId in s.library.lists
  {
    var entries := Contents(s, s.phase.playlistId);
    if s.phase.next < |entries| && entries[s.phase.next].Some? then
      if entries[s.phase.next].value == job.matched[s.phase.next] then Reconciling(s.phase.playlistId, s.phase.next + 1)
      else Idle  // destination_playlist_unexpected_order
    else Appending(s.phase.playlistId, s.phase.next)
  }

  /** The row an attempt leaves behind when an operation is unsupported. */
  function Refused(s: State): Row
    requires !s.phase.Idle?
  {
    match s.phase
    case Reconciling(id, next) => Row(Failed, "destination_reconciliation_unsupported", id, next)
    case Appending(id, next) => Row(Failed, "destination_reconciliation_unsupported", id, next)
    case _ => Row(Failed, "destination_playlist_create_unsupported", "", s.row.next)
  }

  // ---- Histories ----

  ghost predicate Path(job: Job, states: seq<State>, steps: seq<Step>) {
    && |states| == |steps| + 1
    && forall i {:trigger steps[i]} :: 0 <= i < |steps| ==> Next(job, states[i], steps[i], states[i + 1])
  }

  /** Two paths joined by a step. */
  lemma PathLink(job: Job, a: seq<State>, l: seq<Step>, step: Step, b: seq<State>, m: seq<Step>)
    requires Path(job, a, l) && Path(job, b, m) && Next(job, a[|l|], step, b[0])
    ensures Path(job, a + b, l + [step] + m)
    ensures (a + b)[0] == a[0] && (a + b)[|l| + 1 + |m|] == b[|m|]
  {
    var states, steps := a + b, l + [step] + m;
    forall i | 0 <= i < |steps| ensures Next(job, states[i], steps[i], states[i + 1]) {
      if i < |l| {
        assert Next(job, a[i], l[i], a[i + 1]);
      } else if i > |l| {
        assert Next(job, b[i - |a|], m[i - |a|], b[i - |a| + 1]);
      }
    }
  }

  /** A fresh run in an account without a playlist of its name. */
  ghost predicate Fresh(job: Job, s: State) {
    && s.row == Row(Queued, "", "", 0) && s.phase.Idle? && s.created == []
    && WellFormed(s.library)
    && forall id :: id in s.library.lists ==> s.library.lists[id].name != job.name
  }

  ghost predicate Run(job: Job, states: seq<State>, steps: seq<Step>) {
    Path(job, states, steps) && Fresh(job, states[0])
  }

  /** No playlist of the name moves in front of the offset that a listing has reached. */
  ghost predicate Steady(job: Job, s: State, step: Step, s': State) {
    step.Environment? && s.phase.Listing? ==>
      forall i :: 0 <= i < |s'.library.order| && IsNamed(job, s'.library, s'.library.order[i]) ==> s.phase.offset <= i
  }

  predicate IsNamed(job: Job, lib: Library, id: Id) {
    id in lib.lists && lib.lists[id].name == job.name
  }

  /** No listing is overtaken. */
  ghost predicate Unshifted(job: Job, states: seq<State>, steps: seq<Step>) {
    && |states| == |steps| + 1
    && forall i {:trigger steps[i]} :: 0 <= i < |steps| ==> Steady(job, states[i], steps[i], states[i + 1])
  }

  // ---- The invariants ----

  function Wanted(job: Job, count: nat): seq<Option<Id>>
    requires count <= |job.matched|
  {
    seq(count, i requires 0 <= i < count => Some(job.matched[i]))
  }

  /** The name survives creation, so a later attempt can find the playlist by it. */
  predicate StableName(job: Job) {
    CreatedName(job) == job.name
  }

  /** Exactly these playlists bear the name, if it survives creation; otherwise none does. */
  ghost predicate Named(job: Job, lib: Library, ids: seq<Id>) {
    forall x :: IsNamed(job, lib, x) <==> StableName(job) && x in ids
  }

  /** A destination holds exactly the first tracks of the job. */
  ghost predicate Prefix(job: Job, lib: Library, id: Id) {
    && id in lib.lists
    && |lib.lists[id].entries| <= |job.matched|
    && lib.lists[id].entries == Wanted(job, |lib.lists[id].entries|)
  }

  ghost predicate RowInv(job: Job, s: State)
    requires forall x :: x in s.created ==> x in s.library.lists
  {
    && (s.row.playlistId == "" ==> s.row.next == 0 && !s.row.state.Completed?)
    && (s.row.playlistId != "" ==>
          s.row.playlistId in s.created && s.row.next <= |Contents(s, s.row.playlistId)|)
    && (s.row.state.Completed? ==>
          s.phase.Idle? && s.row.next == |job.matched| == |Contents(s, s.row.playlistId)|)
  }

  ghost predicate PhaseInv(job: Job, s: State)
    requires forall x :: x in s.created ==> x in s.library.lists
  {
    match s.phase
    case Idle => true
    case Listing(_) => s.row.playlistId == ""
    case Creating => s.row.playlistId == ""
    case Reconciling(p, next) => p in s.created && next <= |Contents(s, p)|
    case Appending(p, next) => p in s.created && next == |Contents(s, p)| < |job.matched|
  }

  /** What holds whatever others do in the account: exactly the created playlists bear the
      name, unless it does not survive creation, and each of them holds a prefix of the tracks. */
  ghost predicate Inv(job: Job, s: State) {
    && WellFormed(s.library) && Named(job, s.library, s.created)
    && (s.created != [] ==> AcceptsName(job))
    && (forall x :: x in s.created ==> Prefix(job, s.library, x))
    && RowInv(job, s) && PhaseInv(job, s)
  }

  /** What holds besides while no listing is overtaken. */
  ghost predicate UniqueInv(job: Job, s: State) {
    && |s.created| <= 1
    && (s.created != [] ==>
          && !s.phase.Creating?
          && (s.phase.Listing? ==>
                forall i :: 0 <= i < |s.library.order| && s.library.order[i] == s.created[0] ==> s.phase.offset <= i))
  }

  lemma {:induction false} FindNamedSpec(lib: Library, ids: seq<Id>, name: string)
    ensures match FindNamed(lib, ids, name)
            case Some(id) => id in ids && id in lib.lists && lib.lists[id].name == name
            case None => forall id :: id in ids && id in lib.lists ==> lib.lists[id].name != name
  {
    if ids != [] {
      FindNamedSpec(lib, ids[1..], name);
    }
  }

  /** A page keeps the name out of sight only by not containing it. */
  lemma PageMisses(job: Job, s: State, size: nat, s': State)
    requires Next(job, s, ListPage(size), s') && !s'.phase.Reconciling?
    ensures forall i :: s.phase.offset <= i < s.phase.offset + size ==> !IsNamed(job, s.library, s.library.order[i])
    ensures s'.phase == if s.phase.offset + size < |s.library.order| then Listing(s.phase.offset + size) else Creating
  {
    var offset := s.phase.offset;
    var page := if size == 0 then [] else s.library.order[offset..offset + size];
    FindNamedSpec(s.library, page, job.name);
    forall i | offset <= i < offset + size ensures !IsNamed(job, s.library, s.library.order[i]) {
      assert page[i - offset] == s.library.order[i];
    }
  }

  lemma PageFinds(job: Job, s: State, size: nat, s': State)
    requires Next(job, s, ListPage(size), s') && s'.phase.Reconciling?
    ensures IsNamed(job, s.library, s'.phase.playlistId) && s'.phase.next == s.row.next
  {
    var page := if size == 0 then [] else s.library.order[s.phase.offset..s.phase.offset + size];
    FindNamedSpec(s.library, page, job.name);
  }

  lemma ListingKeepsInv(job: Job, s: State, size: nat, s': State)
    requires Inv(job, s) && Next(job, s, ListPage(size), s')
    ensures Inv(job, s')
  {
    if s'.phase.Reconciling? {
      PageFinds(job, s, size, s');
    } else {
      PageMisses(job, s, size, s');
    }
    assert s' == s.(phase := s'.phase);
  }

  lemma AddPlaylistWellFormed(lib: Library, id: Id, name: string, place: nat)
    requires WellFormed(lib) && id != "" && id !in lib.lists && place <= |lib.order|
    ensures WellFormed(AddPlaylist(lib, id, name, place))
  {
    var order, order' := lib.order, AddPlaylist(lib, id, name, place).order;
    assert id !in order;
    forall i, j | 0 <= i < j < |order'| ensures order'[i] != order'[j] {
      var x, y := if i < place then i else i - 1, if j < place then j else j - 1;
      assert i != place ==> order'[i] == order[x];
      assert j != place ==> order'[j] == order[y];
    }
    forall x ensures x in order' <==> x in order || x == id {
      assert order == order[..place] + order[place..];
    }
  }

  lemma CreateKeepsInv(job: Job, s: State, step: Step, s': State)
    requires step.Create? && Inv(job, s) && Next(job, s, step, s')
    ensures Inv(job, s')
  {
    AddPlaylistWellFormed(s.library, step.id, CreatedName(job), step.place);
    assert Wanted(job, 0) == [];
    forall x ensures IsNamed(job, s'.library, x) <==> StableName(job) && x in s'.created {
      assert IsNamed(job, s.library, x) <==> StableName(job) && x in s.created;
    }
    forall x | x in s'.created ensures Prefix(job, s'.library, x) {
      assert x in s.created ==> Prefix(job, s.library, x);
    }
    assert s.row.playlistId == "";
  }

  lemma ReadKeepsInv(job: Job, s: State, s': State)
    requires Inv(job, s) && Next(job, s, ReadEntry, s')
    ensures Inv(job, s') && !s'.phase.Idle?
  {
    var entries := Contents(s, s.phase.playlistId);
    assert Prefix(job, s.library, s.phase.playlistId);
    assert s.phase.next < |entries| ==> entries[s.phase.next] == Some(job.matched[s.phase.next]);
  }

  lemma AppendKeepsInv(job: Job, s: State, step: Step, s': State)
    requires step.Append? && Inv(job, s) && Next(job, s, step, s')
    ensures Inv(job, s')
  {
    var id := s.phase.playlistId;
    var entries := Contents(s, id);
    assert Prefix(job, s.library, id);
    assert Wanted(job, |entries| + 1) == Wanted(job, |entries|) + [Some(job.matched[|entries|])];
    assert Contents(s', id) == Wanted(job, |entries| + 1);
    forall x ensures IsNamed(job, s'.library, x) <==> StableName(job) && x in s'.created {
      assert IsNamed(job, s.library, x) <==> StableName(job) && x in s.created;
    }
    forall x | x in s'.created ensures Prefix(job, s'.library, x) {
      assert Prefix(job, s.library, x);
    }
  }

  lemma FinishKeepsInv(job: Job, s: State, s': State)
    requires Inv(job, s) && Next(job, s, Finish, s')
    ensures Inv(job, s')
  {
    assert Prefix(job, s.library, s.phase.playlistId);
    assert s.phase.playlistId != "" by {
      assert s.phase.playlistId in s.library.lists;
    }
  }

  lemma EnvironmentKeepsInv(job: Job, s: State, s': State)
    requires Inv(job, s) && Next(job, s, Environment, s')
    ensures Inv(job, s')
  {
    forall x ensures IsNamed(job, s'.library, x) <==> StableName(job) && x in s'.created {
      assert IsNamed(job, s.library, x) <==> StableName(job) && x in s.created;
    }
    forall x | x in s'.created ensures s'.library.lists[x] == s.library.lists[x] && Prefix(job, s'.library, x) {
      assert Prefix(job, s.library, x);
    }
  }

  lemma InvKept(job: Job, s: State, step: Step, s': State)
    requires Inv(job, s) && Next(job, s, step, s')
    ensures Inv(job, s')
  {
    match step
    case ListPage(size) => ListingKeepsInv(job, s, size, s');
    case Create(_, _, _) => CreateKeepsInv(job, s, step, s');
    case ReadEntry => ReadKeepsInv(job, s, s');
    case Append(_) => AppendKeepsInv(job, s, step, s');
    case Finish => FinishKeepsInv(job, s, s');
    case Environment => EnvironmentKeepsInv(job, s, s');
    case _ =>
  }

  /** The invariant holds along every path that starts with it. */
  lemma {:induction false} PathInv(job: Job, states: seq<State>, steps: seq<Step>, i: nat)
    requires Path(job, states, steps) && Inv(job, states[0]) && i < |states|
    ensures Inv(job, states[i])
  {
    if i > 0 {
      PathInv(job, states, steps, i - 1);
      InvKept(job, states[i - 1], steps[i - 1], states[i]);
    }
  }

  lemma RunInv(job: Job, states: seq<State>, steps: seq<Step>, i: nat)
    requires Run(job, states, steps) && i < |states|
    ensures Inv(job, states[i])
  {
    PathInv(job, states, steps, i);
  }

  /** The playlist created first is never in front of the offset, so a listing cannot miss it. */
  lemma UniqueKept(job: Job, s: State, step: Step, s': State)
    requires StableName(job) && Inv(job, s) && UniqueInv(job, s) && Next(job, s, step, s') && Steady(job, s, step, s')
    ensures UniqueInv(job, s')
  {
    if s.created != [] {
      var id := s.created[0];
      assert IsNamed(job, s.library, id);
      if step.ListPage? && !s'.phase.Reconciling? {
        PageMisses(job, s, step.size, s');
        assert id in s.library.order;
        var i :| 0 <= i < |s.library.order| && s.library.order[i] == id;
        assert s.phase.offset + step.size <= i;
      }
      if step.Environment? {
        assert IsNamed(job, s'.library, id);
      }
    }
  }

  lemma {:induction false} RunUnique(job: Job, states: seq<State>, steps: seq<Step>, i: nat)
    requires StableName(job) && Run(job, states, steps) && Unshifted(job, states, steps) && i < |states|
    ensures UniqueInv(job, states[i])
  {
    if i > 0 {
      RunUnique(job, states, steps, i - 1);
      RunInv(job, states, steps, i - 1);
      UniqueKept(job, states[i - 1], steps[i - 1], states[i]);
    }
  }

  // ---- What holds in every history ----

  /** In every state of every history, whatever others do in the account: exactly the
      playlists that the run created bear its name, or none if it does not survive creation;
      each of them holds the first tracks of the job, each track copied once; the stored
      position never runs ahead of them; and a completed run has all tracks. */
  lemma PrefixesAlways(job: Job, states: seq<State>, steps: seq<Step>, i: nat)
    requires Run(job, states, steps) && i < |states|
    ensures var s := states[i];
            && (forall id :: IsNamed(job, s.library, id) <==> StableName(job) && id in s.created)
            && (forall id :: id in s.created ==> Prefix(job, s.library, id))
            && (s.row.playlistId == "" ==> s.row.next == 0)
            && (s.row.playlistId != "" ==>
                  s.row.playlistId in s.created && s.row.next <= |Contents(s, s.row.playlistId)|)
            && (s.row.state.Completed? ==>
                  && s.row.playlistId != ""
                  && Contents(s, s.row.playlistId) == Wanted(job, |job.matched|))
  {
    RunInv(job, states, steps, i);
    var s := states[i];
    if s.row.state.Completed? {
      assert Prefix(job, s.library, s.row.playlistId);
    }
  }

  ghost predicate OnlyNamed(job: Job, lib: Library, id: Id) {
    forall x :: IsNamed(job, lib, x) <==> x == id
  }

  /** Exactly once: if besides no listing is overtaken, at most one playlist is created, and it
      is the only one that bears the name. */
  lemma ExactlyOnce(job: Job, states: seq<State>, steps: seq<Step>, i: nat)
    requires StableName(job) && Run(job, states, steps) && Unshifted(job, states, steps) && i < |states|
    ensures var s := states[i];
            && |s.created| <= 1
            && (s.created == [] ==> forall id :: id in s.library.lists ==> s.library.lists[id].name != job.name)
            && (s.created != [] ==> OnlyNamed(job, s.library, s.created[0]) && Prefix(job, s.library, s.created[0]))
            && (s.row.playlistId == "" ==> s.row.next == 0)
            && (s.row.playlistId != "" ==>
                  s.created == [s.row.playlistId] && s.row.next <= |Contents(s, s.row.playlistId)|)
            && (s.row.state.Completed? ==>
                  && s.row.playlistId != ""
                  && Contents(s, s.row.playlistId) == Wanted(job, |job.matched|))
  {
    PrefixesAlways(job, states, steps, i);
    RunUnique(job, states, steps, i);
    var s := states[i];
    if s.created == [] {
      forall id | id in s.library.lists ensures s.library.lists[id].name != job.name {
        assert !IsNamed(job, s.library, id);
      }
    } else {
      assert s.created == [s.created[0]];
    }
  }

  lemma StepGrows(job: Job, s: State, step: Step, s': State)
    requires Inv(job, s) && Next(job, s, step, s')
    ensures s.created <= s'.created
    ensures forall id :: id in s.created ==>
              id in s.library.lists && id in s'.library.lists && Contents(s, id) <= Contents(s', id)
    ensures s.row.state.Completed? ==>
              && s'.row == s.row && s'.created == s.created
              && forall id :: id in s.created ==> Contents(s', id) == Contents(s, id)
  {
    InvKept(job, s, step, s');
    forall id | id in s.created
      ensures id in s.library.lists && id in s'.library.lists && Contents(s, id) <= Contents(s', id)
    {
      assert Prefix(job, s.library, id) && Prefix(job, s'.library, id);
    }
    if s.row.state.Completed? {
      forall id | id in s.created ensures Contents(s', id) == Contents(s, id) {
        assert Prefix(job, s.library, id) && Prefix(job, s'.library, id);
      }
    }
  }

  /** What the run created only grows, and once the run is completed no later attempt changes
      the row or any of its playlists. */
  lemma {:induction false} HistoryGrows(job: Job, states: seq<State>, steps: seq<Step>, i: nat, j: nat)
    requires Run(job, states, steps) && i <= j < |states|
    ensures var s, t := states[i], states[j];
            && s.created <= t.created
            && (forall id :: id in s.created ==>
                  id in s.library.lists && id in t.library.lists && Contents(s, id) <= Contents(t, id))
            && (s.row.state.Completed? ==>
                  && t.row == s.row && t.created == s.created
                  && forall id :: id in s.created ==> Contents(t, id) == Contents(s, id))
    decreases j
  {
    if i < j {
      HistoryGrows(job, states, steps, i, j - 1);
      RunInv(job, states, steps, j - 1);
      StepGrows(job, states[j - 1], steps[j - 1], states[j]);
    } else {
      RunInv(job, states, steps, i);
      forall id | id in states[i].created ensures id in states[i].library.lists {
        assert Prefix(job, states[i].library, id);
      }
    }
  }

  /** An attempt never stops over an unexpected track in a playlist that the run created. */
  lemma NeverOutOfOrder(job: Job, states: seq<State>, steps: seq<Step>, i: nat)
    requires Run(job, states, steps) && i < |steps| && steps[i].ReadEntry?
    ensures !states[i + 1].phase.Idle?
  {
    RunInv(job, states, steps, i);
    ReadKeepsInv(job, states[i], states[i + 1]);
  }
}
