/** The worker that carries out a transfer run, one attempt at a time. Whatever the provider
    answers and whatever others do meanwhile, an attempt is a path of the protocol. */
module Worker {
  import opened Wrappers
  import opened TransferRun
  import opened Recovery
  import Faults
  import Models
  import Reconcile

  predicate Transfers(entry: Models.PreviewEntry) {
    entry.status == Models.Matched && entry.matched.Some?
  }

  /** The tracks to copy: the matches of a preview, in order, repetitions included. */
  function MatchedIds(entries: seq<Models.PreviewEntry>): seq<Id> {
    if entries == [] then []
    else (if Transfers(entries[0]) then [entries[0].matched.value.id] else []) + MatchedIds(entries[1..])
  }

  /** Where the matches among the first k entries of a preview are. */
  ghost function MatchesBefore(entries: seq<Models.PreviewEntry>, k: nat): set<nat>
    requires k <= |entries|
  {
    set j: nat | j < k && entries[j].status == Models.Matched && entries[j].matched.Some?
  }

  /** The IDs are those of the matches and no others, each at the place that the number of matches
      before it gives. */
  ghost predicate ListsMatches(ids: seq<Id>, entries: seq<Models.PreviewEntry>) {
    && |ids| == |MatchesBefore(entries, |entries|)|
    && forall k :: k in MatchesBefore(entries, |entries|) ==>
         |MatchesBefore(entries, k)| < |ids| && ids[|MatchesBefore(entries, k)|] == entries[k].matched.value.id
  }

  lemma MatchesStep(entries: seq<Models.PreviewEntry>, k: nat)
    requires k < |entries|
    ensures MatchesBefore(entries, k + 1) == MatchesBefore(entries, k) + if Transfers(entries[k]) then {k} else {}
    ensures |MatchesBefore(entries, k + 1)| == |MatchesBefore(entries, k)| + if Transfers(entries[k]) then 1 else 0
  {
    assert MatchesBefore(entries, k + 1) == MatchesBefore(entries, k) + if Transfers(entries[k]) then {k} else {};
  }

  lemma {:induction false} MatchedIdsAppend(entries: seq<Models.PreviewEntry>, entry: Models.PreviewEntry)
    ensures MatchedIds(entries + [entry]) ==
            MatchedIds(entries) + if Transfers(entry) then [entry.matched.value.id] else []
  {
    if entries == [] {
      assert [entry][1..] == [] && [] + [entry] == [entry];
    } else {
      assert (entries + [entry])[1..] == entries[1..] + [entry];
      MatchedIdsAppend(entries[1..], entry);
    }
  }

  /** Match j of the preview is at its place in the IDs. */
  ghost predicate InPlace(ids: seq<Id>, entries: seq<Models.PreviewEntry>, j: nat)
    requires j < |entries| && entries[j].matched.Some?
  {
    |MatchesBefore(entries, j)| < |ids| && ids[|MatchesBefore(entries, j)|] == entries[j].matched.value.id
  }

  lemma {:induction false} FirstMatches(entries: seq<Models.PreviewEntry>, k: nat)
    requires k <= |entries|
    ensures |MatchedIds(entries[..k])| == |MatchesBefore(entries, k)|
    ensures forall j :: j in MatchesBefore(entries, k) ==> InPlace(MatchedIds(entries[..k]), entries, j)
  {
    if k > 0 {
      FirstMatches(entries, k - 1);
      MatchesStep(entries, k - 1);
      assert entries[..k] == entries[..k - 1] + [entries[k - 1]];
      MatchedIdsAppend(entries[..k - 1], entries[k - 1]);
      forall j | j in MatchesBefore(entries, k) ensures InPlace(MatchedIds(entries[..k]), entries, j) {
        assert j < k - 1 ==> InPlace(MatchedIds(entries[..k - 1]), entries, j);
      }
    }
  }

  lemma MatchedIdsListed(entries: seq<Models.PreviewEntry>)
    ensures ListsMatches(MatchedIds(entries), entries)
  {
    FirstMatches(entries, |entries|);
    assert entries[..|entries|] == entries;
    forall k | k in MatchesBefore(entries, |entries|) ensures InPlace(MatchedIds(entries), entries, k) {
    }
  }

  method CollectMatched(entries: seq<Models.PreviewEntry>) returns (ids: seq<Id>)
    ensures ids == MatchedIds(entries) && ListsMatches(ids, entries)
  {
    ids := [];
    for i := 0 to |entries|
      invariant ids == MatchedIds(entries[..i])
    {
      assert entries[..i + 1] == entries[..i] + [entries[i]];
      MatchedIdsAppend(entries[..i], entries[i]);
      if Transfers(entries[i]) {
        ids := ids + [entries[i].matched.value.id];
      }
    }
    assert entries[..|entries|] == entries;
    MatchedIdsListed(entries);
  }

  datatype RunError = RunNotFound | Unsupported | RateLimited(retryAfter: int) | OtherError

  datatype Disposition = JobDone | Snooze(seconds: int) | Cancel | Retry

  const DEFAULT_DELAY := 30

  function Dispose(outcome: Option<RunError>): Disposition {
    match outcome
    case None => JobDone
    case Some(RateLimited(delay)) => Snooze(if delay <= 0 then DEFAULT_DELAY else delay)
    case Some(Unsupported) => Cancel
    case Some(RunNotFound) => Cancel
    case Some(OtherError) => Retry
  }

  datatype Page = Page(items: seq<Id>, next: Option<nat>)

  /** How the reconciling loop left off. */
  datatype LoopEnd = Finished | Unexpected | Stopped(error: RunError)

  /** The items are listed one after another from the offset on. */
  ghost predicate PageOf(lib: Library, offset: nat, items: seq<Id>) {
    items != [] ==> offset + |items| <= |lib.order| && items == lib.order[offset..offset + |items|]
  }

  function PageItems(lib: Library, offset: nat, size: nat): seq<Id>
    requires if offset < |lib.order| then size <= |lib.order| - offset else size == 0
  {
    if size == 0 then [] else lib.order[offset..offset + size]
  }

  /** A page as a provider makes it: not empty if there is anything at the offset, and with a
      next offset exactly if there is more. */
  ghost predicate Served(lib: Library, offset: nat, page: Page) {
    && PageOf(lib, offset, page.items)
    && (offset < |lib.order| ==> page.items != [])
    && page.next == if offset + |page.items| < |lib.order| then Some(offset + |page.items|) else None
  }

  function MakePage(lib: Library, offset: nat, size: nat): (page: Page)
    requires if offset < |lib.order| then 0 < size <= |lib.order| - offset else size == 0
    ensures Served(lib, offset, page)
  {
    Page(PageItems(lib, offset, size), if offset + size < |lib.order| then Some(offset + size) else None)
  }

  lemma PageStep(job: Job, s: State, size: nat)
    requires s.phase.Listing? && s.phase.offset <= MAX_OFFSET && size <= PAGE_LIMIT
    requires if s.phase.offset < |s.library.order| then 0 < size <= |s.library.order| - s.phase.offset else size == 0
    ensures var items := PageItems(s.library, s.phase.offset, size);
            && |items| == size && PageOf(s.library, s.phase.offset, items)
            && Next(job, s, ListPage(size), s.(phase := AfterPage(job, s, items)))
  {
  }

  lemma PageListed(lib: Library, offset: nat, items: seq<Id>)
    requires WellFormed(lib) && PageOf(lib, offset, items)
    ensures forall i :: 0 <= i < |items| ==> items[i] in lib.lists
  {
    forall i | 0 <= i < |items| ensures items[i] in lib.lists {
      assert items[i] == lib.order[offset + i] && lib.order[offset + i] in lib.order;
    }
  }

  class Transfer {
    const job: Job
    var row: Row           // as committed
    var library: Library   // the destination account
    var created: seq<Id>   // what the run has created in it; no attempt reads this
    ghost var states: seq<State>
    ghost var steps: seq<Step>

    constructor (job: Job, library: Library)
      requires WellFormed(library)
      ensures Valid() && row == Row(Queued, "", "", 0) && this.library == library && this.job == job
      ensures Now().phase.Idle? && Now().created == []
    {
      this.job := job;
      this.row := Row(Queued, "", "", 0);
      this.library := library;
      this.created := [];
      this.states := [State(Row(Queued, "", "", 0), library, Idle, [])];
      this.steps := [];
    }

    ghost predicate Valid()
      reads this
    {
      && Path(job, states, steps)
      && Now() == State(row, library, Now().phase, created)
      && WellFormed(library)
    }

    ghost function Now(): State
      reads this
      requires |states| == |steps| + 1
    {
      states[|steps|]
    }

    /** Record a step of the protocol. */
    ghost method Take(step: Step, s': State)
      requires Path(job, states, steps) && Next(job, Now(), step, s')
      modifies this`states, this`steps
      ensures Path(job, states, steps) && Now() == s'
      ensures steps == old(steps) + [step] && states == old(states) + [s']
    {
      var all, labels := states + [s'], steps + [step];
      forall i | 0 <= i < |labels| ensures Next(job, all[i], labels[i], all[i + 1]) {
        if i < |steps| {
          assert Next(job, states[i], steps[i], states[i + 1]);
        }
      }
      states, steps := all, labels;
    }

    /** The path so far was extended. */
    twostate predicate Extended()
      reads this
    {
      old(states) <= states && old(steps) <= steps
    }

    /** Others use the account, unless all is quiet. */
    method Interfere(smooth: bool)
      requires Valid()
      modifies this`library, this`states, this`steps
      ensures Valid() && Extended()
      ensures Now() == old(Now()).(library := library)
      ensures Harmless(job.name, created, old(library), library)
      ensures smooth ==> library == old(library)
    {
      if smooth {
        return;
      }
      var lib: Library := *;
      if !Harmless(job.name, created, library, lib) {
        lib := library;
      }
      ghost var s := Now();
      library := lib;
      Take(Environment, s.(library := lib));
    }

    /** Any error of a provider. */
    method AnyError() returns (e: RunError)
      ensures e != RunNotFound
    {
      e := *;
      if e == RunNotFound {
        e := OtherError;
      }
    }

    /** The provider returns as many as it likes, but at least one if there are any. */
    method ChooseSize(offset: nat, total: nat) returns (size: nat)
      ensures size <= PAGE_LIMIT
      ensures if offset < total then 0 < size <= total - offset else size == 0
    {
      size := *;
      if offset >= total {
        size := 0;
      } else if !(0 < size <= PAGE_LIMIT && offset + size <= total) {
        size := 1;
      }
    }

    /** Where a page leaves the search: found, more to list, or nothing there. */
    ghost function PhaseAfter(page: Page): Phase
      reads this`library, this`row
    {
      match FindNamed(library, page.items, job.name)
      case Some(id) => Reconciling(id, row.next)
      case None => if page.next.Some? then Listing(page.next.value) else Creating
    }

    /** One page of the account's playlists, of the provider's choosing. */
    method ListPlaylists(offset: nat, smooth: bool) returns (r: Result<Page, RunError>)
      requires Valid() && Now().phase == Listing(offset)
      modifies this`library, this`states, this`steps
      ensures Valid() && Extended() && Now() == old(Now()).(library := library, phase := Now().phase)
      ensures r.Failure? ==> Now().phase == Listing(offset)
      ensures r.Success? ==>
                offset <= MAX_OFFSET && Now().phase == PhaseAfter(r.value) && Served(library, offset, r.value)
      ensures smooth ==> library == old(library) && (offset <= 100000 ==> r.Success?)
    {
      Interfere(smooth);
      var answered := Faults.Chance(smooth);
      if !answered || offset > MAX_OFFSET {
        var e := AnyError();
        return Failure(e);
      }
      var page := ServePage(offset);
      r := Success(page);
    }

    /** The answer of a provider that does answer. */
    method ServePage(offset: nat) returns (page: Page)
      requires Valid() && Now().phase == Listing(offset) && offset <= MAX_OFFSET
      modifies this`states, this`steps
      ensures Valid() && Extended() && Now() == old(Now()).(phase := PhaseAfter(page)) && Served(library, offset, page)
    {
      var size := ChooseSize(offset, |library.order|);
      page := MakePage(library, offset, size);
      PageStep(job, Now(), size);
      assert PhaseAfter(page) == AfterPage(job, Now(), page.items);
      Take(ListPage(size), Now().(phase := AfterPage(job, Now(), page.items)));
    }

    /** The place of the first playlist of the run's name on a page. */
    method SearchPage(items: seq<Id>) returns (found: Option<nat>)
      requires forall k :: 0 <= k < |items| ==> items[k] in library.lists
      ensures match found
              case Some(k) => k < |items| && IsNamed(job, library, items[k])
                              && (forall j :: 0 <= j < k ==> !IsNamed(job, library, items[j]))
                              && FindNamed(library, items, job.name) == Some(items[k])
              case None => (forall j :: 0 <= j < |items| ==> !IsNamed(job, library, items[j]))
                           && FindNamed(library, items, job.name) == None
    {
      for k := 0 to |items|
        invariant FindNamed(library, items, job.name) == FindNamed(library, items[k..], job.name)
        invariant forall j :: 0 <= j < k ==> !IsNamed(job, library, items[j])
      {
        assert items[k..][0] == items[k] && items[k..][1..] == items[k + 1..];
        if library.lists[items[k]].name == job.name {
          return Some(k);
        }
      }
      found := None;
    }

    /** No playlist before place i of the account bears the run's name. */
    ghost predicate NoneBefore(i: nat)
      reads this`library
    {
      forall j :: 0 <= j < i && j < |library.order| ==> !IsNamed(job, library, library.order[j])
    }

    /** The first playlist of the run's name is at place i. */
    ghost predicate FirstAt(i: nat)
      reads this`library
    {
      i < |library.order| && IsNamed(job, library, library.order[i]) && NoneBefore(i)
    }

    /** The outcome of a search in which nothing goes wrong. */
    ghost predicate Settles(r: Result<Id, RunError>)
      reads this`library
    {
      && (forall i: nat :: FirstAt(i) && i <= 100000 ==> r == Success(library.order[i]))
      && (NoneBefore(|library.order|) && |library.order| <= 100001 ==> r == Success(""))
    }

    lemma FirstSettles(i: nat)
      requires FirstAt(i)
      ensures Settles(Success(library.order[i]))
    {
    }

    lemma UnlistedSettles(offset: nat, e: RunError)
      requires NoneBefore(offset) && 100000 < offset < |library.order|
      ensures Settles(Failure(e))
    {
    }

    lemma PageSearched(offset: nat, page: Page, found: Option<nat>)
      requires Served(library, offset, page)
      requires match found
               case Some(k) => k < |page.items| && IsNamed(job, library, page.items[k])
                               && forall j :: 0 <= j < k ==> !IsNamed(job, library, page.items[j])
               case None => forall j :: 0 <= j < |page.items| ==> !IsNamed(job, library, page.items[j])
      ensures found.Some? && NoneBefore(offset) ==>
                FirstAt(offset + found.value) && library.order[offset + found.value] == page.items[found.value]
      ensures found.None? && NoneBefore(offset) ==> NoneBefore(offset + |page.items|)
    {
      assert forall j :: 0 <= j < |page.items| ==> library.order[offset + j] == page.items[j];
      forall i | offset <= i < offset + |page.items| ensures library.order[i] == page.items[i - offset] {
      }
    }

    /** The search is over: where it leaves the attempt. */
    ghost predicate Concluded(r: Result<Id, RunError>)
      reads this
      requires |states| == |steps| + 1
    {
      match r
      case Failure(_) => Now().phase.Listing?
      case Success(id) =>
        if id == "" then Now().phase == Creating
        else Now().phase == Reconciling(id, row.next) && id in library.lists && library.lists[id].name == job.name
    }

    /** One turn of the search: a page is listed and looked through. It is over, or goes on at a
        greater offset. */
    method SearchOn(offset: nat, smooth: bool) returns (r: Result<Id, RunError>, next: Option<nat>)
      requires Valid() && Now().phase == Listing(offset)
      modifies this`library, this`states, this`steps
      ensures Valid() && Extended() && Now() == old(Now()).(library := library, phase := Now().phase)
      ensures smooth ==> library == old(library)
      ensures next.None? ==> Concluded(r)
      ensures next.Some? ==> offset <= MAX_OFFSET && offset < next.value && Now().phase == Listing(next.value)
      ensures smooth && old(NoneBefore(offset)) && (offset == 0 || offset < |old(library).order|) ==>
                if next.Some? then NoneBefore(next.value) && next.value < |library.order| else Settles(r)
    {
      next := None;
      var page := ListPlaylists(offset, smooth);
      if page.Failure? {
        if smooth && NoneBefore(offset) && 100000 < offset < |library.order| {
          UnlistedSettles(offset, page.error);
        }
        return Failure(page.error), None;
      }
      PageListed(library, offset, page.value.items);
      var found := SearchPage(page.value.items);
      PageSearched(offset, page.value, found);
      if found.Some? {
        if NoneBefore(offset) {
          FirstSettles(offset + found.value);
        }
        return Success(page.value.items[found.value]), None;
      }
      r, next := Success(""), page.value.next;
    }

    /** Search the account page by page for a playlist of the given name. Every page advances
        and offsets are bounded, so the search ends however the account changes. If nothing goes
        wrong, it finds the first one unless 100000 others are listed before it, and concludes
        that there is none only if there is none. */
    method FindPlaylistByName(smooth: bool) returns (r: Result<Id, RunError>)
      requires Valid() && Now().phase == Listing(0)
      modifies this`library, this`states, this`steps
      ensures Valid() && Extended() && Now() == old(Now()).(library := library, phase := Now().phase)
      ensures r.Failure? ==> Now().phase.Listing?
      ensures r.Success? && r.value == "" ==> Now().phase == Creating
      ensures r.Success? && r.value != "" ==> Now().phase == Reconciling(r.value, row.next)
                                              && r.value in library.lists && library.lists[r.value].name == job.name
      ensures smooth ==> library == old(library) && Settles(r)
    {
      var offset := 0;
      while true
        invariant Valid() && Extended() && Now() == old(Now()).(library := library, phase := Listing(offset))
        invariant smooth ==> library == old(library) && NoneBefore(offset) && (offset == 0 || offset < |library.order|)
        decreases MAX_OFFSET + 1 - offset
      {
        var next;
        r, next := SearchOn(offset, smooth);
        if next.None? {
          return;
        }
        offset := next.value;
      }
    }

    /** Create the destination. The creation may take effect although an error is reported; it
        succeeds if nothing goes wrong and the name is accepted. */
    method CreatePlaylist(smooth: bool) returns (r: Result<Id, RunError>)
      requires Valid() && Now().phase.Creating?
      modifies this`library, this`created, this`states, this`steps
      ensures Valid() && Extended()
      ensures Now().row == old(Now()).row
      ensures r.Failure? ==> Now().phase.Creating? || (Now().phase.Idle? && !r.error.Unsupported?)
      ensures r.Success? ==> Now().phase == Reconciling(r.value, row.next) && r.value in library.lists
                             && r.value in created && library.lists[r.value].name == CreatedName(job)
      ensures smooth && AcceptsName(job) ==> r.Success? && r.value !in old(library).lists
    {
      Interfere(smooth);
      var id, place := ChooseId(smooth);
      var accepted := Faults.Chance(smooth);
      var delivered := Faults.Chance(smooth);
      if !accepted || !AcceptsName(job) || id == "" || id in library.lists || place > |library.order| {
        var e := AnyError();
        return Failure(e);
      }
      ghost var s := Now();
      AddPlaylistWellFormed(library, id, CreatedName(job), place);
      library, created := AddPlaylist(library, id, CreatedName(job), place), created + [id];
      Take(Create(id, place, delivered),
           s.(library := library, created := created,
              phase := if delivered then Reconciling(id, row.next) else Idle));
      r := if delivered then Success(id) else Failure(OtherError);
    }

    /** The provider's ID for a new playlist, and where it will list it. */
    method ChooseId(smooth: bool) returns (id: Id, place: nat)
      requires WellFormed(library)
      ensures smooth ==> id != "" && id !in library.lists && place <= |library.order|
    {
      id := *;
      place := *;
      if smooth && (id == "" || id in library.lists || place > |library.order|) {
        SpareIdIsNew(library);
        id, place := SpareId(library), 0;
      }
    }

    /** The track at a position, if there is one: the playlist may be shorter, or hold there an
        entry without a track. */
    method ReadPosition(playlistId: Id, next: nat, smooth: bool) returns (r: Result<Option<Id>, RunError>)
      requires Valid() && Now().phase == Reconciling(playlistId, next) && next < |job.matched|
      modifies this`library, this`states, this`steps
      ensures Valid() && Extended() && Now() == old(Now()).(library := library, phase := Now().phase)
      ensures Harmless(job.name, created, old(library), library)
      ensures r.Failure? ==> Now().phase == Reconciling(playlistId, next)
      ensures r.Success? ==>
                && playlistId in library.lists
                && var entries := library.lists[playlistId].entries;
                && r.value == (if next < |entries| then entries[next] else None)
                && Now().phase == (match r.value
                                   case None => Appending(playlistId, next)
                                   case Some(id) => if id == job.matched[next] then Reconciling(playlistId, next + 1)
                                                    else Idle)
      ensures smooth && Started() ==> r.Success? && (r.value.None? || r.value.value == job.matched[next])
    {
      Interfere(smooth);
      var answered := Faults.Chance(smooth);
      if Started() {
        StartedInv();
        assert Prefix(job, library, playlistId);
      }
      if !answered || playlistId !in library.lists {
        var e := AnyError();
        return Failure(e);
      }
      var entries := library.lists[playlistId].entries;
      Take(ReadEntry, Now().(phase := AfterRead(job, Now())));
      r := Success(if next < |entries| then entries[next] else None);
    }

    /** Make sure that a position holds its track: accept it, refuse another, or append. If nothing
        goes wrong, it does in a playlist that the run created. */
    method EnsureEntryState(playlistId: Id, next: nat, smooth: bool) returns (end: LoopEnd)
      requires Valid() && Now().phase == Reconciling(playlistId, next) && next < |job.matched|
      modifies this`library, this`states, this`steps
      ensures Valid() && Extended() && Now().row == old(Now()).row && Now().created == old(Now()).created
      ensures end.Finished? ==> Now().phase == Reconciling(playlistId, next + 1)
      ensures end.Unexpected? ==> Now().phase.Idle?
      ensures end.Stopped? ==>
                Now().phase.Reconciling? || Now().phase.Appending? || (Now().phase.Idle? && !end.error.Unsupported?)
      ensures end.Stopped? && Now().phase.Reconciling? ==> Now().phase == Reconciling(playlistId, next)
      ensures end.Stopped? && Now().phase.Appending? ==> Now().phase == Appending(playlistId, next)
      ensures old(Owns(playlistId)) ==> Owns(playlistId)
      ensures old(Owns(playlistId)) && !end.Stopped? ==>
                Reconcile.FromPosition(old(library).lists[playlistId].entries, job.matched, next) ==
                if end.Unexpected? then Reconcile.Outcome(Reconcile.OutOfOrder, library.lists[playlistId].entries)
                else Reconcile.FromPosition(library.lists[playlistId].entries, job.matched, next + 1)
      ensures smooth && Started() ==> end.Finished?
    {
      var read := ReadPosition(playlistId, next, smooth);
      if read.Failure? {
        return Stopped(read.error);
      }
      if read.value.Some? {
        return if read.value.value == job.matched[next] then Finished else Unexpected;
      }
      end := AppendTrack(playlistId, next, smooth);
    }

    /** Append the track of an empty position. It may take effect although an error is reported. */
    method AppendTrack(playlistId: Id, next: nat, smooth: bool) returns (end: LoopEnd)
      requires Valid() && Now().phase == Appending(playlistId, next) && next < |job.matched|
      modifies this`library, this`states, this`steps
      ensures Valid() && Extended() && Now().row == old(Now()).row && Now().created == old(Now()).created
      ensures !end.Unexpected?
      ensures end.Finished? ==> Now().phase == Reconciling(playlistId, next + 1)
      ensures end.Stopped? ==>
                Now().phase == Appending(playlistId, next) || (Now().phase.Idle? && !end.error.Unsupported?)
      ensures old(Owns(playlistId)) ==> Owns(playlistId)
      ensures old(Owns(playlistId)) && end.Finished? ==>
                library.lists[playlistId].entries == old(library).lists[playlistId].entries + [Some(job.matched[next])]
      ensures smooth && playlistId in old(library).lists ==> end.Finished?
    {
      Interfere(smooth);
      var reached := Faults.Chance(smooth);
      var delivered := Faults.Chance(smooth);
      if !reached || playlistId !in library.lists {
        var e := AnyError();
        return Stopped(e);
      }
      ghost var s := Now();
      library := AddTrack(library, playlistId, job.matched[next]);
      Take(Append(delivered),
          s.(library := library, phase := if delivered then Reconciling(playlistId, next + 1) else Idle));
      end := if delivered then Finished else Stopped(OtherError);
    }

    /** The run created the playlist, or it bears the run's name: nobody else writes to it. */
    ghost predicate Owns(id: Id)
      reads this
    {
      id in library.lists && (id in created || library.lists[id].name == job.name)
    }

    /** The history began with a fresh run. */
    ghost predicate Started()
      reads this
    {
      states != [] && Fresh(job, states[0])
    }

    lemma StartedInv()
      requires Valid() && Started()
      ensures Inv(job, Now())
    {
      RunInv(job, states, steps, |steps|);
    }

    /** Reconcile every remaining position. When no provider call failed, what happened to the
        destination and how the loop ended are given by a function of what it found. */
    method ReconcileAll(playlistId: Id, start: nat, smooth: bool) returns (end: LoopEnd, next: nat)
      requires Valid() && Now().phase == Reconciling(playlistId, start)
      modifies this`library, this`states, this`steps
      ensures Valid() && Extended() && Now().row == old(Now()).row && Now().created == old(Now()).created
      ensures end.Finished? ==> Now().phase == Reconciling(playlistId, next) && next >= |job.matched|
      ensures end.Unexpected? ==> Now().phase.Idle?
      ensures end.Stopped? ==> Now().phase in {Reconciling(playlistId, next), Appending(playlistId, next)}
                               || (Now().phase.Idle? && !end.error.Unsupported?)
      ensures old(Owns(playlistId)) ==> Owns(playlistId)
      ensures old(Owns(playlistId)) && !end.Stopped? ==>
                Reconcile.FromPosition(old(library).lists[playlistId].entries, job.matched, start) ==
                Reconcile.Outcome(if end.Finished? then Reconcile.Done else Reconcile.OutOfOrder,
                                  library.lists[playlistId].entries)
      ensures smooth && Started() ==> end.Finished?
    {
      next := start;
      while next < |job.matched|
        invariant Valid() && Extended() && Now().row == old(Now()).row && Now().created == old(Now()).created
        invariant Now().phase == Reconciling(playlistId, next)
        invariant old(Owns(playlistId)) ==> Owns(playlistId)
        invariant old(Owns(playlistId)) ==>
                    Reconcile.FromPosition(old(library).lists[playlistId].entries, job.matched, start) ==
                    Reconcile.FromPosition(library.lists[playlistId].entries, job.matched, next)
      {
        end := EnsureEntryState(playlistId, next, smooth);
        if !end.Finished? {
          return;
        }
        next := next + 1;
      }
      end := Finished;
    }

    /** Give up: roll back, unless a request that failed late already ended the attempt. */
    ghost method RollBack()
      requires Valid()
      modifies this`states, this`steps
      ensures Valid() && Extended() && Now() == old(Now()).(phase := Idle)
    {
      if !Now().phase.Idle? {
        Take(Abandon, Now().(phase := Idle));
      }
    }

    /** Record a failure in the row; the commit itself may fail, which nobody checks. */
    method RecordRefusal(errorCode: string, playlistId: Id, next: nat, smooth: bool)
      requires Valid() && !Now().phase.Idle? && Row(Failed, errorCode, playlistId, next) == Refused(Now())
      modifies this`row, this`states, this`steps
      ensures Valid() && Extended() && Now().phase.Idle?
      ensures row == old(row) || row == Row(Failed, errorCode, playlistId, next)
      ensures smooth ==> row == Row(Failed, errorCode, playlistId, next)
    {
      var commits := Faults.Chance(smooth);
      if commits {
        row := Row(Failed, errorCode, playlistId, next);
        Take(Refuse, Now().(phase := Idle, row := row));
      } else {
        RollBack();
      }
    }

    /** What the row says when a destination cannot be searched for or created. */
    ghost predicate NotCreated(next: nat)
      reads this`row
    {
      && row.state.Failed? && row.errorCode == "destination_playlist_create_unsupported"
      && row.playlistId == "" && row.next == next
    }

    /** What the row says when a destination cannot be read or written from some position on. */
    ghost predicate NotReconciled(playlistId: Id, next: nat)
      reads this`row
    {
      && row.state.Failed? && row.errorCode == "destination_reconciliation_unsupported"
      && row.playlistId == playlistId && row.next == next
    }

    /** Find the destination by name or create it; on failure the attempt is over. If nothing goes
        wrong, it takes the first playlist of the name unless 100000 others are listed before it,
        and creates one if there is none and the name is accepted. */
    method LocateDestination(smooth: bool) returns (r: Result<Id, RunError>)
      requires Valid() && Now().phase == Listing(0)
      modifies this
      ensures Valid() && Extended()
      ensures r.Failure? ==>
                Now().phase.Idle? && (row == old(row) || (r.error.Unsupported? && NotCreated(old(row).next)))
      ensures smooth && r.Failure? && r.error.Unsupported? ==> NotCreated(old(row).next)
      ensures r.Success? ==> row == old(row) && Now().phase == Reconciling(r.value, row.next)
      ensures smooth ==> forall i: nat :: old(FirstAt(i)) && i <= 100000 ==> r == Success(old(library).order[i])
      ensures smooth && old(NoneBefore(|library.order|)) && |old(library).order| <= 100001 && AcceptsName(job) ==>
                r.Success? && r.value !in old(library).lists
    {
      var found := FindPlaylistByName(smooth);
      if found.Success? && found.value != "" {
        return found;
      }
      if found.Success? {
        found := CreatePlaylist(smooth);
        if found.Success? {
          return found;
        }
      }
      if found.error.Unsupported? {
        RecordRefusal("destination_playlist_create_unsupported", "", row.next, smooth);
      } else {
        RollBack();
      }
      r := Failure(found.error);
    }

    /** What is assured before an attempt. */
    lemma FirstOrNone()
      ensures NoneBefore(|library.order|) || exists i: nat :: FirstAt(i)
    {
      if i: nat :| i < |library.order| && IsNamed(job, library, library.order[i]) {
        FirstUpTo(i);
      }
    }

    lemma {:induction false} FirstUpTo(i: nat)
      requires i < |library.order| && IsNamed(job, library, library.order[i])
      ensures exists k: nat :: k <= i && FirstAt(k)
    {
      if !NoneBefore(i) {
        var j: nat :| j < i && IsNamed(job, library, library.order[j]);
        FirstUpTo(j);
      } else {
        assert FirstAt(i);
      }
    }

    /** One attempt. It extends the history of the run by a path of the protocol from rest to
        rest; it reports success only if the run is then completed; and it leaves a completed
        run alone, though even then the commit may fail. If nothing goes wrong and a destination
        is assured, it does complete the run. */
    method RunOnce(providerAvailable: bool, smooth: bool) returns (outcome: Option<RunError>)
      requires Valid() && Now().phase.Idle?
      modifies this
      ensures Valid() && Extended() && Now().phase.Idle?
      ensures outcome.None? ==> row.state.Completed?
      ensures outcome.Some? ==>
                row == old(row) || row.state.Completed? || (outcome.value.Unsupported? && row.state.Failed?)
      ensures old(row).state.Completed? ==> row == old(row) && library == old(library)
      ensures smooth && providerAvailable && Started() && Assured(job, old(Now())) ==>
                outcome.None? && row.state.Completed?
      ensures !providerAvailable && !old(row).state.Completed? ==>
                outcome.Some? && library == old(library) && (smooth ==> outcome.value.Unsupported? && row.state.Failed?)
    {
      var loaded := Faults.Chance(smooth);
      var found := Faults.Chance(smooth);
      if !loaded || !found {
        return Some(if loaded then RunNotFound else OtherError);
      }
      if row.state.Completed? {
        var confirmed := Faults.Chance(smooth);
        return if confirmed then None else Some(OtherError);
      }
      if !providerAvailable {
        var commits := Faults.Chance(smooth);
        if commits {
          row := row.(state := Failed, errorCode := "destination_provider_unavailable");
          Take(Unavailable, Now().(row := row));
        }
        return Some(Unsupported);
      }
      outcome := Attempt(smooth);
    }

    /** The work of an attempt at a run that is not completed. */
    method Attempt(smooth: bool) returns (outcome: Option<RunError>)
      requires Valid() && Now().phase.Idle? && !row.state.Completed?
      modifies this
      ensures Valid() && Extended() && Now().phase.Idle?
      ensures outcome.None? ==> row.state.Completed?
      ensures outcome.Some? ==>
                row == old(row) || row.state.Completed? || (outcome.value.Unsupported? && row.state.Failed?)
      ensures smooth && Started() && Assured(job, old(Now())) ==> outcome.None?
    {
      var playlistId := row.playlistId;
      FirstOrNone();
      Take(Begin, Now().(phase := if playlistId == "" then Listing(0) else Reconciling(playlistId, row.next)));
      if playlistId == "" {
        var located := LocateDestination(smooth);
        if located.Failure? {
          return Some(located.error);
        }
        playlistId := located.value;
      }
      var end, next := ReconcileAll(playlistId, row.next, smooth);
      outcome := Conclude(end, playlistId, next, smooth);
    }

    /** End the attempt as the reconciling loop left off. */
    method Conclude(end: LoopEnd, playlistId: Id, next: nat, smooth: bool) returns (outcome: Option<RunError>)
      requires Valid()
      requires end.Finished? ==> Now().phase == Reconciling(playlistId, next) && next >= |job.matched|
      requires end.Unexpected? ==> Now().phase.Idle?
      requires end.Stopped? ==> Now().phase in {Reconciling(playlistId, next), Appending(playlistId, next)}
                                || (Now().phase.Idle? && !end.error.Unsupported?)
      modifies this`row, this`states, this`steps
      ensures Valid() && Extended() && Now().phase.Idle?
      ensures outcome.None? ==> end.Finished? && row == Row(Completed, "", playlistId, next)
      ensures outcome.Some? && end.Finished? ==> row == old(row) || row.state.Completed?
      ensures smooth && end.Finished? ==> outcome.None?
      ensures end.Stopped? ==>
                && outcome == Some(end.error)
                && (row == old(row) || (end.error.Unsupported? && NotReconciled(playlistId, next)))
      ensures smooth && end.Stopped? && end.error.Unsupported? ==> NotReconciled(playlistId, next)
      ensures end.Unexpected? ==> outcome.Some? && row == old(row)
    {
      match end
      case Unexpected =>
        outcome := Some(OtherError);
      case Stopped(e) =>
        if e.Unsupported? {
          RecordRefusal("destination_reconciliation_unsupported", playlistId, next, smooth);
        } else {
          RollBack();
        }
        outcome := Some(e);
      case Finished =>
        outcome := Complete(playlistId, next, smooth);
    }

    /** Commit the completed row. A commit may be applied although no confirmation arrives. */
    method Complete(playlistId: Id, next: nat, smooth: bool) returns (outcome: Option<RunError>)
      requires Valid() && Now().phase == Reconciling(playlistId, next) && next >= |job.matched|
      modifies this`row, this`states, this`steps
      ensures Valid() && Extended() && Now().phase.Idle?
      ensures outcome.None? ==> row == Row(Completed, "", playlistId, next)
      ensures outcome.Some? ==> row == old(row) || row == Row(Completed, "", playlistId, next)
      ensures smooth ==> outcome.None?
    {
      var applied := Faults.Chance(smooth);
      var confirmed := Faults.Chance(smooth);
      if applied {
        row := Row(Completed, "", playlistId, next);
        Take(Finish, Now().(phase := Idle, row := row));
      } else {
        RollBack();
      }
      outcome := if applied && confirmed then None else Some(OtherError);
    }

    /** The job handler: a job is done only when its run is completed, and is when nothing goes
        wrong and a destination is assured. A limit on the rate snoozes it for the time the
        provider asks for, or half a minute; what cannot succeed cancels it, anything else is
        tried again. */
    method Work(providerAvailable: bool, smooth: bool)
        returns (disposition: Disposition, ghost outcome: Option<RunError>)
      requires Valid() && Now().phase.Idle?
      modifies this
      ensures Valid() && Extended() && Now().phase.Idle?
      ensures disposition.JobDone? ==> row.state.Completed?
      ensures smooth && providerAvailable && Started() && Assured(job, old(Now())) ==> disposition.JobDone?
      ensures disposition.JobDone? <==> outcome.None?
      ensures disposition.Cancel? <==> outcome in {Some(Unsupported), Some(RunNotFound)}
      ensures disposition.Snooze? <==> outcome.Some? && outcome.value.RateLimited?
      ensures disposition.Snooze? ==>
                disposition.seconds == if outcome.value.retryAfter > 0 then outcome.value.retryAfter else 30
      ensures old(row).state.Completed? ==> row == old(row) && library == old(library)
    {
      var result := RunOnce(providerAvailable, smooth);
      disposition, outcome := Dispose(result), result;
    }

    /** However many attempts were made and whatever befell them, the playlists that a run that
        started fresh created hold the first tracks in order, and no other bears its name; there
        is at most one, if the name is stable and no listing was overtaken; and a completed run
        has all tracks. */
    lemma AttemptsAreSafe()
      requires Valid() && Fresh(job, states[0])
      ensures forall a :: a in created ==> Prefix(job, library, a)
      ensures forall a :: a in library.lists && library.lists[a].name == job.name ==> a in created
      ensures StableName(job) && Unshifted(job, states, steps) ==> |created| <= 1
      ensures row.state.Completed? ==>
                && row.playlistId in library.lists
                && library.lists[row.playlistId].entries == Wanted(job, |job.matched|)
    {
      PrefixesAlways(job, states, steps, |steps|);
      forall a | a in library.lists && library.lists[a].name == job.name ensures a in created {
        assert IsNamed(job, library, a);
      }
      if row.state.Completed? {
        assert Prefix(job, library, row.playlistId);
      }
      if StableName(job) && Unshifted(job, states, steps) {
        ExactlyOnce(job, states, steps, |steps|);
      }
    }

    /** A completed run mirrors its preview: its destination holds the tracks of the matched source
        entries and no others, repetitions included, each at its place among the matches. */
    lemma {:induction false} CompletedMirrorsPreview(entries: seq<Models.PreviewEntry>)
      requires Valid() && Fresh(job, states[0])
      requires job.matched == MatchedIds(entries) && row.state.Completed?
      ensures row.playlistId in library.lists
      ensures var copied := library.lists[row.playlistId].entries;
              && |copied| == |MatchesBefore(entries, |entries|)|
              && forall k :: k in MatchesBefore(entries, |entries|) ==>
                   && |MatchesBefore(entries, k)| < |copied|
                   && copied[|MatchesBefore(entries, k)|] == Some(entries[k].matched.value.id)
    {
      AttemptsAreSafe();
      MatchedIdsListed(entries);
    }
  }
}
