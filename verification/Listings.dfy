/** Finding a destination by listing an account that others change meanwhile, and how a run comes
    to create a second one. */
module Listings {
  import opened Wrappers
  import opened Text
  import opened TransferRun
  import opened Recovery

  // ---- Listing an unchanged account ----

  lemma {:induction false} FindNamedConcat(lib: Library, a: seq<Id>, b: seq<Id>, name: string)
    ensures FindNamed(lib, a + b, name) ==
            if FindNamed(lib, a, name).Some? then FindNamed(lib, a, name) else FindNamed(lib, b, name)
  {
    if a == [] {
      assert a + b == b;
    } else {
      assert (a + b)[1..] == a[1..] + b;
      FindNamedConcat(lib, a[1..], b, name);
    }
  }

  /** Listing an unchanged account, in pages of any sizes, settles on the first playlist of the
      name, or on creating one exactly if there is none. */
  lemma {:induction false} ListingFindsFirst(job: Job, states: seq<State>, steps: seq<Step>, i: nat)
    requires Path(job, states, steps) && i < |states| && states[0].phase == Listing(0)
    requires forall j :: 0 <= j < |steps| ==> steps[j].ListPage?
    ensures states[i] == states[0].(phase := states[i].phase)
    ensures var lib := states[0].library;
            match states[i].phase
            case Listing(offset) => offset <= |lib.order| && FindNamed(lib, lib.order[..offset], job.name) == None
            case Reconciling(id, _) => FindNamed(lib, lib.order, job.name) == Some(id)
            case Creating => FindNamed(lib, lib.order, job.name) == None
            case _ => false
  {
    if i > 0 {
      ListingFindsFirst(job, states, steps, i - 1);
      var s := states[i - 1];
      assert Next(job, s, steps[i - 1], states[i]);
      var order, offset, size := s.library.order, s.phase.offset, steps[i - 1].size;
      var page := if size == 0 then [] else order[offset..offset + size];
      assert order[..offset + size] == order[..offset] + page;
      assert order == order[..offset + size] + order[offset + size..];
      FindNamedConcat(s.library, order[..offset], page, job.name);
      FindNamedConcat(s.library, order[..offset + size], order[offset + size..], job.name);
    }
  }

  // ---- Listing an account that changes ----

  /** Playlist d, the only one of the name, is in the account with this content. */
  ghost predicate Shows(job: Job, lib: Library, d: Id, content: Playlist) {
    && WellFormed(lib) && |lib.order| <= MAX_OFFSET
    && OnlyNamed(job, lib, d) && d in lib.lists && lib.lists[d] == content
  }

  /** The libraries current during a listing, oldest first: others change them as they like, but
      playlist d, the only one of the name, is there throughout and stays as it is. */
  ghost predicate Timeline(job: Job, libs: seq<Library>, d: Id, content: Playlist) {
    libs != [] && forall a :: 0 <= a < |libs| ==> Shows(job, libs[a], d, content)
  }

  /** Playlist d is never moved towards the front. */
  ghost predicate NeverForward(libs: seq<Library>, d: Id) {
    forall a, b, i, j | 0 <= a <= b < |libs| && 0 <= i < |libs[a].order| && 0 <= j < |libs[b].order|
                        && libs[a].order[i] == d == libs[b].order[j] :: i <= j
  }

  /** One listing over a timeline: clock says which library each state shows. */
  ghost predicate ListingOver(job: Job, libs: seq<Library>, states: seq<State>, steps: seq<Step>, clock: seq<nat>) {
    && Path(job, states, steps) && states[0].phase == Listing(0)
    && |clock| == |states|
    && (forall i :: 0 <= i < |states| ==> clock[i] < |libs| && states[i].library == libs[clock[i]])
    && (forall i {:trigger steps[i]} :: 0 <= i < |steps| ==> Ticks(steps[i], clock[i], clock[i + 1]))
  }

  predicate Ticks(step: Step, now: nat, later: nat) {
    if step.ListPage? then now == later else step.Environment? && now <= later
  }

  /** The listing has found d, or its next page is still to come. */
  predicate OnTrack(s: State, d: Id) {
    match s.phase
    case Listing(offset) => offset < |s.library.order|
    case Reconciling(id, _) => id == d
    case _ => false
  }

  /** Whatever pages the provider serves and whenever the account changes, a listing finds a
      playlist that is there throughout, exactly when that playlist never moves towards the
      front. */
  lemma ListingFindsIff(job: Job, libs: seq<Library>, d: Id, content: Playlist)
    requires Timeline(job, libs, d, content)
    ensures (forall states: seq<State>, steps: seq<Step>, clock: seq<nat> ::
               ListingOver(job, libs, states, steps, clock) ==> OnTrack(states[|steps|], d))
            <==> NeverForward(libs, d)
  {
    if NeverForward(libs, d) {
      forall states: seq<State>, steps: seq<Step>, clock: seq<nat> | ListingOver(job, libs, states, steps, clock)
        ensures OnTrack(states[|steps|], d)
      {
        ListingStays(job, libs, d, content, states, steps, clock, |steps|);
      }
    } else {
      var a, b, i, j := Overtaken(libs, d);
      var start := State(Row(Queued, "", "", 0), libs[a], Listing(0), []);
      var states, steps, clock := ListingMisses(job, libs, d, content, start, a, b, i, j);
      assert !OnTrack(states[|steps|], d);
    }
  }

  lemma Overtaken(libs: seq<Library>, d: Id) returns (a: nat, b: nat, i: nat, j: nat)
    requires !NeverForward(libs, d)
    ensures a <= b < |libs| && j < i < |libs[a].order| && j < |libs[b].order|
    ensures libs[a].order[i] == d == libs[b].order[j]
  {
    a, b, i, j :| 0 <= a <= b < |libs| && 0 <= i < |libs[a].order| && 0 <= j < |libs[b].order|
      && libs[a].order[i] == d == libs[b].order[j] && j < i;
  }

  ghost function Index(lib: Library, d: Id): (i: nat)
    requires WellFormed(lib) && d in lib.lists
    ensures i < |lib.order| && lib.order[i] == d
  {
    assert d in lib.order;
    var i :| 0 <= i < |lib.order| && lib.order[i] == d;
    i
  }

  /** The listing stays in front of d, so it is not overtaken and finds d. */
  lemma {:induction false} ListingStays(job: Job, libs: seq<Library>, d: Id, content: Playlist,
                                        states: seq<State>, steps: seq<Step>, clock: seq<nat>, n: nat)
    requires Timeline(job, libs, d, content) && NeverForward(libs, d) && ListingOver(job, libs, states, steps, clock)
    requires n < |states|
    ensures OnTrack(states[n], d)
            && (states[n].phase.Listing? ==> states[n].phase.offset <= Index(states[n].library, d))
    ensures n > 0 ==> Steady(job, states[n - 1], steps[n - 1], states[n])
  {
    if n > 0 {
      ListingStays(job, libs, d, content, states, steps, clock, n - 1);
      var s, step, s' := states[n - 1], steps[n - 1], states[n];
      assert Next(job, s, step, s') && Ticks(step, clock[n - 1], clock[n]);
      assert Shows(job, libs[clock[n - 1]], d, content) && Shows(job, libs[clock[n]], d, content);
      if step.ListPage? {
        PageKeepsSight(job, s, step.size, s', d);
      } else {
        assert Index(s.library, d) <= Index(s'.library, d);
        assert forall x :: IsNamed(job, s'.library, x) ==> x == d;
      }
    }
  }

  lemma PageKeepsSight(job: Job, s: State, size: nat, s': State, d: Id)
    requires WellFormed(s.library) && OnlyNamed(job, s.library, d) && d in s.library.lists
    requires s.phase.Listing? && s.phase.offset <= Index(s.library, d)
    requires Next(job, s, ListPage(size), s')
    ensures OnTrack(s', d) && (s'.phase.Listing? ==> s'.phase.offset <= Index(s.library, d))
  {
    if s'.phase.Reconciling? {
      FindNamedSpec(s.library, s.library.order[s.phase.offset..s.phase.offset + size], job.name);
      assert IsNamed(job, s.library, s'.phase.playlistId);
    } else {
      PageMisses(job, s, size, s');
      assert IsNamed(job, s.library, s.library.order[Index(s.library, d)]);
    }
  }

  // ---- How a listing misses its playlist ----

  ghost predicate OnlyPages(job: Job, states: seq<State>, steps: seq<Step>, library: Library) {
    && Path(job, states, steps)
    && (forall i :: 0 <= i < |states| ==> states[i].library == library)
    && (forall i :: 0 <= i < |steps| ==> steps[i].ListPage?)
  }

  /** List one playlist a page up to some offset, meeting none of the name. */
  lemma {:induction false} ListTo(job: Job, s: State, stop: nat) returns (states: seq<State>, steps: seq<Step>)
    requires s.phase.Listing? && s.phase.offset <= stop < |s.library.order| <= MAX_OFFSET
    requires forall i :: s.phase.offset <= i < stop ==> !IsNamed(job, s.library, s.library.order[i])
    ensures OnlyPages(job, states, steps, s.library) && states[0] == s && states[|steps|] == s.(phase := Listing(stop))
    decreases stop - s.phase.offset
  {
    if s.phase.offset == stop {
      states, steps := [s], [];
    } else {
      var s' := s.(phase := Listing(s.phase.offset + 1));
      ListOne(job, s, s'.phase);
      var rest, labels := ListTo(job, s', stop);
      PathLink(job, [s], [], ListPage(1), rest, labels);
      states, steps := [s] + rest, [] + [ListPage(1)] + labels;
    }
  }

  lemma ListOne(job: Job, s: State, phase: Phase)
    requires s.phase.Listing? && s.phase.offset < |s.library.order| <= MAX_OFFSET
    requires !IsNamed(job, s.library, s.library.order[s.phase.offset])
    requires phase == if s.phase.offset + 1 < |s.library.order| then Listing(s.phase.offset + 1) else Creating
    ensures Next(job, s, ListPage(1), s.(phase := phase))
  {
    var offset := s.phase.offset;
    var page := s.library.order[offset..offset + 1];
    assert page == [page[0]] && page[0] == s.library.order[offset];
    FindNamedSpec(s.library, page, job.name);
  }

  /** List the rest of the account, meeting none of the name. */
  lemma ListOut(job: Job, s: State) returns (states: seq<State>, steps: seq<Step>)
    requires s.phase.Listing? && s.phase.offset <= MAX_OFFSET && |s.library.order| <= MAX_OFFSET
    requires forall i :: s.phase.offset <= i < |s.library.order| ==> !IsNamed(job, s.library, s.library.order[i])
    ensures OnlyPages(job, states, steps, s.library) && states[0] == s && states[|steps|] == s.(phase := Creating)
  {
    var last := s.(phase := Creating);
    if s.phase.offset >= |s.library.order| {
      states, steps := [s, last], [ListPage(0)];
    } else {
      states, steps := ListTo(job, s, |s.library.order| - 1);
      ListOne(job, states[|steps|], Creating);
      PathLink(job, states, steps, ListPage(1), [last], []);
      states, steps := states + [last], steps + [ListPage(1)] + [];
    }
  }

  /** List library a up to d, which then moves in front of the offset: the rest of library b
      does not contain it. */
  lemma ListingMisses(job: Job, libs: seq<Library>, d: Id, content: Playlist, s: State, a: nat, b: nat, i: nat, j: nat)
      returns (states: seq<State>, steps: seq<Step>, clock: seq<nat>)
    requires Timeline(job, libs, d, content) && a <= b < |libs| && j < i < |libs[a].order| && j < |libs[b].order|
    requires libs[a].order[i] == d == libs[b].order[j]
    requires s.phase == Listing(0) && s.library == libs[a] && forall x :: x in s.created ==> x == d
    ensures ListingOver(job, libs, states, steps, clock)
    ensures states[0] == s && states[|steps|] == s.(phase := Creating, library := libs[b])
  {
    var first, pages := ListTo(job, s, i);
    var shifted := s.(phase := Listing(i), library := libs[b]);
    assert Shows(job, libs[a], d, content) && Shows(job, libs[b], d, content);
    var second, rest := ListOut(job, shifted);
    assert Next(job, first[|pages|], Environment, shifted) by {
      assert forall x :: IsNamed(job, libs[a], x) || IsNamed(job, libs[b], x) ==> x == d;
      SameAccount(job, s.created, libs[a], libs[b], d);
    }
    PathLink(job, first, pages, Environment, second, rest);
    states, steps := first + second, pages + [Environment] + rest;
    clock := seq(|first|, _ => a) + seq(|second|, _ => b);
    forall k | 0 <= k < |steps| ensures Ticks(steps[k], clock[k], clock[k + 1]) {
      if k < |pages| {
        assert pages[k].ListPage?;
      } else if k > |pages| {
        assert rest[k - |first|].ListPage?;
      }
    }
  }

  /** Accounts with the same single playlist of the name differ only in what others may change. */
  lemma SameAccount(job: Job, ids: seq<Id>, lib: Library, lib': Library, d: Id)
    requires WellFormed(lib') && OnlyNamed(job, lib, d) && OnlyNamed(job, lib', d)
    requires forall x :: x in ids ==> x == d
    requires d in lib.lists && d in lib'.lists && lib.lists[d] == lib'.lists[d]
    ensures Harmless(job.name, ids, lib, lib')
  {
    forall id | id in lib.lists && lib.lists[id].name == job.name ensures id == d {
      assert IsNamed(job, lib, id);
    }
    forall id | id in lib'.lists && lib'.lists[id].name == job.name ensures id == d {
      assert IsNamed(job, lib', id);
    }
  }

  // ---- Creating twice ----

  /** The account before the run created its playlist d. */
  function Without(lib: Library, d: Id, place: nat): Library
    requires place < |lib.order|
  {
    Library(lib.order[..place] + lib.order[place + 1..], lib.lists - {d})
  }

  lemma WithoutMembers(order: seq<Id>, place: nat)
    requires place < |order| && forall i, j :: 0 <= i < j < |order| ==> order[i] != order[j]
    ensures var rest := order[..place] + order[place + 1..];
            && rest[..place] + [order[place]] + rest[place..] == order
            && forall x :: x in rest <==> x in order && x != order[place]
  {
    var rest := order[..place] + order[place + 1..];
    assert rest[..place] == order[..place] && rest[place..] == order[place + 1..];
    forall x ensures x in rest <==> x in order && x != order[place] {
      assert order == order[..place] + [order[place]] + order[place + 1..];
    }
  }

  lemma WithoutWellFormed(lib: Library, d: Id, place: nat)
    requires WellFormed(lib) && place < |lib.order| && lib.order[place] == d
    ensures WellFormed(Without(lib, d, place))
  {
    WithoutMembers(lib.order, place);
    var order := Without(lib, d, place).order;
    forall i, j | 0 <= i < j < |order| ensures order[i] != order[j] {
      assert order[i] == lib.order[if i < place then i else i + 1];
      assert order[j] == lib.order[if j < place then j else j + 1];
    }
  }

  lemma PutBack(lib: Library, d: Id, place: nat)
    requires WellFormed(lib) && place < |lib.order| && lib.order[place] == d
    ensures d in lib.lists
    ensures Filled(AddPlaylist(Without(lib, d, place), d, lib.lists[d].name, place), d, lib.lists[d]) == lib
  {
    assert d in lib.order;
    WithoutMembers(lib.order, place);
    var without := lib.lists - {d};
    assert without[d := Playlist(lib.lists[d].name, [])][d := lib.lists[d]] == lib.lists;
  }

  lemma WithoutUnnamed(job: Job, lib: Library, d: Id, place: nat)
    requires OnlyNamed(job, lib, d) && place < |lib.order|
    ensures forall x :: !IsNamed(job, Without(lib, d, place), x)
  {
    forall x ensures !IsNamed(job, Without(lib, d, place), x) {
      assert IsNamed(job, lib, x) <==> x == d;
    }
  }

  /** The account before the run created d and filled it. */
  lemma WithoutSpec(job: Job, lib: Library, d: Id, place: nat, content: Playlist)
    requires Shows(job, lib, d, content) && place < |lib.order| && lib.order[place] == d
    ensures var without := Without(lib, d, place);
            && WellFormed(without) && (forall x :: !IsNamed(job, without, x)) && content.name == job.name
            && Filled(AddPlaylist(without, d, job.name, place), d, content) == lib
  {
    WithoutWellFormed(lib, d, place);
    PutBack(lib, d, place);
    WithoutUnnamed(job, lib, d, place);
    assert IsNamed(job, lib, d);
  }

  function Filled(lib: Library, id: Id, content: Playlist): Library {
    lib.(lists := lib.lists[id := content])
  }

  /** A run at rest starts over, lists the account, and creates a playlist without noticing. */
  lemma CreatesUnseen(job: Job, first: seq<State>, labels: seq<Step>, second: seq<State>, pages: seq<Step>,
                      id: Id, place: nat)
      returns (states: seq<State>, steps: seq<Step>)
    requires StableName(job) && AcceptsName(job)
    requires Path(job, first, labels) && Path(job, second, pages)
    requires Next(job, first[|labels|], Begin, second[0]) && second[|pages|].phase.Creating?
    requires id != "" && id !in second[|pages|].library.lists && place <= |second[|pages|].library.order|
    ensures Path(job, states, steps) && states[0] == first[0]
    ensures var s := second[|pages|];
            states[|steps|] == State(s.row, AddPlaylist(s.library, id, job.name, place), Idle, s.created + [id])
    ensures |states| == |first| + |second| + 1 && states[..|first| + |second|] == first + second
    ensures steps == labels + [Begin] + pages + [Create(id, place, false)]
  {
    PathLink(job, first, labels, Begin, second, pages);
    var s := second[|pages|];
    var last := State(s.row, AddPlaylist(s.library, id, job.name, place), Idle, s.created + [id]);
    CreateUnseen(job, s, id, place, last);
    PathLink(job, first + second, labels + [Begin] + pages, Create(id, place, false), [last], []);
    states, steps := first + second + [last], labels + [Begin] + pages + [Create(id, place, false)] + [];
  }

  lemma BeginListing(job: Job, s: State)
    requires s.phase.Idle? && !s.row.state.Completed? && s.row.playlistId == ""
    ensures Path(job, [s], []) && Next(job, s, Begin, s.(phase := Listing(0)))
  {
  }

  // ---- An attempt that dies before it commits ----

  /** The content of a destination with the first tracks. */
  function Holding(job: Job, count: nat): Playlist
    requires count <= |job.matched|
  {
    Playlist(job.name, Wanted(job, count))
  }

  /** Nobody else does anything. */
  ghost predicate Alone(job: Job, states: seq<State>, steps: seq<Step>) {
    Path(job, states, steps) && forall i :: 0 <= i < |steps| ==> !steps[i].Environment?
  }

  lemma AloneLink(job: Job, a: seq<State>, l: seq<Step>, step: Step, b: seq<State>, m: seq<Step>)
    requires Alone(job, a, l) && Alone(job, b, m) && Next(job, a[|l|], step, b[0]) && !step.Environment?
    ensures Alone(job, a + b, l + [step] + m)
    ensures (a + b)[0] == a[0] && (a + b)[|l| + 1 + |m|] == b[|m|]
  {
    PathLink(job, a, l, step, b, m);
  }

  /** Copying one more track. */
  lemma CopyOne(job: Job, s: State, next: State)
    requires s.phase.Reconciling? && s.phase.next < |job.matched| && s.phase.playlistId in s.library.lists
    requires s.library.lists[s.phase.playlistId] == Holding(job, s.phase.next)
    requires var id, count := s.phase.playlistId, s.phase.next + 1;
             next == s.(phase := Reconciling(id, count), library := Filled(s.library, id, Holding(job, count)))
    ensures var reading := s.(phase := Appending(s.phase.playlistId, s.phase.next));
            Next(job, s, ReadEntry, reading) && Next(job, reading, Append(true), next)
  {
    var count := s.phase.next;
    assert Wanted(job, count + 1) == Wanted(job, count) + [Some(job.matched[count])];
  }

  /** Copying tracks up to some number. */
  lemma {:induction false} CopySome(job: Job, s: State, count: nat) returns (states: seq<State>, steps: seq<Step>)
    requires s.phase.Reconciling? && s.phase.next <= count <= |job.matched| && s.phase.playlistId in s.library.lists
    requires s.library.lists[s.phase.playlistId] == Holding(job, s.phase.next)
    ensures Alone(job, states, steps) && states[0] == s
    ensures var id, content := s.phase.playlistId, Holding(job, count);
            states[|steps|] == s.(phase := Reconciling(id, count), library := Filled(s.library, id, content))
    decreases count - s.phase.next
  {
    var id, n := s.phase.playlistId, s.phase.next;
    if n == count {
      assert s.library.lists[id := s.library.lists[id]] == s.library.lists;
      states, steps := [s], [];
    } else {
      var reading := s.(phase := Appending(id, n));
      var s' := s.(phase := Reconciling(id, n + 1), library := Filled(s.library, id, Holding(job, n + 1)));
      CopyOne(job, s, s');
      var rest, labels := CopySome(job, s', count);
      FilledTwice(s.library, id, Holding(job, n + 1), Holding(job, count));
      AloneLink(job, [reading], [], Append(true), rest, labels);
      AloneLink(job, [s], [], ReadEntry, [reading] + rest, [] + [Append(true)] + labels);
      states, steps := [s] + ([reading] + rest), [] + [ReadEntry] + ([] + [Append(true)] + labels);
    }
  }

  lemma FilledTwice(lib: Library, id: Id, content: Playlist, content': Playlist)
    ensures Filled(Filled(lib, id, content), id, content') == Filled(lib, id, content')
  {
  }

  /** A fresh run creates d, fills it with the first tracks, dies and is to start over. */
  lemma StartsOver(job: Job, lib: Library, d: Id, place: nat, count: nat) returns (states: seq<State>, steps: seq<Step>)
    requires StableName(job) && AcceptsName(job) && count <= |job.matched|
    requires Shows(job, lib, d, Holding(job, count)) && place < |lib.order| && lib.order[place] == d
    ensures Run(job, states, steps) && Alone(job, states, steps)
    ensures states[|steps|] == State(Row(Queued, "", "", 0), lib, Idle, [d])
  {
    var s := State(Row(Queued, "", "", 0), Without(lib, d, place), Idle, []);
    WithoutSpec(job, lib, d, place, Holding(job, count));
    FreshWithout(job, s);
    states, steps := FirstAttempt(job, s, d, place, count);
  }

  lemma FirstAttempt(job: Job, s: State, d: Id, place: nat, count: nat) returns (states: seq<State>, steps: seq<Step>)
    requires StableName(job) && AcceptsName(job) && s.phase.Idle? && s.row == Row(Queued, "", "", 0)
    requires |s.library.order| <= MAX_OFFSET && forall x :: !IsNamed(job, s.library, x)
    requires d != "" && d !in s.library.lists && place <= |s.library.order| && count <= |job.matched|
    ensures Alone(job, states, steps) && states[0] == s
    ensures states[|steps|] == s.(library := Filled(AddPlaylist(s.library, d, job.name, place), d, Holding(job, count)),
                                  created := s.created + [d])
  {
    var listed, pages := ListOut(job, s.(phase := Listing(0)));
    assert forall i :: 0 <= i < |pages| ==> pages[i].ListPage?;
    BeginListing(job, s);
    AloneLink(job, [s], [], Begin, listed, pages);
    var made := State(s.row, AddPlaylist(s.library, d, job.name, place), Reconciling(d, 0), s.created + [d]);
    var filled, copies := CopyNew(job, made, d, count);
    AloneLink(job, [s] + listed, [] + [Begin] + pages, Create(d, place, true), filled, copies);
    var last := filled[|copies|].(phase := Idle);
    var labels := [] + [Begin] + pages + [Create(d, place, true)] + copies;
    AloneLink(job, [s] + listed + filled, labels, Abandon, [last], []);
    states, steps := [s] + listed + filled + [last], labels + [Abandon] + [];
  }

  /** Copying into a playlist just created. */
  lemma CopyNew(job: Job, s: State, d: Id, count: nat) returns (states: seq<State>, steps: seq<Step>)
    requires s.phase == Reconciling(d, 0) && count <= |job.matched|
    requires d in s.library.lists && s.library.lists[d] == Playlist(job.name, [])
    ensures Alone(job, states, steps) && states[0] == s
    ensures states[|steps|] == s.(phase := Reconciling(d, count), library := Filled(s.library, d, Holding(job, count)))
  {
    assert Wanted(job, 0) == [];
    states, steps := CopySome(job, s, count);
  }

  lemma FreshWithout(job: Job, s: State)
    requires s.row == Row(Queued, "", "", 0) && s.phase.Idle? && s.created == []
    requires WellFormed(s.library) && forall x :: !IsNamed(job, s.library, x)
    ensures Fresh(job, s)
  {
    forall x | x in s.library.lists ensures s.library.lists[x].name != job.name {
      assert !IsNamed(job, s.library, x);
    }
  }

  lemma CreateUnseen(job: Job, s: State, id: Id, place: nat, s': State)
    requires s.phase.Creating? && StableName(job) && AcceptsName(job)
    requires id != "" && id !in s.library.lists && place <= |s.library.order|
    requires s' == State(s.row, AddPlaylist(s.library, id, job.name, place), Idle, s.created + [id])
    ensures Next(job, s, Create(id, place, false), s')
  {
  }

  /** Wherever a listing can miss its playlist, with as many tracks in it as may be, a run can
      create it twice: it creates and fills the first one, dies, starts over, lists the account
      while that one moves forward, and creates another. From state k on, the listing is one
      over the timeline; before, nobody else does anything. */
  lemma ShiftedListingCreatesTwice(job: Job, libs: seq<Library>, d: Id, count: nat)
      returns (states: seq<State>, steps: seq<Step>, k: nat, clock: seq<nat>)
    requires StableName(job) && AcceptsName(job) && count <= |job.matched|
    requires Timeline(job, libs, d, Holding(job, count)) && !NeverForward(libs, d)
    ensures Run(job, states, steps) && |states[|steps|].created| == 2
    ensures k < |steps| && ListingOver(job, libs, states[k..|steps|], steps[k..|steps| - 1], clock)
    ensures forall i :: 0 <= i < k ==> !steps[i].Environment?
  {
    var content := Holding(job, count);
    var a, b, i, j := Overtaken(libs, d);
    assert Shows(job, libs[a], d, content) && Shows(job, libs[b], d, content);
    var first, labels := StartsOver(job, libs[a], d, i, count);
    var again := first[|labels|].(phase := Listing(0));
    var second, pages;
    second, pages, clock := ListingMisses(job, libs, d, content, again, a, b, i, j);
    var id := SpareId(libs[b]);
    SpareIdIsNew(libs[b]);
    BeginListing(job, first[|labels|]);
    states, steps := CreatesUnseen(job, first, labels, second, pages, id, 0);
    k := |first|;
    assert states[k..|steps|] == second && steps[k..|steps| - 1] == pages;
  }

  /** The smallest such timeline: of two playlists the first one is removed. A listing that has
      passed it concludes that the second, in plain sight, does not exist. */
  lemma RemovalHidesDestination(job: Job) returns (s: State, page: State, shifted: State, last: State)
    ensures WellFormed(s.library) && WellFormed(shifted.library)
    ensures "d" in s.library.lists && "d" in shifted.library.lists
    ensures shifted.library.lists["d"] == s.library.lists["d"] == Playlist(job.name, [])
    ensures s.phase == Listing(0) && Next(job, s, ListPage(1), page)
    ensures shifted == page.(library := shifted.library) && shifted.library.order == s.library.order[1..]
    ensures Next(job, shifted, ListPage(0), last) && last.phase.Creating?
    ensures Timeline(job, [s.library, shifted.library], "d", Playlist(job.name, []))
    ensures !NeverForward([s.library, shifted.library], "d")
  {
    var other, dest := Playlist(job.name + "x", []), Playlist(job.name, []);
    var row := Row(Queued, "", "", 0);
    var lib, lib' := Library(["o", "d"], map["o" := other, "d" := dest]), Library(["d"], map["d" := dest]);
    s := State(row, lib, Listing(0), ["d"]);
    page := s.(phase := Listing(1));
    shifted := page.(library := lib');
    last := shifted.(phase := Creating);
    assert |other.name| != |job.name|;
    assert lib.order[1..] == ["d"];
    ListOne(job, s, Listing(1));
    assert Next(job, shifted, ListPage(0), last);
    var libs := [lib, lib'];
    assert libs[0].order[1] == "d" == libs[1].order[0];
  }

  lemma {:induction false} NothingCreated(job: Job, states: seq<State>, steps: seq<Step>, i: nat)
    requires !AcceptsName(job) && Run(job, states, steps) && i < |states|
    ensures states[i].created == []
  {
    if i > 0 {
      NothingCreated(job, states, steps, i - 1);
      assert Next(job, states[i - 1], steps[i - 1], states[i]);
    }
  }

  lemma CreatesTwice(job: Job) returns (states: seq<State>, steps: seq<Step>)
    requires !StableName(job) && AcceptsName(job)
    ensures Run(job, states, steps) && Unshifted(job, states, steps) && |states[|steps|].created| == 2
  {
    var row := Row(Queued, "", "", 0);
    var lib0 := Library([], map[]);
    var lib1 := AddPlaylist(lib0, "a", CreatedName(job), 0);
    var lib2 := AddPlaylist(lib1, "b", CreatedName(job), 0);
    states := [State(row, lib0, Idle, []), State(row, lib0, Listing(0), []), State(row, lib0, Creating, []),
               State(row, lib1, Idle, ["a"]), State(row, lib1, Listing(0), ["a"]), State(row, lib1, Creating, ["a"]),
               State(row, lib2, Idle, ["a", "b"])];
    steps := [Begin, ListPage(0), Create("a", 0, false), Begin, ListPage(1), Create("b", 0, false)];
    assert FindNamed(lib1, lib1.order[0..1], job.name) == None by {
      FindNamedSpec(lib1, lib1.order[0..1], job.name);
    }
    forall i | 0 <= i < |steps| ensures Next(job, states[i], steps[i], states[i + 1]) {
    }
  }

  /** While no listing is overtaken, no run creates two playlists exactly when the name survives
      trimming or is not accepted at all: a playlist created under another name is never found
      again. Whatever others do in the account, no run does exactly when the name is not
      accepted, so that nothing is ever created. */
  lemma AtMostOneCreationIff(job: Job)
    ensures (forall states: seq<State>, steps: seq<Step> ::
               Run(job, states, steps) && Unshifted(job, states, steps) ==> |states[|steps|].created| <= 1)
            <==> StableName(job) || !AcceptsName(job)
    ensures (forall states: seq<State>, steps: seq<Step> :: Run(job, states, steps) ==> |states[|steps|].created| <= 1)
            <==> !AcceptsName(job)
  {
    forall states: seq<State>, steps: seq<Step> |
      Run(job, states, steps) && (!AcceptsName(job) || (StableName(job) && Unshifted(job, states, steps)))
      ensures |states[|steps|].created| <= 1
    {
      if AcceptsName(job) {
        RunUnique(job, states, steps, |steps|);
      } else {
        NothingCreated(job, states, steps, |steps|);
      }
    }
    if AcceptsName(job) && StableName(job) {
      var s, page, shifted, last := RemovalHidesDestination(job);
      assert Wanted(job, 0) == [];
      var states, steps, k, clock := ShiftedListingCreatesTwice(job, [s.library, shifted.library], "d", 0);
      assert |states[|steps|].created| == 2;
    } else if AcceptsName(job) {
      var states, steps := CreatesTwice(job);
      assert |states[|steps|].created| == 2 && Unshifted(job, states, steps);
    }
  }
}
