/** When an interrupted transfer run can still complete: in one attempt in which nothing goes
    wrong, if the destination can be found or made at all. */
module Recovery {
  import opened Wrappers
  import opened Text
  import opened TransferRun

  /** A step of an attempt in which nothing goes wrong. */
  predicate Smooth(step: Step) {
    match step
    case Begin => true
    case ListPage(_) => true
    case Create(_, _, delivered) => delivered
    case ReadEntry => true
    case Append(delivered) => delivered
    case Finish => true
    case _ => false
  }

  /** An upper bound on the smooth steps left in the attempt. */
  function Remaining(job: Job, s: State): int {
    match s.phase
    case Idle => 0
    case Listing(offset) => 2 * |job.matched| + 4 + if offset < |s.library.order| then |s.library.order| - offset else 0
    case Creating => 2 * |job.matched| + 2
    case Reconciling(_, next) => 2 * (|job.matched| - next) + 1
    case Appending(_, next) => 2 * (|job.matched| - next)
  }

  /** Every smooth step brings the attempt closer to its end, and only finishing ends it. */
  lemma SmoothStepAdvances(job: Job, s: State, step: Step, s': State)
    requires Inv(job, s) && Next(job, s, step, s') && Smooth(step) && !step.Begin?
    ensures Inv(job, s')
    ensures s'.phase.Idle? <==> step.Finish?
    ensures step.Finish? <==> s'.row.state.Completed?
    ensures 0 <= Remaining(job, s') < Remaining(job, s)
  {
    InvKept(job, s, step, s');
    if step.ReadEntry? {
      ReadKeepsInv(job, s, s');
    }
    if s'.phase.Reconciling? {
      assert Prefix(job, s'.library, s'.phase.playlistId);
    }
  }

  // ---- What an attempt needs ----

  /** No page shows more: the last one starts at the greatest offset. */
  const REACH := 100050

  /** A playlist of the name lies between the offset and the reach of a listing. */
  ghost predicate InReach(job: Job, lib: Library, offset: nat) {
    exists i :: offset <= i < |lib.order| && i < REACH && IsNamed(job, lib, lib.order[i])
  }

  /** The account can be listed to its end, and the name is accepted. */
  predicate CanCreate(job: Job, lib: Library) {
    |lib.order| <= REACH && AcceptsName(job)
  }

  /** The destination is known, can be found, or can be made. */
  ghost predicate CanComplete(job: Job, s: State) {
    s.row.playlistId != "" || InReach(job, s.library, 0) || CanCreate(job, s.library)
  }

  /** The same, whatever pages are served: a playlist of the name is not listed after 100000
      others, or no playlist is and the name is accepted. */
  ghost predicate Assured(job: Job, s: State) {
    || s.row.playlistId != ""
    || (exists i :: 0 <= i < |s.library.order| && i <= 100000 && IsNamed(job, s.library, s.library.order[i]))
    || (|s.library.order| <= 100001 && AcceptsName(job))
  }

  /** The same of an attempt under way. */
  ghost predicate OnWay(job: Job, s: State) {
    match s.phase
    case Idle => false
    case Listing(offset) => offset <= MAX_OFFSET && (InReach(job, s.library, offset) || CanCreate(job, s.library))
    case Creating => AcceptsName(job)
    case Reconciling(_, _) => true
    case Appending(_, _) => true
  }

  /** Small pages up to the greatest offset, then as many as fit. */
  function GoodSize(lib: Library, offset: nat): nat {
    if offset >= |lib.order| then 0
    else if offset < MAX_OFFSET || |lib.order| - offset == 1 then 1
    else if |lib.order| - offset < PAGE_LIMIT then |lib.order| - offset
    else PAGE_LIMIT
  }

  lemma GoodPage(job: Job, s: State) returns (s': State)
    requires Inv(job, s) && s.phase.Listing? && OnWay(job, s)
    ensures Next(job, s, ListPage(GoodSize(s.library, s.phase.offset)), s') && OnWay(job, s')
  {
    var order, offset, size := s.library.order, s.phase.offset, GoodSize(s.library, s.phase.offset);
    s' := s.(phase := AfterPage(job, s, if size == 0 then [] else order[offset..offset + size]));
    assert Next(job, s, ListPage(size), s');
    if !s'.phase.Reconciling? {
      PageMisses(job, s, size, s');
      if InReach(job, s.library, offset) {
        var i :| offset <= i < |order| && i < REACH && IsNamed(job, s.library, order[i]);
        assert offset + size <= i;
      }
    }
  }

  /** An attempt on its way is never stuck. */
  lemma SmoothStepExists(job: Job, s: State) returns (step: Step, s': State)
    requires Inv(job, s) && OnWay(job, s)
    ensures Next(job, s, step, s') && Smooth(step) && !step.Begin?
    ensures !step.Finish? ==> OnWay(job, s')
  {
    match s.phase
    case Listing(offset) =>
      step := ListPage(GoodSize(s.library, offset));
      s' := GoodPage(job, s);
    case Creating =>
      var id := SpareId(s.library);
      SpareIdIsNew(s.library);
      step := Create(id, 0, true);
      s' := s.(library := AddPlaylist(s.library, id, CreatedName(job), 0), created := s.created + [id],
               phase := Reconciling(id, s.row.next));
    case Reconciling(id, next) =>
      assert Prefix(job, s.library, id);
      if next < |job.matched| {
        step, s' := ReadEntry, s.(phase := AfterRead(job, s));
        ReadKeepsInv(job, s, s');
      } else {
        step, s' := Finish, s.(phase := Idle, row := Row(Completed, "", id, next));
      }
    case Appending(id, next) =>
      assert Prefix(job, s.library, id);
      step := Append(true);
      s' := s.(library := AddTrack(s.library, id, job.matched[next]), phase := Reconciling(id, next + 1));
  }

  lemma {:induction false} AttemptCompletes(job: Job, s: State) returns (states: seq<State>, steps: seq<Step>)
    requires Inv(job, s) && OnWay(job, s)
    ensures Completion(job, s, states, steps) && |steps| <= Remaining(job, s)
    decreases Remaining(job, s)
  {
    var step, s' := SmoothStepExists(job, s);
    SmoothStepAdvances(job, s, step, s');
    if step.Finish? {
      states, steps := [s, s'], [step];
    } else {
      var rest, labels := AttemptCompletes(job, s');
      states, steps := Preceded(job, s, step, rest, labels);
    }
  }

  /** A path of smooth steps from a state to the completed run. */
  ghost predicate Completion(job: Job, s: State, states: seq<State>, steps: seq<Step>) {
    && Path(job, states, steps) && states[0] == s
    && (forall i :: 0 <= i < |steps| ==> Smooth(steps[i]))
    && states[|steps|].row.state.Completed? && states[|steps|].phase.Idle?
  }

  lemma Preceded(job: Job, s: State, step: Step, rest: seq<State>, labels: seq<Step>)
      returns (states: seq<State>, steps: seq<Step>)
    requires |rest| > 0 && Next(job, s, step, rest[0]) && Smooth(step) && Completion(job, rest[0], rest, labels)
    ensures Completion(job, s, states, steps) && |steps| == |labels| + 1
  {
    PathLink(job, [s], [], step, rest, labels);
    states, steps := [s] + rest, [] + [step] + labels;
  }

  // ---- Completion ----

  /** However often the run was interrupted, one attempt in which nothing goes wrong completes
      it, in a number of steps linear in the account and in the tracks, if the destination is
      known, can be found or can be made. */
  lemma AnyInterruptionRecovers(job: Job, states: seq<State>, steps: seq<Step>, i: nat)
      returns (more: seq<State>, labels: seq<Step>)
    requires Run(job, states, steps) && i < |states|
    requires states[i].phase.Idle? && !states[i].row.state.Completed? && CanComplete(job, states[i])
    ensures Completion(job, states[i], more, labels)
    ensures |labels| <= 2 * |job.matched| + 5 + |states[i].library.order|
  {
    var s := states[i];
    RunInv(job, states, steps, i);
    var s' := s.(phase := if s.row.playlistId == "" then Listing(0) else Reconciling(s.row.playlistId, s.row.next));
    assert Next(job, s, Begin, s');
    InvKept(job, s, Begin, s');
    var rest, tail := AttemptCompletes(job, s');
    more, labels := Preceded(job, s, Begin, rest, tail);
  }

  /** A state of an attempt that neither finds a destination nor can make one. */
  ghost predicate Lost(job: Job, start: State, s: State) {
    && s.library == start.library && s.row == start.row
    && (s.phase.Idle? || s.phase.Listing? || (s.phase.Creating? && |s.library.order| <= REACH))
  }

  lemma FoundInReach(job: Job, s: State, size: nat, s': State)
    requires Next(job, s, ListPage(size), s') && s'.phase.Reconciling?
    ensures InReach(job, s.library, 0)
  {
    var offset := s.phase.offset;
    var page := if size == 0 then [] else s.library.order[offset..offset + size];
    FindNamedSpec(s.library, page, job.name);
    var k :| 0 <= k < |page| && page[k] == s'.phase.playlistId;
    assert IsNamed(job, s.library, s.library.order[offset + k]) && offset + k < REACH;
  }

  lemma StaysLost(job: Job, start: State, s: State, step: Step, s': State)
    requires !start.row.state.Completed? && !CanComplete(job, start)
    requires Lost(job, start, s) && Next(job, s, step, s') && Smooth(step)
    ensures Lost(job, start, s')
  {
    if step.ListPage? && s'.phase.Reconciling? {
      FoundInReach(job, s, step.size, s');
    }
  }

  lemma {:induction false} PathStaysLost(job: Job, start: State, states: seq<State>, steps: seq<Step>, n: nat)
    requires !start.row.state.Completed? && start.phase.Idle? && !CanComplete(job, start)
    requires Path(job, states, steps) && states[0] == start && n < |states|
    requires forall i :: 0 <= i < |steps| ==> Smooth(steps[i])
    ensures Lost(job, start, states[n])
  {
    if n > 0 {
      PathStaysLost(job, start, states, steps, n - 1);
      StaysLost(job, start, states[n - 1], steps[n - 1], states[n]);
    }
  }

  /** From every state at rest that interruptions can lead to, an attempt without faults can
      complete the run exactly when the destination is known, or a playlist of the name is
      within the reach of a listing, or the whole account is and the name is accepted. In an
      account within the offset limit, that is exactly when the name is accepted. */
  lemma CompletesIff(job: Job, states: seq<State>, steps: seq<Step>, i: nat)
    requires Run(job, states, steps) && i < |states|
    requires states[i].phase.Idle? && !states[i].row.state.Completed?
    ensures (exists more: seq<State>, labels: seq<Step> :: Completion(job, states[i], more, labels))
            <==> CanComplete(job, states[i])
    ensures |states[i].library.order| <= REACH ==> (CanComplete(job, states[i]) <==> AcceptsName(job))
  {
    var s := states[i];
    RunInv(job, states, steps, i);
    if CanComplete(job, s) {
      var more, labels := AnyInterruptionRecovers(job, states, steps, i);
    } else {
      forall more: seq<State>, labels: seq<Step> ensures !Completion(job, s, more, labels) {
        if Completion(job, s, more, labels) {
          PathStaysLost(job, s, more, labels, |labels|);
        }
      }
    }
    if InReach(job, s.library, 0) {
      var k :| 0 <= k < |s.library.order| && k < REACH && IsNamed(job, s.library, s.library.order[k]);
      assert s.library.order[k] in s.created;
    }
  }

  /** What is assured is possible; and in every reachable state of an account of at most 100001
      playlists, both mean that the name is accepted. */
  lemma AssuredIff(job: Job, states: seq<State>, steps: seq<Step>, i: nat)
    requires Run(job, states, steps) && i < |states|
    ensures Assured(job, states[i]) ==> CanComplete(job, states[i])
    ensures |states[i].library.order| <= 100001 ==> (Assured(job, states[i]) <==> AcceptsName(job))
  {
    var s := states[i];
    RunInv(job, states, steps, i);
    if k :| 0 <= k < |s.library.order| && k <= 100000 && IsNamed(job, s.library, s.library.order[k]) {
      assert s.library.order[k] in s.created;
      assert 0 <= k < REACH;
    }
  }

  // ---- Names ----

  /** For a preview ID of the usual length, the name survives creation exactly when the source
      playlist has a name that does not start with white space. */
  lemma StableNameIff(sourceName: string, previewId: string)
    requires |previewId| > 8
    ensures var name := DestinationName(sourceName, previewId);
            TrimSpace(name) == name <==> sourceName != "" && !IsSpace(sourceName[0])
  {
    var name := DestinationName(sourceName, previewId);
    TrimFixed(name);
    assert name[|name| - 1] == ')';
    assert IsSpace(" (transfer "[0]);
    assert name[0] == if sourceName == "" then ' ' else sourceName[0];
  }

  /** What is added to the source name. */
  function Suffix(previewId: string): string
    requires |previewId| > 8
  {
    " (transfer " + previewId[..8] + ")"
  }

  const SUFFIX_LENGTH := 20

  /** The name of a destination: the source name, and in brackets the first eight characters of
      the preview's ID. */
  lemma DestinationNameIs(sourceName: string, previewId: string)
    ensures |previewId| > 8 ==>
              var name, n := DestinationName(sourceName, previewId), |sourceName|;
              && |name| == n + 20 && name[..n] == sourceName && name[n..n + 11] == " (transfer "
              && (forall i :: 0 <= i < 8 ==> name[n + 11 + i] == previewId[i]) && name[n + 19] == ')'
    ensures |previewId| <= 8 ==> DestinationName(sourceName, previewId) == sourceName
  {
    if |previewId| > 8 {
      var name, n := DestinationName(sourceName, previewId), |sourceName|;
      assert name == sourceName + (" (transfer " + (previewId[..8] + ")"));
    }
  }

  lemma SuffixTrimmed(previewId: string)
    requires |previewId| > 8
    ensures var suffix := Suffix(previewId);
            && |suffix| == SUFFIX_LENGTH && suffix[SUFFIX_LENGTH - 1] == ')'
            && |TrimLeft(suffix)| == SUFFIX_LENGTH - 1 && TrimLeft(suffix)[SUFFIX_LENGTH - 2] == ')'
  {
    var suffix := Suffix(previewId);
    assert |" (transfer "| == 11;
    assert IsSpace(suffix[0]) && !IsSpace(suffix[1..][0]);
    assert TrimLeft(suffix[1..]) == suffix[1..];
  }

  lemma TrimRightFixed(s: string)
    requires s != "" && !IsSpace(s[|s| - 1])
    ensures TrimRight(s) == s
  {
  }

  /** The length of the name that is asked for: leading white space of the source name is lost,
      and if nothing else is left, so is the blank of the suffix. */
  lemma CreatedLength(sourceName: string, previewId: string)
    requires |previewId| > 8
    ensures |TrimSpace(DestinationName(sourceName, previewId))| ==
            SUFFIX_LENGTH + if AllSpace(sourceName) then -1 else |TrimLeft(sourceName)|
  {
    var suffix := Suffix(previewId);
    assert DestinationName(sourceName, previewId) == sourceName + suffix;
    TrimLeftBefore(sourceName, suffix);
    SuffixTrimmed(previewId);
    TrimRightFixed(TrimLeft(sourceName + suffix));
  }

  /** A destination accepts the name of a run exactly when the source name, without leading white
      space, leaves room for the suffix. */
  lemma AcceptsNameIff(job: Job, sourceName: string, previewId: string)
    requires |previewId| > 8 && job.name == DestinationName(sourceName, previewId)
    ensures AcceptsName(job) <==>
            SUFFIX_LENGTH + (if AllSpace(sourceName) then -1 else |TrimLeft(sourceName)|) <= job.nameLimit
    ensures StableName(job) ==> (AcceptsName(job) <==> |sourceName| + SUFFIX_LENGTH <= job.nameLimit)
  {
    CreatedLength(sourceName, previewId);
    StableNameIff(sourceName, previewId);
  }

  /** A run whose source name leaves no room for the suffix, that is one of more than 80 characters
      for Spotify or 235 for Apple Music, never completes: no destination can be made, and none
      is there to be found. */
  lemma LongNameNeverCompletes(job: Job, sourceName: string, previewId: string, states: seq<State>, steps: seq<Step>)
    requires |previewId| > 8 && job.name == DestinationName(sourceName, previewId)
    requires job.nameLimit in {SPOTIFY_NAME_LIMIT, APPLE_NAME_LIMIT}
    requires |sourceName| + SUFFIX_LENGTH > job.nameLimit && !IsSpace(sourceName[0])
    requires Run(job, states, steps)
    ensures !states[|steps|].row.state.Completed?
  {
    AcceptsNameIff(job, sourceName, previewId);
    StableNameIff(sourceName, previewId);
    RunInv(job, states, steps, |steps|);
  }
}
