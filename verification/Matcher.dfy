/** Choosing the destination recording for one source entry. */
module Matcher {
  import opened Wrappers
  import opened Models
  import opened Text

  const DURATION_TOLERANCE_MS := 2500

  // ---- Deduplication and ordering of candidates ----

  /** Byte-wise string order. */
  predicate Less(a: string, b: string) {
    b != "" && (a == "" || a[0] < b[0] || (a[0] == b[0] && Less(a[1..], b[1..])))
  }

  lemma {:induction false} LessTotal(a: string, b: string)
    ensures a == b || Less(a, b) || Less(b, a)
    ensures !(Less(a, b) && Less(b, a)) && !Less(a, a)
  {
    if a != "" {
      LessTotal(a[1..], a[1..]);
      if b != "" {
        LessTotal(a[1..], b[1..]);
        assert a == [a[0]] + a[1..] && b == [b[0]] + b[1..];
      }
    }
  }

  lemma {:induction false} LessTransitive(a: string, b: string, c: string)
    requires Less(a, b) && Less(b, c)
    ensures Less(a, c)
  {
    if a != "" && a[0] == b[0] == c[0] {
      LessTransitive(a[1..], b[1..], c[1..]);
    }
  }

  // The first track of every non-blank ID not seen before.
  function Dedupe(tracks: seq<Track>, seen: set<string>): seq<Track> {
    if tracks == [] then []
    else if tracks[0].id == "" || tracks[0].id in seen then Dedupe(tracks[1..], seen)
    else [tracks[0]] + Dedupe(tracks[1..], seen + {tracks[0].id})
  }

  function Insert(t: Track, sorted: seq<Track>): seq<Track> {
    if sorted == [] || !Less(sorted[0].id, t.id) then [t] + sorted
    else [sorted[0]] + Insert(t, sorted[1..])
  }

  // A stable sort by ID.
  function SortById(tracks: seq<Track>): seq<Track> {
    if tracks == [] then [] else Insert(tracks[0], SortById(tracks[1..]))
  }

  function UniqueTracks(candidates: seq<Track>): seq<Track> {
    SortById(Dedupe(candidates, {}))
  }

  ghost predicate Ascending(tracks: seq<Track>) {
    forall i, j :: 0 <= i < j < |tracks| ==> Less(tracks[i].id, tracks[j].id)
  }

  /** Position i is where its non-blank ID first occurs. */
  ghost predicate FirstAt(tracks: seq<Track>, i: int) {
    && 0 <= i < |tracks| && tracks[i].id != ""
    && forall j :: 0 <= j < i ==> tracks[j].id != tracks[i].id
  }

  ghost predicate IsFirst(tracks: seq<Track>, t: Track) {
    exists i :: FirstAt(tracks, i) && tracks[i] == t
  }

  ghost predicate DistinctIds(tracks: seq<Track>) {
    forall i, j :: 0 <= i < j < |tracks| ==> tracks[i].id != tracks[j].id
  }

  lemma {:induction false} DedupeFirsts(tracks: seq<Track>, seen: set<string>)
    ensures DistinctIds(Dedupe(tracks, seen))
    ensures forall t :: t in Dedupe(tracks, seen) <==> IsFirst(tracks, t) && t.id !in seen
  {
    if tracks != [] {
      var head, tail := tracks[0], tracks[1..];
      var skip := head.id == "" || head.id in seen;
      DedupeFirsts(tail, if skip then seen else seen + {head.id});
      forall t ensures IsFirst(tracks, t) <==> (t == head && t.id != "") || (IsFirst(tail, t) && t.id != head.id) {
        FirstOfCons(tracks, t);
      }
    }
  }

  /** The first occurrences of a list: its head, and those of its tail with another ID. */
  lemma FirstOfCons(tracks: seq<Track>, t: Track)
    requires tracks != []
    ensures IsFirst(tracks, t) <==> (t == tracks[0] && t.id != "") || (IsFirst(tracks[1..], t) && t.id != tracks[0].id)
  {
    var tail := tracks[1..];
    if IsFirst(tracks, t) {
      var i :| FirstAt(tracks, i) && tracks[i] == t;
      if i > 0 {
        assert FirstAt(tail, i - 1) && tail[i - 1] == t;
      }
    }
    if t == tracks[0] && t.id != "" {
      assert FirstAt(tracks, 0);
    }
    if IsFirst(tail, t) && t.id != tracks[0].id {
      var i :| FirstAt(tail, i) && tail[i] == t;
      assert FirstAt(tracks, i + 1) && tracks[i + 1] == t;
    }
  }

  lemma {:induction false} InsertSorted(t: Track, sorted: seq<Track>)
    requires Ascending(sorted) && forall x :: x in sorted ==> x.id != t.id
    ensures Ascending(Insert(t, sorted))
    ensures forall x :: x in Insert(t, sorted) <==> x == t || x in sorted
  {
    if sorted != [] {
      LessTotal(sorted[0].id, t.id);
      if Less(sorted[0].id, t.id) {
        InsertSorted(t, sorted[1..]);
        assert forall x :: x in Insert(t, sorted[1..]) ==> Less(sorted[0].id, x.id);
      } else {
        forall i | 0 <= i < |sorted| ensures Less(t.id, sorted[i].id) {
          if i > 0 {
            LessTransitive(t.id, sorted[0].id, sorted[i].id);
          }
        }
      }
    }
  }

  lemma {:induction false} SortSorts(tracks: seq<Track>)
    requires DistinctIds(tracks)
    ensures Ascending(SortById(tracks))
    ensures forall x :: x in SortById(tracks) <==> x in tracks
  {
    if tracks != [] {
      SortSorts(tracks[1..]);
      InsertSorted(tracks[0], SortById(tracks[1..]));
    }
  }

  /** The deduplicated list is strictly ascending by ID and holds exactly the first
      occurrence of every non-blank ID. */
  lemma UniqueTracksSpec(candidates: seq<Track>)
    ensures Ascending(UniqueTracks(candidates))
    ensures forall t :: t in UniqueTracks(candidates) <==> IsFirst(candidates, t)
  {
    DedupeFirsts(candidates, {});
    SortSorts(Dedupe(candidates, {}));
  }

  lemma HeadIsMember(tracks: seq<Track>)
    ensures tracks != [] ==> tracks[0] in tracks
  {
  }

  /** A strictly ascending list is determined by its members. */
  lemma {:induction false} AscendingDetermined(a: seq<Track>, b: seq<Track>)
    requires Ascending(a) && Ascending(b) && forall t :: t in a <==> t in b
    ensures a == b
  {
    HeadIsMember(a);
    HeadIsMember(b);
    if a != [] {
      LessTotal(a[0].id, b[0].id);
      assert a[0] == b[0];
      LessTotal(a[0].id, a[0].id);
      forall t ensures t in a[1..] <==> t in b[1..] {
        assert a == [a[0]] + a[1..] && b == [b[0]] + b[1..];
        assert t in a <==> t in b;
      }
      AscendingDetermined(a[1..], b[1..]);
    }
  }

  /** Candidates that share a non-blank ID are the same record. */
  ghost predicate Agreeing(candidates: seq<Track>) {
    forall s, t :: s in candidates && t in candidates && s.id == t.id && s.id != "" ==> s == t
  }

  ghost predicate Permutes(a: seq<Track>, b: seq<Track>) {
    multiset(a) == multiset(b)
  }

  lemma PermutedMembers(a: seq<Track>, b: seq<Track>)
    requires Permutes(a, b)
    ensures forall t :: t in a <==> t in b
  {
    forall t ensures t in a <==> t in b {
      assert t in a <==> t in multiset(a);
      assert t in b <==> t in multiset(b);
    }
  }

  /** When records with one ID agree, every member with an ID is a first occurrence. */
  lemma {:induction false} AgreeingFirsts(candidates: seq<Track>, t: Track)
    requires Agreeing(candidates)
    ensures IsFirst(candidates, t) <==> t in candidates && t.id != ""
  {
    if t in candidates && t.id != "" {
      var i :| 0 <= i < |candidates| && candidates[i] == t;
      while exists j :: 0 <= j < i && candidates[j].id == t.id
        invariant 0 <= i < |candidates| && candidates[i] == t
        decreases i
      {
        var j :| 0 <= j < i && candidates[j].id == t.id;
        i := j;
      }
      assert FirstAt(candidates, i);
    }
  }

  lemma ReorderedUnique(a: seq<Track>, b: seq<Track>)
    requires Agreeing(a) && Permutes(a, b)
    ensures UniqueTracks(a) == UniqueTracks(b)
  {
    PermutedMembers(a, b);
    UniqueTracksSpec(a);
    UniqueTracksSpec(b);
    forall t ensures t in UniqueTracks(a) <==> t in UniqueTracks(b) {
      AgreeingFirsts(a, t);
      AgreeingFirsts(b, t);
    }
    AscendingDetermined(UniqueTracks(a), UniqueTracks(b));
  }

  /** Reordering the candidates never changes the deduplicated list exactly when records
      with one ID agree. */
  lemma UniqueOrderFreeIff(candidates: seq<Track>)
    ensures (forall p :: Permutes(candidates, p) ==> UniqueTracks(p) == UniqueTracks(candidates))
            <==> Agreeing(candidates)
  {
    if Agreeing(candidates) {
      forall p | Permutes(candidates, p) ensures UniqueTracks(p) == UniqueTracks(candidates) {
        ReorderedUnique(candidates, p);
      }
    } else {
      var s, t :| s in candidates && t in candidates && s.id == t.id && s.id != "" && s != t;
      var p := BroughtToFront(candidates, s);
      var q := BroughtToFront(candidates, t);
      UniqueTracksSpec(p);
      UniqueTracksSpec(q);
      assert FirstAt(p, 0) && FirstAt(q, 0);
      assert s in UniqueTracks(p) && t in UniqueTracks(q);
      OneIdOneTrack(UniqueTracks(p), s, t);
    }
  }

  lemma OneIdOneTrack(tracks: seq<Track>, s: Track, t: Track)
    requires Ascending(tracks) && s.id == t.id && s != t
    ensures !(s in tracks && t in tracks)
  {
    LessTotal(s.id, t.id);
  }

  lemma BroughtToFront(candidates: seq<Track>, t: Track) returns (p: seq<Track>)
    requires t in candidates
    ensures Permutes(candidates, p) && |p| > 0 && p[0] == t
  {
    var i :| 0 <= i < |candidates| && candidates[i] == t;
    p := [t] + (candidates[..i] + candidates[i + 1..]);
    assert candidates == candidates[..i] + [t] + candidates[i + 1..];
  }

  /** The deduplicating loop. */
  method CollectUnique(candidates: seq<Track>) returns (out: seq<Track>)
    ensures out == UniqueTracks(candidates)
  {
    var seen: set<string> := {};
    out := [];
    for i := 0 to |candidates|
      invariant Dedupe(candidates, {}) == out + Dedupe(candidates[i..], seen)
    {
      var track := candidates[i];
      assert candidates[i..][1..] == candidates[i + 1..];
      if track.id == "" || track.id in seen {
        continue;
      }
      seen := seen + {track.id};
      assert out + ([track] + Dedupe(candidates[i + 1..], seen)) == out + [track] + Dedupe(candidates[i + 1..], seen);
      out := out + [track];
    }
    assert out + [] == out;
    out := SortById(out);
  }

  // ---- Filtering ----

  function Filter(tracks: seq<Track>, allow: Track -> bool): seq<Track> {
    if tracks == [] then []
    else (if allow(tracks[0]) then [tracks[0]] else []) + Filter(tracks[1..], allow)
  }

  lemma {:induction false} FilterSpec(tracks: seq<Track>, allow: Track -> bool)
    ensures forall t :: t in Filter(tracks, allow) <==> t in tracks && allow(t)
    ensures Ascending(tracks) ==> Ascending(Filter(tracks, allow))
  {
    if tracks != [] {
      var rest := Filter(tracks[1..], allow);
      FilterSpec(tracks[1..], allow);
      if Ascending(tracks) {
        forall i | 0 <= i < |rest| ensures Less(tracks[0].id, rest[i].id) {
          assert rest[i] in rest;
        }
      }
    }
  }

  method FilterTracks(tracks: seq<Track>, allow: Track -> bool) returns (out: seq<Track>)
    ensures out == Filter(tracks, allow)
  {
    out := [];
    for i := 0 to |tracks|
      invariant Filter(tracks, allow) == out + Filter(tracks[i..], allow)
    {
      var track := tracks[i];
      assert tracks[i..][1..] == tracks[i + 1..];
      if allow(track) {
        assert out + ([track] + Filter(tracks[i + 1..], allow)) == out + [track] + Filter(tracks[i + 1..], allow);
        out := out + [track];
      } else {
        assert [] + Filter(tracks[i + 1..], allow) == Filter(tracks[i + 1..], allow);
      }
    }
    assert out + [] == out;
  }

  function NormalArtists(u: Unicode, artists: seq<string>): seq<string> {
    if artists == [] then []
    else
      var normalized := Normalize(u, artists[0]);
      (if normalized != "" then [normalized] else []) + NormalArtists(u, artists[1..])
  }

  method NormalizedArtists(u: Unicode, artists: seq<string>) returns (out: seq<string>)
    ensures out == NormalArtists(u, artists)
  {
    out := [];
    for i := 0 to |artists|
      invariant NormalArtists(u, artists) == out + NormalArtists(u, artists[i..])
    {
      var normalized := Normalize(u, artists[i]);
      var rest := NormalArtists(u, artists[i + 1..]);
      assert artists[i..][1..] == artists[i + 1..];
      if normalized != "" {
        assert out + ([normalized] + rest) == out + [normalized] + rest;
        out := out + [normalized];
      } else {
        assert [] + rest == rest;
      }
    }
    assert out + [] == out;
  }

  // ---- Evidence ----

  function Upper(u: Unicode, s: string): string {
    seq(|s|, i requires 0 <= i < |s| => u.upper(s[i]))
  }

  function IsrcKey(u: Unicode, isrc: string): string {
    Upper(u, TrimSpace(isrc))
  }

  predicate ProviderEvidence(source: Track, destination: string, t: Track) {
    var id := TrimSpace(Lookup(source.providerIds, destination));
    id != "" && (t.id == id || Lookup(t.providerIds, destination) == id)
  }

  predicate IsrcEvidence(u: Unicode, source: Track, t: Track) {
    source.isrc != "" && IsrcKey(u, t.isrc) == IsrcKey(u, source.isrc)
  }

  predicate MetadataEvidence(u: Unicode, source: Track, t: Track) {
    && Normalize(u, t.name) == Normalize(u, source.name) != ""
    && exists artist :: artist in NormalArtists(u, source.artists) && artist in NormalArtists(u, t.artists)
  }

  predicate DurationEvidence(source: Track, t: Track) {
    && source.durationMs > 0 && t.durationMs > 0
    && -DURATION_TOLERANCE_MS <= t.durationMs - source.durationMs <= DURATION_TOLERANCE_MS
  }

  // ---- The decision ----

  function NoMatch(status: MatchStatus, reason: string): MatchResult {
    MatchResult(status, None, [], reason)
  }

  function ResolveSingle(reason: string, options: seq<Track>): MatchResult {
    if |options| == 1 then MatchResult(Matched, Some(options[0]), [], reason)
    else MatchResult(Ambiguous, None, options, reason + "_ambiguous")
  }

  predicate Eligible(source: PlaylistEntry) {
    source.track.Some? && !source.unsupported && !source.unavailable
  }

  function MatchTrack(u: Unicode, source: PlaylistEntry, destination: string, candidates: seq<Track>): MatchResult {
    if !Eligible(source) then NoMatch(Unsupported, "source_entry_unsupported")
    else
      var unique := UniqueTracks(candidates);
      if unique == [] then NoMatch(Missing, "no_candidates") else Decide(u, source.track.value, destination, unique)
  }

  function Decide(u: Unicode, track: Track, destination: string, unique: seq<Track>): MatchResult {
    var byProvider := ByProvider(track, destination, unique);
    if byProvider != [] then ResolveSingle("provider_id", byProvider) else
    var byIsrc := ByIsrc(u, track, unique);
    if byIsrc != [] then ResolveSingle("isrc", byIsrc) else
    var meta := ByMetadata(u, track, unique);
    if meta == [] then NoMatch(Missing, "no_metadata_match") else
    var close := ByDuration(track, meta);
    if close != [] then ResolveSingle("metadata_duration", close)
    else MatchResult(Ambiguous, None, meta, "metadata_without_duration_confidence")
  }

  function ByProvider(track: Track, destination: string, tracks: seq<Track>): seq<Track> {
    Filter(tracks, t => ProviderEvidence(track, destination, t))
  }

  function ByIsrc(u: Unicode, track: Track, tracks: seq<Track>): seq<Track> {
    Filter(tracks, t => IsrcEvidence(u, track, t))
  }

  function ByMetadata(u: Unicode, track: Track, tracks: seq<Track>): seq<Track> {
    Filter(tracks, t => MetadataEvidence(u, track, t))
  }

  function ByDuration(track: Track, tracks: seq<Track>): seq<Track> {
    Filter(tracks, t => DurationEvidence(track, t))
  }

  /** Evidence tiers, strongest first: 0 provider ID, 1 ISRC, 2 metadata with duration. */
  const CONFIDENT_TIERS := 3

  ghost predicate Evidence(u: Unicode, source: Track, destination: string, tier: nat, t: Track) {
    match tier
    case 0 => ProviderEvidence(source, destination, t)
    case 1 => IsrcEvidence(u, source, t)
    case 2 => MetadataEvidence(u, source, t) && DurationEvidence(source, t)
    case _ => MetadataEvidence(u, source, t)
  }

  ghost predicate HasEvidence(u: Unicode, source: Track, destination: string, candidates: seq<Track>, tier: nat) {
    exists t :: IsFirst(candidates, t) && Evidence(u, source, destination, tier, t)
  }

  /** The tier that settles the outcome: the first with evidence, 3 for metadata alone, 4 for none. */
  ghost function TierReached(u: Unicode, source: Track, destination: string, candidates: seq<Track>): nat {
    if HasEvidence(u, source, destination, candidates, 0) then 0
    else if HasEvidence(u, source, destination, candidates, 1) then 1
    else if HasEvidence(u, source, destination, candidates, 2) then 2
    else if HasEvidence(u, source, destination, candidates, 3) then 3
    else 4
  }

  /** Within the deciding tier, t is the only deduplicated candidate with evidence. */
  ghost predicate Sole(u: Unicode, source: Track, destination: string, candidates: seq<Track>, tier: nat, t: Track) {
    forall x :: IsFirst(candidates, x) && Evidence(u, source, destination, tier, x) <==> x == t
  }

  lemma AscendingSole(options: seq<Track>, t: Track)
    requires Ascending(options)
    ensures options == [t] <==> forall x :: x in options <==> x == t
  {
    if forall x :: x in options <==> x == t {
      AscendingDetermined(options, [t]);
    }
  }

  /** The options are the tier's deduplicated candidates, in ID order. */
  ghost predicate Lists(u: Unicode, source: Track, destination: string, candidates: seq<Track>, tier: nat,
                        options: seq<Track>)
  {
    && Ascending(options)
    && forall x :: x in options <==> IsFirst(candidates, x) && Evidence(u, source, destination, tier, x)
  }

  /** What a list of options says about its tier. */
  lemma TierOutcome(u: Unicode, source: Track, destination: string, candidates: seq<Track>, tier: nat,
                    options: seq<Track>, reason: string, t: Track)
    requires Lists(u, source, destination, candidates, tier, options)
    ensures options != [] <==> HasEvidence(u, source, destination, candidates, tier)
    ensures ResolveSingle(reason, options).matched == Some(t) <==> Sole(u, source, destination, candidates, tier, t)
    ensures ResolveSingle(reason, options).status in {Matched, Ambiguous}
    ensures ResolveSingle(reason, options).status == Matched <==> ResolveSingle(reason, options).matched.Some?
  {
    AscendingSole(options, t);
    if options != [] {
      assert options[0] in options;
    }
  }

  lemma ProviderTier(u: Unicode, source: Track, destination: string, candidates: seq<Track>, t: Track)
    ensures var options := ByProvider(source, destination, UniqueTracks(candidates));
            && Lists(u, source, destination, candidates, 0, options)
            && (options != [] <==> HasEvidence(u, source, destination, candidates, 0))
            && (ResolveSingle("provider_id", options).matched == Some(t) <==>
                  Sole(u, source, destination, candidates, 0, t))
  {
    UniqueTracksSpec(candidates);
    FilterSpec(UniqueTracks(candidates), t => ProviderEvidence(source, destination, t));
    var options := ByProvider(source, destination, UniqueTracks(candidates));
    TierOutcome(u, source, destination, candidates, 0, options, "provider_id", t);
  }

  lemma IsrcTier(u: Unicode, source: Track, destination: string, candidates: seq<Track>, t: Track)
    ensures var options := ByIsrc(u, source, UniqueTracks(candidates));
            && Lists(u, source, destination, candidates, 1, options)
            && (options != [] <==> HasEvidence(u, source, destination, candidates, 1))
            && (ResolveSingle("isrc", options).matched == Some(t) <==> Sole(u, source, destination, candidates, 1, t))
  {
    UniqueTracksSpec(candidates);
    FilterSpec(UniqueTracks(candidates), t => IsrcEvidence(u, source, t));
    TierOutcome(u, source, destination, candidates, 1, ByIsrc(u, source, UniqueTracks(candidates)), "isrc", t);
  }

  lemma MetadataTiers(u: Unicode, source: Track, destination: string, candidates: seq<Track>, t: Track)
    ensures var meta := ByMetadata(u, source, UniqueTracks(candidates));
            var close := ByDuration(source, meta);
            && Lists(u, source, destination, candidates, 3, meta) && Lists(u, source, destination, candidates, 2, close)
            && (meta != [] <==> HasEvidence(u, source, destination, candidates, 3))
            && (close != [] <==> HasEvidence(u, source, destination, candidates, 2))
            && (close != [] ==> meta != [])
            && (ResolveSingle("metadata_duration", close).matched == Some(t) <==>
                  Sole(u, source, destination, candidates, 2, t))
  {
    var meta := ByMetadata(u, source, UniqueTracks(candidates));
    UniqueTracksSpec(candidates);
    FilterSpec(UniqueTracks(candidates), t => MetadataEvidence(u, source, t));
    FilterSpec(meta, t => DurationEvidence(source, t));
    TierOutcome(u, source, destination, candidates, 3, meta, "", t);
    TierOutcome(u, source, destination, candidates, 2, ByDuration(source, meta), "metadata_duration", t);
  }

  /** The decision is sound and complete: a track is matched exactly when the strongest tier
      with any evidence is a confident one and that track is its only candidate. So metadata
      without a close duration never matches. */
  lemma MatchDecision(u: Unicode, source: PlaylistEntry, destination: string, candidates: seq<Track>, t: Track)
    requires Eligible(source)
    ensures var r := MatchTrack(u, source, destination, candidates);
            var tier := TierReached(u, source.track.value, destination, candidates);
            && (r.matched == Some(t) <==>
                  tier < CONFIDENT_TIERS && Sole(u, source.track.value, destination, candidates, tier, t))
            && (r.status == Matched <==> r.matched.Some?)
            && (tier == 3 ==> r.status == Ambiguous)
            && (tier == 4 <==> r.status == Missing)
  {
    ProviderTier(u, source.track.value, destination, candidates, t);
    IsrcTier(u, source.track.value, destination, candidates, t);
    MetadataTiers(u, source.track.value, destination, candidates, t);
  }

  function TierReason(tier: nat): string {
    match tier
    case 0 => "provider_id"
    case 1 => "isrc"
    case 2 => "metadata_duration"
    case _ => "metadata_without_duration_confidence"
  }

  /** When the deciding tier does not single out a track, all of its candidates are handed
      back in ID order for a person to choose from; a match names its tier. */
  lemma AmbiguityListsTier(u: Unicode, source: PlaylistEntry, destination: string, candidates: seq<Track>)
    requires Eligible(source)
    ensures var r := MatchTrack(u, source, destination, candidates);
            var tier := TierReached(u, source.track.value, destination, candidates);
            && (r.status == Ambiguous ==>
                  && Lists(u, source.track.value, destination, candidates, tier, r.candidates)
                  && r.reason == TierReason(tier) + if tier < CONFIDENT_TIERS then "_ambiguous" else "")
            && (r.status == Matched ==> r.candidates == [] && r.reason == TierReason(tier))
  {
    var track := source.track.value;
    var any := BlankIsrcTrack();
    ProviderTier(u, track, destination, candidates, any);
    IsrcTier(u, track, destination, candidates, any);
    MetadataTiers(u, track, destination, candidates, any);
  }

  /** More candidates can only strengthen the evidence: the deciding tier never gets weaker. */
  lemma AppendingNeverWeakens(u: Unicode, source: Track, destination: string, candidates: seq<Track>, more: seq<Track>)
    ensures TierReached(u, source, destination, candidates + more) <= TierReached(u, source, destination, candidates)
  {
    forall tier: nat | HasEvidence(u, source, destination, candidates, tier)
      ensures HasEvidence(u, source, destination, candidates + more, tier)
    {
      var t :| IsFirst(candidates, t) && Evidence(u, source, destination, tier, t);
      var i :| FirstAt(candidates, i) && candidates[i] == t;
      assert FirstAt(candidates + more, i) && (candidates + more)[i] == t;
    }
  }

  /** Reordering candidates does not change the result when records with one ID agree. */
  lemma MatchOrderFree(u: Unicode, source: PlaylistEntry, destination: string, a: seq<Track>, b: seq<Track>)
    requires Agreeing(a) && Permutes(a, b)
    ensures MatchTrack(u, source, destination, a) == MatchTrack(u, source, destination, b)
  {
    ReorderedUnique(a, b);
  }

  // ---- Where ISRC evidence is not evidence ----

  lemma {:induction false} IsrcKeyBlank(u: Unicode, isrc: string)
    ensures IsrcKey(u, isrc) == "" <==> TrimSpace(isrc) == ""
  {
  }

  /** ISRC evidence means a code both sides really have, for every candidate, exactly when
      the source code is empty or not just white space. */
  lemma IsrcEvidenceGenuineIff(u: Unicode, source: Track)
    ensures (forall t :: IsrcEvidence(u, source, t) ==> TrimSpace(t.isrc) != "")
            <==> source.isrc == "" || TrimSpace(source.isrc) != ""
  {
    if source.isrc != "" && TrimSpace(source.isrc) == "" {
      var t := BlankIsrcTrack();
      assert IsrcEvidence(u, source, t) && TrimSpace(t.isrc) == "";
    } else {
      forall t | IsrcEvidence(u, source, t) ensures TrimSpace(t.isrc) != "" {
        IsrcKeyBlank(u, t.isrc);
        IsrcKeyBlank(u, source.isrc);
      }
    }
  }

  function BlankIsrcTrack(): Track {
    Track(APPLE_MUSIC, "x", "Some other song", ["Nobody"], "", 1, "", map[], "")
  }

  /** A source whose ISRC is one space is confidently matched to an unrelated track without an ISRC. */
  lemma BlankIsrcMatches(u: Unicode)
    ensures var track := Track(SPOTIFY, "s", "Song", ["Artist"], "", 200000, " ", map[], "");
            MatchTrack(u, PlaylistEntry(0, Some(track), None, false, false), APPLE_MUSIC, [BlankIsrcTrack()])
            == MatchResult(Matched, Some(BlankIsrcTrack()), [], "isrc")
  {
    var source := Track(SPOTIFY, "s", "Song", ["Artist"], "", 200000, " ", map[], "");
    var t := BlankIsrcTrack();
    var unique := UniqueTracks([t]);
    UniqueTracksSpec([t]);
    assert FirstAt([t], 0);
    assert forall x :: x in unique <==> x == t;
    AscendingSole(unique, t);
    assert TrimSpace(" ") == "" by { assert " "[1..] == ""; }
    assert IsrcEvidence(u, source, t);
    assert !ProviderEvidence(source, APPLE_MUSIC, t) by { assert TrimSpace("") == ""; }
    assert [t][1..] == [];
    assert Filter([t], x => ProviderEvidence(source, APPLE_MUSIC, x)) == [];
    assert Filter([t], x => IsrcEvidence(u, source, x)) == [t];
  }
}
