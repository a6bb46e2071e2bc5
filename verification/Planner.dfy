/** Planning a transfer: one match per source entry, with searches memoised by a text key. */
module Planner {
  import opened Wrappers
  import opened Models
  import opened Text
  import opened Matcher

  datatype TrackQuery = TrackQuery(
    name: string, artists: seq<string>, isrc: string, durationMs: int, providerIds: map<string, string>)

  datatype SearchReply = Found(candidates: seq<Track>) | SearchUnsupported | SearchFailed(error: string)

  /** A destination whose answers depend on the query alone. */
  type Search = TrackQuery -> SearchReply

  datatype Destination = Destination(name: string, search: Search)

  // ---- Keys ----

  const BAR := '|'

  function MatchingKey(t: Track): string {
    t.id + "|" + t.name + "|" + Join(t.artists, "|") + "|" + t.isrc + "|" + Decimal(t.durationMs)
  }

  predicate BarFree(s: string) {
    BAR !in s
  }

  predicate BarFreeTrack(t: Track) {
    BarFree(t.id) && BarFree(t.name) && BarFree(t.isrc) && forall i :: 0 <= i < |t.artists| ==> BarFree(t.artists[i])
  }

  /** No artist and one unnamed artist leave the same trace in a key. */
  function ArtistParts(artists: seq<string>): seq<string> {
    if artists == [] then [""] else artists
  }

  function KeyParts(t: Track): seq<string> {
    [t.id, t.name] + ArtistParts(t.artists) + [t.isrc, Decimal(t.durationMs)]
  }

  lemma KeyJoinsParts(t: Track)
    ensures MatchingKey(t) == Join(KeyParts(t), "|")
  {
    var front := [t.id, t.name];
    var back := [t.isrc, Decimal(t.durationMs)];
    assert Join(front, "|") == t.id + "|" + t.name by { assert front[1..] == [t.name]; }
    assert Join(back, "|") == t.isrc + "|" + Decimal(t.durationMs) by { assert back[1..] == [Decimal(t.durationMs)]; }
    assert Join(ArtistParts(t.artists), "|") == Join(t.artists, "|");
    JoinConcat(front, ArtistParts(t.artists), "|");
    JoinConcat(front + ArtistParts(t.artists), back, "|");
  }

  lemma DecimalBarFree(n: int)
    ensures BarFree(Decimal(n))
  {
    assert BAR !in DIGITS && BAR !in "-";
  }

  /** The key of a track without bars splits back into its parts, although the number of
      artists is not recorded in it. */
  lemma KeyDecodes(t: Track)
    requires BarFreeTrack(t)
    ensures Split(MatchingKey(t), BAR) == KeyParts(t)
  {
    KeyJoinsParts(t);
    DecimalBarFree(t.durationMs);
    SplitJoin(KeyParts(t), BAR);
  }

  /** Tracks without bars have equal keys exactly when they agree on ID, name, ISRC, duration
      and artists, up to no artist against one unnamed artist. */
  lemma KeyInjective(s: Track, t: Track)
    requires BarFreeTrack(s) && BarFreeTrack(t)
    ensures MatchingKey(s) == MatchingKey(t) <==>
            && s.id == t.id && s.name == t.name && s.isrc == t.isrc && s.durationMs == t.durationMs
            && ArtistParts(s.artists) == ArtistParts(t.artists)
  {
    KeyJoinsParts(s);
    KeyJoinsParts(t);
    if MatchingKey(s) == MatchingKey(t) {
      KeyDecodes(s);
      KeyDecodes(t);
      var a, b := KeyParts(s), KeyParts(t);
      assert a == b;
      assert a[0] == b[0] && a[1] == b[1];
      assert a[|a| - 2] == s.isrc && b[|b| - 2] == t.isrc;
      assert a[|a| - 1] == Decimal(s.durationMs) && b[|b| - 1] == Decimal(t.durationMs);
      DecimalInjective(s.durationMs, t.durationMs);
      assert a[2..|a| - 2] == ArtistParts(s.artists) && b[2..|b| - 2] == ArtistParts(t.artists);
    }
  }

  // ---- One entry ----

  function Query(t: Track): TrackQuery {
    TrackQuery(t.name, t.artists, t.isrc, t.durationMs, t.providerIds)
  }

  function MatchFor(u: Unicode, d: Destination, source: PlaylistEntry): Result<MatchResult, string> {
    if !Eligible(source) then Success(NoMatch(Unsupported, "source_entry_unsupported"))
    else
      match d.search(Query(source.track.value))
      case Found(candidates) => Success(MatchTrack(u, source, d.name, candidates))
      case SearchUnsupported => Success(NoMatch(Unsupported, "destination_search_unsupported"))
      case SearchFailed(e) => Failure(e)
  }

  function ToPreview(source: PlaylistEntry, r: MatchResult): PreviewEntry {
    PreviewEntry(source.position, source, r.status, r.matched, r.candidates, r.reason)
  }

  // ---- The whole list ----

  type Preview = Result<seq<PreviewEntry>, string>

  function Prepend(head: seq<PreviewEntry>, rest: Preview): Preview {
    match rest
    case Success(tail) => Success(head + tail)
    case Failure(e) => Failure(e)
  }

  /** Every entry matched on its own; the first failing search ends the plan. */
  function Independent(u: Unicode, d: Destination, entries: seq<PlaylistEntry>): Preview {
    if entries == [] then Success([])
    else
      match MatchFor(u, d, entries[0])
      case Failure(e) => Failure(e)
      case Success(r) => Prepend([ToPreview(entries[0], r)], Independent(u, d, entries[1..]))
  }

  type Cache = map<string, MatchResult>

  function Memoised(u: Unicode, d: Destination, entries: seq<PlaylistEntry>, cache: Cache): Preview {
    if entries == [] then Success([])
    else
      var source := entries[0];
      if Eligible(source) && MatchingKey(source.track.value) in cache then
        Prepend([ToPreview(source, cache[MatchingKey(source.track.value)])], Memoised(u, d, entries[1..], cache))
      else
        match MatchFor(u, d, source)
        case Failure(e) => Failure(e)
        case Success(r) =>
          var cache' := if Eligible(source) then cache[MatchingKey(source.track.value) := r] else cache;
          Prepend([ToPreview(source, r)], Memoised(u, d, entries[1..], cache'))
  }

  ghost function KeyOf(source: PlaylistEntry): set<string> {
    if Eligible(source) then {MatchingKey(source.track.value)} else {}
  }

  ghost function Keys(entries: seq<PlaylistEntry>): set<string> {
    set source | source in entries && Eligible(source) :: MatchingKey(source.track.value)
  }

  lemma PrependTwice(a: seq<PreviewEntry>, b: seq<PreviewEntry>, rest: Preview)
    ensures Prepend(a, Prepend(b, rest)) == Prepend(a + b, rest)
  {
    if rest.Success? {
      assert a + (b + rest.value) == a + b + rest.value;
    }
  }

  /** The cache after an entry has been planned. */
  ghost function Remember(u: Unicode, d: Destination, source: PlaylistEntry, cache: Cache): Cache {
    if Eligible(source) && MatchingKey(source.track.value) !in cache && MatchFor(u, d, source).Success?
    then cache[MatchingKey(source.track.value) := MatchFor(u, d, source).value]
    else cache
  }

  /** One entry: an earlier result for its key, or a new search. */
  method PlanEntry(u: Unicode, d: Destination, source: PlaylistEntry, cache: Cache)
      returns (result: Result<MatchResult, string>, cache': Cache, searched: bool)
    ensures searched <==> Eligible(source) && MatchingKey(source.track.value) !in cache
    ensures result == Planned(u, d, source, cache)
    ensures cache' == Remember(u, d, source, cache)
    ensures result.Success? ==> cache'.Keys == cache.Keys + KeyOf(source)
  {
    result, cache', searched := Success(NoMatch(Unsupported, "source_entry_unsupported")), cache, false;
    if Eligible(source) {
      var key := MatchingKey(source.track.value);
      if key in cache {
        result := Success(cache[key]);
      } else {
        searched := true;
        match d.search(Query(source.track.value)) {
          case Found(candidates) => result := Success(MatchTrack(u, source, d.name, candidates));
          case SearchUnsupported => result := Success(NoMatch(Unsupported, "destination_search_unsupported"));
          case SearchFailed(e) => return Failure(e), cache, true;
        }
        cache' := cache[key := result.value];
      }
    }
  }

  /** The first i entries are planned; the rest remains to be. */
  ghost predicate PlannedUpTo(u: Unicode, d: Destination, entries: seq<PlaylistEntry>, i: nat, cache: Cache,
          results: seq<PreviewEntry>)
    requires i <= |entries|
  {
    Memoised(u, d, entries, map[]) == Prepend(results, Memoised(u, d, entries[i..], cache))
  }

  /** One search was made for each of the keys. */
  ghost predicate Searched(keys: set<string>, searched: seq<string>) {
    && (forall i, j :: 0 <= i < j < |searched| ==> searched[i] != searched[j])
    && (forall key :: key in searched <==> key in keys)
  }

  /** The planning loop. It performs one search per distinct key, recorded in order. */
  method CreatePreview(u: Unicode, d: Destination, entries: seq<PlaylistEntry>)
      returns (preview: Preview, searched: seq<string>)
    ensures preview == Memoised(u, d, entries, map[])
    ensures forall i, j :: 0 <= i < j < |searched| ==> searched[i] != searched[j]
    ensures forall key :: key in searched ==> key in Keys(entries)
    ensures preview.Success? ==> forall key :: key in Keys(entries) ==> key in searched
  {
    var results: seq<PreviewEntry> := [];
    var cache: Cache := map[];
    searched := [];
    PlanStarts(u, d, entries);
    for i := 0 to |entries|
      invariant PlannedUpTo(u, d, entries, i, cache, results)
      invariant Searched(cache.Keys, searched) && cache.Keys == Keys(entries[..i])
    {
      var source := entries[i];
      var result, cache', isNew := PlanEntry(u, d, source, cache);
      PlanAdvances(u, d, entries, i, cache, results);
      KeysStep(entries[..i], source);
      KeysMonotone(entries, i + 1);
      assert entries[..i + 1] == entries[..i] + [source];
      if isNew {
        SearchedAnew(cache.Keys, searched, MatchingKey(source.track.value));
        searched := searched + [MatchingKey(source.track.value)];
      }
      if result.Failure? {
        return Failure(result.error), searched;
      }
      cache := cache';
      results := results + [ToPreview(source, result.value)];
    }
    PlanEnds(u, d, entries, cache, results);
    preview := Success(results);
  }

  lemma PlanStarts(u: Unicode, d: Destination, entries: seq<PlaylistEntry>)
    ensures PlannedUpTo(u, d, entries, 0, map[], [])
    ensures Keys(entries[..0]) == {}
  {
    PrependNothing(Memoised(u, d, entries, map[]));
    assert entries[0..] == entries;
  }

  lemma PlanAdvances(u: Unicode, d: Destination, entries: seq<PlaylistEntry>, i: nat, cache: Cache,
          results: seq<PreviewEntry>)
    requires i < |entries| && PlannedUpTo(u, d, entries, i, cache, results)
    ensures match Planned(u, d, entries[i], cache)
            case Failure(e) => Memoised(u, d, entries, map[]) == Failure(e)
            case Success(r) =>
              PlannedUpTo(u, d, entries, i + 1, Remember(u, d, entries[i], cache),
                          results + [ToPreview(entries[i], r)])
  {
    MemoisedUnfolds(u, d, entries, i, cache);
    var planned := Planned(u, d, entries[i], cache);
    if planned.Success? {
      var rest := Memoised(u, d, entries[i + 1..], Remember(u, d, entries[i], cache));
      PrependTwice(results, [ToPreview(entries[i], planned.value)], rest);
    }
  }

  lemma PlanEnds(u: Unicode, d: Destination, entries: seq<PlaylistEntry>, cache: Cache, results: seq<PreviewEntry>)
    requires PlannedUpTo(u, d, entries, |entries|, cache, results)
    ensures Memoised(u, d, entries, map[]) == Success(results)
    ensures Keys(entries[..|entries|]) == Keys(entries)
  {
    assert entries[..|entries|] == entries && results + [] == results;
  }

  lemma SearchedAnew(keys: set<string>, searched: seq<string>, key: string)
    requires Searched(keys, searched) && key !in keys
    ensures Searched(keys + {key}, searched + [key])
  {
  }

  /** What planning one entry contributes to the plan. */
  function Planned(u: Unicode, d: Destination, source: PlaylistEntry, cache: Cache): Result<MatchResult, string> {
    if Eligible(source) && MatchingKey(source.track.value) in cache then Success(cache[MatchingKey(source.track.value)])
    else MatchFor(u, d, source)
  }

  lemma MemoisedUnfolds(u: Unicode, d: Destination, entries: seq<PlaylistEntry>, i: nat, cache: Cache)
    requires i < |entries|
    ensures Memoised(u, d, entries[i..], cache) ==
            match Planned(u, d, entries[i], cache)
            case Failure(e) => Failure(e)
            case Success(r) =>
              Prepend([ToPreview(entries[i], r)], Memoised(u, d, entries[i + 1..], Remember(u, d, entries[i], cache)))
  {
    assert entries[i..][1..] == entries[i + 1..];
  }

  lemma PrependNothing(rest: Preview)
    ensures Prepend([], rest) == rest
  {
    if rest.Success? {
      assert [] + rest.value == rest.value;
    }
  }

  lemma KeysStep(entries: seq<PlaylistEntry>, source: PlaylistEntry)
    ensures Keys(entries + [source]) == Keys(entries) + KeyOf(source)
  {
    var all := entries + [source];
    assert forall e :: e in all <==> e in entries || e == source;
  }

  lemma KeysMonotone(entries: seq<PlaylistEntry>, i: nat)
    requires i <= |entries|
    ensures Keys(entries[..i]) <= Keys(entries)
  {
    assert forall e :: e in entries[..i] ==> e in entries;
  }

  // ---- When memoising is invisible ----

  /** The cache never answers an entry with another entry's match. */
  ghost predicate CacheAgrees(u: Unicode, d: Destination, entries: seq<PlaylistEntry>, cache: Cache) {
    forall source :: source in entries && Eligible(source) && MatchingKey(source.track.value) in cache ==>
      MatchFor(u, d, source) == Success(cache[MatchingKey(source.track.value)])
  }

  ghost predicate SameKeySameMatch(u: Unicode, d: Destination, entries: seq<PlaylistEntry>) {
    forall s, t | s in entries && t in entries && Eligible(s) && Eligible(t)
                  && MatchingKey(s.track.value) == MatchingKey(t.track.value) :: MatchFor(u, d, s) == MatchFor(u, d, t)
  }

  lemma {:induction false} MemoisedIsIndependent(u: Unicode, d: Destination, entries: seq<PlaylistEntry>, cache: Cache)
    requires SameKeySameMatch(u, d, entries) && CacheAgrees(u, d, entries, cache)
    ensures Memoised(u, d, entries, cache) == Independent(u, d, entries)
  {
    if entries != [] {
      var source, rest := entries[0], entries[1..];
      assert source in entries && forall e :: e in rest ==> e in entries;
      var r := MatchFor(u, d, source);
      if r.Success? {
        var cache' := if Eligible(source) then cache[MatchingKey(source.track.value) := r.value] else cache;
        assert Eligible(source) && MatchingKey(source.track.value) in cache ==> cache' == cache;
        MemoisedIsIndependent(u, d, rest, cache');
      }
    }
  }

  /** Equal keys stand for equal queries. */
  ghost predicate FaithfulKeys(entries: seq<PlaylistEntry>) {
    forall s, t | s in entries && t in entries && Eligible(s) && Eligible(t)
                  && MatchingKey(s.track.value) == MatchingKey(t.track.value) ::
      Query(s.track.value) == Query(t.track.value)
  }

  lemma SameQuerySameMatch(u: Unicode, d: Destination, s: PlaylistEntry, t: PlaylistEntry)
    requires Eligible(s) && Eligible(t) && Query(s.track.value) == Query(t.track.value)
    ensures MatchFor(u, d, s) == MatchFor(u, d, t)
  {
    match d.search(Query(s.track.value))
    case Found(candidates) =>
      SameDecision(u, s.track.value, t.track.value, d.name, candidates);
    case _ =>
  }

  lemma {:induction false} SameFilter(tracks: seq<Track>, f: Track -> bool, g: Track -> bool)
    requires forall t :: f(t) == g(t)
    ensures Filter(tracks, f) == Filter(tracks, g)
  {
    if tracks != [] {
      SameFilter(tracks[1..], f, g);
    }
  }

  /** What matching reads of a source besides its duration: its ID at the destination, the key
      of its ISRC, and its name and artists as normalised. */
  datatype Features = Features(target: string, isrc: Option<string>, metadata: Option<(string, set<string>)>)

  function FeaturesOf(u: Unicode, destination: string, t: Track): Features {
    Features(
      TrimSpace(Lookup(t.providerIds, destination)),
      if t.isrc == "" then None else Some(IsrcKey(u, t.isrc)),
      if Normalize(u, t.name) == "" || ArtistSet(u, t) == {} then None
      else Some((Normalize(u, t.name), ArtistSet(u, t))))
  }

  function ArtistSet(u: Unicode, t: Track): set<string> {
    set artist | artist in NormalArtists(u, t.artists)
  }

  /** Sources with equal features have the same evidence in every candidate. */
  lemma SameEvidence(u: Unicode, s: Track, t: Track, destination: string, x: Track)
    requires FeaturesOf(u, destination, s) == FeaturesOf(u, destination, t)
    ensures ProviderEvidence(s, destination, x) == ProviderEvidence(t, destination, x)
    ensures IsrcEvidence(u, s, x) == IsrcEvidence(u, t, x)
    ensures MetadataEvidence(u, s, x) == MetadataEvidence(u, t, x)
  {
    MetadataByFeatures(u, destination, s, x);
    MetadataByFeatures(u, destination, t, x);
  }

  lemma MetadataByFeatures(u: Unicode, destination: string, s: Track, x: Track)
    ensures var metadata := FeaturesOf(u, destination, s).metadata;
            MetadataEvidence(u, s, x) <==>
              && metadata.Some? && Normalize(u, x.name) == metadata.value.0
              && exists artist :: artist in metadata.value.1 && artist in NormalArtists(u, x.artists)
  {
    forall artist ensures artist in NormalArtists(u, s.artists) <==> artist in ArtistSet(u, s) {
    }
  }

  /** Equal features and durations give the same decision. */
  lemma SameDecision(u: Unicode, s: Track, t: Track, destination: string, candidates: seq<Track>)
    requires s.durationMs == t.durationMs && FeaturesOf(u, destination, s) == FeaturesOf(u, destination, t)
    ensures Decide(u, s, destination, UniqueTracks(candidates)) == Decide(u, t, destination, UniqueTracks(candidates))
  {
    var unique := UniqueTracks(candidates);
    forall x {
      SameEvidence(u, s, t, destination, x);
    }
    SameFilter(unique, x => ProviderEvidence(s, destination, x), x => ProviderEvidence(t, destination, x));
    SameFilter(unique, x => IsrcEvidence(u, s, x), x => IsrcEvidence(u, t, x));
    SameFilter(unique, x => MetadataEvidence(u, s, x), x => MetadataEvidence(u, t, x));
    var meta := ByMetadata(u, s, unique);
    assert meta == ByMetadata(u, t, unique);
    SameFilter(meta, x => DurationEvidence(s, x), x => DurationEvidence(t, x));
  }

  ghost function FinalCache(u: Unicode, d: Destination, entries: seq<PlaylistEntry>, cache: Cache): Cache {
    if entries == [] then cache else FinalCache(u, d, entries[1..], Remember(u, d, entries[0], cache))
  }

  lemma {:induction false} FinalCacheKeeps(u: Unicode, d: Destination, entries: seq<PlaylistEntry>, cache: Cache,
          key: string)
    requires key in cache
    ensures key in FinalCache(u, d, entries, cache) && FinalCache(u, d, entries, cache)[key] == cache[key]
  {
    if entries != [] {
      FinalCacheKeeps(u, d, entries[1..], Remember(u, d, entries[0], cache), key);
    }
  }

  /** The match that a preview entry records. */
  function ResultIn(p: PreviewEntry): MatchResult {
    MatchResult(p.status, p.matched, p.candidates, p.reason)
  }

  lemma MemoisedStep(u: Unicode, d: Destination, entries: seq<PlaylistEntry>, cache: Cache)
    requires entries != [] && Memoised(u, d, entries, cache).Success?
    ensures var rest := Memoised(u, d, entries[1..], Remember(u, d, entries[0], cache));
            var out := Memoised(u, d, entries, cache).value;
            && rest.Success? && out == [out[0]] + rest.value
            && (Eligible(entries[0]) ==>
                  && MatchingKey(entries[0].track.value) in Remember(u, d, entries[0], cache)
                  && ResultIn(out[0]) == Remember(u, d, entries[0], cache)[MatchingKey(entries[0].track.value)])
  {
  }

  /** A planned entry carries the result remembered for its key. */
  ghost predicate Carries(source: PlaylistEntry, p: PreviewEntry, cache: Cache) {
    Eligible(source) ==>
      MatchingKey(source.track.value) in cache && ResultIn(p) == cache[MatchingKey(source.track.value)]
  }

  lemma HeadCarries(u: Unicode, d: Destination, entries: seq<PlaylistEntry>, cache: Cache)
    requires entries != [] && Memoised(u, d, entries, cache).Success?
    ensures Memoised(u, d, entries, cache).value != []
    ensures Carries(entries[0], Memoised(u, d, entries, cache).value[0], FinalCache(u, d, entries, cache))
  {
    MemoisedStep(u, d, entries, cache);
    if Eligible(entries[0]) {
      FinalCacheKeeps(u, d, entries[1..], Remember(u, d, entries[0], cache), MatchingKey(entries[0].track.value));
    }
  }

  /** Every planned entry does. */
  lemma {:induction false} MemoReadsFinalCache(u: Unicode, d: Destination, entries: seq<PlaylistEntry>, cache: Cache)
    requires Memoised(u, d, entries, cache).Success?
    ensures |Memoised(u, d, entries, cache).value| == |entries|
    ensures forall i :: 0 <= i < |entries| ==>
              Carries(entries[i], Memoised(u, d, entries, cache).value[i], FinalCache(u, d, entries, cache))
  {
    if entries != [] {
      var rest, cache' := entries[1..], Remember(u, d, entries[0], cache);
      HeadCarries(u, d, entries, cache);
      MemoisedStep(u, d, entries, cache);
      MemoReadsFinalCache(u, d, rest, cache');
      var out, tail := Memoised(u, d, entries, cache).value, Memoised(u, d, rest, cache').value;
      var final := FinalCache(u, d, entries, cache);
      forall i | 0 < i < |entries| ensures Carries(entries[i], out[i], final) {
        assert entries[i] == rest[i - 1] && out[i] == tail[i - 1];
        assert Carries(rest[i - 1], tail[i - 1], final);
      }
    }
  }

  /** A plan covers the entries one for one, in order, with their own positions. */
  lemma {:induction false} IndependentAligned(u: Unicode, d: Destination, entries: seq<PlaylistEntry>)
    requires Independent(u, d, entries).Success?
    ensures var out := Independent(u, d, entries).value;
            && |out| == |entries|
            && forall i :: 0 <= i < |entries| ==>
                 MatchFor(u, d, entries[i]).Success? && Records(out[i], entries[i], MatchFor(u, d, entries[i]).value)
  {
    if entries != [] {
      IndependentAligned(u, d, entries[1..]);
      var out := Independent(u, d, entries).value;
      var tail := Independent(u, d, entries[1..]).value;
      forall i | 0 < i < |entries|
        ensures MatchFor(u, d, entries[i]).Success? && Records(out[i], entries[i], MatchFor(u, d, entries[i]).value)
      {
        assert entries[i] == entries[1..][i - 1] && out[i] == tail[i - 1];
      }
    }
  }

  /** A preview entry says of its source entry what the match says. */
  ghost predicate Records(p: PreviewEntry, source: PlaylistEntry, r: MatchResult) {
    && p.source == source && p.position == source.position
    && ResultIn(p) == r
  }

  /** What is planned for an entry: nothing is searched for one that is not a track or not
      available; otherwise all that a search for its own name, artists, ISRC, duration and IDs
      finds is weighed. */
  lemma MatchForIs(u: Unicode, d: Destination, source: PlaylistEntry)
    ensures source.track.None? || source.unsupported || source.unavailable ==>
              MatchFor(u, d, source) == Success(MatchResult(Unsupported, None, [], "source_entry_unsupported"))
    ensures source.track.Some? && !source.unsupported && !source.unavailable ==>
              var t := source.track.value;
              match d.search(TrackQuery(t.name, t.artists, t.isrc, t.durationMs, t.providerIds))
              case Found(candidates) => MatchFor(u, d, source) == Success(MatchTrack(u, source, d.name, candidates))
              case SearchUnsupported =>
                MatchFor(u, d, source) == Success(MatchResult(Unsupported, None, [], "destination_search_unsupported"))
              case SearchFailed(e) => MatchFor(u, d, source) == Failure(e)
  {
  }

  /** The search for entry i fails, and none before it does. */
  ghost predicate FailsFirst(d: Destination, entries: seq<PlaylistEntry>, i: nat, error: string) {
    && i < |entries| && SearchFails(d, entries[i], error)
    && forall j, e :: 0 <= j < i ==> !SearchFails(d, entries[j], e)
  }

  ghost predicate SearchFails(d: Destination, source: PlaylistEntry, error: string) {
    Eligible(source) && d.search(Query(source.track.value)) == SearchFailed(error)
  }

  /** A plan fails exactly by its first failing search, with its error. */
  lemma {:induction false} PlanFailsIff(u: Unicode, d: Destination, entries: seq<PlaylistEntry>, error: string)
    ensures Independent(u, d, entries) == Failure(error) <==> exists i: nat :: FailsFirst(d, entries, i, error)
  {
    if entries != [] {
      var rest := entries[1..];
      PlanFailsIff(u, d, rest, error);
      if i: nat :| FailsFirst(d, rest, i, error) {
        if MatchFor(u, d, entries[0]).Success? {
          assert forall j :: 0 < j <= i ==> entries[j] == rest[j - 1];
          assert FailsFirst(d, entries, i + 1, error);
        }
      }
      if i: nat :| FailsFirst(d, entries, i, error) {
        if i > 0 {
          assert forall e :: !SearchFails(d, entries[0], e);
          assert forall j :: 0 <= j < i ==> rest[j] == entries[j + 1];
          assert FailsFirst(d, rest, i - 1, error);
        }
      }
      if MatchFor(u, d, entries[0]).Failure? {
        assert FailsFirst(d, entries, 0, MatchFor(u, d, entries[0]).error);
      }
    }
  }

  lemma {:induction false} NeverFailing(u: Unicode, d: Destination, entries: seq<PlaylistEntry>, cache: Cache)
    requires forall q :: !d.search(q).SearchFailed?
    ensures Memoised(u, d, entries, cache).Success? && Independent(u, d, entries).Success?
  {
    if entries != [] {
      var source := entries[0];
      NeverFailing(u, d, entries[1..], Remember(u, d, source, cache));
    }
  }

  /** Two entries that share a key but not a match: the plan gives one of them the other's. */
  lemma DifferenceExposed(u: Unicode, d: Destination, entries: seq<PlaylistEntry>, s: PlaylistEntry, t: PlaylistEntry)
    requires s in entries && t in entries && Eligible(s) && Eligible(t)
    requires MatchingKey(s.track.value) == MatchingKey(t.track.value)
    requires (forall q :: !d.search(q).SearchFailed?) && MatchFor(u, d, s) != MatchFor(u, d, t)
    ensures Memoised(u, d, entries, map[]) != Independent(u, d, entries)
  {
    NeverFailing(u, d, entries, map[]);
    var i :| 0 <= i < |entries| && entries[i] == s;
    var j :| 0 <= j < |entries| && entries[j] == t;
    MemoReadsFinalCache(u, d, entries, map[]);
    IndependentAligned(u, d, entries);
    var memoised, alone := Memoised(u, d, entries, map[]).value, Independent(u, d, entries).value;
    var final := FinalCache(u, d, entries, map[]);
    assert Carries(s, memoised[i], final) && Carries(t, memoised[j], final);
    assert Records(alone[i], s, MatchFor(u, d, s).value) && Records(alone[j], t, MatchFor(u, d, t).value);
    assert ResultIn(memoised[i]) == ResultIn(memoised[j]);
  }

  /** Two entries that share a key but not a query: some destination tells them apart. */
  lemma CollisionExposed(u: Unicode, name: string, entries: seq<PlaylistEntry>, s: PlaylistEntry, t: PlaylistEntry)
      returns (d: Destination)
    requires s in entries && t in entries && Eligible(s) && Eligible(t)
    requires MatchingKey(s.track.value) == MatchingKey(t.track.value) && Query(s.track.value) != Query(t.track.value)
    ensures d.name == name && Memoised(u, d, entries, map[]) != Independent(u, d, entries)
  {
    var query := Query(s.track.value);
    d := Destination(name, q => if q == query then Found([]) else SearchUnsupported);
    assert UniqueTracks([]) == [];
    assert MatchFor(u, d, s).value.status == Missing && MatchFor(u, d, t).value.status == Unsupported;
    DifferenceExposed(u, d, entries, s, t);
  }

  /** Over all destinations, the memoised plan equals matching every entry on its own
      exactly when equal keys stand for equal queries. */
  lemma CacheTransparentIff(u: Unicode, name: string, entries: seq<PlaylistEntry>)
    ensures (forall search: Search :: var d := Destination(name, search);
               Memoised(u, d, entries, map[]) == Independent(u, d, entries))
            <==> FaithfulKeys(entries)
  {
    if FaithfulKeys(entries) {
      forall search: Search
        ensures var d := Destination(name, search); Memoised(u, d, entries, map[]) == Independent(u, d, entries)
      {
        var d := Destination(name, search);
        forall s, t | s in entries && t in entries && Eligible(s) && Eligible(t)
                      && MatchingKey(s.track.value) == MatchingKey(t.track.value)
          ensures MatchFor(u, d, s) == MatchFor(u, d, t)
        {
          SameQuerySameMatch(u, d, s, t);
        }
        MemoisedIsIndependent(u, d, entries, map[]);
      }
    } else {
      var s, t :| s in entries && t in entries && Eligible(s) && Eligible(t)
        && MatchingKey(s.track.value) == MatchingKey(t.track.value) && Query(s.track.value) != Query(t.track.value);
      var d := CollisionExposed(u, name, entries, s, t);
      assert d == Destination(name, d.search);
    }
  }
}
