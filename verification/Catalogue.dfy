/** The two destinations in service search a catalogue by a text term. For them, this module
    says exactly when memoising a plan by its keys is invisible. */
module Catalogue {
  import opened Wrappers
  import opened Models
  import opened Text
  import opened Matcher
  import opened MatchRules
  import opened Planner
  import Occurrences

  // ---- Searching ----

  /** The name and the artists, or else the ISRC. */
  function SearchTerm(isrcPrefix: string, q: TrackQuery): string {
    var term := TrimSpace(q.name + " " + Join(q.artists, " "));
    if term == "" && q.isrc != "" then isrcPrefix + q.isrc else term
  }

  const SPOTIFY_ISRC_PREFIX := "isrc:"
  const APPLE_ISRC_PREFIX := ""

  /** What is searched for: name and artists with blanks in between and none around, if anything
      is left of them, and otherwise the ISRC, for Spotify marked as such. */
  lemma SearchTermIs(t: Track)
    ensures var text := t.name + " " + Join(t.artists, " ");
            && (!AllSpace(text) ==> forall isrcPrefix ::
                  TrimsTo(text, SearchTerm(isrcPrefix, Query(t))) && SearchTerm(isrcPrefix, Query(t)) != "")
            && (AllSpace(text) && t.isrc != "" ==>
                  && SearchTerm(SPOTIFY_ISRC_PREFIX, Query(t)) == "isrc:" + t.isrc
                  && SearchTerm(APPLE_ISRC_PREFIX, Query(t)) == t.isrc)
            && (AllSpace(text) && t.isrc == "" ==> forall isrcPrefix :: SearchTerm(isrcPrefix, Query(t)) == "")
  {
    var text := t.name + " " + Join(t.artists, " ");
    TrimSpaceIff(text, TrimSpace(text));
    TrimmedAwayIff(text);
    assert "" + t.isrc == t.isrc;
  }

  function CatalogueSearch(isrcPrefix: string, catalogue: string -> SearchReply): Search {
    q => var term := SearchTerm(isrcPrefix, q); if term == "" then Found([]) else catalogue(term)
  }

  /** What the matcher sees of a Spotify search result; nothing is left of one without ID and name. */
  function SpotifyResult(m: Occurrences.Media): Track {
    var e := Occurrences.FromSpotifyEntry(Occurrences.ToEntry(Occurrences.Occurrence(None, false, Some(m), None), 0));
    if e.track.Some? then e.track.value else Track("", "", "", [], "", 0, "", map[], "")
  }

  /** A track that the named service can return: Spotify, or else a service whose tracks have one
      artist each and are known by their own ID, as Apple Music. */
  ghost predicate Served(service: string, x: Track) {
    if service == SPOTIFY then exists m :: x == SpotifyResult(m)
    else x.provider == service && |x.artists| == 1 && x.providerIds == map[service := x.id]
  }

  /** The catalogue of a service: it returns tracks the service has, and never answers that it
      cannot search. */
  ghost predicate InService(service: string, catalogue: string -> SearchReply) {
    forall term ::
      && !catalogue(term).SearchUnsupported?
      && (catalogue(term).Found? ==> forall x :: x in catalogue(term).candidates ==> Served(service, x))
  }

  /** The memoised plan is the one that matches every entry on its own. */
  ghost predicate PlansAlike(u: Unicode, name: string, isrcPrefix: string, catalogue: string -> SearchReply,
                             entries: seq<PlaylistEntry>)
  {
    var d := Destination(name, CatalogueSearch(isrcPrefix, catalogue));
    Memoised(u, d, entries, map[]) == Independent(u, d, entries)
  }

  // ---- What a catalogue destination sees of an entry ----

  /** The search term and the features; nothing if there is no term, since nothing is searched. */
  function View(u: Unicode, name: string, isrcPrefix: string, t: Track): Option<(string, Features)> {
    var term := SearchTerm(isrcPrefix, Query(t));
    if term == "" then None else Some((term, FeaturesOf(u, name, t)))
  }

  /** Entries with equal keys look the same to the destination. */
  ghost predicate KeysDetermineView(u: Unicode, name: string, isrcPrefix: string, entries: seq<PlaylistEntry>) {
    forall s, t | s in entries && t in entries && Eligible(s) && Eligible(t)
                  && MatchingKey(s.track.value) == MatchingKey(t.track.value) ::
      View(u, name, isrcPrefix, s.track.value) == View(u, name, isrcPrefix, t.track.value)
  }

  lemma NoBarAfter(a: string, x: string)
    requires BarFree(x)
    ensures forall k :: |a| < k < |a| + 1 + |x| ==> (a + [BAR] + x)[k] != BAR
  {
    forall k | |a| < k < |a| + 1 + |x| ensures (a + [BAR] + x)[k] != BAR {
      assert (a + [BAR] + x)[k] == x[k - |a| - 1];
    }
  }

  lemma LastPart(a: string, x: string, b: string, y: string)
    requires a + [BAR] + x == b + [BAR] + y && BarFree(x) && BarFree(y)
    ensures x == y
  {
    var s := a + [BAR] + x;
    NoBarAfter(a, x);
    NoBarAfter(b, y);
    assert s[|a|] == BAR && s[|b|] == BAR;
    assert s[|a| + 1..] == x && s[|b| + 1..] == y;
  }

  /** The key ends in the duration, so bars or not, equal keys mean equal durations. */
  lemma KeyFixesDuration(s: Track, t: Track)
    requires MatchingKey(s) == MatchingKey(t)
    ensures s.durationMs == t.durationMs
  {
    DecimalBarFree(s.durationMs);
    DecimalBarFree(t.durationMs);
    LastPart(s.id + "|" + s.name + "|" + Join(s.artists, "|") + "|" + s.isrc, Decimal(s.durationMs),
             t.id + "|" + t.name + "|" + Join(t.artists, "|") + "|" + t.isrc, Decimal(t.durationMs));
    DecimalInjective(s.durationMs, t.durationMs);
  }

  lemma SameViewSameMatch(u: Unicode, name: string, isrcPrefix: string, catalogue: string -> SearchReply,
                          s: PlaylistEntry, t: PlaylistEntry)
    requires Eligible(s) && Eligible(t) && s.track.value.durationMs == t.track.value.durationMs
    requires View(u, name, isrcPrefix, s.track.value) == View(u, name, isrcPrefix, t.track.value)
    ensures var d := Destination(name, CatalogueSearch(isrcPrefix, catalogue)); MatchFor(u, d, s) == MatchFor(u, d, t)
  {
    var search := CatalogueSearch(isrcPrefix, catalogue);
    var reply := search(Query(s.track.value));
    assert search(Query(t.track.value)) == reply;
    if View(u, name, isrcPrefix, s.track.value).None? {
      assert UniqueTracks([]) == [];
    } else if reply.Found? {
      SameDecision(u, s.track.value, t.track.value, name, reply.candidates);
    }
  }

  lemma SameViewsPlanAlike(u: Unicode, name: string, isrcPrefix: string, catalogue: string -> SearchReply,
                           entries: seq<PlaylistEntry>)
    requires KeysDetermineView(u, name, isrcPrefix, entries)
    ensures PlansAlike(u, name, isrcPrefix, catalogue, entries)
  {
    var d := Destination(name, CatalogueSearch(isrcPrefix, catalogue));
    forall s, t | s in entries && t in entries && Eligible(s) && Eligible(t)
                  && MatchingKey(s.track.value) == MatchingKey(t.track.value)
      ensures MatchFor(u, d, s) == MatchFor(u, d, t)
    {
      KeyFixesDuration(s.track.value, t.track.value);
      SameViewSameMatch(u, name, isrcPrefix, catalogue, s, t);
    }
    MemoisedIsIndependent(u, d, entries, map[]);
  }

  // ---- One candidate that tells two sources apart ----

  /** A track as the named service lists it. */
  function Offer(service: string, id: string, name: string, artist: string, isrc: string): Track {
    Track(service, id, name, [artist], "", 1000, isrc, map[service := id], "")
  }

  lemma OfferServed(service: string, id: string, name: string, artist: string, isrc: string)
    requires id != ""
    ensures Served(service, Offer(service, id, name, artist, isrc))
  {
    var m := Occurrences.Media("track", id, name, [artist], "", 1000, isrc, "", "", false, None);
    assert service == SPOTIFY ==> Offer(service, id, name, artist, isrc) == SpotifyResult(m);
  }

  /** The decision on one candidate, by the first evidence there is. */
  lemma DecideOne(u: Unicode, s: Track, name: string, x: Track)
    ensures var r := Decide(u, s, name, [x]);
            if ProviderEvidence(s, name, x) then r.reason == "provider_id"
            else if IsrcEvidence(u, s, x) then r.reason == "isrc"
            else if !MetadataEvidence(u, s, x) then r.reason == "no_metadata_match"
            else r.reason in {"metadata_duration", "metadata_without_duration_confidence"}
  {
    FilterOne(x, t => ProviderEvidence(s, name, t));
    FilterOne(x, t => IsrcEvidence(u, s, t));
    FilterOne(x, t => MetadataEvidence(u, s, t));
    FilterOne(x, t => DurationEvidence(s, t));
  }

  lemma TargetTellsApart(u: Unicode, name: string, s: Track, t: Track) returns (x: Track)
    requires FeaturesOf(u, name, s).target != FeaturesOf(u, name, t).target
    ensures x.id != "" && Served(name, x) && Decide(u, s, name, [x]) != Decide(u, t, name, [x])
  {
    var a, b := FeaturesOf(u, name, s).target, FeaturesOf(u, name, t).target;
    x := Offer(name, if a != "" then a else b, "", "", "");
    OfferServed(name, x.id, "", "", "");
    DecideOne(u, s, name, x);
    DecideOne(u, t, name, x);
  }

  /** An ID that is neither source's ID at the destination. */
  lemma OtherId(u: Unicode, name: string, s: Track, id: string, x: Track)
    requires id == FeaturesOf(u, name, s).target + "x"
    requires x.id == id && x.providerIds == map[name := id]
    ensures !ProviderEvidence(s, name, x)
  {
    assert |id| == |FeaturesOf(u, name, s).target| + 1;
  }

  lemma IsrcTellsApart(u: Unicode, name: string, s: Track, t: Track) returns (x: Track)
    requires FeaturesOf(u, name, s).target == FeaturesOf(u, name, t).target
    requires FeaturesOf(u, name, s).isrc != FeaturesOf(u, name, t).isrc
    ensures x.id != "" && Served(name, x) && Decide(u, s, name, [x]) != Decide(u, t, name, [x])
  {
    var id := FeaturesOf(u, name, s).target + "x";
    x := Offer(name, id, "", "", if s.isrc != "" then s.isrc else t.isrc);
    OfferServed(name, id, "", "", x.isrc);
    OtherId(u, name, s, id, x);
    OtherId(u, name, t, id, x);
    DecideOne(u, s, name, x);
    DecideOne(u, t, name, x);
  }

  /** A code without evidence for the source. */
  function OtherIsrc(u: Unicode, s: Track): string {
    if IsrcKey(u, s.isrc) == "" then "x" else ""
  }

  lemma OtherIsrcIsNone(u: Unicode, name: string, s: Track, t: Track, x: Track)
    requires FeaturesOf(u, name, s).isrc == FeaturesOf(u, name, t).isrc && x.isrc == OtherIsrc(u, s)
    ensures !IsrcEvidence(u, s, x) && !IsrcEvidence(u, t, x)
  {
    TrimFixed("x");
    assert TrimSpace("") == "";
    assert |IsrcKey(u, "x")| == 1 && |IsrcKey(u, "")| == 0;
  }

  /** Metadata that one source finds in x and the other does not. */
  lemma MetadataDecides(u: Unicode, name: string, s: Track, t: Track, x: Track)
    requires var f, g := FeaturesOf(u, name, s), FeaturesOf(u, name, t); f.target == g.target && f.isrc == g.isrc
    requires |x.artists| == 1
    requires x == Offer(name, FeaturesOf(u, name, s).target + "x", x.name, x.artists[0], OtherIsrc(u, s))
    requires MetadataEvidence(u, s, x) != MetadataEvidence(u, t, x)
    ensures x.id != "" && Served(name, x) && Decide(u, s, name, [x]) != Decide(u, t, name, [x])
  {
    OfferServed(name, x.id, x.name, x.artists[0], x.isrc);
    OtherId(u, name, s, x.id, x);
    OtherId(u, name, t, x.id, x);
    OtherIsrcIsNone(u, name, s, t, x);
    DecideOne(u, s, name, x);
    DecideOne(u, t, name, x);
  }

  lemma {:induction false} NormalArtistIsFixed(u: Unicode, artists: seq<string>, a: string)
    requires u.Valid() && a in NormalArtists(u, artists)
    ensures a != "" && NormalArtists(u, [a]) == [a]
  {
    if a in NormalArtists(u, artists[1..]) {
      NormalArtistIsFixed(u, artists[1..], a);
    } else {
      NormalizeCanonical(u, artists[0]);
      assert a == Normalize(u, artists[0]);
      assert [a][1..] == [];
    }
  }

  /** One source's name and one of its artists, if the other has another name or not that artist. */
  lemma OwnMetadata(u: Unicode, name: string, s: Track, t: Track, a: string, x: Track)
    requires u.Valid() && FeaturesOf(u, name, s).metadata.Some? && a in ArtistSet(u, s)
    requires var f, g := FeaturesOf(u, name, s).metadata, FeaturesOf(u, name, t).metadata;
             g.Some? ==> g.value.0 != f.value.0 || a !in g.value.1
    requires x.name == s.name && x.artists == [a]
    ensures MetadataEvidence(u, s, x) && !MetadataEvidence(u, t, x)
  {
    NormalArtistIsFixed(u, s.artists, a);
    MetadataByFeatures(u, name, s, x);
    MetadataByFeatures(u, name, t, x);
  }

  lemma Extra(a: set<string>, b: set<string>) returns (x: string)
    requires a <= b
    ensures a == b || (x in b && x !in a)
  {
    if b <= a {
      x := "";
    } else {
      x :| x in b && x !in a;
    }
  }

  lemma MetadataTellsApart(u: Unicode, name: string, s: Track, t: Track) returns (x: Track)
    requires u.Valid()
    requires var f, g := FeaturesOf(u, name, s), FeaturesOf(u, name, t);
             f.target == g.target && f.isrc == g.isrc && f.metadata != g.metadata
    ensures x.id != "" && Served(name, x) && Decide(u, s, name, [x]) != Decide(u, t, name, [x])
  {
    var f, g := FeaturesOf(u, name, s).metadata, FeaturesOf(u, name, t).metadata;
    var id, isrc := FeaturesOf(u, name, s).target + "x", OtherIsrc(u, s);
    var a: string;
    if f.None? || (g.Some? && f.value.0 == g.value.0 && f.value.1 <= g.value.1) {
      if f.Some? {
        a := Extra(f.value.1, g.value.1);
      } else {
        a :| a in g.value.1;
      }
      x := Offer(name, id, t.name, a, isrc);
      OwnMetadata(u, name, t, s, a, x);
    } else {
      if g.Some? && f.value.0 == g.value.0 {
        a :| a in f.value.1 && a !in g.value.1;
      } else {
        a :| a in f.value.1;
      }
      x := Offer(name, id, s.name, a, isrc);
      OwnMetadata(u, name, s, t, a, x);
    }
    MetadataDecides(u, name, s, t, x);
  }

  /** Whatever feature two sources differ in, one candidate is enough to show it. */
  lemma FeaturesTellApart(u: Unicode, name: string, s: Track, t: Track) returns (x: Track)
    requires u.Valid() && FeaturesOf(u, name, s) != FeaturesOf(u, name, t)
    ensures x.id != "" && Served(name, x) && Decide(u, s, name, [x]) != Decide(u, t, name, [x])
  {
    var f, g := FeaturesOf(u, name, s), FeaturesOf(u, name, t);
    if f.target != g.target {
      x := TargetTellsApart(u, name, s, t);
    } else if f.isrc != g.isrc {
      x := IsrcTellsApart(u, name, s, t);
    } else {
      x := MetadataTellsApart(u, name, s, t);
    }
  }

  // ---- When memoising is invisible ----

  /** Different terms: a catalogue that lists a track under only one of them. */
  lemma TermsExposed(u: Unicode, name: string, isrcPrefix: string, entries: seq<PlaylistEntry>,
                     s: PlaylistEntry, t: PlaylistEntry) returns (catalogue: string -> SearchReply)
    requires s in entries && t in entries && Eligible(s) && Eligible(t)
    requires MatchingKey(s.track.value) == MatchingKey(t.track.value)
    requires var term := SearchTerm(isrcPrefix, Query(t.track.value));
             term != "" && term != SearchTerm(isrcPrefix, Query(s.track.value))
    ensures InService(name, catalogue) && !PlansAlike(u, name, isrcPrefix, catalogue, entries)
  {
    var term, x := SearchTerm(isrcPrefix, Query(t.track.value)), Offer(name, "x", "", "", "");
    OfferServed(name, "x", "", "", "");
    catalogue := q => if q == term then Found([x]) else Found([]);
    var d := Destination(name, CatalogueSearch(isrcPrefix, catalogue));
    DecideOne(u, t.track.value, name, x);
    UniqueOne(x);
    assert d.search(Query(s.track.value)) == Found([]) && d.search(Query(t.track.value)) == Found([x]);
    assert UniqueTracks([]) == [];
    assert MatchFor(u, d, s).value.reason == "no_candidates";
    DifferenceExposed(u, d, entries, s, t);
  }

  /** One term but different decisions on a track: a catalogue that lists just that track. */
  lemma DecisionExposed(u: Unicode, name: string, isrcPrefix: string, entries: seq<PlaylistEntry>,
                        s: PlaylistEntry, t: PlaylistEntry, x: Track) returns (catalogue: string -> SearchReply)
    requires s in entries && t in entries && Eligible(s) && Eligible(t)
    requires MatchingKey(s.track.value) == MatchingKey(t.track.value)
    requires SearchTerm(isrcPrefix, Query(s.track.value)) == SearchTerm(isrcPrefix, Query(t.track.value)) != ""
    requires x.id != "" && Served(name, x)
    requires Decide(u, s.track.value, name, [x]) != Decide(u, t.track.value, name, [x])
    ensures InService(name, catalogue) && !PlansAlike(u, name, isrcPrefix, catalogue, entries)
  {
    catalogue := _ => Found([x]);
    var d := Destination(name, CatalogueSearch(isrcPrefix, catalogue));
    UniqueOne(x);
    assert d.search(Query(s.track.value)) == Found([x]) && d.search(Query(t.track.value)) == Found([x]);
    DifferenceExposed(u, d, entries, s, t);
  }

  lemma ViewsExposed(u: Unicode, name: string, isrcPrefix: string, entries: seq<PlaylistEntry>,
                     s: PlaylistEntry, t: PlaylistEntry) returns (catalogue: string -> SearchReply)
    requires u.Valid() && s in entries && t in entries && Eligible(s) && Eligible(t)
    requires MatchingKey(s.track.value) == MatchingKey(t.track.value)
    requires View(u, name, isrcPrefix, s.track.value) != View(u, name, isrcPrefix, t.track.value)
    ensures InService(name, catalogue) && !PlansAlike(u, name, isrcPrefix, catalogue, entries)
  {
    var a, b := SearchTerm(isrcPrefix, Query(s.track.value)), SearchTerm(isrcPrefix, Query(t.track.value));
    if a == b {
      var x := FeaturesTellApart(u, name, s.track.value, t.track.value);
      catalogue := DecisionExposed(u, name, isrcPrefix, entries, s, t, x);
    } else if b != "" {
      catalogue := TermsExposed(u, name, isrcPrefix, entries, s, t);
    } else {
      catalogue := TermsExposed(u, name, isrcPrefix, entries, t, s);
    }
  }

  /** Over all catalogues of a service, the memoised plan equals matching every entry on its
      own exactly when entries with equal keys have equal search terms and, if there is a term,
      equal features: normalised name and artists, ISRC key and ID at the destination. */
  lemma CataloguePlanIff(u: Unicode, name: string, isrcPrefix: string, entries: seq<PlaylistEntry>)
    requires u.Valid()
    ensures (forall catalogue: string -> SearchReply ::
               InService(name, catalogue) ==> PlansAlike(u, name, isrcPrefix, catalogue, entries))
            <==> KeysDetermineView(u, name, isrcPrefix, entries)
  {
    if KeysDetermineView(u, name, isrcPrefix, entries) {
      forall catalogue: string -> SearchReply | InService(name, catalogue)
        ensures PlansAlike(u, name, isrcPrefix, catalogue, entries)
      {
        SameViewsPlanAlike(u, name, isrcPrefix, catalogue, entries);
      }
    } else {
      var s, t :| s in entries && t in entries && Eligible(s) && Eligible(t)
        && MatchingKey(s.track.value) == MatchingKey(t.track.value)
        && View(u, name, isrcPrefix, s.track.value) != View(u, name, isrcPrefix, t.track.value);
      var catalogue := ViewsExposed(u, name, isrcPrefix, entries, s, t);
      assert InService(name, catalogue);
    }
  }

  // ---- Lists for which it is ----

  /** Entries with one track ID also have one ID at the destination. */
  ghost predicate IdsDetermineTarget(destination: string, entries: seq<PlaylistEntry>) {
    forall s, t | s in entries && t in entries && Eligible(s) && Eligible(t) && s.track.value.id == t.track.value.id ::
      Lookup(s.track.value.providerIds, destination) == Lookup(t.track.value.providerIds, destination)
  }

  function SourceEntries(items: seq<Occurrences.Occurrence>): seq<PlaylistEntry> {
    seq(|items|, i requires 0 <= i < |items| => Occurrences.FromSpotifyEntry(Occurrences.ToEntry(items[i], i)))
  }

  ghost predicate BarFreeEntries(entries: seq<PlaylistEntry>) {
    forall s :: s in entries && Eligible(s) ==> BarFreeTrack(s.track.value)
  }

  /** For a catalogue destination, entries free of bars with one destination ID per track ID are
      planned as if each were matched on its own; the residual pair of no artist and one
      unnamed artist gives the same term and the same match. */
  lemma CataloguePlanTransparent(u: Unicode, name: string, isrcPrefix: string, catalogue: string -> SearchReply,
                                 entries: seq<PlaylistEntry>)
    requires u.Valid() && BarFreeEntries(entries) && IdsDetermineTarget(name, entries)
    ensures var d := Destination(name, CatalogueSearch(isrcPrefix, catalogue));
            Memoised(u, d, entries, map[]) == Independent(u, d, entries)
  {
    forall s, t | s in entries && t in entries && Eligible(s) && Eligible(t)
                  && MatchingKey(s.track.value) == MatchingKey(t.track.value)
      ensures View(u, name, isrcPrefix, s.track.value) == View(u, name, isrcPrefix, t.track.value)
    {
      KeyInjective(s.track.value, t.track.value);
      SameArtistParts(u, s.track.value.artists, t.track.value.artists);
    }
    SameViewsPlanAlike(u, name, isrcPrefix, catalogue, entries);
    assert PlansAlike(u, name, isrcPrefix, catalogue, entries);
  }

  /** A Spotify snapshot without bars in its text is always planned for Apple Music as if each
      entry were matched on its own: its entries carry no Apple Music IDs to disagree on. */
  lemma SpotifyToApplePlanTransparent(u: Unicode, catalogue: string -> SearchReply, items: seq<Occurrences.Occurrence>)
    requires u.Valid() && BarFreeEntries(SourceEntries(items))
    ensures var d := Destination(APPLE_MUSIC, CatalogueSearch(APPLE_ISRC_PREFIX, catalogue));
            Memoised(u, d, SourceEntries(items), map[]) == Independent(u, d, SourceEntries(items))
  {
    forall s | s in SourceEntries(items) && Eligible(s) ensures Lookup(s.track.value.providerIds, APPLE_MUSIC) == "" {
      var i :| 0 <= i < |items| && SourceEntries(items)[i] == s;
      Occurrences.EligibleOccurrence(items[i], i);
      Occurrences.TrackReachesMatcher(items[i], i);
    }
    CataloguePlanTransparent(u, APPLE_MUSIC, APPLE_ISRC_PREFIX, catalogue, SourceEntries(items));
  }

  lemma SameArtistParts(u: Unicode, a: seq<string>, b: seq<string>)
    requires u.Valid() && ArtistParts(a) == ArtistParts(b)
    ensures NormalArtists(u, a) == NormalArtists(u, b) && Join(a, " ") == Join(b, " ")
  {
    assert Normalize(u, "") == "" by {
      NormalizeCanonical(u, "");
    }
    assert NormalArtists(u, [""]) == [] by {
      assert [""][1..] == [];
    }
  }

  // ---- Snapshots for which it is not ----

  function LocalFile(name: string, artists: seq<string>): Occurrences.Occurrence {
    Occurrences.Occurrence(
      None, true, Some(Occurrences.Media("track", "", name, artists, "", 1000, "", "", "", true, None)), None)
  }

  /** How the planner sees it. */
  function LocalTrack(name: string, artists: seq<string>): Track {
    Track(SPOTIFY, "", name, artists, "", 1000, "", map[SPOTIFY := ""], "")
  }

  lemma LocalEntry(name: string, artists: seq<string>, position: nat)
    requires name != ""
    ensures var e := Occurrences.FromSpotifyEntry(Occurrences.ToEntry(LocalFile(name, artists), position));
            Eligible(e) && e.track == Some(LocalTrack(name, artists))
  {
  }

  /** A bar may belong to the name or separate it from an artist. */
  lemma LocalKeys(a: string, b: string, c: string)
    ensures MatchingKey(LocalTrack(a + "|" + b, [c])) == MatchingKey(LocalTrack(a, [b, c]))
  {
    assert Join([b, c], "|") == b + "|" + c by { assert [b, c][1..] == [c]; }
    assert "" + "|" + (a + "|" + b) + "|" + c == "" + "|" + a + "|" + (b + "|" + c);
  }

  lemma LocalTerms()
    ensures SearchTerm(APPLE_ISRC_PREFIX, Query(LocalTrack("A|B", ["C"]))) == "A|B C"
    ensures SearchTerm(APPLE_ISRC_PREFIX, Query(LocalTrack("A", ["B", "C"]))) == "A B C"
  {
    assert Join(["B", "C"], " ") == "B C" by { assert ["B", "C"][1..] == ["C"]; }
    TrimFixed("A|B C");
    TrimFixed("A B C");
  }

  /** A snapshot of two local files, one with a bar in its name: they share a key although
      different terms are searched for them, so with some Apple Music catalogue one is given
      the other's match. */
  lemma LocalFilesCollide(u: Unicode)
    ensures var entries := SourceEntries([LocalFile("A|B", ["C"]), LocalFile("A", ["B", "C"])]);
            && !FaithfulKeys(entries)
            && exists catalogue: string -> SearchReply ::
                 InService(APPLE_MUSIC, catalogue) && !PlansAlike(u, APPLE_MUSIC, APPLE_ISRC_PREFIX, catalogue, entries)
  {
    var entries := SourceEntries([LocalFile("A|B", ["C"]), LocalFile("A", ["B", "C"])]);
    var s, t := entries[0], entries[1];
    LocalEntry("A|B", ["C"], 0);
    LocalEntry("A", ["B", "C"], 1);
    LocalKeys("A", "B", "C");
    assert "A" + "|" + "B" == "A|B";
    LocalTerms();
    assert "A|B C"[1] != "A B C"[1];
    var catalogue := TermsExposed(u, APPLE_MUSIC, APPLE_ISRC_PREFIX, entries, s, t);
    assert InService(APPLE_MUSIC, catalogue);
    assert Query(s.track.value).artists[0] != Query(t.track.value).artists[0];
  }

  /** A catalogue track that was linked from another one. */
  function Relinked(linkedFrom: string): Occurrences.Occurrence {
    Occurrences.Occurrence(
      None, false, Some(Occurrences.Media("track", "t", "A", ["B"], "", 1000, "", "", linkedFrom, false, None)), None)
  }

  /** How the planner sees it. */
  function RelinkedTrack(linkedFrom: string): Track {
    Track(SPOTIFY, "t", "A", ["B"], "", 1000, "", map[SPOTIFY := linkedFrom], "")
  }

  lemma RelinkedEntry(linkedFrom: string, position: nat)
    requires linkedFrom != ""
    ensures var e := Occurrences.FromSpotifyEntry(Occurrences.ToEntry(Relinked(linkedFrom), position));
            Eligible(e) && e.track == Some(RelinkedTrack(linkedFrom)) && BarFreeTrack(RelinkedTrack(linkedFrom))
  {
    Occurrences.EligibleOccurrence(Relinked(linkedFrom), position);
    Occurrences.TrackReachesMatcher(Relinked(linkedFrom), position);
  }

  lemma RelinkedTargets(u: Unicode)
    ensures FeaturesOf(u, SPOTIFY, RelinkedTrack("x")).target != FeaturesOf(u, SPOTIFY, RelinkedTrack("y")).target
  {
    TrimFixed("x");
    TrimFixed("y");
  }

  lemma RelinkedTerm(linkedFrom: string)
    ensures SearchTerm(SPOTIFY_ISRC_PREFIX, Query(RelinkedTrack(linkedFrom))) == "A B"
  {
    TrimFixed("A B");
    assert Join(["B"], " ") == "B";
  }

  lemma RelinkedBarFree()
    ensures BarFreeEntries(SourceEntries([Relinked("x"), Relinked("y")]))
  {
    var entries := SourceEntries([Relinked("x"), Relinked("y")]);
    RelinkedEntry("x", 0);
    RelinkedEntry("y", 1);
    assert entries == [entries[0], entries[1]];
  }

  /** A snapshot without bars or local files: two occurrences of one track that were linked from
      different tracks share a key, which leaves out their IDs at the destination. With some
      Spotify catalogue one is given the other's match. */
  lemma RelinkedTracksCollide(u: Unicode)
    ensures var entries := SourceEntries([Relinked("x"), Relinked("y")]);
            && BarFreeEntries(entries)
            && exists catalogue: string -> SearchReply ::
                 InService(SPOTIFY, catalogue) && !PlansAlike(u, SPOTIFY, SPOTIFY_ISRC_PREFIX, catalogue, entries)
  {
    var entries := SourceEntries([Relinked("x"), Relinked("y")]);
    RelinkedBarFree();
    RelinkedEntry("x", 0);
    RelinkedEntry("y", 1);
    assert entries[0] in entries && entries[1] in entries;
    var catalogue := RelinkedExposed(u, entries, entries[0], entries[1]);
    assert InService(SPOTIFY, catalogue);
  }

  lemma RelinkedExposed(u: Unicode, entries: seq<PlaylistEntry>, s: PlaylistEntry, t: PlaylistEntry)
      returns (catalogue: string -> SearchReply)
    requires s in entries && t in entries && Eligible(s) && Eligible(t)
    requires s.track == Some(RelinkedTrack("x")) && t.track == Some(RelinkedTrack("y"))
    ensures InService(SPOTIFY, catalogue) && !PlansAlike(u, SPOTIFY, SPOTIFY_ISRC_PREFIX, catalogue, entries)
  {
    RelinkedTerm("x");
    RelinkedTerm("y");
    RelinkedTargets(u);
    var x := TargetTellsApart(u, SPOTIFY, s.track.value, t.track.value);
    catalogue := DecisionExposed(u, SPOTIFY, SPOTIFY_ISRC_PREFIX, entries, s, t, x);
  }
}
