/** What counts as evidence, in terms of the texts and numbers themselves, and what follows for
    whole matches. */
module MatchRules {
  import opened Wrappers
  import opened Models
  import opened Text
  import opened Matcher

  // ---- Order ----

  /** The order of IDs is the one of dictionaries: at the first difference, the smaller character
      or the end comes first. */
  lemma {:induction false} LessIff(a: string, b: string)
    ensures Less(a, b) <==> exists k: nat :: Precedes(a, b, k)
  {
    if Less(a, b) {
      if a == "" || a[0] < b[0] {
        assert Precedes(a, b, 0);
      } else {
        LessIff(a[1..], b[1..]);
        var k: nat :| Precedes(a[1..], b[1..], k);
        assert a[..k + 1] == [a[0]] + a[1..][..k] && b[..k + 1] == [b[0]] + b[1..][..k];
        assert Precedes(a, b, k + 1);
      }
    } else if k: nat :| Precedes(a, b, k) {
      PrecedingIsLess(a, b, k);
    }
  }

  predicate Precedes(a: string, b: string, k: nat) {
    k <= |a| && k < |b| && a[..k] == b[..k] && (k < |a| ==> a[k] < b[k])
  }

  lemma {:induction false} PrecedingIsLess(a: string, b: string, k: nat)
    requires Precedes(a, b, k)
    ensures Less(a, b)
  {
    if k > 0 {
      assert a[0] == a[..k][0] && b[0] == b[..k][0];
      assert a[1..][..k - 1] == a[..k][1..] && b[1..][..k - 1] == b[..k][1..];
      PrecedingIsLess(a[1..], b[1..], k - 1);
    }
  }

  // ---- Evidence ----

  /** A candidate is known by the source's ID at the destination, white space around it aside. */
  lemma ProviderEvidenceIff(source: Track, destination: string, t: Track)
    ensures ProviderEvidence(source, destination, t) <==>
            && destination in source.providerIds
            && exists id :: id != "" && TrimsTo(source.providerIds[destination], id)
                            && (t.id == id || (destination in t.providerIds && t.providerIds[destination] == id))
  {
    var given := Lookup(source.providerIds, destination);
    assert TrimSpace("") == "";
    TrimSpaceIff(given, TrimSpace(given));
    forall id ensures TrimSpace(given) == id <==> TrimsTo(given, id) {
      TrimSpaceIff(given, id);
    }
  }

  /** ISRCs agree when their trimmed forms do, case aside; a source without one has no such evidence. */
  lemma IsrcEvidenceIff(u: Unicode, source: Track, t: Track)
    ensures IsrcEvidence(u, source, t) <==>
            && source.isrc != ""
            && exists a, b :: TrimsTo(source.isrc, a) && TrimsTo(t.isrc, b) && SameUpper(u, a, b)
  {
    var a, b := TrimSpace(source.isrc), TrimSpace(t.isrc);
    TrimSpaceIff(source.isrc, a);
    TrimSpaceIff(t.isrc, b);
    UpperAgrees(u, a, b);
    forall x, y | TrimsTo(source.isrc, x) && TrimsTo(t.isrc, y) ensures x == a && y == b {
      TrimSpaceIff(source.isrc, x);
      TrimSpaceIff(t.isrc, y);
    }
  }

  predicate SameUpper(u: Unicode, a: string, b: string) {
    |a| == |b| && forall i :: 0 <= i < |a| ==> u.upper(a[i]) == u.upper(b[i])
  }

  lemma UpperAgrees(u: Unicode, a: string, b: string)
    ensures Upper(u, a) == Upper(u, b) <==> SameUpper(u, a, b)
  {
    assert forall i :: 0 <= i < |a| ==> Upper(u, a)[i] == u.upper(a[i]);
    assert forall i :: 0 <= i < |b| ==> Upper(u, b)[i] == u.upper(b[i]);
  }

  /** The normalised artists are the normal forms, as far as anything is left of them. */
  lemma {:induction false} ArtistsKept(u: Unicode, artists: seq<string>, a: string)
    ensures a in NormalArtists(u, artists) <==>
            a != "" && exists i :: 0 <= i < |artists| && Normalize(u, artists[i]) == a
  {
    if artists != [] {
      ArtistsKept(u, artists[1..], a);
      if i :| 0 <= i < |artists| && Normalize(u, artists[i]) == a {
        assert i > 0 ==> Normalize(u, artists[1..][i - 1]) == a;
      }
      if j :| 0 <= j < |artists| - 1 && Normalize(u, artists[1..][j]) == a {
        assert Normalize(u, artists[j + 1]) == a;
      }
    }
  }

  /** Names agree once normalised, and so does some artist of the one with some of the other. */
  lemma MetadataEvidenceIff(u: Unicode, source: Track, t: Track)
    ensures MetadataEvidence(u, source, t) <==>
            && Normalize(u, source.name) == Normalize(u, t.name) != ""
            && exists i, j :: 0 <= i < |source.artists| && 0 <= j < |t.artists|
                              && Normalize(u, source.artists[i]) == Normalize(u, t.artists[j]) != ""
  {
    forall a
      ensures a in NormalArtists(u, source.artists) && a in NormalArtists(u, t.artists) <==>
              a != "" && exists i, j :: 0 <= i < |source.artists| && 0 <= j < |t.artists|
                                        && Normalize(u, source.artists[i]) == a == Normalize(u, t.artists[j])
    {
      ArtistsKept(u, source.artists, a);
      ArtistsKept(u, t.artists, a);
    }
    if i, j :| 0 <= i < |source.artists| && 0 <= j < |t.artists|
               && Normalize(u, source.artists[i]) == Normalize(u, t.artists[j]) != "" {
      var a := Normalize(u, source.artists[i]);
      assert a in NormalArtists(u, source.artists) && a in NormalArtists(u, t.artists);
    }
  }

  /** Durations are close when both are known and at most two and a half seconds apart. */
  lemma DurationEvidenceIff(source: Track, t: Track)
    ensures DurationEvidence(source, t) <==>
            && source.durationMs > 0 && t.durationMs > 0
            && source.durationMs <= t.durationMs + 2500 && t.durationMs <= source.durationMs + 2500
  {
  }

  // ---- Texts that differ in case only ----

  /** Two texts that agree case aside and have a letter or number. */
  ghost predicate SameText(u: Unicode, a: string, b: string) {
    && Lowered(u, a) == Lowered(u, b)
    && exists i :: 0 <= i < |a| && u.wordChar(u.lower(a[i]))
  }

  lemma {:induction false} SomeWordChar(u: Unicode, s: string, i: nat)
    requires i < |s| && u.wordChar(s[i])
    ensures WordChars(u, s) != ""
  {
    if i > 0 {
      SomeWordChar(u, s[1..], i - 1);
    }
  }

  lemma SameTextNormalizes(u: Unicode, a: string, b: string)
    requires u.Valid() && SameText(u, a, b)
    ensures Normalize(u, a) == Normalize(u, b) != ""
  {
    CaseIgnored(u, a, b);
    var i :| 0 <= i < |a| && u.wordChar(u.lower(a[i]));
    SomeWordChar(u, Lowered(u, a), i);
    LettersKept(u, a);
  }

  /** Tracks whose names agree case aside, and that share an artist case aside, are evidence. */
  lemma CaseIsNoObstacle(u: Unicode, source: Track, t: Track, i: nat, j: nat)
    requires u.Valid() && SameText(u, source.name, t.name)
    requires i < |source.artists| && j < |t.artists| && SameText(u, source.artists[i], t.artists[j])
    ensures MetadataEvidence(u, source, t)
  {
    SameTextNormalizes(u, source.name, t.name);
    SameTextNormalizes(u, source.artists[i], t.artists[j]);
    MetadataEvidenceIff(u, source, t);
  }

  // ---- Whole matches ----

  /** A source without ISRC and destination ID, against the only candidate, which agrees in name
      and artist case aside: a match if the durations are close, a question otherwise. */
  lemma OneCandidateByMetadata(u: Unicode, source: PlaylistEntry, destination: string, t: Track, i: nat, j: nat)
    requires u.Valid() && Eligible(source) && t.id != ""
    requires var s := source.track.value;
             && s.isrc == "" && destination !in s.providerIds && SameText(u, s.name, t.name)
             && i < |s.artists| && j < |t.artists| && SameText(u, s.artists[i], t.artists[j])
    ensures var s := source.track.value;
            MatchTrack(u, source, destination, [t]) ==
            if s.durationMs > 0 && t.durationMs > 0 && -2500 <= s.durationMs - t.durationMs <= 2500
            then MatchResult(Matched, Some(t), [], "metadata_duration")
            else MatchResult(Ambiguous, None, [t], "metadata_without_duration_confidence")
  {
    var s := source.track.value;
    CaseIsNoObstacle(u, s, t, i, j);
    UniqueOne(t);
    assert TrimSpace("") == "";
    FilterOne(t, x => ProviderEvidence(s, destination, x));
    FilterOne(t, x => IsrcEvidence(u, s, x));
    FilterOne(t, x => MetadataEvidence(u, s, x));
    FilterOne(t, x => DurationEvidence(s, x));
  }

  lemma FilterOne(x: Track, allow: Track -> bool)
    ensures Filter([x], allow) == if allow(x) then [x] else []
  {
    assert [x][1..] == [];
    assert Filter([x], allow) == (if allow([x][0]) then [[x][0]] else []) + Filter([x][1..], allow);
  }

  lemma UniqueOne(x: Track)
    requires x.id != ""
    ensures UniqueTracks([x]) == [x]
  {
    assert [x][1..] == [];
    assert Dedupe([x], {}) == [x] + Dedupe([x][1..], {x.id});
    assert SortById([x]) == Insert(x, SortById([x][1..]));
  }

  /** What is left when no candidate can be weighed: an ineligible source, or no candidate with an ID. */
  lemma NothingToWeigh(u: Unicode, source: PlaylistEntry, destination: string, candidates: seq<Track>)
    ensures source.track.None? || source.unsupported || source.unavailable ==>
              MatchTrack(u, source, destination, candidates) ==
              MatchResult(Unsupported, None, [], "source_entry_unsupported")
    ensures source.track.Some? && !source.unsupported && !source.unavailable
            && (forall t :: t in candidates ==> t.id == "") ==>
              MatchTrack(u, source, destination, candidates) == MatchResult(Missing, None, [], "no_candidates")
  {
    UniqueTracksSpec(candidates);
    HeadIsMember(UniqueTracks(candidates));
  }
}
