/** Playlist occurrences as Spotify reports them, as they are stored, and as the matcher sees them. */
module Occurrences {
  import opened Wrappers
  import opened Models
  import Matcher

  datatype Media = Media(
    kind: string, id: string, name: string, artists: seq<string>, album: string, durationMs: int,
    isrc: string, url: string, linkedFromId: string, isLocal: bool, isPlayable: Option<bool>)

  // Older applications receive the media under `track` instead of `item`.
  datatype Occurrence = Occurrence(addedAt: Option<string>, isLocal: bool, item: Option<Media>, track: Option<Media>)

  datatype Entry = Entry(
    position: nat, addedAt: Option<string>, kind: string, id: string, name: string, artists: seq<string>,
    album: string, durationMs: int, isrc: string, url: string, linkedFromId: string,
    isLocal: bool, unavailable: bool, unsupported: bool, isPlayable: Option<bool>)

  function MediaOf(o: Occurrence): Option<Media> {
    if o.item.Some? then o.item else o.track
  }

  function ToEntry(o: Occurrence, position: nat): Entry {
    match MediaOf(o)
    case None =>
      Entry(position, o.addedAt, "", "", "", [], "", 0, "", "", "", o.isLocal, true, false, None)
    case Some(m) =>
      var isLocal := o.isLocal || m.isLocal;
      Entry(position, o.addedAt, m.kind, m.id, m.name, m.artists, m.album, m.durationMs, m.isrc, m.url, m.linkedFromId,
            isLocal, !isLocal && (m.id == "" || m.isPlayable == Some(false)), m.kind != "track", m.isPlayable)
  }

  /** Occurrences keep their order and are numbered from 0. */
  function ToEntries(items: seq<Occurrence>): seq<Entry> {
    seq(|items|, i requires 0 <= i < |items| => ToEntry(items[i], i))
  }

  function FromSpotifyEntry(e: Entry): PlaylistEntry {
    if e.id == "" && e.name == "" then PlaylistEntry(e.position, None, e.addedAt, e.unavailable, e.unsupported)
    else
      var spotifyId := if e.linkedFromId != "" then e.linkedFromId else e.id;
      var provider := if e.unsupported then e.kind else SPOTIFY;
      var track := Track(provider, e.id, e.name, e.artists, e.album, e.durationMs, e.isrc,
                         map[SPOTIFY := spotifyId], e.url);
      PlaylistEntry(e.position, Some(track), e.addedAt, e.unavailable, e.unsupported)
  }

  /** Which occurrences the planner tries to match: tracks that are local files or playable
      catalogue entries. A local file has no catalogue ID, so the ID does not identify it. */
  lemma EligibleOccurrence(o: Occurrence, position: nat)
    ensures Matcher.Eligible(FromSpotifyEntry(ToEntry(o, position))) <==>
            match MediaOf(o)
            case None => false
            case Some(m) =>
              && m.kind == "track"
              && (if o.isLocal || m.isLocal then m.id != "" || m.name != ""
                  else m.id != "" && m.isPlayable != Some(false))
  {
  }

  /** What becomes of an occurrence: the newer of its two media fields counts; without either it
      is unavailable; a local file is available as it is, anything else if it has an ID and is
      not marked unplayable; and whatever is not a track is unsupported and named by its kind. */
  lemma OccurrenceConverted(o: Occurrence, position: nat)
    ensures var e := FromSpotifyEntry(ToEntry(o, position));
            && e.position == position && e.addedAt == o.addedAt
            && (o.item.None? && o.track.None? ==> e.track.None? && e.unavailable && !e.unsupported)
            && (o.item.Some? || o.track.Some? ==>
                  var m := if o.item.Some? then o.item.value else o.track.value;
                  && (e.unsupported <==> m.kind != "track")
                  && (e.unavailable <==> !o.isLocal && !m.isLocal && (m.id == "" || m.isPlayable == Some(false)))
                  && (e.track.None? <==> m.id == "" && m.name == "")
                  && (e.track.Some? ==>
                        var t := e.track.value;
                        && t.provider == (if m.kind == "track" then "spotify" else m.kind)
                        && t.id == m.id && t.name == m.name && t.artists == m.artists && t.album == m.album
                        && t.isrc == m.isrc && t.durationMs == m.durationMs && t.url == m.url
                        && t.providerIds == map["spotify" := if m.linkedFromId != "" then m.linkedFromId else m.id]))
  {
  }

  /** Entries keep the order of the occurrences, and what they say about playing. */
  lemma EntriesKeepOrder(items: seq<Occurrence>)
    ensures |ToEntries(items)| == |items|
    ensures forall i :: 0 <= i < |items| ==>
              var e, o := ToEntries(items)[i], items[i];
              && e == ToEntry(o, i) && e.position == i && e.addedAt == o.addedAt
              && (o.item.None? && o.track.None? ==> e.isLocal == o.isLocal && e.isPlayable.None?)
              && (o.item.Some? || o.track.Some? ==>
                    var m := if o.item.Some? then o.item.value else o.track.value;
                    e.isLocal == (o.isLocal || m.isLocal) && e.isPlayable == m.isPlayable && e.kind == m.kind)
  {
  }

  /** A track occurrence reaches the matcher with its own position, ID, name, artists, ISRC and
      duration; a relinked track is known at Spotify by the ID it was linked from. */
  lemma TrackReachesMatcher(o: Occurrence, position: nat)
    requires MediaOf(o).Some? && MediaOf(o).value.kind == "track"
    requires MediaOf(o).value.id != "" || MediaOf(o).value.name != ""
    ensures var m := MediaOf(o).value; var e := FromSpotifyEntry(ToEntry(o, position));
            && e.position == position && e.addedAt == o.addedAt && e.track.Some?
            && var t := e.track.value;
            && t.provider == SPOTIFY && t.id == m.id && t.name == m.name && t.artists == m.artists && t.album == m.album
            && t.isrc == m.isrc && t.durationMs == m.durationMs && t.url == m.url
            && Lookup(t.providerIds, SPOTIFY) == (if m.linkedFromId != "" then m.linkedFromId else m.id)
            && Lookup(t.providerIds, APPLE_MUSIC) == ""
  {
  }
}
