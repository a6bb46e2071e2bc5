/** The shared transfer entities. */
module Models {
  import opened Wrappers

  const SPOTIFY := "spotify"
  const APPLE_MUSIC := "apple-music"

  datatype Track = Track(
    provider: string, id: string, name: string, artists: seq<string>, album: string,
    durationMs: int, isrc: string, providerIds: map<string, string>, url: string)

  datatype PlaylistEntry = PlaylistEntry(
    position: nat, track: Option<Track>, addedAt: Option<string>, unavailable: bool, unsupported: bool)

  datatype MatchStatus = Matched | Ambiguous | Missing | Unsupported

  datatype MatchResult = MatchResult(
    status: MatchStatus, matched: Option<Track>, candidates: seq<Track>, reason: string)

  datatype PreviewEntry = PreviewEntry(
    position: nat, source: PlaylistEntry, status: MatchStatus,
    matched: Option<Track>, candidates: seq<Track>, reason: string)

  // Reading a missing key of a Go map yields the zero value.
  function Lookup(m: map<string, string>, key: string): string {
    if key in m then m[key] else ""
  }
}
