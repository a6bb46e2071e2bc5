# Playlist transfer, modelled and proved

The repository moves playlists between music services: it imports a Spotify playlist as an
immutable snapshot, matches every entry against a destination catalogue, stores the result as a
preview, and carries the preview out as a run that appends the matched tracks to a new playlist.
Each of these has to stay correct although jobs are retried, workers die, replies are lost, and
people edit their accounts meanwhile. This project models that logic in Dafny and proves what it
is for. `dafny verify dfyconfig.toml` checks everything.

## How the model is built

| module | what it models |
|---|---|
| `Text` | trimming, text normalisation, joining and splitting, decimal rendering |
| `Models`, `Occurrences` | the shared entities; Spotify occurrences and their stored form |
| `Matcher` | deduplication of candidates and the tiered match decision |
| `MatchRules` | what counts as evidence, in terms of the texts and numbers themselves |
| `Faults` | what may go wrong in a call |
| `Planner` | the memoised matching loop behind a preview, and its cache key |
| `Catalogue` | the search of the two destinations, and when memoising is invisible for them |
| `SnapshotRead` | the paged, version-checked read of a whole playlist |
| `Tokens` | token refresh by many callers under one row lock |
| `TransferRun` | the run as a protocol, and what holds in every history of it |
| `Recovery` | when an interrupted run can still complete |
| `Listings` | finding a playlist in an account that changes, and how a second one comes about |
| `Reconcile`, `Worker` | one attempt's effect on given content, and the worker |
| `Paging` | stored pages, listings by an outside provider, batched writes |
| `Imports` | admission, publication and disconnection of imports |
| `TransferStore` | stored previews and the runs made from them |
| `Auth` | pending authorization attempts |

Loops and operations that change state are methods with invariants. A class holds the state that
the source keeps in fields or table rows, and its methods are proved against a state machine: each
call is a path of the machine (`TransferRun.Next`, `Tokens.Next`, `Imports.Next`,
`TransferStore.Next`, `Auth.Next`), and the theorems are about every path. In these machines a step
is one provider request or one atomic database action; a crash is a step that may happen at any
time. Spotify, Apple Music and PostgreSQL appear as state: what the provider stores, which rows are
committed, who holds which lock. Replies are chosen freely within what the provider could truthfully
say, except in `SnapshotRead` and `Paging`, where a provider is an arbitrary function and honesty is
a hypothesis where needed.

What may go wrong in a call does so freely. A call with `smooth` set is one in which nothing does:
every request is answered and delivered, every commit is applied and confirmed, and nobody else acts
meanwhile. Its contract then says when it must succeed.

Letter, number and case tables are a parameter (`Text.Unicode`); `Valid` lists the three facts the
normaliser relies on, and `AsciiIsValid` exhibits tables that meet them. White space is the concrete Unicode list.

## Assumptions of the theorems

- Nobody but the run writes to, renames or removes a playlist that it created, or writes to, renames,
  removes or creates one with the run's name. Others may change and reorder the rest of the account,
  and move the run's playlists about, at any time.
- For the claim that at most one playlist is created: no listing is overtaken, that is, while an
  attempt lists the account, no playlist of the name moves in front of the offset it has reached
  (`TransferRun.Unshifted`). The other claims do not need it. `Listings.ListingFindsIff` says when
  a listing is safe, and `Listings.ShiftedListingCreatesTwice` what happens when it is not.
- When the run is created, the account has no playlist of its name (the name ends in part of the
  random preview ID).
- A provider read sees every earlier write, and a dead attempt has no request still in flight. A
  request that failed may have taken effect before it failed, and so may a commit.
- An appended track reads back under the ID it was appended by, because positions are compared by that
  ID (internal/transfer/worker.go:149-153). A Spotify track relinked on reading, or a library ID
  returned for an Apple Music catalogue ID, would break this: the next attempt would stop over an
  unexpected track. The destination accepts the ID of every matched track.
- The preview is not recomputed between attempts of its run.
- An import job that has ended stays ended. The bounds on active imports count unfinished jobs when an
  import is admitted, so one that is retried by hand afterwards can exceed both of them
  (`Imports.MoveJob` leaves this out).

## What turned out not to hold

Each of these is in the code as written. The model keeps it, and a lemma states exactly when it bites.

- **A second destination playlist, by its name.** The name is trimmed when the playlist is created, but the
  untrimmed name is looked for afterwards. If the source playlist has no name, or one that starts with
  white space, every interrupted attempt may create another playlist (`AtMostOneCreationIff`, `StableNameIff`).
- **A second destination playlist, by listing.** The account is listed by offsets. If other playlists are removed
  or moved while an attempt lists it, the destination can slip in front of the offset; the search then
  misses it and the run creates another. A listing finds a playlist that is there throughout exactly
  when that playlist never moves towards the front (`ListingFindsIff`, `ShiftedListingCreatesTwice`).
  Even then every playlist of the name holds a prefix of the tracks (`PrefixesAlways`).
- **A run that can never complete.** The suffix added to the source name takes 20 characters, and the name
  asked for must not be longer than the destination allows. A run to Spotify from a playlist whose name has
  81 to 100 characters, say 90 times `a`, lists the account, fails to create, and is retried in vain until its attempts run out
  (internal/transfer/worker.go:72-75, internal/spotify/playlists.go:286). `CompletesIff`, `AcceptsNameIff`
  and `LongNameNeverCompletes` say exactly when.
- **Completion over an unreadable entry.** A destination entry without a track is treated as an
  empty position, but the append goes to the end of the playlist. A run can then report completion
  while its tracks are not in place (`TrichotomyIff`, `CompletionGenuineIff`, `HoleCompletesWrongly`).
- **ISRC evidence from blanks.** A source ISRC of white space only passes the test for being present and
  then equals every missing ISRC (`IsrcEvidenceGenuineIff`, `BlankIsrcMatches`).
- **Key collisions.** The cache key joins its fields with `|` without escaping, and local files have no ID, so
  two of them can share a key although different terms are searched for them (`LocalFilesCollide`). The
  key also leaves out the IDs at the destination, so two occurrences relinked from different tracks to
  one share a key although they match by different IDs (`RelinkedTracksCollide`). The second entry is
  given the first one's match. `CataloguePlanIff` says exactly which lists are affected.
- **Order of candidates.** If two candidates share an ID but differ, the first one in the list wins
  (`UniqueOrderFreeIff`).
- **Stale preview entries.** Saving a shorter preview over a longer one would leave old entries;
  previews of one snapshot have one length, so it does not happen (`ResavedIff`, `RepreviewKeepsId`).

## Model

| member | source | states |
|---|---|---|
| TransferRun.PrefixesAlways | internal/transfer/worker.go:51-123 | In every state of every history of attempts, crashes, lost replies and other use of the account that leaves the run's playlists as they are: exactly the playlists that the run created bear its name, or none if the name does not survive creation; each of them holds a prefix of the matched tracks, the stored position never runs ahead and is 0 while no playlist is stored, and a completed run has all tracks |
| TransferRun.ExactlyOnce | internal/transfer/worker.go:51-123 | If the name survives creation and no listing is overtaken, in every state at most one playlist was created and no other bears the name |
| TransferRun.HistoryGrows | internal/transfer/worker.go:61-63 | Along every history the playlists of the run only grow, and after completion neither they nor the row change again |
| TransferRun.NeverOutOfOrder | internal/transfer/worker.go:144-156 | An attempt never stops over an unexpected track in a playlist that the run created |
| Recovery.CompletesIff | internal/transfer/worker.go:51-123 | From every state at rest that interruptions can lead to, an attempt without faults can complete the run exactly when the destination is stored, or one is within the reach of a listing, or the whole account is and its name is accepted; in an account within that reach, exactly when the name is accepted |
| Recovery.AssuredIff | internal/transfer/worker.go:125-142 | A destination that is stored, or listed after at most 100000 others, or can be made in an account of at most 100001 playlists, makes completion possible; in every reachable state of such an account both mean that the name is accepted |
| Recovery.AnyInterruptionRecovers | internal/transfer/worker.go:51-123 | Under that condition one such attempt completes the run in a number of steps linear in the account and the tracks |
| Recovery.AcceptsNameIff | internal/spotify/playlists.go:283-288 | The destination accepts the name exactly when the source name without leading white space leaves room for the suffix of 20 characters (19 if it has nothing else); for a name that survives creation, exactly when it is at least 20 shorter than the limit |
| Recovery.DestinationNameIs | internal/transfer/worker.go:72-75 | The name asked for is the source name, a blank and `(transfer `, the first eight characters of the preview ID and `)`; with an ID of at most eight, the source name alone |
| Recovery.LongNameNeverCompletes | internal/transfer/worker.go:72-99 | No history of a run to Spotify from a name of more than 80 characters, or to Apple Music from one of more than 235, completes, if the name does not start with white space |
| Recovery.SmoothStepAdvances | internal/transfer/worker.go:106-122 | Every fault-free step brings an attempt closer to its end, and it ends only by completing |
| Listings.AtMostOneCreationIff | internal/transfer/worker.go:70-99 | While no listing is overtaken, no history creates two playlists exactly when the name survives trimming or is not accepted at all; over all histories, exactly when the name is not accepted |
| Recovery.StableNameIff | internal/transfer/worker.go:72-75 | The name survives creation exactly when the source playlist has a name that does not start with white space |
| Listings.ListingFindsFirst | internal/transfer/worker.go:125-142 | Listing an unchanged account in pages of any size settles on the first playlist of the name, or on creating one exactly if there is none |
| Listings.ListingFindsIff | internal/transfer/worker.go:125-142 | For any sequence of accounts current during one listing, all with the one playlist of the name: every choice of pages and of moments of change finds it exactly when its index never decreases |
| Listings.ShiftedListingCreatesTwice | internal/transfer/worker.go:70-99 | Whenever the index does decrease, for a playlist with any prefix of the tracks and an accepted name that survives creation, some history from a fresh run creates two playlists, its only changes by others being that one listing's |
| Reconcile.TrichotomyIff | internal/transfer/worker.go:106-122 | For any content found at the destination, a fault-free attempt leaves a superset alone, completes a prefix and refuses anything else untouched, exactly when the first difference is not an entry without a track |
| Reconcile.CompletionGenuineIff | internal/transfer/worker.go:144-156 | Reported completion means every track is in place exactly when no needed place held an entry without a track |
| Reconcile.HoleCompletesWrongly | internal/transfer/worker.go:149-155 | A concrete destination for which completion is reported wrongly |
| Worker.Transfer.RunOnce | internal/transfer/worker.go:51-123 | One attempt is a path of the protocol from rest to rest; success means completed, and is certain after any history if nothing goes wrong and a destination is assured; a completed run is left alone, though even then the commit may fail; without provider it is unsupported |
| Worker.Transfer.Work | internal/transfer/worker.go:29-49 | A job counts as done only when its run is completed, and then does if nothing goes wrong and a destination is assured; a rate limit snoozes for the time asked for, or 30 seconds; an unsupported operation or a missing run cancels; anything else is tried again |
| Worker.Transfer.LocateDestination | internal/transfer/worker.go:70-99 | The destination is found by name or created; if nothing goes wrong it is the first playlist of the name in the account, if not more than 100000 others come before it, and a new one if there is none and the name is accepted; a failure ends the attempt with the row unchanged or, if unsupported, marked failed |
| Worker.Transfer.FindPlaylistByName | internal/transfer/worker.go:125-142 | The paged search is a path of the protocol, returns a playlist of that name, and terminates although the account may change between pages; if nothing goes wrong it returns the first one, or none exactly if there is none, whatever the page sizes |
| Worker.Transfer.CreatePlaylist | internal/spotify/playlists.go:283-315 | Creation may take effect although an error is returned; the new playlist bears the trimmed name; it succeeds if nothing goes wrong and the name is accepted |
| Worker.Transfer.EnsureEntryState | internal/transfer/worker.go:144-156 | One position is accepted, refused or appended, with the effect on the destination given by the reconciliation function; in a run's own playlist it succeeds if nothing goes wrong |
| Worker.Transfer.ReconcileAll | internal/transfer/worker.go:106-118 | When no request fails, ending and destination content equal the reconciliation of the content found, whatever others do elsewhere in the account; in a run's own playlist every position is reached if nothing goes wrong |
| Worker.Transfer.RecordRefusal | internal/transfer/worker.go:78-82 | An unsupported operation leaves the row unchanged or failed, with the position verified so far |
| Worker.Transfer.Complete | internal/transfer/worker.go:119-122 | The completed row is committed, possibly without confirmation, and confirmed if nothing goes wrong |
| Worker.Transfer.AttemptsAreSafe | internal/transfer/worker.go:51-123 | After any attempts every playlist the run created in the worker's account holds a prefix of the tracks and no other bears the name, there is at most one if the name survives creation and no listing was overtaken, and a completed run has all tracks |
| Worker.CollectMatched | internal/transfer/worker.go:100-105 | The loop collects as many IDs as entries are matched, the ID of each matched entry at the place that the number of matched entries before it gives, and so no others |
| Worker.Transfer.CompletedMirrorsPreview | internal/transfer/worker.go:100-122 | After completion the destination has as many tracks as entries of the preview are matched, each at the place given by the number of matched entries before it |
| SnapshotRead.ReadSnapshot | internal/spotify/playlists.go:240-279 | The reading loop returns the specified outcome with the specified number of requests, for every provider |
| SnapshotRead.SnapshotAtomic | internal/spotify/playlists.go:238-279 | With edits between any two requests and version IDs never reused, a successful read returns exactly the content of the version whose ID it returns, and nothing was edited meanwhile |
| SnapshotRead.SucceedsIffUnedited | internal/spotify/playlists.go:240-279 | For every ID of 1 to 128 letters and digits: if an honest provider answers every request that has a true answer, the read succeeds exactly when nobody edits the playlist from its first request to its last |
| SnapshotRead.AsksIff | internal/spotify/playlists.go:144-154 | The provider is asked at all exactly for an ID of 1 to 128 letters and digits |
| SnapshotRead.ReadSucceedsIff | internal/spotify/playlists.go:240-279 | For an arbitrary provider, a read succeeds exactly by a transcript of metadata, pages of 1 to 50 items that follow on each other and tell the first total, and metadata of the same version and total, and its entries are those of the pages, numbered |
| SnapshotRead.FailureExplained | internal/spotify/playlists.go:240-279 | Every failure after a request is explained by the last answer, error by error |
| SnapshotRead.SteadyProvider | internal/spotify/playlists.go:240-279 | For every history and all instants there is such a provider, honest and answering |
| SnapshotRead.ReadBounded | internal/spotify/playlists.go:245-269 | Against an arbitrary provider: at most total + 2 requests, at most 10000 entries, positions 0 to n-1 |
| SnapshotRead.AtomicIff | internal/spotify/playlists.go:238-279 | For every ID of 1 to 128 letters and digits, without assuming fresh version IDs: every successful read from every honest provider shows the version its first request met, exactly when no two versions of one ID and length have between them a version of that length with other entries |
| SnapshotRead.ReusedVersionTearsSnapshot | internal/spotify/playlists.go:270-277 | With a reused version ID an honest provider can make the read return a mixture that never existed |
| Occurrences.EligibleOccurrence | internal/spotify/playlists.go:122-142 | Which occurrences are offered for matching: tracks that are playable or local, local files even without an ID |
| Occurrences.OccurrenceConverted | internal/spotify/playlists.go:122-142 | What becomes of an occurrence, field by field: the newer of its media fields counts, local files are available, other kinds than tracks are unsupported, and a relinked track is known by the ID it was linked from |
| Occurrences.EntriesKeepOrder | internal/spotify/playlists.go:122-142 | Entries are stored in the order of the occurrences, numbered from 0, with what they say about playing |
| Tokens.RefreshSerialised | internal/spotify/playlists.go:158-186 | Over every interleaving after a code exchange the stored refresh token is the provider's current one exactly when no replacement was lost, no stored token is ever empty, and until then no superseded token is redeemed; each caller refreshes at most once and makes at most two requests |
| Tokens.FaultlessLosesNothing | internal/spotify/playlists.go:156-186 | Without crashes, failed commits and lost token responses no rotation is lost, whatever the resource requests answer |
| Tokens.OneRefresh | internal/spotify/playlists.go:160-169 | Callers that meet the same expired token cause one refresh when the response's lifetime reaches more than a minute beyond the last of them |
| Tokens.RefreshKeepsUsable | internal/spotify/client.go:91-126 | A response is used exactly if it names a bearer token that lives 1 to 86400 seconds; the stored expiry is that long after the response; omitted fields are kept, named ones replace the old |
| Tokens.ExchangeConnects | internal/spotify/client.go:80-126 | A code exchange is stored exactly if it names a refresh token besides, with the expiry it says, and connects the session |
| Tokens.SessionStore.WithConnection | internal/spotify/playlists.go:158-186 | Every call is a path of the state machine from unlocked to unlocked, with a refresh before the request exactly if the stored token expires within 60 seconds; a token is refused for good only after a refresh; an answer is returned only after the tokens in hand were committed, and is returned if nothing goes wrong and the stored token is live; an error leaves the row as it was or is that of a commit that was applied |
| Tokens.SessionStore.RefreshStep | internal/spotify/client.go:91-104 | A refresh redeems the stored token once and keeps omitted fields, or the attempt is rolled back; it succeeds if nothing goes wrong and the token is live |
| Tokens.SessionStore.CommitStep | internal/spotify/store.go:92-123 | The tokens are written, confirmed or not, or nothing is written; either way the lock is released |
| Matcher.MatchDecision | internal/transfer/matcher.go:32-89 | A track is matched exactly when the strongest tier with evidence is provider ID, ISRC or metadata with duration and the track is its only deduplicated candidate; metadata alone never matches |
| Matcher.AmbiguityListsTier | internal/transfer/matcher.go:108-114 | An ambiguous result lists exactly the deciding tier's candidates in ID order, and the reason names the tier |
| Matcher.AppendingNeverWeakens | internal/transfer/matcher.go:40-69 | More candidates never make the deciding tier weaker |
| Matcher.UniqueTracksSpec | internal/transfer/matcher.go:91-106 | The deduplicated list is strictly ascending and holds exactly the first occurrence of every non-blank ID |
| Matcher.UniqueOrderFreeIff | internal/transfer/matcher.go:91-106 | Every reordering gives the same deduplicated list exactly when candidates with one ID agree |
| Matcher.MatchOrderFree | internal/transfer/matcher.go:32-89 | Reordering candidates that agree does not change the whole result |
| Matcher.CollectUnique | internal/transfer/matcher.go:91-106 | The deduplicating loop computes the deduplicated, sorted list |
| Matcher.FilterSpec | internal/transfer/matcher.go:116-124 | Filtering keeps exactly the allowed tracks, and keeps an ascending list ascending |
| Matcher.FilterTracks | internal/transfer/matcher.go:116-124 | The filtering loop computes the filter |
| Matcher.NormalizedArtists | internal/transfer/matcher.go:126-134 | The loop keeps the artists whose normal form is not empty, in order |
| Matcher.IsrcEvidenceGenuineIff | internal/transfer/matcher.go:45-50 | ISRC evidence means a code both sides have exactly when the source code is empty or not only white space |
| Matcher.BlankIsrcMatches | internal/transfer/matcher.go:45-50 | A concrete confident match on two missing ISRCs |
| Text.NormalizeCanonical | internal/transfer/matcher.go:18-30 | Normal forms are exactly the words of letters and numbers separated by single spaces that lower-casing leaves alone; normalising is idempotent |
| Text.TrimIsRedundant | internal/transfer/matcher.go:19 | The leading trim never changes the normal form |
| Text.PunctuationIgnored | internal/transfer/matcher.go:20-28 | Inserting punctuation anywhere does not change the normal form |
| Text.CaseIgnored | internal/transfer/matcher.go:19 | Texts that agree once lower-cased have one normal form |
| Text.LettersKept | internal/transfer/matcher.go:20-29 | The normal form has every letter and number of the text, lower-cased, in order, and no others |
| Text.WhiteSpaceSeparates | internal/transfer/matcher.go:24-29 | White space between two parts acts as one blank between their normal forms, or as none if one of them is empty |
| Text.WordNormalized | internal/transfer/matcher.go:18-30 | A text without white space is normalised to its letters and numbers, lower-cased |
| Text.WhiteSpaceIs | internal/transfer/matcher.go:24 | White space is the 25 code points of the Unicode property |
| Text.TrimSpaceIff | internal/transfer/matcher.go:19 | Trimming leaves exactly what is between white space at both ends |
| MatchRules.LessIff | internal/transfer/matcher.go:104 | IDs are ordered as in a dictionary |
| MatchRules.ProviderEvidenceIff | internal/transfer/matcher.go:40-44 | A candidate is known by the source's trimmed ID at the destination, as its own ID or as its ID there |
| MatchRules.IsrcEvidenceIff | internal/transfer/matcher.go:45-50 | ISRCs agree when their trimmed forms do, case aside, and the source has one |
| MatchRules.ArtistsKept | internal/transfer/matcher.go:126-134 | The artists to compare are the normal forms of all artists that are not empty |
| MatchRules.MetadataEvidenceIff | internal/transfer/matcher.go:51-69 | Metadata agree when the normalised names do and some artist of each, none of them empty |
| MatchRules.DurationEvidenceIff | internal/transfer/matcher.go:73-84 | Durations agree when both are known and at most 2500 ms apart |
| MatchRules.CaseIsNoObstacle | internal/transfer/matcher.go:51-69 | Names and artists that differ only in case are metadata evidence |
| MatchRules.OneCandidateByMetadata | internal/transfer/matcher.go:51-88 | A source without ISRC and destination ID, against one candidate that agrees case aside, is matched if the durations are at most 2500 ms apart and ambiguous otherwise |
| MatchRules.NothingToWeigh | internal/transfer/matcher.go:32-39 | An ineligible source is unsupported, and one without candidates that have an ID is missing |
| Planner.CreatePreview | internal/transfer/service.go:40-74 | The planning loop computes the memoised plan and searches once per distinct key |
| Planner.CacheTransparentIff | internal/transfer/service.go:40-81 | Over all destinations, the memoised plan equals matching every entry on its own exactly when equal keys stand for equal queries |
| Planner.MatchForIs | internal/transfer/service.go:42-66 | Nothing is searched for an ineligible entry; for any other, all that the search for its own fields finds is weighed, and an unsupported search is recorded as such |
| Planner.PlanFailsIff | internal/transfer/service.go:56-61 | A plan fails exactly by its first failing search, with its error |
| Catalogue.CataloguePlanIff | internal/transfer/service.go:40-81 | Over all catalogues of tracks that the service can return, the memoised plan equals matching every entry on its own exactly when entries with equal keys have equal search terms and, if there is a term, equal normalised name and artists, ISRC key and ID at the destination |
| Catalogue.FeaturesTellApart | internal/transfer/matcher.go:32-89 | Whatever sources differ in besides the duration, some single candidate that the service can return is decided differently for them |
| Catalogue.CataloguePlanTransparent | internal/transfer/providers.go:60-80 | A condition on the text alone: entries free of bars with one destination ID per track ID are planned as if matched one by one, whatever the catalogue answers |
| Catalogue.SearchTermIs | internal/transfer/providers.go:64-70 | What is searched for is the name and the artists, trimmed, or if nothing is left of them the ISRC, marked as such for Spotify |
| Catalogue.SpotifyToApplePlanTransparent | internal/transfer/providers.go:158-179 | A bar-free Spotify snapshot is always planned for Apple Music as if matched one by one |
| Planner.IndependentAligned | internal/transfer/service.go:67-73 | A plan covers the entries one for one, in order, each with its own position |
| Planner.KeyDecodes | internal/transfer/service.go:78-81 | The key of a bar-free track splits back into its fields |
| Planner.KeyInjective | internal/transfer/service.go:78-81 | Bar-free tracks have equal keys exactly when all fields agree, up to no artist against one unnamed artist |
| Catalogue.SameArtistParts | internal/transfer/providers.go:64 | That residual pair gives the same search term and the same artists to match |
| Catalogue.LocalFilesCollide | internal/transfer/service.go:78-81 | Two local files of one snapshot whose memoised plan is wrong with some Apple Music catalogue |
| Catalogue.RelinkedTracksCollide | internal/transfer/service.go:47-65 | Two relinked tracks of one snapshot, without bars or local files, whose memoised plan is wrong with some Spotify catalogue |
| Paging.FollowVisitsAll | internal/spotify/imports.go:157-160 | Following next offsets through a stored list visits everything once, in order, for any limit |
| Paging.StoredPageSays | internal/transfer/providers.go:42-57 | A page has as many items as limit and list allow, those from the offset on, and a next offset exactly if there are more |
| Paging.PageAcceptedIff | internal/spotify/playlists.go:201-222 | A page is accepted exactly if asked for within the limits (offset 100000, 50 items), of the right offset, not too long, and not empty before the end |
| Paging.ReadPlaylistEntries | internal/transfer/providers.go:37-58 | The adapter clamps, converts and slices as specified, for offsets past the end too |
| Paging.ListingEnds | internal/spotify/playlists.go:201-222 | Listing ends for an arbitrary provider with varying totals |
| Paging.ListingFaithful | internal/spotify/playlists.go:201-222 | Listing an unchanged account returns it whole and in order or an error, and succeeds within the offset limit if nothing is refused |
| Paging.RemotePlaylist.AddTracks | internal/transfer/providers.go:90-101 | Appending in batches of 100 writes the list in order, and does if nothing goes wrong; an error leaves whole batches of its beginning |
| Imports.AdmissionBounds | internal/spotify/imports.go:62-102 | In every state each session has at most 10 active imports and at most one per playlist, and imports and jobs correspond one to one |
| Imports.PublicationLasts | internal/spotify/imports.go:192-231 | Once published, a snapshot consists of exactly the published entries for as long as its session is connected, whatever is delivered again |
| Imports.PublishedOnceAndWhole | internal/spotify/imports.go:206-226 | Every visible snapshot has its item count of entries at positions 0 to n-1, and no import is published twice |
| Imports.NothingAfterDisconnection | internal/spotify/imports.go:198-202 | After a disconnection no worker leaves a snapshot of that session behind |
| Imports.Importer.Enqueue | internal/spotify/imports.go:62-102 | Admission reuses the unfinished import of the playlist or inserts one with its job; no connection, and ten unfinished imports of other playlists, are its only errors if nothing goes wrong; a failed commit leaves everything or nothing inserted |
| Imports.Importer.SaveSnapshot | internal/spotify/imports.go:192-231 | One transaction publishes all, with the given content, metadata and count and a cleared error, or nothing, also if its commit is not confirmed; a second delivery changes nothing; it succeeds for a connected session if nothing goes wrong |
| Imports.Importer.ReadPage | internal/spotify/imports.go:118-162 | A page of a snapshot is the slice of its content, for its owner only |
| TransferStore.OneRunPerPreview | internal/transfer/store.go:186-225 | However callers that look and callers that insert take turns, in every state a preview has at most one run, and runs and jobs correspond one to one |
| TransferStore.RepreviewKeepsId | internal/transfer/store.go:71-132 | Previewing a snapshot again keeps the first ID and leaves exactly the latest entries |
| TransferStore.ResavedIff | internal/transfer/store.go:103-124 | Saved entries replace stored ones without leftovers exactly when they are at least as many |
| TransferStore.PreviewStore.SavePreview | internal/transfer/store.go:71-132 | The upsert keeps the ID and the source name of an earlier preview with the same key and stores the entries by position; a failed commit leaves all of that or nothing, and it succeeds if nothing goes wrong |
| TransferStore.PreviewStore.EnqueueRun | internal/transfer/store.go:186-225 | Every call is a path of looking, any number of runs that other callers enqueue for any previews, and inserting; success means the preview has exactly the returned run, which starts queued at position 0 if it is new; an existing run is returned without a write; a failed commit leaves run and job inserted together or not at all; it succeeds if nothing goes wrong |
| TransferStore.PreviewStore.UpdateRunState | internal/transfer/store.go:307-314 | The given run has the given progress, and nothing else changes |
| Auth.AttemptsUsedOnce | internal/spotify/auth.go:66-122 | Over every interleaving at most 1024 attempts are pending, and each state leads to at most one exchange, less than 600 seconds after its start and with the verifier of that start |
| Auth.Authorizer.Begin | internal/spotify/auth.go:66-84 | Expired attempts are purged, then the new one is added for 600 seconds exactly if there is room |
| Auth.Authorizer.Purge | internal/spotify/auth.go:72-76 | The loop deletes exactly the expired attempts |
| Auth.Authorizer.TakeAttempt | internal/spotify/auth.go:100-103 | Taking an attempt is one step of the state machine: it leaves the table, so a second callback finds nothing |
| Auth.Authorizer.Settle | internal/spotify/auth.go:105-118 | Dealing with a taken attempt, however much later, is one step: the code is exchanged with the attempt's verifier exactly if it is unexpired, granted and present |
| Auth.Authorizer.Finish | internal/spotify/auth.go:91-118 | A callback is a taking step and then a redeeming or dropping step; the code is exchanged exactly when the attempt was pending, unexpired and granted |

## Left out

- HTTP handlers, cookies, JSON, URL building, encryption, hashing and random generation: sealing is an exact inverse and fresh IDs are parameters.
- PostgreSQL and River internals: rows, locks, uniqueness, cascades and job states are modelled, not how they are kept; retry schedules, attempt limits and job timeouts are not.
- `Save` and the session expiry clean-up in internal/spotify/store.go: sessions appear and disappear as single steps of `Imports`.
- Job status lookup and the error codes of the import worker: classification without state.
- String lengths count characters, where the source counts bytes; nil and empty slices are not distinguished.
- Integer overflow: durations, offsets and counts are unbounded.
- Imports.Importer.Enqueue: the call runs its two steps without interruption; other steps between taking the lock and inserting are covered by `Imports.AdmissionBounds`.
- Auth.Authorizer.Finish: the call runs its two steps without interruption; `TakeAttempt` and `Settle` are steps of their own, and `Auth.AttemptsUsedOnce` covers others in between.
- Worker.Transfer.FindPlaylistByName: follows Spotify's page rules, with totals and an offset limit; Apple Music lists by continuation, whose end depends on the provider.
- Matcher.CollectUnique: sorts by a specified stable sort, because the library's sorting algorithm is not part of the repository.
- internal/applemusic, internal/config, internal/httpapi, internal/platform and cmd: network plumbing, validation and wiring.
- `updateRunProgress` in internal/transfer/worker.go: nothing calls it.
