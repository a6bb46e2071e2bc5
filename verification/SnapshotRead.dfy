/** Reading a whole playlist page by page while others may edit it.

    A provider is a function of the request and of its place in the sequence of requests, so
    an arbitrary function is an arbitrary adversary. An honest provider answers the k-th
    request from the version that is current at some instant at(k), and instants never go back. */
module SnapshotRead {
  import opened Wrappers
  import opened Occurrences

  const MAX_SNAPSHOT_ITEMS := 10000
  const PAGE_LIMIT := 50

  datatype Request = MetadataRequest | ItemsRequest(offset: nat)

  datatype Metadata = Metadata(
    id: string, snapshotId: string, name: string, itemsTotal: Option<int>, tracksTotal: Option<int>)

  datatype Page = Page(items: seq<Occurrence>, total: int, offset: int)

  datatype Answer = MetadataAnswer(metadata: Metadata) | ItemsAnswer(page: Page) | Refused

  type Provider = (nat, Request) -> Answer

  datatype ReadError =
    InvalidId | RequestFailed | InvalidMetadata | InvalidCount | TooLarge | Changed | InvalidPage

  datatype Snapshot = Snapshot(metadata: Metadata, entries: seq<Entry>)

  /** The outcome and the number of requests it took. */
  datatype Outcome = Outcome(result: Result<Snapshot, ReadError>, requests: nat)

  function Count(m: Metadata): Option<int> {
    if m.itemsTotal.Some? then m.itemsTotal else m.tracksTotal
  }

  predicate ValidPlaylistId(id: string) {
    && 0 < |id| <= 128
    && forall i :: 0 <= i < |id| ==> 'A' <= id[i] <= 'Z' || 'a' <= id[i] <= 'z' || '0' <= id[i] <= '9'
  }

  function CheckedMetadata(id: string, answer: Answer): Result<Metadata, ReadError> {
    match answer
    case MetadataAnswer(m) =>
      if m.id != id || m.snapshotId == "" then Failure(InvalidMetadata) else Success(m)
    case _ => Failure(RequestFailed)
  }

  function CheckedPage(answer: Answer, offset: nat, total: nat): Result<seq<Occurrence>, ReadError> {
    match answer
    case ItemsAnswer(page) =>
      if page.total != total then Failure(Changed)
      else if page.offset != offset || page.items == [] || |page.items| > PAGE_LIMIT || offset + |page.items| > total
      then Failure(InvalidPage)
      else Success(page.items)
    case _ => Failure(RequestFailed)
  }

  /** All remaining pages, and the number of the request after them. */
  datatype Pages = Pages(items: Result<seq<Occurrence>, ReadError>, next: nat)

  function ReadPages(provider: Provider, k: nat, total: nat, items: seq<Occurrence>): Pages
    requires |items| <= total
    decreases total - |items|
  {
    if |items| == total then Pages(Success(items), k)
    else
      match CheckedPage(provider(k, ItemsRequest(|items|)), |items|, total)
      case Failure(e) => Pages(Failure(e), k + 1)
      case Success(more) => ReadPages(provider, k + 1, total, items + more)
  }

  function Read(id: string, provider: Provider): Outcome {
    if !ValidPlaylistId(id) then Outcome(Failure(InvalidId), 0) else
    match CheckedMetadata(id, provider(0, MetadataRequest))
    case Failure(e) => Outcome(Failure(e), 1)
    case Success(before) =>
      match Count(before)
      case None => Outcome(Failure(InvalidCount), 1)
      case Some(total) =>
        if total < 0 then Outcome(Failure(InvalidCount), 1)
        else if total > MAX_SNAPSHOT_ITEMS then Outcome(Failure(TooLarge), 1)
        else
          var pages := ReadPages(provider, 1, total, []);
          match pages.items
          case Failure(e) => Outcome(Failure(e), pages.next)
          case Success(items) =>
            Outcome(Confirm(id, before, total, items, provider(pages.next, MetadataRequest)), pages.next + 1)
  }

  function Confirm(id: string, before: Metadata, total: nat, items: seq<Occurrence>, answer: Answer)
    : Result<Snapshot, ReadError>
  {
    match CheckedMetadata(id, answer)
    case Failure(e) => Failure(e)
    case Success(after) =>
      if after.snapshotId != before.snapshotId || Count(after) != Some(total) then Failure(Changed)
      else Success(Snapshot(before, ToEntries(items)))
  }

  /** The reading loop, with the entries numbered as they arrive. */
  method ReadSnapshot(id: string, provider: Provider) returns (result: Result<Snapshot, ReadError>, requests: nat)
    ensures Outcome(result, requests) == Read(id, provider)
  {
    if !ValidPlaylistId(id) {
      return Failure(InvalidId), 0;
    }
    var checked := CheckedMetadata(id, provider(0, MetadataRequest));
    if checked.Failure? {
      return Failure(checked.error), 1;
    }
    var before := checked.value;
    var count := Count(before);
    if count.None? || count.value < 0 {
      return Failure(InvalidCount), 1;
    }
    var total := count.value;
    if total > MAX_SNAPSHOT_ITEMS {
      return Failure(TooLarge), 1;
    }
    var entries: seq<Entry> := [];
    ghost var items: seq<Occurrence> := [];
    var offset := 0;
    requests := 1;
    while offset < total
      invariant offset == |items| <= total && entries == ToEntries(items)
      invariant ReadPages(provider, 1, total, []) == ReadPages(provider, requests, total, items)
      decreases total - offset
    {
      var page := CheckedPage(provider(requests, ItemsRequest(offset)), offset, total);
      requests := requests + 1;
      if page.Failure? {
        return Failure(page.error), requests;
      }
      for i := 0 to |page.value|
        invariant entries == ToEntries(items + page.value[..i])
      {
        entries := entries + [ToEntry(page.value[i], |entries|)];
        assert items + page.value[..i + 1] == items + page.value[..i] + [page.value[i]];
      }
      assert page.value[..|page.value|] == page.value;
      items := items + page.value;
      offset := offset + |page.value|;
    }
    var confirmed := CheckedMetadata(id, provider(requests, MetadataRequest));
    requests := requests + 1;
    if confirmed.Failure? {
      return Failure(confirmed.error), requests;
    }
    var afterTotal := Count(confirmed.value);
    if afterTotal.None? || confirmed.value.snapshotId != before.snapshotId || afterTotal.value != total {
      return Failure(Changed), requests;
    }
    result := Success(Snapshot(before, entries));
  }

  // ---- Against an arbitrary provider ----

  lemma {:induction false} PagesBounded(provider: Provider, k: nat, total: nat, items: seq<Occurrence>)
    requires |items| <= total
    ensures var pages := ReadPages(provider, k, total, items);
            && pages.next <= k + (total - |items|)
            && (pages.items.Success? ==> |pages.items.value| == total)
    decreases total - |items|
  {
    if |items| < total {
      var page := CheckedPage(provider(k, ItemsRequest(|items|)), |items|, total);
      if page.Success? {
        PagesBounded(provider, k + 1, total, items + page.value);
      }
    }
  }

  /** Whatever the provider answers, a read makes at most total + 2 requests for the total it
      was first told, which never exceeds 10000; a successful one has that many entries,
      numbered from 0. */
  lemma ReadBounded(id: string, provider: Provider)
    ensures var r := Read(id, provider);
            && r.requests <= 10002
            && (r.requests > 1 ==>
                  && provider(0, MetadataRequest).MetadataAnswer?
                  && var total := Count(provider(0, MetadataRequest).metadata);
                  && total.Some? && r.requests <= total.value + 2)
            && (r.result.Success? ==>
                  && Some(|r.result.value.entries|) == Count(r.result.value.metadata)
                  && |r.result.value.entries| <= 10000
                  && forall i :: 0 <= i < |r.result.value.entries| ==> r.result.value.entries[i].position == i)
  {
    if ValidPlaylistId(id) {
      var checked := CheckedMetadata(id, provider(0, MetadataRequest));
      if checked.Success? && Count(checked.value).Some? && 0 <= Count(checked.value).value <= MAX_SNAPSHOT_ITEMS {
        PagesBounded(provider, 1, Count(checked.value).value, []);
      }
    }
  }

  // ---- What makes a read succeed ----

  // The code points of the digits and letters of ASCII.
  const DIGIT_CODES := {0x30, 0x31, 0x32, 0x33, 0x34, 0x35, 0x36, 0x37, 0x38, 0x39}
  const CAPITAL_CODES := {
    0x41, 0x42, 0x43, 0x44, 0x45, 0x46, 0x47, 0x48, 0x49, 0x4A, 0x4B, 0x4C, 0x4D,
    0x4E, 0x4F, 0x50, 0x51, 0x52, 0x53, 0x54, 0x55, 0x56, 0x57, 0x58, 0x59, 0x5A}
  const SMALL_CODES := {
    0x61, 0x62, 0x63, 0x64, 0x65, 0x66, 0x67, 0x68, 0x69, 0x6A, 0x6B, 0x6C, 0x6D,
    0x6E, 0x6F, 0x70, 0x71, 0x72, 0x73, 0x74, 0x75, 0x76, 0x77, 0x78, 0x79, 0x7A}

  predicate LetterOrDigit(c: char) {
    c as int in DIGIT_CODES || c as int in CAPITAL_CODES || c as int in SMALL_CODES
  }

  /** An ID of 1 to 128 letters and digits. */
  predicate PlaylistId(id: string) {
    1 <= |id| <= 128 && forall i :: 0 <= i < |id| ==> LetterOrDigit(id[i])
  }

  lemma CodesAreRanges(n: int)
    ensures n in DIGIT_CODES <==> 48 <= n <= 57
    ensures n in CAPITAL_CODES <==> 65 <= n <= 90
    ensures n in SMALL_CODES <==> 97 <= n <= 122
  {
  }

  lemma PlaylistIdIff(id: string)
    ensures PlaylistId(id) <==> ValidPlaylistId(id)
  {
    forall c: char ensures LetterOrDigit(c) <==> 'A' <= c <= 'Z' || 'a' <= c <= 'z' || '0' <= c <= '9' {
      CodesAreRanges(c as int);
    }
  }

  /** The provider is asked at all exactly for an ID of 1 to 128 letters and digits. */
  lemma AsksIff(id: string, provider: Provider)
    ensures Read(id, provider).requests > 0 <==> PlaylistId(id)
    ensures !PlaylistId(id) ==> Read(id, provider) == Outcome(Failure(InvalidId), 0)
  {
    PlaylistIdIff(id);
    var first := CheckedMetadata(id, provider(0, MetadataRequest));
    if first.Success? && Count(first.value).Some? && 0 <= Count(first.value).value <= MAX_SNAPSHOT_ITEMS {
      NextAdvances(provider, 1, Count(first.value).value, []);
    }
  }

  /** The number of items that metadata tell: the newer field counts if both are there. */
  predicate Tells(m: Metadata, total: nat) {
    m.itemsTotal == Some(total) || (m.itemsTotal.None? && m.tracksTotal == Some(total))
  }

  function Flatten(pages: seq<seq<Occurrence>>): seq<Occurrence> {
    if pages == [] then [] else Flatten(pages[..|pages| - 1]) + pages[|pages| - 1]
  }

  /** Page k was asked for by request first + k, at the offset where the pages before it end. */
  ghost predicate PageServed(provider: Provider, first: nat, base: nat, total: nat, pages: seq<seq<Occurrence>>, k: nat)
    requires k < |pages|
  {
    var offset := base + |Flatten(pages[..k])|;
    && 1 <= |pages[k]| <= 50
    && provider(first + k, ItemsRequest(offset)) == ItemsAnswer(Page(pages[k], total, offset))
  }

  ghost predicate PagesServed(provider: Provider, first: nat, base: nat, total: nat, pages: seq<seq<Occurrence>>) {
    && base + |Flatten(pages)| == total
    && forall k :: 0 <= k < |pages| ==> PageServed(provider, first, base, total, pages, k)
  }

  lemma {:induction false} FlattenCons(page: seq<Occurrence>, rest: seq<seq<Occurrence>>)
    ensures Flatten([page] + rest) == page + Flatten(rest)
  {
    if rest == [] {
      assert [page] + rest == [page] && [page][..0] == [];
    } else {
      var all := [page] + rest;
      assert all[..|all| - 1] == [page] + rest[..|rest| - 1];
      FlattenCons(page, rest[..|rest| - 1]);
    }
  }

  lemma ServedCons(provider: Provider, first: nat, base: nat, total: nat, page: seq<Occurrence>,
                   rest: seq<seq<Occurrence>>)
    requires 1 <= |page| <= 50 && provider(first, ItemsRequest(base)) == ItemsAnswer(Page(page, total, base))
    ensures PagesServed(provider, first, base, total, [page] + rest)
            <==> PagesServed(provider, first + 1, base + |page|, total, rest)
  {
    var all := [page] + rest;
    FlattenCons(page, rest);
    assert PageServed(provider, first, base, total, all, 0) by {
      assert all[..0] == [];
    }
    forall j | 1 <= j < |all|
      ensures PageServed(provider, first, base, total, all, j)
              <==> PageServed(provider, first + 1, base + |page|, total, rest, j - 1)
    {
      assert all[..j] == [page] + rest[..j - 1];
      FlattenCons(page, rest[..j - 1]);
    }
    if PagesServed(provider, first, base, total, all) {
      ServedTail(provider, first, base, total, page, rest);
    }
  }

  lemma ServedTail(provider: Provider, first: nat, base: nat, total: nat, page: seq<Occurrence>,
                   rest: seq<seq<Occurrence>>)
    requires PagesServed(provider, first, base, total, [page] + rest)
    ensures PagesServed(provider, first + 1, base + |page|, total, rest)
  {
    var all, next, end := [page] + rest, first + 1, base + |page|;
    FlattenCons(page, rest);
    forall k | 0 <= k < |rest| ensures PageServed(provider, next, end, total, rest, k) {
      assert PageServed(provider, first, base, total, all, k + 1);
      assert all[..k + 1] == [page] + rest[..k];
      FlattenCons(page, rest[..k]);
    }
  }

  /** Reading pages succeeds by being served pages that fit together, */
  lemma {:induction false} ReadPagesServed(provider: Provider, k: nat, total: nat, items: seq<Occurrence>)
      returns (pages: seq<seq<Occurrence>>)
    requires |items| <= total && ReadPages(provider, k, total, items).items.Success?
    ensures PagesServed(provider, k, |items|, total, pages)
    ensures ReadPages(provider, k, total, items) == Pages(Success(items + Flatten(pages)), k + |pages|)
    decreases total - |items|
  {
    if |items| == total {
      pages := [];
      assert items + [] == items;
    } else {
      var page := CheckedPage(provider(k, ItemsRequest(|items|)), |items|, total).value;
      var rest := ReadPagesServed(provider, k + 1, total, items + page);
      pages := [page] + rest;
      FlattenCons(page, rest);
      ServedCons(provider, k, |items|, total, page, rest);
      assert items + page + Flatten(rest) == items + (page + Flatten(rest));
    }
  }

  /** and whenever it is. */
  lemma {:induction false} ServedPagesRead(provider: Provider, k: nat, total: nat, items: seq<Occurrence>,
                                           pages: seq<seq<Occurrence>>)
    requires PagesServed(provider, k, |items|, total, pages)
    ensures ReadPages(provider, k, total, items) == Pages(Success(items + Flatten(pages)), k + |pages|)
    decreases |pages|
  {
    if pages == [] {
      assert items + [] == items;
    } else {
      var page, rest := pages[0], pages[1..];
      assert pages == [page] + rest;
      FlattenCons(page, rest);
      assert PageServed(provider, k, |items|, total, pages, 0);
      assert pages[..0] == [];
      ServedCons(provider, k, |items|, total, page, rest);
      ServedPagesRead(provider, k + 1, total, items + page, rest);
      assert items + page + Flatten(rest) == items + (page + Flatten(rest));
    }
  }

  /** A transcript of a successful read: metadata, pages of 1 to 50 items that follow on each
      other and all tell the first total, and metadata of the same version and total. */
  ghost predicate Transcript(id: string, provider: Provider, before: Metadata, total: nat, pages: seq<seq<Occurrence>>,
                             after: Metadata)
  {
    && PlaylistId(id) && total <= 10000
    && provider(0, MetadataRequest) == MetadataAnswer(before)
    && provider(|pages| + 1, MetadataRequest) == MetadataAnswer(after)
    && before.id == id == after.id && before.snapshotId == after.snapshotId != ""
    && Tells(before, total) && Tells(after, total)
    && PagesServed(provider, 1, 0, total, pages)
  }

  /** A read succeeds exactly by such a transcript, with the items of its pages, numbered. */
  lemma ReadSucceedsIff(id: string, provider: Provider, before: Metadata, entries: seq<Entry>)
    ensures Read(id, provider).result == Success(Snapshot(before, entries)) <==>
            exists total: nat, pages, after :: Transcript(id, provider, before, total, pages, after)
                                               && entries == ToEntries(Flatten(pages))
  {
    PlaylistIdIff(id);
    if Read(id, provider).result == Success(Snapshot(before, entries)) {
      var total: nat := Count(before).value;
      var pages := ReadPagesServed(provider, 1, total, []);
      assert [] + Flatten(pages) == Flatten(pages);
      var after := provider(|pages| + 1, MetadataRequest).metadata;
      assert Transcript(id, provider, before, total, pages, after);
    }
    if total: nat, pages, after :| Transcript(id, provider, before, total, pages, after)
                                   && entries == ToEntries(Flatten(pages)) {
      ServedPagesRead(provider, 1, total, [], pages);
      assert [] + Flatten(pages) == Flatten(pages);
    }
  }

  /** What a failure says of the last answer. */
  ghost predicate Explained(id: string, e: ReadError, answer: Answer, total: Option<int>) {
    match e
    case InvalidId => false
    case RequestFailed => true
    case InvalidMetadata => answer.MetadataAnswer? && (answer.metadata.id != id || answer.metadata.snapshotId == "")
    case InvalidCount =>
      answer.MetadataAnswer? && forall n: nat :: !Tells(answer.metadata, n)
    case TooLarge => answer.MetadataAnswer? && exists n: nat :: n > 10000 && Tells(answer.metadata, n)
    case Changed => total.Some? && (answer.MetadataAnswer? || (answer.ItemsAnswer? && answer.page.total != total.value))
    case InvalidPage => answer.ItemsAnswer? && Some(answer.page.total) == total
  }

  lemma {:induction false} PagesExplained(id: string, provider: Provider, k: nat, total: nat, items: seq<Occurrence>)
      returns (request: Request)
    requires |items| <= total && ReadPages(provider, k, total, items).items.Failure?
    ensures var pages := ReadPages(provider, k, total, items);
            pages.next > 0 && Explained(id, pages.items.error, provider(pages.next - 1, request), Some(total))
    decreases total - |items|
  {
    request := ItemsRequest(|items|);
    var page := CheckedPage(provider(k, request), |items|, total);
    if page.Success? {
      request := PagesExplained(id, provider, k + 1, total, items + page.value);
    }
  }

  /** Every failure after a request is explained by the last answer: no usable count, more than
      10000 items, another total or version than at first, a page that does not fit. */
  lemma FailureExplained(id: string, provider: Provider) returns (request: Request)
    requires Read(id, provider).result.Failure? && Read(id, provider).requests > 0
    ensures var r := Read(id, provider);
            var first := provider(0, MetadataRequest);
            Explained(id, r.result.error, provider(r.requests - 1, request),
                      if first.MetadataAnswer? then Count(first.metadata) else None)
  {
    request := MetadataRequest;
    var first := CheckedMetadata(id, provider(0, MetadataRequest));
    if first.Success? && Count(first.value).Some? && 0 <= Count(first.value).value <= MAX_SNAPSHOT_ITEMS {
      if ReadPages(provider, 1, Count(first.value).value, []).items.Failure? {
        request := PagesExplained(id, provider, 1, Count(first.value).value, []);
      }
    } else if first.Success? && Count(first.value).Some? && Count(first.value).value >= 0 {
      var n: nat := Count(first.value).value;
      assert n > 10000 && Tells(first.value, n);
    }
  }

  // ---- Against an honest provider with concurrent editors ----

  /** One state of the playlist between two edits. */
  datatype Version = Version(snapshotId: string, name: string, items: seq<Occurrence>)

  type History = seq<Version>

  /** Every edit installs a version ID that was never used before. */
  ghost predicate NeverReused(history: History) {
    forall i, j :: 0 <= i < j < |history| ==> history[i].snapshotId != history[j].snapshotId
  }

  ghost predicate Instants(history: History, at: nat -> nat) {
    && (forall k :: at(k) < |history|)
    && (forall j, k :: j <= k ==> at(j) <= at(k))
  }

  /** The page lists items one after another from the offset on. */
  ghost predicate PageOf(items: seq<Occurrence>, offset: nat, page: seq<Occurrence>) {
    page != [] ==> offset + |page| <= |items| && page == items[offset..offset + |page|]
  }

  /** The answer, if any, is true of the given version; page sizes are the provider's choice.
      Past the end a provider may refuse or return an empty page. */
  ghost predicate Truthful(id: string, version: Version, request: Request, answer: Answer) {
    match answer
    case Refused => true
    case MetadataAnswer(m) =>
      && request.MetadataRequest?
      && m.id == id && m.snapshotId == version.snapshotId && m.name == version.name
      && Tells(m, |version.items|)
    case ItemsAnswer(page) =>
      && request.ItemsRequest?
      && page.total == |version.items| && page.offset == request.offset
      && PageOf(version.items, request.offset, page.items)
      && |page.items| <= 50
      && (request.offset < |version.items| ==> page.items != [])
  }

  ghost predicate Honest(id: string, history: History, at: nat -> nat, provider: Provider) {
    && Instants(history, at)
    && forall k, request :: Truthful(id, history[at(k)], request, provider(k, request))
  }

  /** The provider answers whatever has a true answer: it may refuse only offsets past the end. */
  ghost predicate Answers(history: History, at: nat -> nat, provider: Provider)
    requires Instants(history, at)
  {
    forall k: nat, request: Request ::
      request.MetadataRequest? || request.offset < |history[at(k)].items| ==> provider(k, request) != Refused
  }

  /** Every request answered at its instant, with one item a page. */
  ghost function SteadyAnswer(id: string, version: Version, request: Request): Answer {
    match request
    case MetadataRequest => MetadataAnswer(Metadata(id, version.snapshotId, version.name, Some(|version.items|), None))
    case ItemsRequest(offset) =>
      if offset < |version.items| then ItemsAnswer(Page([version.items[offset]], |version.items|, offset)) else Refused
  }

  /** Honest providers that answer exist for every history and every choice of instants. */
  lemma SteadyProvider(id: string, history: History, at: nat -> nat) returns (provider: Provider)
    requires Instants(history, at)
    ensures Honest(id, history, at, provider) && Answers(history, at, provider)
    ensures forall k: nat, request: Request :: provider(k, request) == SteadyAnswer(id, history[at(k)], request)
  {
    provider := (k: nat, request: Request) =>
      if at(k) < |history| then SteadyAnswer(id, history[at(k)], request) else Refused;
    forall k: nat, request: Request ensures Truthful(id, history[at(k)], request, provider(k, request)) {
      var items := history[at(k)].items;
      if request.ItemsRequest? && request.offset < |items| {
        assert items[request.offset..request.offset + 1] == [items[request.offset]];
      }
    }
  }

  /** Pages read while version v stays current make up a prefix of v. */
  lemma {:induction false} PagesOfOneVersion(id: string, history: History, at: nat -> nat, provider: Provider, k: nat,
                                             total: nat, items: seq<Occurrence>, v: nat)
    requires Honest(id, history, at, provider) && v < |history| && |items| <= total
    requires |history[v].items| == total && items == history[v].items[..|items|]
    requires forall j :: k <= j < ReadPages(provider, k, total, items).next ==> at(j) == v
    ensures var pages := ReadPages(provider, k, total, items);
            && (pages.items.Success? ==> pages.items.value == history[v].items)
            && (Answers(history, at, provider) ==> pages.items.Success?)
    decreases total - |items|
  {
    if |items| < total {
      var page := CheckedPage(provider(k, ItemsRequest(|items|)), |items|, total);
      NextAdvances(provider, k, total, items);
      assert at(k) == v;
      assert Truthful(id, history[at(k)], ItemsRequest(|items|), provider(k, ItemsRequest(|items|)));
      if page.Success? {
        PagesOfOneVersion(id, history, at, provider, k + 1, total, items + page.value, v);
      }
    }
  }

  lemma {:induction false} NextAdvances(provider: Provider, k: nat, total: nat, items: seq<Occurrence>)
    requires |items| <= total
    ensures ReadPages(provider, k, total, items).next >= k
    ensures |items| < total ==> ReadPages(provider, k, total, items).next > k
    decreases total - |items|
  {
    if |items| < total {
      var page := CheckedPage(provider(k, ItemsRequest(|items|)), |items|, total);
      if page.Success? {
        NextAdvances(provider, k + 1, total, items + page.value);
      }
    }
  }

  lemma SameVersion(history: History, at: nat -> nat, last: nat)
    requires Instants(history, at) && NeverReused(history)
    requires history[at(0)].snapshotId == history[at(last)].snapshotId
    ensures forall k :: 0 <= k <= last ==> at(k) == at(0)
  {
    assert at(0) <= at(last);
    assert at(0) == at(last);
    assert forall k :: 0 <= k <= last ==> at(0) <= at(k) <= at(last);
  }

  /** A successful read is atomic: with edits between any two requests, the entries are the
      whole content, in order, of the one version whose ID is returned, and nothing was
      edited from the first request to the last. */
  lemma SnapshotAtomic(id: string, history: History, at: nat -> nat, provider: Provider)
    requires Honest(id, history, at, provider) && NeverReused(history)
    ensures var r := Read(id, provider);
            r.result.Success? ==>
              && r.requests > 0 && at(r.requests - 1) == at(0)
              && history[at(0)].snapshotId == r.result.value.metadata.snapshotId
              && history[at(0)].name == r.result.value.metadata.name
              && r.result.value.entries == ToEntries(history[at(0)].items)
  {
    var r := Read(id, provider);
    if r.result.Success? {
      var before := provider(0, MetadataRequest).metadata;
      assert Truthful(id, history[at(0)], MetadataRequest, provider(0, MetadataRequest));
      var total := Count(before).value;
      var pages := ReadPages(provider, 1, total, []);
      assert Truthful(id, history[at(pages.next)], MetadataRequest, provider(pages.next, MetadataRequest));
      SameVersion(history, at, pages.next);
      PagesOfOneVersion(id, history, at, provider, 1, total, [], at(0));
    }
  }

  /** With an honest provider that answers every request, a read of a playlist of legal size
      succeeds exactly when nobody edits it from the first request to the last. */
  lemma SucceedsIffUnedited(id: string, history: History, at: nat -> nat, provider: Provider)
    requires Honest(id, history, at, provider) && NeverReused(history) && Answers(history, at, provider)
    requires PlaylistId(id) && |history[at(0)].items| <= 10000
    requires forall v :: 0 <= v < |history| ==> history[v].snapshotId != ""
    ensures var r := Read(id, provider);
            r.requests > 0 && (r.result.Success? <==> at(r.requests - 1) == at(0))
  {
    var r := Read(id, provider);
    PlaylistIdIff(id);
    SnapshotAtomic(id, history, at, provider);
    assert Truthful(id, history[at(0)], MetadataRequest, provider(0, MetadataRequest));
    var total := |history[at(0)].items|;
    var pages := ReadPages(provider, 1, total, []);
    NextAdvances(provider, 1, total, []);
    if at(r.requests - 1) == at(0) {
      assert forall k :: 0 <= k < r.requests ==> at(0) <= at(k) <= at(r.requests - 1);
      PagesOfOneVersion(id, history, at, provider, 1, total, [], at(0));
      assert Truthful(id, history[at(pages.next)], MetadataRequest, provider(pages.next, MetadataRequest));
    }
  }

  // ---- Why version IDs must not be reused ----

  /** A successful read shows the content of the version its first request met. */
  ghost predicate Atomic(id: string, history: History, at: nat -> nat, provider: Provider)
    requires Instants(history, at)
  {
    var r := Read(id, provider).result;
    r.Success? ==> r.value.entries == ToEntries(history[at(0)].items)
  }

  /** Versions i and j look the same from outside, and version k between them, of their length,
      shows something else. */
  ghost predicate Torn(history: History, i: nat, k: nat, j: nat) {
    && i <= k <= j < |history|
    && history[i].snapshotId == history[j].snapshotId != ""
    && |history[i].items| == |history[k].items| == |history[j].items| <= 10000
    && ToEntries(history[k].items) != ToEntries(history[i].items)
  }

  /** Every read from every honest provider is atomic exactly when the history is never torn:
      an ID may be used again only if no length in between comes back with another content. */
  lemma AtomicIff(id: string, history: History)
    requires PlaylistId(id)
    ensures (forall at: nat -> nat, provider: Provider ::
               Honest(id, history, at, provider) ==> Atomic(id, history, at, provider))
            <==> !exists i, k, j :: Torn(history, i, k, j)
  {
    PlaylistIdIff(id);
    if i, k, j :| Torn(history, i, k, j) {
      var at, provider := TornRead(id, history, i, k, j);
      assert !Atomic(id, history, at, provider);
    } else {
      forall at: nat -> nat, provider: Provider | Honest(id, history, at, provider)
        ensures Atomic(id, history, at, provider)
      {
        UntornRead(id, history, at, provider);
      }
    }
  }

  lemma UntornRead(id: string, history: History, at: nat -> nat, provider: Provider)
    requires Honest(id, history, at, provider) && !exists i, k, j :: Torn(history, i, k, j)
    ensures Atomic(id, history, at, provider)
  {
    var r := Read(id, provider);
    if r.result.Success? {
      assert Truthful(id, history[at(0)], MetadataRequest, provider(0, MetadataRequest));
      var total := |history[at(0)].items|;
      var pages := ReadPages(provider, 1, total, []);
      var last := pages.next;
      assert Truthful(id, history[at(last)], MetadataRequest, provider(last, MetadataRequest));
      PagesBounded(provider, 1, total, []);
      forall k: nat | k <= last && |history[at(k)].items| == total
        ensures ToEntries(history[at(k)].items) == ToEntries(history[at(0)].items)
      {
        assert !Torn(history, at(0), at(k), at(last));
      }
      PagesOfOneContent(id, history, at, provider, 1, [], last, ToEntries(history[at(0)].items));
    }
  }

  /** If every version of the right length met on the way shows the same entries, so do the pages. */
  lemma {:induction false} PagesOfOneContent(id: string, history: History, at: nat -> nat, provider: Provider, k: nat,
                                             items: seq<Occurrence>, last: nat, entries: seq<Entry>)
    requires Honest(id, history, at, provider) && |items| <= |entries| && ToEntries(items) == entries[..|items|]
    requires last == ReadPages(provider, k, |entries|, items).next
    requires forall j: nat :: j <= last && |history[at(j)].items| == |entries| ==>
               ToEntries(history[at(j)].items) == entries
    ensures var pages := ReadPages(provider, k, |entries|, items).items;
            pages.Success? ==> ToEntries(pages.value) == entries
    decreases |entries| - |items|
  {
    var page := CheckedPage(provider(k, ItemsRequest(|items|)), |items|, |entries|);
    if |items| < |entries| && page.Success? {
      assert Truthful(id, history[at(k)], ItemsRequest(|items|), provider(k, ItemsRequest(|items|)));
      NextAdvances(provider, k, |entries|, items);
      var all, more := history[at(k)].items, items + page.value;
      assert ToEntries(all) == entries;
      forall x | 0 <= x < |more| ensures ToEntries(more)[x] == entries[x] {
        assert x < |items| ==> ToEntries(items)[x] == entries[x];
        assert x >= |items| ==> more[x] == all[x] && ToEntries(all)[x] == entries[x];
      }
      PagesOfOneContent(id, history, at, provider, k + 1, more, last, entries);
    }
  }

  /** The first request meets version i, the pages version k, the last request version j. */
  lemma TornRead(id: string, history: History, i: nat, k: nat, j: nat) returns (at: nat -> nat, provider: Provider)
    requires ValidPlaylistId(id) && Torn(history, i, k, j)
    ensures Honest(id, history, at, provider) && !Atomic(id, history, at, provider)
  {
    var items := history[k].items;
    var n := |items|;
    at := q => if q == 0 then i else if q <= n then k else j;
    provider := SteadyProvider(id, history, at);
    SteadyPages(id, history, at, provider, k, 1);
    assert items[..0] == [];
    var before := Metadata(id, history[i].snapshotId, history[i].name, Some(n), None);
    assert provider(0, MetadataRequest) == MetadataAnswer(before);
    assert provider(n + 1, MetadataRequest)
        == MetadataAnswer(Metadata(id, history[j].snapshotId, history[j].name, Some(n), None));
    assert Read(id, provider).result == Success(Snapshot(before, ToEntries(items)));
  }

  lemma {:induction false} SteadyPages(id: string, history: History, at: nat -> nat, provider: Provider, v: nat, q: nat)
    requires Instants(history, at) && v < |history| && 1 <= q <= |history[v].items| + 1
    requires forall r: nat :: 1 <= r <= |history[v].items| ==> at(r) == v
    requires forall k: nat, request: Request :: provider(k, request) == SteadyAnswer(id, history[at(k)], request)
    ensures var items := history[v].items;
            ReadPages(provider, q, |items|, items[..q - 1]) == Pages(Success(items), |items| + 1)
    decreases |history[v].items| - q
  {
    var items := history[v].items;
    if q <= |items| {
      assert provider(q, ItemsRequest(q - 1)) == SteadyAnswer(id, history[at(q)], ItemsRequest(q - 1));
      assert items[..q - 1] + [items[q - 1]] == items[..q];
      SteadyPages(id, history, at, provider, v, q + 1);
    } else {
      assert items[..q - 1] == items;
    }
  }

  function Named(name: string): Occurrence {
    Occurrence(None, false, Some(Media("track", name, name, [], "", 1, "", "", "", false, None)), None)
  }

  function TornProvider(k: nat, request: Request): Answer {
    match request
    case MetadataRequest => MetadataAnswer(Metadata("p", "v", "n", Some(2), None))
    case ItemsRequest(offset) =>
      if offset == 0 then ItemsAnswer(Page(if k <= 1 then [Named("a")] else [Named("c")], 2, 0))
      else if offset == 1 then ItemsAnswer(Page(if k <= 1 then [Named("b")] else [Named("d")], 2, 1))
      else Refused
  }

  function TornHistory(): History {
    [Version("v", "n", [Named("a"), Named("b")]), Version("v", "n", [Named("c"), Named("d")])]
  }

  function TornInstant(k: nat): nat {
    if k <= 1 then 0 else 1
  }

  lemma TornProviderHonest()
    ensures Honest("p", TornHistory(), TornInstant, TornProvider)
  {
    forall k, request ensures Truthful("p", TornHistory()[TornInstant(k)], request, TornProvider(k, request)) {
      var items := TornHistory()[TornInstant(k)].items;
      assert items[0..1] == [items[0]] && items[1..2] == [items[1]];
    }
  }

  lemma TornPages()
    ensures ReadPages(TornProvider, 1, 2, []) == Pages(Success([Named("a"), Named("d")]), 3)
  {
    var provider: Provider := TornProvider;
    var a, d := [Named("a")], [Named("d")];
    assert CheckedPage(provider(1, ItemsRequest(0)), 0, 2) == Success(a);
    assert CheckedPage(provider(2, ItemsRequest(1)), 1, 2) == Success(d);
    assert [] + a == a && a + d == [Named("a"), Named("d")];
    assert ReadPages(provider, 3, 2, a + d) == Pages(Success(a + d), 3);
    assert ReadPages(provider, 2, 2, a) == ReadPages(provider, 3, 2, a + d);
  }

  /** If an edit keeps the old version ID, an honest provider can make the read return a mixture
      that the playlist never contained. */
  lemma ReusedVersionTearsSnapshot()
    ensures Honest("p", TornHistory(), TornInstant, TornProvider)
    ensures var r := Read("p", TornProvider);
            && r.result.Success?
            && forall v :: 0 <= v < |TornHistory()| ==> r.result.value.entries != ToEntries(TornHistory()[v].items)
  {
    TornProviderHonest();
    TornPages();
    var torn := ToEntries([Named("a"), Named("d")]);
    assert torn[0].id == "a" && torn[1].id == "d";
    assert ToEntries(TornHistory()[0].items)[1].id == "b";
    assert ToEntries(TornHistory()[1].items)[0].id == "c";
  }
}
