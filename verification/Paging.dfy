/** Lists read page by page. */
module Paging {
  import opened Wrappers
  import Faults

  datatype Page<T> = Page(items: seq<T>, offset: nat, nextOffset: Option<nat>)

  function Min(a: nat, b: nat): nat {
    if a < b then a else b
  }

  /** The page of a stored list that starts at an offset, possibly past its end. */
  function StoredPage<T>(all: seq<T>, offset: nat, limit: nat): Page<T> {
    var first := Min(offset, |all|);
    var end := Min(first + limit, |all|);
    Page(all[first..end], first, if end < |all| then Some(end) else None)
  }

  /** A page holds as many items as the limit allows and the list still has, those from the offset
      on; it names a next offset exactly if there are more. */
  lemma StoredPageSays<T>(all: seq<T>, offset: nat, limit: nat)
    ensures var page := StoredPage(all, offset, limit);
            && (offset >= |all| ==> page == Page([], |all|, None))
            && (offset < |all| ==>
                  && page.offset == offset
                  && |page.items| == (if offset + limit <= |all| then limit else |all| - offset)
                  && (forall i :: 0 <= i < |page.items| ==> page.items[i] == all[offset + i])
                  && page.nextOffset == (if offset + limit < |all| then Some(offset + limit) else None))
  {
  }

  /** The adapter's slicing of a list it has read in full. */
  method ReadPlaylistEntries<S, T>(all: seq<S>, offset: nat, limit: nat, convert: S -> T) returns (page: Page<T>)
    ensures page == StoredPage(seq(|all|, i requires 0 <= i < |all| => convert(all[i])), offset, limit)
  {
    ghost var converted := seq(|all|, i requires 0 <= i < |all| => convert(all[i]));
    var start := offset;
    if start > |all| {
      start := |all|;
    }
    var end := start + limit;
    if end > |all| {
      end := |all|;
    }
    var items: seq<T> := [];
    for i := start to end
      invariant items == converted[start..i]
    {
      items := items + [convert(all[i])];
    }
    page := Page(items, start, if end < |all| then Some(end) else None);
  }

  /** Follow the next offsets of a stored list and collect what is seen. */
  function Follow<T>(all: seq<T>, offset: nat, limit: nat): seq<T>
    requires limit > 0
    decreases |all| - offset
  {
    var page := StoredPage(all, offset, limit);
    page.items + if page.nextOffset.Some? then Follow(all, page.nextOffset.value, limit) else []
  }

  /** With any limit, following the pages of an unchanged list from an offset visits everything
      from there on, once and in order. */
  lemma {:induction false} FollowVisitsAll<T>(all: seq<T>, offset: nat, limit: nat)
    requires limit > 0 && offset <= |all|
    ensures Follow(all, offset, limit) == all[offset..]
    decreases |all| - offset
  {
    var page := StoredPage(all, offset, limit);
    if page.nextOffset.Some? {
      FollowVisitsAll(all, page.nextOffset.value, limit);
      assert all[offset..] == page.items + all[page.nextOffset.value..];
    } else {
      assert all[offset..] == page.items;
    }
  }

  // ---- Pages that an outside provider makes up ----

  const PAGE_LIMIT := 50
  const MAX_OFFSET := 100000

  datatype RawPage<T> = RawPage(items: seq<T>, total: int, offset: int)

  datatype PageError = InvalidPagination | RequestFailed | InvalidPage

  /** The checks a provider page must pass before its next offset is computed. */
  function CheckedPage<T>(offset: nat, limit: nat, answer: Option<RawPage<T>>): Result<Page<T>, PageError> {
    if offset > MAX_OFFSET || limit < 1 || limit > PAGE_LIMIT then Failure(InvalidPagination) else
    match answer
    case None => Failure(RequestFailed)
    case Some(raw) =>
      if raw.offset != offset || raw.total < 0 || |raw.items| > limit || (raw.items == [] && offset < raw.total)
      then Failure(InvalidPage)
      else
        var end := offset + |raw.items|;
        Success(Page(raw.items, offset, if end < raw.total then Some(end) else None))
  }

  /** A page is accepted exactly if it was asked for within the limits, belongs to the offset, has no
      more items than asked for, and is not empty before the end; it leads on to the next offset
      exactly if its total says that there is more. */
  lemma PageAcceptedIff<T>(offset: nat, limit: nat, raw: RawPage<T>)
    ensures CheckedPage(offset, limit, Some(raw)).Success? <==>
            && offset <= 100000 && 1 <= limit <= 50
            && raw.offset == offset && raw.total >= 0
            && |raw.items| <= limit && (|raw.items| > 0 || raw.total <= offset)
    ensures CheckedPage(offset, limit, Some(raw)).Success? ==>
              CheckedPage(offset, limit, Some(raw)).value ==
              Page(raw.items, offset, if raw.total > offset + |raw.items| then Some(offset + |raw.items|) else None)
    ensures CheckedPage(offset, limit, Some(raw)).Failure? ==>
              CheckedPage(offset, limit, Some(raw)).error ==
              if offset > 100000 || limit < 1 || limit > 50 then InvalidPagination else InvalidPage
  {
  }

  /** A provider answers the k-th request for an offset. */
  type Source<T> = (nat, nat) -> Option<RawPage<T>>

  datatype Listing<T> = Listing(items: Result<seq<T>, PageError>, requests: nat)

  /** List everything from an offset; the totals may vary from page to page. */
  function ListFrom<T>(source: Source<T>, k: nat, offset: nat): Listing<T>
    decreases MAX_OFFSET + 1 - offset
  {
    match CheckedPage(offset, PAGE_LIMIT, source(k, offset))
    case Failure(e) => Listing(Failure(e), k + 1)
    case Success(page) =>
      if page.nextOffset.None? then Listing(Success(page.items), k + 1)
      else
        var rest := ListFrom(source, k + 1, page.nextOffset.value);
        match rest.items
        case Failure(e) => rest
        case Success(more) => Listing(Success(page.items + more), rest.requests)
  }

  /** Whatever the provider answers, listing ends: every page advances, and offsets are bounded. */
  lemma {:induction false} ListingEnds<T>(source: Source<T>, k: nat, offset: nat)
    ensures ListFrom(source, k, offset).requests <= k + 1 + if offset <= 100000 then 100001 - offset else 0
    decreases MAX_OFFSET + 1 - offset
  {
    var checked := CheckedPage(offset, PAGE_LIMIT, source(k, offset));
    if checked.Success? && checked.value.nextOffset.Some? {
      ListingEnds(source, k + 1, checked.value.nextOffset.value);
    }
  }

  /** Answers, when given, are true of one list; page sizes are the provider's choice. */
  ghost predicate Serves<T>(source: Source<T>, all: seq<T>) {
    forall k: nat, offset: nat :: match source(k, offset)
      case None => true
      case Some(raw) =>
        && raw.total == |all| && raw.offset == offset && |raw.items| <= 50
        && (if offset < |all|
            then raw.items != [] && offset + |raw.items| <= |all| && raw.items == all[offset..offset + |raw.items|]
            else raw.items == [])
  }

  /** Listing an unchanged account returns it whole and in order, or an error; and without
      refusals it succeeds for every account within the offset limit. */
  lemma {:induction false} ListingFaithful<T>(source: Source<T>, all: seq<T>, k: nat, offset: nat)
    requires Serves(source, all) && offset <= |all|
    ensures var r := ListFrom(source, k, offset).items;
            && (r.Success? ==> r.value == all[offset..])
            && ((forall j: nat, o: nat :: source(j, o).Some?) && |all| <= 100000 ==> r.Success?)
    decreases MAX_OFFSET + 1 - offset
  {
    var checked := CheckedPage(offset, PAGE_LIMIT, source(k, offset));
    assert source(k, offset).Some? ==> source(k, offset).value.total == |all|;
    if checked.Success? {
      var page := checked.value;
      if page.nextOffset.Some? {
        ListingFaithful(source, all, k + 1, page.nextOffset.value);
        assert all[offset..] == page.items + all[page.nextOffset.value..];
      } else {
        assert all[offset..] == page.items;
      }
    }
  }

  // ---- Writing in batches ----

  const BATCH := 100

  class RemotePlaylist {
    var tracks: seq<string>

    constructor ()
      ensures tracks == []
    {
      tracks := [];
    }

    /** One append request of at most 100 tracks; it may take effect although an error is reported,
        unless nothing goes wrong. */
    method AddBatch(ids: seq<string>, smooth: bool) returns (ok: bool)
      modifies this
      ensures tracks == old(tracks) || tracks == old(tracks) + ids
      ensures ok ==> 1 <= |ids| <= 100 && tracks == old(tracks) + ids
      ensures smooth && 1 <= |ids| <= 100 ==> ok
    {
      var reached := Faults.Chance(smooth);
      var delivered := Faults.Chance(smooth);
      ok := false;
      if reached && 0 < |ids| <= BATCH {
        tracks := tracks + ids;
        ok := delivered;
      }
    }

    /** Append a list in batches. Success means the whole list, in order, and is sure if nothing
        goes wrong; an error leaves the first tracks of it, a whole number of batches or all. */
    method AddTracks(ids: seq<string>, smooth: bool) returns (ok: bool, ghost written: nat)
      modifies this
      ensures written <= |ids| && tracks == old(tracks) + ids[..written]
      ensures written == |ids| || written % 100 == 0
      ensures ok ==> written == |ids|
      ensures smooth ==> ok
    {
      var start := 0;
      written := 0;
      while start < |ids|
        invariant written == Min(start, |ids|) && start % BATCH == 0
        invariant tracks == old(tracks) + ids[..written]
        decreases |ids| - start
      {
        var end := if start + BATCH > |ids| then |ids| else start + BATCH;
        assert ids[..start] + ids[start..end] == ids[..end];
        ghost var before := tracks;
        var added := AddBatch(ids[start..end], smooth);
        if tracks != before {
          assert tracks == old(tracks) + ids[..end];
          written := end;
        }
        if !added {
          return false, written;
        }
        assert tracks == old(tracks) + ids[..end];
        written := end;
        start := start + BATCH;
      }
      ok := true;
    }
  }
}
