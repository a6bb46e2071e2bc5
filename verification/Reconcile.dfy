/** What one attempt does to a destination whose content it did not write. */
module Reconcile {
  import opened Wrappers
  import opened TransferRun

  datatype Ending = Done | OutOfOrder

  /** The ending, and the content left behind. */
  datatype Outcome = Outcome(ending: Ending, entries: seq<Option<Id>>)

  /** One position: accept it, stop, or append to the end of the playlist. */
  function FromPosition(entries: seq<Option<Id>>, matched: seq<Id>, next: nat): Outcome
    decreases |matched| - next
  {
    if next >= |matched| then Outcome(Done, entries)
    else if next < |entries| && entries[next].Some? then
      if entries[next].value == matched[next] then FromPosition(entries, matched, next + 1)
      else Outcome(OutOfOrder, entries)
    else FromPosition(entries + [Some(matched[next])], matched, next + 1)
  }

  function All(matched: seq<Id>): seq<Option<Id>> {
    seq(|matched|, i requires 0 <= i < |matched| => Some(matched[i]))
  }

  lemma {:induction false} OnlyAppends(entries: seq<Option<Id>>, matched: seq<Id>, next: nat)
    ensures entries <= FromPosition(entries, matched, next).entries
    decreases |matched| - next
  {
    if next < |matched| {
      if next < |entries| && entries[next].Some? {
        OnlyAppends(entries, matched, next + 1);
      } else {
        OnlyAppends(entries + [Some(matched[next])], matched, next + 1);
      }
    }
  }

  lemma {:induction false} CompletesFromEnd(entries: seq<Option<Id>>, matched: seq<Id>)
    requires entries <= All(matched)
    ensures FromPosition(entries, matched, |entries|) == Outcome(Done, All(matched))
    decreases |matched| - |entries|
  {
    if |entries| < |matched| {
      assert entries + [Some(matched[|entries|])] <= All(matched);
      CompletesFromEnd(entries + [Some(matched[|entries|])], matched);
    }
  }

  /** The first position where content and tracks differ is an entry without a track. */
  ghost predicate HoleFirst(entries: seq<Option<Id>>, matched: seq<Id>) {
    exists i :: 0 <= i < |entries| && i < |matched| && entries[i] == None && entries[..i] == All(matched)[..i]
  }

  /** What the design intends for content it finds: leave a superset alone, complete a prefix,
      and refuse anything else untouched. */
  function Intended(entries: seq<Option<Id>>, matched: seq<Id>): Outcome {
    if All(matched) <= entries then Outcome(Done, entries)
    else if entries <= All(matched) then Outcome(Done, All(matched))
    else Outcome(OutOfOrder, entries)
  }

  lemma {:induction false} AttemptFrom(entries: seq<Option<Id>>, matched: seq<Id>, next: nat)
    requires next <= |entries| && next <= |matched| && entries[..next] == All(matched)[..next]
    ensures FromPosition(entries, matched, next) == Intended(entries, matched) <==> !HoleFirst(entries, matched)
    decreases |matched| - next
  {
    var all := All(matched);
    if next == |matched| {
      assert all[..next] == all;
    } else if next == |entries| {
      assert entries[..next] == entries;
      CompletesFromEnd(entries, matched);
    } else if entries[next].Some? {
      if entries[next].value == matched[next] {
        assert entries[..next + 1] == entries[..next] + [entries[next]];
        assert all[..next + 1] == all[..next] + [all[next]];
        AttemptFrom(entries, matched, next + 1);
      } else {
        assert entries[next] != all[next];
        forall i | 0 <= i < |entries| && i < |matched| && entries[i] == None ensures entries[..i] != all[..i] {
          if i > next {
            assert entries[..i][next] != all[..i][next];
          }
        }
      }
    } else {
      OnlyAppends(entries + [Some(matched[next])], matched, next + 1);
      assert HoleFirst(entries, matched);
      assert entries[next] != all[next];
    }
  }

  /** From position 0 and with every provider call successful, an attempt does what is intended
      for any content exactly when the first difference is not an entry without a track. */
  lemma TrichotomyIff(entries: seq<Option<Id>>, matched: seq<Id>)
    ensures FromPosition(entries, matched, 0) == Intended(entries, matched) <==> !HoleFirst(entries, matched)
  {
    assert entries[..0] == All(matched)[..0];
    AttemptFrom(entries, matched, 0);
  }

  ghost predicate HoleBefore(entries: seq<Option<Id>>, length: nat) {
    exists i :: 0 <= i < |entries| && i < length && entries[i] == None
  }

  lemma {:induction false} DoneFrom(entries: seq<Option<Id>>, matched: seq<Id>, next: nat)
    requires next <= |entries| && FromPosition(entries, matched, next).ending == Done
    ensures var final := FromPosition(entries, matched, next).entries;
            |matched| <= |final|
            && forall i :: next <= i < |matched| ==>
                 final[i] == Some(matched[i]) || (i < |entries| && entries[i] == None && final[i] == None)
    decreases |matched| - next
  {
    if next < |matched| {
      var entries' := if next < |entries| && entries[next].Some? then entries else entries + [Some(matched[next])];
      DoneFrom(entries', matched, next + 1);
      OnlyAppends(entries', matched, next + 1);
    }
  }

  /** An attempt that reports completion has put every track in its place exactly when the
      content it found had no entry without a track among the places it needed. */
  lemma CompletionGenuineIff(entries: seq<Option<Id>>, matched: seq<Id>)
    requires FromPosition(entries, matched, 0).ending == Done
    ensures All(matched) <= FromPosition(entries, matched, 0).entries <==> !HoleBefore(entries, |matched|)
  {
    var final := FromPosition(entries, matched, 0).entries;
    DoneFrom(entries, matched, 0);
    OnlyAppends(entries, matched, 0);
    if HoleBefore(entries, |matched|) {
      var i :| 0 <= i < |entries| && i < |matched| && entries[i] == None;
      assert final[i] == None && All(matched)[i] == Some(matched[i]);
    }
  }

  /** One unreadable entry and one track listed twice: the attempt reports completion, and the
      playlist starts with the unreadable entry. */
  lemma HoleCompletesWrongly()
    ensures FromPosition([None], ["a", "a"], 0) == Outcome(Done, [None, Some("a")])
  {
    assert [None] + [Some("a")] == [None, Some("a")];
    assert FromPosition([None, Some("a")], ["a", "a"], 1) == FromPosition([None, Some("a")], ["a", "a"], 2);
  }
}
