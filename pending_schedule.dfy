/**
 * The pending matching-slot list of the OST build (WITH_OST_CHECK and
 * RESIDUAL_ALLOC): earlier_ssq_schedule_list and the block of
 * tsch_schedule_get_next_active_link that lets a pending entry pre-empt the
 * link chosen from the schedule (os/net/mac/tsch/tsch-schedule.c).
 *
 * The list is a fixed array of 16 entries, each an ASN and a link; an entry
 * whose ASN is 0 is empty. A check clears, in place, the first entry that is
 * already due, or an entry due exactly when the regular link is.
 */
module PendingSchedule {
  import opened Wrappers
  import opened TschTypes
  import opened SlotSelector
  import opened TschSchedule

  /** The number of entries of ssq_schedule_list. */
  const PENDING_ENTRIES: nat := 16

  /** One matching-slot entry: the ASN it is due at (0 when empty) and the link to run then. */
  datatype PendingEntry = PendingEntry(asn: Asn, link: Link)

  /** The verdict of earlier_ssq_schedule_list: a pending link that comes sooner, or none. */
  datatype Outcome = Override(offset: nat, link: Link) | NoOverride

  /** The all-zero link of a zero-filled entry. */
  const ZeroLink := Link(0, LinkOptions(false, false, false, false), Normal, 0, 0, 0, NullAddr)

  predicate Busy(e: PendingEntry) {
    e.asn != 0
  }

  /** The first of the first n entries that is not empty but already due at the current ASN. */
  function FirstStale(es: seq<PendingEntry>, curr: Asn, n: nat): (r: Option<nat>)
    requires n <= |es|
    ensures r.None? <==> forall j :: 0 <= j < n ==> !(Busy(es[j]) && es[j].asn <= curr)
    ensures r.Some? ==> r.value < n && Busy(es[r.value]) && es[r.value].asn <= curr &&
                        forall j :: 0 <= j < r.value ==> !(Busy(es[j]) && es[j].asn <= curr)
  {
    if n == 0 then None
    else
      var p := FirstStale(es, curr, n - 1);
      if p.Some? then p
      else if Busy(es[n - 1]) && es[n - 1].asn <= curr then Some(n - 1)
      else None
  }

  /** The first of the first n entries with the smallest ASN among the non-empty ones. */
  function Earliest(es: seq<PendingEntry>, n: nat): (r: Option<nat>)
    requires n <= |es|
    ensures r.None? <==> forall j :: 0 <= j < n ==> !Busy(es[j])
    ensures r.Some? ==> r.value < n && Busy(es[r.value]) &&
                        (forall j :: 0 <= j < n && Busy(es[j]) ==> es[r.value].asn <= es[j].asn) &&
                        (forall j :: 0 <= j < r.value && Busy(es[j]) ==> es[r.value].asn < es[j].asn)
  {
    if n == 0 then None
    else
      var p := Earliest(es, n - 1);
      if !Busy(es[n - 1]) then p
      else if p.None? || es[n - 1].asn < es[p.value].asn then Some(n - 1)
      else p
  }

  lemma EarliestNext(es: seq<PendingEntry>, n: nat)
    requires n < |es|
    ensures var p := Earliest(es, n);
      Earliest(es, n + 1) ==
        if !Busy(es[n]) then p else if p.None? || es[n].asn < es[p.value].asn then Some(n) else p
  {
  }

  lemma FirstStaleNext(es: seq<PendingEntry>, curr: Asn, n: nat)
    requires n < |es| && FirstStale(es, curr, n).None?
    ensures FirstStale(es, curr, n + 1) == if Busy(es[n]) && es[n].asn <= curr then Some(n) else None
  {
  }

  /** The entries with entry i emptied. */
  function Emptied(es: seq<PendingEntry>, i: nat): seq<PendingEntry>
    requires i < |es|
  {
    es[i := es[i].(asn := 0)]
  }

  /**
   * What earlier_ssq_schedule_list answers when the regular link is t
   * timeslots away: a stale entry means no override; otherwise the earliest
   * entry overrides when it is strictly sooner than t.
   */
  function Check(es: seq<PendingEntry>, curr: Asn, t: nat): Outcome {
    if FirstStale(es, curr, |es|).Some? then NoOverride
    else
      var e := Earliest(es, |es|);
      if e.Some? && es[e.value].asn - curr < t then Override(es[e.value].asn - curr, es[e.value].link)
      else NoOverride
  }

  /** The entries after that check: the first stale entry, or an entry due together with the regular link, is emptied. */
  function After(es: seq<PendingEntry>, curr: Asn, t: nat): seq<PendingEntry> {
    var s := FirstStale(es, curr, |es|);
    if s.Some? then Emptied(es, s.value)
    else
      var e := Earliest(es, |es|);
      if e.Some? && es[e.value].asn - curr == t then Emptied(es, e.value)
      else es
  }

  /**
   * An override is a link of a non-empty entry, strictly sooner than the
   * regular link and no later than any other entry, at its true distance.
   */
  lemma OverrideIsSoonest(es: seq<PendingEntry>, curr: Asn, t: nat)
    requires Check(es, curr, t).Override?
    ensures var o := Check(es, curr, t);
      1 <= o.offset < t &&
      (exists i :: 0 <= i < |es| && Busy(es[i]) && es[i].asn == curr + o.offset && es[i].link == o.link) &&
      (forall j :: 0 <= j < |es| && Busy(es[j]) ==> curr + o.offset <= es[j].asn)
  {
    var i := Earliest(es, |es|).value;
    assert !(Busy(es[i]) && es[i].asn <= curr);
  }

  /** With no regular link (offset 0) a pending entry never overrides. */
  lemma NoOverrideWithoutRegularLink(es: seq<PendingEntry>, curr: Asn)
    ensures Check(es, curr, 0) == NoOverride
  {
  }

  /** A check empties at most one entry and changes nothing else. */
  lemma AfterEmptiesAtMostOne(es: seq<PendingEntry>, curr: Asn, t: nat)
    ensures |After(es, curr, t)| == |es|
    ensures forall j, k :: 0 <= j < k < |es| && After(es, curr, t)[j] != es[j] ==> After(es, curr, t)[k] == es[k]
    ensures forall j :: 0 <= j < |es| && After(es, curr, t)[j] != es[j] ==> !Busy(After(es, curr, t)[j])
  {
  }

  /** A stale entry blocks any override and is itself emptied, the first one first. */
  lemma StaleEntryIsDropped(es: seq<PendingEntry>, curr: Asn, t: nat, i: nat)
    requires i < |es| && Busy(es[i]) && es[i].asn <= curr
    requires forall j :: 0 <= j < i ==> !(Busy(es[j]) && es[j].asn <= curr)
    ensures Check(es, curr, t) == NoOverride
    ensures After(es, curr, t) == Emptied(es, i)
  {
    assert FirstStale(es, curr, |es|).Some?;
  }

  /**
   * A regular link chosen with its offset, pre-empted by a pending link that
   * comes sooner (the backup is then dropped).
   */
  function Combined(sel: Selection, o: Outcome): Selection {
    match o
    case Override(offset, link) => Selection(Some(link), None, offset)
    case NoOverride => sel
  }

  /**
   * The combined choice is never later than the regular one, and when no entry
   * is stale it is no later than any pending entry either (unless the
   * schedule has no link at all).
   */
  lemma CombinedIsSoonest(es: seq<PendingEntry>, curr: Asn, sel: Selection)
    requires FirstStale(es, curr, |es|).None? && sel.timeOffset > 0
    ensures var r := Combined(sel, Check(es, curr, sel.timeOffset));
      r.timeOffset <= sel.timeOffset &&
      forall j :: 0 <= j < |es| && Busy(es[j]) ==> curr + r.timeOffset <= es[j].asn
  {
    var o := Check(es, curr, sel.timeOffset);
    if o.Override? {
      OverrideIsSoonest(es, curr, sel.timeOffset);
    } else {
      forall j | 0 <= j < |es| && Busy(es[j]) ensures curr + sel.timeOffset <= es[j].asn {
        assert !(Busy(es[j]) && es[j].asn <= curr);
        var e := Earliest(es, |es|).value;
        assert !(Busy(es[e]) && es[e].asn <= curr);
      }
    }
  }

  /** ssq_schedule_list. */
  class PendingList {
    const entries: array<PendingEntry>

    predicate Valid()
      reads this
    {
      entries.Length == PENDING_ENTRIES
    }

    /** The list starts out zero-filled, that is with every entry empty. */
    constructor Init()
      ensures Valid() && fresh(entries)
      ensures forall j :: 0 <= j < entries.Length ==> entries[j] == PendingEntry(0, ZeroLink)
    {
      entries := new PendingEntry[PENDING_ENTRIES](_ => PendingEntry(0, ZeroLink));
    }

    /**
     * earlier_ssq_schedule_list: given how many timeslots away the regular
     * link is, report a sooner pending link, and empty the first stale entry
     * or the entry that collides with the regular link.
     */
    method EarlierThan(timeToOrig: nat, curr: Asn) returns (r: Outcome)
      requires Valid()
      modifies entries
      ensures entries[..] == After(old(entries[..]), curr, timeToOrig)
      ensures r == Check(old(entries[..]), curr, timeToOrig)
    {
      ghost var es := entries[..];
      var earliestAsn: int := 0;
      var earliestLink: Option<Link> := None;
      var earliestI := 0;
      var i := 0;
      while i < entries.Length
        invariant 0 <= i <= entries.Length && entries[..] == es
        invariant FirstStale(es, curr, i).None?
        invariant earliestAsn == 0 <==> Earliest(es, i).None?
        invariant earliestAsn != 0 ==>
          earliestI == Earliest(es, i).value && earliestAsn == es[earliestI].asn && earliestLink == Some(es[earliestI].link)
      {
        EarliestNext(es, i);
        FirstStaleNext(es, curr, i);
        if entries[i].asn != 0 {
          if earliestAsn == 0 || entries[i].asn < earliestAsn {
            earliestAsn := entries[i].asn;
            earliestLink := Some(entries[i].link);
            earliestI := i;
          }
          if entries[i].asn <= curr {
            entries[i] := entries[i].(asn := 0);
            StaleEntryIsDropped(es, curr, timeToOrig, i);
            return NoOverride;
          }
        }
        i := i + 1;
      }
      assert FirstStale(es, curr, |es|).None?;
      if earliestAsn == 0 {
        return NoOverride;
      }
      var timeToEarliest := earliestAsn - curr;
      if timeToEarliest < timeToOrig {
        r := Override(timeToEarliest, earliestLink.value);
      } else if timeToEarliest == timeToOrig {
        entries[earliestI] := entries[earliestI].(asn := 0);
        r := NoOverride;
      } else {
        r := NoOverride;
      }
    }
  }

  /**
   * tsch_schedule_get_next_active_link in the OST build: the regular choice,
   * then the pending list is consulted (and possibly updated) with the
   * regular offset; nothing happens while the lock is held elsewhere.
   */
  method NextActiveLinkWithPending(s: Schedule, p: PendingList, asn: Asn, curr: Asn, queued: LinkAddr -> nat)
    returns (r: Option<Selection>)
    requires s.Valid() && p.Valid()
    modifies p.entries
    ensures Shaped(s.slotframes)
    ensures s.locked ==> r == None && p.entries[..] == old(p.entries[..])
    ensures !s.locked ==>
      var sel := Fold(Candidates(s.slotframes, asn), queued);
      r == Some(Combined(sel, Check(old(p.entries[..]), curr, sel.timeOffset))) &&
      p.entries[..] == After(old(p.entries[..]), curr, sel.timeOffset)
  {
    r := s.NextActiveLink(asn, queued);
    if r.Some? {
      var o := p.EarlierThan(r.value.timeOffset, curr);
      r := Some(Combined(r.value, o));
    }
  }
}
