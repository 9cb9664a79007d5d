/**
 * The choice of the next active link (tsch_schedule_get_next_active_link of
 * os/net/mac/tsch/tsch-schedule.c), stated as a left fold over the links of
 * the schedule.
 *
 * Every link of every slotframe is a candidate whose offset is the number of
 * timeslots until its timeslot comes round again. The fold keeps the
 * soonest candidate; among candidates equally soon it prefers Tx links, then
 * the slotframe with the lower handle, then (within one slotframe) the link
 * comparator. It also remembers an Rx-capable backup for the same timeslot.
 * The imperative walk over the schedule lives in TschSchedule.Schedule and is
 * proved equal to Fold(Candidates(...)); this module proves what the fold
 * promises.
 */
module SlotSelector {
  import opened Wrappers
  import opened TschTypes

  /** A link together with the number of timeslots until it is next active. */
  datatype Candidate = Candidate(link: Link, offset: nat)

  /** The state of the search: curr_best, curr_backup and time_to_curr_best. */
  datatype Selection = Selection(best: Option<Link>, backup: Option<Link>, timeOffset: nat)

  /** What the schedule store guarantees the selector: every slotframe is non-empty and holds its links. */
  predicate Shaped(sfs: seq<Slotframe>) {
    forall i :: 0 <= i < |sfs| ==> sfs[i].size > 0 && forall l :: l in sfs[i].links ==> l.timeslot < sfs[i].size
  }

  /**
   * time_to_timeslot: how many timeslots after the current one (ts, within a
   * slotframe of the given size) the link's timeslot comes round. A link at
   * the current timeslot is a whole slotframe away.
   */
  function TimeToTimeslot(linkTs: nat, ts: nat, size: nat): (t: nat)
    requires linkTs < size && ts < size
    ensures 1 <= t <= size
    ensures (ts + t) % size == linkTs
  {
    if linkTs > ts then
      ModUnique(linkTs, size, 0, linkTs);
      linkTs - ts
    else
      ModUnique(size + linkTs, size, 1, linkTs);
      size + linkTs - ts
  }

  /** No earlier timeslot than TimeToTimeslot reaches the link's timeslot. */
  lemma TimeToTimeslotIsLeast(linkTs: nat, ts: nat, size: nat, d: nat)
    requires linkTs < size && ts < size
    requires 1 <= d < TimeToTimeslot(linkTs, ts, size)
    ensures (ts + d) % size != linkTs
  {
    if ts + d < size {
      ModUnique(ts + d, size, 0, ts + d);
    } else {
      ModUnique(ts + d, size, 1, ts + d - size);
    }
  }

  /** The candidates of one slotframe's links, in list order. */
  function SlotframeCandidates(ls: seq<Link>, size: nat, ts: nat): (cs: seq<Candidate>)
    requires ts < size && forall l :: l in ls ==> l.timeslot < size
    ensures |cs| == |ls|
  {
    if ls == [] then []
    else
      var l := ls[|ls| - 1];
      SlotframeCandidates(ls[..|ls| - 1], size, ts) + [Candidate(l, TimeToTimeslot(l.timeslot, ts, size))]
  }

  /** The candidates of the whole schedule at a given ASN, slotframe by slotframe. */
  function Candidates(sfs: seq<Slotframe>, asn: Asn): seq<Candidate>
    requires Shaped(sfs)
  {
    if sfs == [] then []
    else
      var sf := sfs[|sfs| - 1];
      Candidates(sfs[..|sfs| - 1], asn) + SlotframeCandidates(sf.links, sf.size, asn % sf.size)
  }

  /**
   * default_tsch_link_comparator: of two equally soon Tx links of one
   * slotframe, keep the first unless the second goes to another neighbour with
   * strictly more packets queued.
   */
  function Comparator(a: Link, b: Link, queued: LinkAddr -> nat): (r: Link)
    ensures r == a || r == b
    ensures r == b && b != a ==> a.options.tx && a.addr != b.addr && queued(b.addr) > queued(a.addr)
    ensures a.options.tx && a.addr != b.addr ==> queued(r.addr) >= queued(a.addr) && queued(r.addr) >= queued(b.addr)
  {
    if !a.options.tx then a
    else if a.addr != b.addr then (if queued(a.addr) >= queued(b.addr) then a else b)
    else a
  }

  /** One iteration of the inner loop of tsch_schedule_get_next_active_link. */
  function Step(s: Selection, c: Candidate, queued: LinkAddr -> nat): Selection {
    if s.best.None? || c.offset < s.timeOffset then Selection(Some(c.link), None, c.offset)
    else if c.offset == s.timeOffset then Tie(s.best.value, s.backup, c.link, s.timeOffset, queued)
    else s
  }

  /** A link as soon as the current best: the new best, if any, and the backup. */
  function Tie(cur: Link, backup: Option<Link>, l: Link, offset: nat, queued: LinkAddr -> nat): Selection {
    var newBest := Preferred(cur, l, queued);
    var backup' :=
      if backup.Some? then backup
      else if newBest != Some(cur) && cur.options.rx then Some(cur)
      else if newBest != Some(l) && l.options.rx then Some(l)
      else None;
    Selection(if newBest.Some? then newBest else Some(cur), backup', offset)
  }

  /**
   * new_best: of two equally soon links, a Tx link beats a non-Tx one; with
   * equal Tx flags the lower slotframe handle wins, and within one slotframe
   * the comparator decides. None keeps the current best.
   */
  function Preferred(cur: Link, l: Link, queued: LinkAddr -> nat): Option<Link> {
    if cur.options.tx == l.options.tx then
      if l.slotframeHandle != cur.slotframeHandle then
        if l.slotframeHandle < cur.slotframeHandle then Some(l) else None
      else Some(Comparator(cur, l, queued))
    else if l.options.tx then Some(l) else None
  }

  /** The search over a sequence of candidates, from nothing selected and an offset of 0. */
  function Fold(cs: seq<Candidate>, queued: LinkAddr -> nat): Selection {
    if cs == [] then Selection(None, None, 0)
    else Step(Fold(cs[..|cs| - 1], queued), cs[|cs| - 1], queued)
  }

  /** The body of the inner loop of tsch_schedule_get_next_active_link, for one link. */
  method ConsiderLink(best: Option<Link>, backup: Option<Link>, timeToBest: nat, l: Link, timeToTimeslot: nat,
                      queued: LinkAddr -> nat)
    returns (currBest: Option<Link>, currBackup: Option<Link>, timeToCurrBest: nat)
    ensures Selection(currBest, currBackup, timeToCurrBest) ==
            Step(Selection(best, backup, timeToBest), Candidate(l, timeToTimeslot), queued)
  {
    currBest, currBackup, timeToCurrBest := best, backup, timeToBest;
    if currBest.None? || timeToTimeslot < timeToCurrBest {
      currBest, currBackup, timeToCurrBest := Some(l), None, timeToTimeslot;
    } else if timeToTimeslot == timeToCurrBest {
      var newBest: Option<Link> := None;
      if currBest.value.options.tx == l.options.tx {
        if l.slotframeHandle != currBest.value.slotframeHandle {
          if l.slotframeHandle < currBest.value.slotframeHandle {
            newBest := Some(l);
          }
        } else {
          newBest := Some(Comparator(currBest.value, l, queued));
        }
      } else if l.options.tx {
        newBest := Some(l);
      }
      if currBackup.None? {
        if newBest != Some(l) && l.options.rx {
          currBackup := Some(l);
        }
        if newBest != currBest && currBest.value.options.rx {
          currBackup := currBest;
        }
      }
      if newBest.Some? {
        currBest := newBest;
      }
    }
  }

  /**
   * The walk of tsch_schedule_get_next_active_link over the slotframes and
   * their links, once the lock is taken.
   */
  method SelectNextActiveLink(sfs: seq<Slotframe>, asn: Asn, queued: LinkAddr -> nat) returns (s: Selection)
    requires Shaped(sfs)
    ensures s == Fold(Candidates(sfs, asn), queued)
  {
    s := Selection(None, None, 0);
    var i := 0;
    while i < |sfs|
      invariant 0 <= i <= |sfs|
      invariant s == Fold(Candidates(sfs[..i], asn), queued)
    {
      CandidatesStep(sfs, i, asn);
      var ts := asn % sfs[i].size;
      s := ScanSlotframe(s, Candidates(sfs[..i], asn), sfs[i].links, sfs[i].size, ts, queued);
      i := i + 1;
    }
    assert sfs[..i] == sfs;
  }

  /** The inner loop: the links of one slotframe, at the ASN's timeslot within it. */
  method ScanSlotframe(s0: Selection, ghost before: seq<Candidate>, ls: seq<Link>, size: nat, ts: nat,
                       queued: LinkAddr -> nat)
    returns (s: Selection)
    requires ts < size && forall l :: l in ls ==> l.timeslot < size
    requires s0 == Fold(before, queued)
    ensures s == Fold(before + SlotframeCandidates(ls, size, ts), queued)
  {
    var currBest, currBackup, timeToCurrBest := s0.best, s0.backup, s0.timeOffset;
    assert before + SlotframeCandidates(ls[..0], size, ts) == before;
    var k := 0;
    while k < |ls|
      invariant 0 <= k <= |ls|
      invariant Selection(currBest, currBackup, timeToCurrBest) ==
                Fold(before + SlotframeCandidates(ls[..k], size, ts), queued)
    {
      var l := ls[k];
      var timeToTimeslot := if l.timeslot > ts then l.timeslot - ts else size + l.timeslot - ts;
      ghost var c := Candidate(l, timeToTimeslot);
      ghost var seen := SlotframeCandidates(ls[..k], size, ts);
      SlotframeCandidatesStep(ls, k, size, ts);
      assert c == Candidate(ls[k], TimeToTimeslot(ls[k].timeslot, ts, size));
      SnocAssoc(before, seen, c);
      FoldSnoc(before + seen, c, queued);
      currBest, currBackup, timeToCurrBest := ConsiderLink(currBest, currBackup, timeToCurrBest, l, timeToTimeslot, queued);
      k := k + 1;
    }
    assert ls[..k] == ls;
    s := Selection(currBest, currBackup, timeToCurrBest);
  }

  lemma FoldSnoc(cs: seq<Candidate>, c: Candidate, queued: LinkAddr -> nat)
    ensures Fold(cs + [c], queued) == Step(Fold(cs, queued), c, queued)
  {
    assert (cs + [c])[..|cs|] == cs;
  }

  lemma SnocAssoc<T>(a: seq<T>, b: seq<T>, x: T)
    ensures a + (b + [x]) == (a + b) + [x]
  {
  }

  lemma SlotframeCandidatesStep(ls: seq<Link>, k: nat, size: nat, ts: nat)
    requires ts < size && forall l :: l in ls ==> l.timeslot < size
    requires k < |ls|
    ensures SlotframeCandidates(ls[..k + 1], size, ts) ==
            SlotframeCandidates(ls[..k], size, ts) + [Candidate(ls[k], TimeToTimeslot(ls[k].timeslot, ts, size))]
  {
    assert ls[..k + 1][..k] == ls[..k];
  }

  lemma CandidatesStep(sfs: seq<Slotframe>, i: nat, asn: Asn)
    requires Shaped(sfs) && i < |sfs|
    ensures Shaped(sfs[..i]) && Shaped(sfs[..i + 1])
    ensures Candidates(sfs[..i + 1], asn) ==
            Candidates(sfs[..i], asn) + SlotframeCandidates(sfs[i].links, sfs[i].size, asn % sfs[i].size)
  {
    assert sfs[..i + 1][..i] == sfs[..i];
  }

  /** Every candidate is a link of the schedule, at its true distance in timeslots. */
  lemma {:induction false} SlotframeCandidatesSound(ls: seq<Link>, size: nat, ts: nat, c: Candidate)
    requires ts < size && forall l :: l in ls ==> l.timeslot < size
    requires c in SlotframeCandidates(ls, size, ts)
    ensures c.link in ls && c.offset == TimeToTimeslot(c.link.timeslot, ts, size)
  {
    var init := ls[..|ls| - 1];
    if c in SlotframeCandidates(init, size, ts) {
      SlotframeCandidatesSound(init, size, ts, c);
      assert init <= ls;
    }
  }

  /** Every link of the slotframe is a candidate. */
  lemma {:induction false} SlotframeCandidatesComplete(ls: seq<Link>, size: nat, ts: nat, l: Link)
    requires ts < size && forall x :: x in ls ==> x.timeslot < size
    requires l in ls
    ensures Candidate(l, TimeToTimeslot(l.timeslot, ts, size)) in SlotframeCandidates(ls, size, ts)
  {
    var init := ls[..|ls| - 1];
    assert ls == init + [ls[|ls| - 1]];
    if l != ls[|ls| - 1] {
      SlotframeCandidatesComplete(init, size, ts, l);
    }
  }

  lemma {:induction false} CandidatesSound(sfs: seq<Slotframe>, asn: Asn, c: Candidate)
    requires Shaped(sfs) && c in Candidates(sfs, asn)
    ensures exists i :: 0 <= i < |sfs| && c.link in sfs[i].links &&
                        c.offset == TimeToTimeslot(c.link.timeslot, asn % sfs[i].size, sfs[i].size)
  {
    var n := |sfs| - 1;
    var init := sfs[..n];
    if c in Candidates(init, asn) {
      CandidatesSound(init, asn, c);
      var i :| 0 <= i < |init| && c.link in init[i].links &&
                c.offset == TimeToTimeslot(c.link.timeslot, asn % init[i].size, init[i].size);
      assert sfs[i] == init[i];
    } else {
      SlotframeCandidatesSound(sfs[n].links, sfs[n].size, asn % sfs[n].size, c);
    }
  }

  lemma {:induction false} CandidatesComplete(sfs: seq<Slotframe>, asn: Asn, i: nat, l: Link)
    requires Shaped(sfs) && i < |sfs| && l in sfs[i].links
    ensures Candidate(l, TimeToTimeslot(l.timeslot, asn % sfs[i].size, sfs[i].size)) in Candidates(sfs, asn)
  {
    var n := |sfs| - 1;
    if i < n {
      CandidatesComplete(sfs[..n], asn, i, l);
    } else {
      SlotframeCandidatesComplete(sfs[n].links, sfs[n].size, asn % sfs[n].size, l);
    }
  }

  /**
   * The selection is the soonest candidate: present exactly when there is a
   * candidate, itself a candidate at the selected offset, and no candidate is
   * sooner.
   */
  lemma {:induction false} FoldIsSoonest(cs: seq<Candidate>, queued: LinkAddr -> nat)
    ensures Fold(cs, queued).best.Some? <==> cs != []
    ensures Fold(cs, queued).best.Some? ==> Candidate(Fold(cs, queued).best.value, Fold(cs, queued).timeOffset) in cs
    ensures forall c :: c in cs ==> Fold(cs, queued).timeOffset <= c.offset
  {
    if cs != [] {
      var init, c := cs[..|cs| - 1], cs[|cs| - 1];
      assert cs == init + [c];
      FoldIsSoonest(init, queued);
      var s := Fold(init, queued);
      if s.best.Some? && c.offset == s.timeOffset {
        assert Candidate(s.best.value, s.timeOffset) in cs;
      }
    }
  }

  /** A Tx link is chosen whenever one is among the soonest candidates. */
  lemma {:induction false} FoldPrefersTx(cs: seq<Candidate>, queued: LinkAddr -> nat)
    ensures forall c :: c in cs && c.offset == Fold(cs, queued).timeOffset && c.link.options.tx ==>
      Fold(cs, queued).best.Some? && Fold(cs, queued).best.value.options.tx
  {
    if cs != [] {
      var init, c := cs[..|cs| - 1], cs[|cs| - 1];
      assert cs == init + [c];
      FoldPrefersTx(init, queued);
      FoldIsSoonest(init, queued);
    }
  }

  /**
   * Among the soonest candidates with the same Tx flag as the chosen link, none
   * belongs to a slotframe with a lower handle.
   */
  lemma {:induction false} FoldPrefersLowerSlotframe(cs: seq<Candidate>, queued: LinkAddr -> nat)
    ensures var s := Fold(cs, queued);
      forall c :: c in cs && c.offset == s.timeOffset && c.link.options.tx == s.best.value.options.tx ==>
        s.best.value.slotframeHandle <= c.link.slotframeHandle
  {
    if cs != [] {
      var init, c := cs[..|cs| - 1], cs[|cs| - 1];
      assert cs == init + [c];
      FoldPrefersLowerSlotframe(init, queued);
      FoldPrefersTx(init, queued);
      FoldIsSoonest(init, queued);
    }
  }

  /** A backup, when there is one, can receive and is due in the same timeslot as the chosen link. */
  lemma {:induction false} FoldBackupIsRx(cs: seq<Candidate>, queued: LinkAddr -> nat)
    ensures var s := Fold(cs, queued);
      s.backup.Some? ==> s.backup.value.options.rx && Candidate(s.backup.value, s.timeOffset) in cs
  {
    if cs != [] {
      var init, c := cs[..|cs| - 1], cs[|cs| - 1];
      assert cs == init + [c];
      FoldBackupIsRx(init, queued);
      FoldIsSoonest(init, queued);
    }
  }

  /**
   * The overlap rule: when the soonest candidates are a Tx link that cannot
   * receive and an Rx link that cannot transmit, both due at offset d, the Tx
   * link is chosen and the Rx link becomes its backup, whichever comes first.
   */
  lemma FoldTxWithRxBackup(cs: seq<Candidate>, queued: LinkAddr -> nat, t: Link, r: Link, d: nat)
    requires t.options.tx && !t.options.rx && r.options.rx && !r.options.tx
    requires Candidate(t, d) in cs && Candidate(r, d) in cs
    requires forall c :: c in cs ==> c == Candidate(t, d) || c == Candidate(r, d) || c.offset > d
    ensures Fold(cs, queued) == Selection(Some(t), Some(r), d)
  {
    FoldAtSharedOffset(cs, queued, t, r, d);
  }

  /**
   * The search over candidates where only t and r are due at offset d and all
   * others later, by which of the two it has met so far.
   */
  lemma {:induction false} FoldAtSharedOffset(cs: seq<Candidate>, queued: LinkAddr -> nat, t: Link, r: Link, d: nat)
    requires t.options.tx && !t.options.rx && r.options.rx && !r.options.tx
    requires forall c :: c in cs ==> c == Candidate(t, d) || c == Candidate(r, d) || c.offset > d
    ensures var s := Fold(cs, queued);
      var hasT, hasR := Candidate(t, d) in cs, Candidate(r, d) in cs;
      (!hasT && !hasR ==> s.best.None? || s.timeOffset > d) &&
      (hasT && !hasR ==> s == Selection(Some(t), None, d)) &&
      (!hasT && hasR ==> s == Selection(Some(r), None, d)) &&
      (hasT && hasR ==> s == Selection(Some(t), Some(r), d))
  {
    if cs != [] {
      var init, c := cs[..|cs| - 1], cs[|cs| - 1];
      assert cs == init + [c];
      FoldAtSharedOffset(init, queued, t, r, d);
    }
  }

  /** A link is selected exactly when the schedule holds one. */
  lemma NextActiveLinkExists(sfs: seq<Slotframe>, asn: Asn, queued: LinkAddr -> nat)
    requires Shaped(sfs)
    ensures Fold(Candidates(sfs, asn), queued).best.Some? <==> exists i :: 0 <= i < |sfs| && sfs[i].links != []
  {
    var cs := Candidates(sfs, asn);
    FoldIsSoonest(cs, queued);
    if cs != [] {
      CandidatesSound(sfs, asn, cs[0]);
    }
    if exists i :: 0 <= i < |sfs| && sfs[i].links != [] {
      var i :| 0 <= i < |sfs| && sfs[i].links != [];
      CandidatesComplete(sfs, asn, i, sfs[i].links[0]);
    }
  }

  /**
   * The selected link belongs to the schedule, and the selected offset brings
   * the ASN to that link's timeslot within its slotframe.
   */
  lemma NextActiveLinkIsScheduled(sfs: seq<Slotframe>, asn: Asn, queued: LinkAddr -> nat)
    requires Shaped(sfs)
    ensures var s := Fold(Candidates(sfs, asn), queued);
      s.best.Some? ==> exists i :: 0 <= i < |sfs| && s.best.value in sfs[i].links &&
                         1 <= s.timeOffset <= sfs[i].size && (asn + s.timeOffset) % sfs[i].size == s.best.value.timeslot
  {
    var cs := Candidates(sfs, asn);
    var s := Fold(cs, queued);
    FoldIsSoonest(cs, queued);
    if s.best.Some? {
      CandidateIsScheduled(sfs, asn, Candidate(s.best.value, s.timeOffset));
    }
  }

  /** Every candidate is a link of the schedule whose offset brings the ASN to its timeslot. */
  lemma CandidateIsScheduled(sfs: seq<Slotframe>, asn: Asn, c: Candidate)
    requires Shaped(sfs) && c in Candidates(sfs, asn)
    ensures exists i :: 0 <= i < |sfs| && c.link in sfs[i].links &&
                        1 <= c.offset <= sfs[i].size && (asn + c.offset) % sfs[i].size == c.link.timeslot
  {
    CandidatesSound(sfs, asn, c);
    var i :| 0 <= i < |sfs| && c.link in sfs[i].links &&
             c.offset == TimeToTimeslot(c.link.timeslot, asn % sfs[i].size, sfs[i].size);
    OffsetReaches(asn, sfs[i].size, c.link.timeslot, c.offset);
  }

  /** The distance TimeToTimeslot gives from the ASN's timeslot lies in [1, size] and brings the ASN itself to the link's timeslot. */
  lemma OffsetReaches(asn: nat, size: nat, linkTs: nat, t: nat)
    requires linkTs < size
    requires t == TimeToTimeslot(linkTs, asn % size, size)
    ensures 1 <= t <= size && (asn + t) % size == linkTs
  {
    AsnOffset(asn, size, t);
  }

  /** No link of the schedule comes round sooner than the selected offset. */
  lemma NextActiveLinkIsSoonest(sfs: seq<Slotframe>, asn: Asn, queued: LinkAddr -> nat)
    requires Shaped(sfs)
    ensures var s := Fold(Candidates(sfs, asn), queued);
      forall i, l :: 0 <= i < |sfs| && l in sfs[i].links ==>
        s.timeOffset <= TimeToTimeslot(l.timeslot, asn % sfs[i].size, sfs[i].size)
  {
    var cs := Candidates(sfs, asn);
    FoldIsSoonest(cs, queued);
    forall i, l | 0 <= i < |sfs| && l in sfs[i].links
      ensures Fold(cs, queued).timeOffset <= TimeToTimeslot(l.timeslot, asn % sfs[i].size, sfs[i].size)
    {
      CandidatesComplete(sfs, asn, i, l);
    }
  }

  /** Advancing the ASN by t advances its position in a slotframe by t, modulo the slotframe size. */
  lemma AsnOffset(asn: nat, size: nat, t: nat)
    requires size > 0
    ensures (asn + t) % size == (asn % size + t) % size
  {
    var q, x := asn / size, asn % size + t;
    var p, r := x / size, x % size;
    assert asn + t == (q + p) * size + r by {
      assert asn == q * size + asn % size;
      assert x == p * size + r;
      assert (q + p) * size == q * size + p * size;
    }
    ModUnique(asn + t, size, q + p, r);
  }

  /** The remainder is the unique r in [0, size) with x == q * size + r. */
  lemma ModUnique(x: int, size: nat, q: int, r: int)
    requires size > 0 && 0 <= r < size && x == q * size + r
    ensures x % size == r
  {
    var q' := x / size;
    assert (q - q') * size == x % size - r;
    if q > q' {
      MulAtLeast(q - q', size);
      assert false;
    } else if q < q' {
      MulAtLeast(q' - q, size);
      assert false;
    }
  }

  lemma {:induction false} MulAtLeast(k: int, size: nat)
    requires k >= 1
    ensures k * size >= size
  {
    if k > 1 {
      MulAtLeast(k - 1, size);
      assert k * size == (k - 1) * size + size;
    }
  }
}
