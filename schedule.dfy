/**
 * The TSCH schedule store: a list of slotframes, each holding its links in
 * insertion order, the neighbour link counters the store keeps in step with
 * the Tx links, and the lock that makes every operation fail instead of block
 * while the slot operation holds it.
 */
module TschSchedule {
  import opened Wrappers
  import opened TschTypes
  import opened SlotSelector

  /** tsch_neighbor's tx_links_count and dedicated_tx_links_count. */
  datatype NbrCounters = NbrCounters(txLinks: nat, dedicatedTxLinks: nat)

  /** What a link count counts: every link, or the (dedicated) Tx links to one neighbour. */
  datatype Tally = AnyLink | TxTo(addr: LinkAddr) | DedicatedTxTo(addr: LinkAddr)

  predicate Counted(l: Link, t: Tally) {
    match t
    case AnyLink => true
    case TxTo(a) => l.options.tx && l.addr == a
    case DedicatedTxTo(a) => l.options.tx && !l.options.shared && l.addr == a
  }

  function Ind(l: Link, t: Tally): nat {
    if Counted(l, t) then 1 else 0
  }

  /** The number of links of `ls` that `t` counts. */
  function CountIn(ls: seq<Link>, t: Tally): nat {
    if ls == [] then 0 else CountIn(ls[..|ls| - 1], t) + Ind(ls[|ls| - 1], t)
  }

  /** The number of links of the whole schedule that `t` counts. */
  function Count(sfs: seq<Slotframe>, t: Tally): nat {
    if sfs == [] then 0 else Count(sfs[..|sfs| - 1], t) + CountIn(sfs[|sfs| - 1].links, t)
  }

  /** The counters a neighbour entry must hold for the schedule `sfs`. */
  function CountersFor(sfs: seq<Slotframe>, a: LinkAddr): NbrCounters {
    NbrCounters(Count(sfs, TxTo(a)), Count(sfs, DedicatedTxTo(a)))
  }

  lemma {:induction false} CountInConcat(a: seq<Link>, b: seq<Link>, t: Tally)
    ensures CountIn(a + b, t) == CountIn(a, t) + CountIn(b, t)
  {
    if b != [] {
      assert (a + b)[..|a + b| - 1] == a + b[..|b| - 1];
      CountInConcat(a, b[..|b| - 1], t);
    } else {
      assert a + b == a;
    }
  }

  /** Taking the link at index k out of a list lowers each count by that link's share. */
  lemma CountInRemoveAt(ls: seq<Link>, k: nat, t: Tally)
    requires k < |ls|
    ensures CountIn(ls[..k] + ls[k + 1..], t) + Ind(ls[k], t) == CountIn(ls, t)
  {
    assert ls == ls[..k] + [ls[k]] + ls[k + 1..];
    CountInConcat(ls[..k] + [ls[k]], ls[k + 1..], t);
    CountInConcat(ls[..k], [ls[k]], t);
    CountInConcat(ls[..k], ls[k + 1..], t);
    assert CountIn([ls[k]], t) == Ind(ls[k], t) by {
      assert [ls[k]][..0] == [];
    }
  }

  lemma {:induction false} CountConcat(x: seq<Slotframe>, y: seq<Slotframe>, t: Tally)
    ensures Count(x + y, t) == Count(x, t) + Count(y, t)
  {
    if y != [] {
      assert (x + y)[..|x + y| - 1] == x + y[..|y| - 1];
      CountConcat(x, y[..|y| - 1], t);
    } else {
      assert x + y == x;
    }
  }

  /** Replacing one slotframe changes each count by the difference of its links' counts. */
  lemma CountReplace(sfs: seq<Slotframe>, i: nat, sf: Slotframe, t: Tally)
    requires i < |sfs|
    ensures Count(sfs[i := sf], t) + CountIn(sfs[i].links, t) == Count(sfs, t) + CountIn(sf.links, t)
  {
    assert sfs == sfs[..i] + [sfs[i]] + sfs[i + 1..];
    assert sfs[i := sf] == sfs[..i] + [sf] + sfs[i + 1..];
    CountConcat(sfs[..i] + [sfs[i]], sfs[i + 1..], t);
    CountConcat(sfs[..i], [sfs[i]], t);
    CountConcat(sfs[..i] + [sf], sfs[i + 1..], t);
    CountConcat(sfs[..i], [sf], t);
    assert [sf][..0] == [] && [sfs[i]][..0] == [];
  }

  /** Dropping a slotframe lowers each count by the counts of its links. */
  lemma CountRemoveSlotframe(sfs: seq<Slotframe>, i: nat, t: Tally)
    requires i < |sfs|
    ensures Count(sfs[..i] + sfs[i + 1..], t) + CountIn(sfs[i].links, t) == Count(sfs, t)
  {
    assert sfs == sfs[..i] + [sfs[i]] + sfs[i + 1..];
    CountConcat(sfs[..i] + [sfs[i]], sfs[i + 1..], t);
    CountConcat(sfs[..i], [sfs[i]], t);
    CountConcat(sfs[..i], sfs[i + 1..], t);
    assert [sfs[i]][..0] == [];
  }

  lemma {:induction false} DedicatedInAtMostTx(ls: seq<Link>, a: LinkAddr)
    ensures CountIn(ls, DedicatedTxTo(a)) <= CountIn(ls, TxTo(a))
  {
    if ls != [] {
      DedicatedInAtMostTx(ls[..|ls| - 1], a);
    }
  }

  /** A neighbour never has more dedicated Tx links than Tx links. */
  lemma {:induction false} DedicatedAtMostTx(sfs: seq<Slotframe>, a: LinkAddr)
    ensures Count(sfs, DedicatedTxTo(a)) <= Count(sfs, TxTo(a))
  {
    if sfs != [] {
      DedicatedAtMostTx(sfs[..|sfs| - 1], a);
      DedicatedInAtMostTx(sfs[|sfs| - 1].links, a);
    }
  }

  predicate HasHandle(sfs: seq<Slotframe>, h: int) {
    exists i :: 0 <= i < |sfs| && sfs[i].handle == h
  }

  /** Where the slotframe a pointer refers to sits in the slotframe list. */
  function IndexOf(sfs: seq<Slotframe>, h: int): (i: nat)
    requires HasHandle(sfs, h)
    ensures i < |sfs| && sfs[i].handle == h
    ensures forall j :: 0 <= j < i ==> sfs[j].handle != h
  {
    IndexFrom(sfs, h, 0)
  }

  /** The first position at or after k whose slotframe has handle h. */
  function IndexFrom(sfs: seq<Slotframe>, h: int, k: nat): (i: nat)
    requires k <= |sfs| && exists j :: k <= j < |sfs| && sfs[j].handle == h
    ensures k <= i < |sfs| && sfs[i].handle == h
    ensures forall j :: k <= j < i ==> sfs[j].handle != h
    decreases |sfs| - k
  {
    if sfs[k].handle == h then k else IndexFrom(sfs, h, k + 1)
  }

  predicate InSchedule(sfs: seq<Slotframe>, l: Link) {
    exists i :: 0 <= i < |sfs| && l in sfs[i].links
  }

  /** Where a link sits in its list (the first copy of it). */
  function FirstIndex(ls: seq<Link>, l: Link): (k: nat)
    requires l in ls
    ensures k < |ls| && ls[k] == l && l !in ls[..k]
  {
    FirstFrom(ls, l, 0)
  }

  /** The first position at or after k holding `l`. */
  function FirstFrom(ls: seq<Link>, l: Link, k: nat): (i: nat)
    requires k <= |ls| && l in ls[k..]
    ensures k <= i < |ls| && ls[i] == l
    ensures forall j :: k <= j < i ==> ls[j] != l
    decreases |ls| - k
  {
    if ls[k] == l then k
    else
      assert l in ls[k + 1..] by {
        var j :| k <= j < |ls| && ls[j] == l;
        assert ls[k + 1..][j - k - 1] == l;
      }
      FirstFrom(ls, l, k + 1)
  }

  /** list_remove: the list without the first copy of `l`. */
  function Without(ls: seq<Link>, l: Link): seq<Link>
    requires l in ls
  {
    var k := FirstIndex(ls, l);
    ls[..k] + ls[k + 1..]
  }

  /** The links of a list that occupy a cell. */
  function AtCellOf(ls: seq<Link>, ts: int, ch: int): seq<Link> {
    if ls == [] then []
    else AtCellOf(ls[..|ls| - 1], ts, ch) + (if AtCell(ls[|ls| - 1], ts, ch) then [ls[|ls| - 1]] else [])
  }

  /** The links of a list that do not occupy a cell, in order. */
  function ClearCell(ls: seq<Link>, ts: int, ch: int): seq<Link> {
    if ls == [] then []
    else ClearCell(ls[..|ls| - 1], ts, ch) + (if AtCell(ls[|ls| - 1], ts, ch) then [] else [ls[|ls| - 1]])
  }

  /** After the cell is cleared, no link of the list occupies it. */
  lemma {:induction false} ClearCellEmptiesCell(ls: seq<Link>, ts: int, ch: int)
    ensures AtCellOf(ClearCell(ls, ts, ch), ts, ch) == []
    ensures forall l :: l in ClearCell(ls, ts, ch) ==> l in ls && !AtCell(l, ts, ch)
  {
    if ls != [] {
      var init := ls[..|ls| - 1];
      ClearCellEmptiesCell(init, ts, ch);
      var c := ClearCell(init, ts, ch);
      if !AtCell(ls[|ls| - 1], ts, ch) {
        assert (c + [ls[|ls| - 1]])[..|c|] == c;
      } else {
        assert c + [] == c;
      }
    }
  }

  /** Every link at the cell is taken out, and the other links keep their order. */
  lemma {:induction false} ClearCellCounts(ls: seq<Link>, ts: int, ch: int, t: Tally)
    ensures CountIn(ClearCell(ls, ts, ch), t) + CountIn(AtCellOf(ls, ts, ch), t) == CountIn(ls, t)
  {
    if ls != [] {
      var init, x := ls[..|ls| - 1], ls[|ls| - 1];
      ClearCellCounts(init, ts, ch, t);
      var one := [x];
      assert one[..0] == [];
      assert CountIn(one, t) == Ind(x, t);
      assert CountIn(ls, t) == CountIn(init, t) + Ind(x, t);
      if AtCell(x, ts, ch) {
        var c := ClearCell(init, ts, ch);
        assert ClearCell(ls, ts, ch) == c + [];
        assert c + [] == c;
        assert AtCellOf(ls, ts, ch) == AtCellOf(init, ts, ch) + one;
        CountInConcat(AtCellOf(init, ts, ch), one, t);
      } else {
        var c := AtCellOf(init, ts, ch);
        assert AtCellOf(ls, ts, ch) == c + [];
        assert c + [] == c;
        assert ClearCell(ls, ts, ch) == ClearCell(init, ts, ch) + one;
        CountInConcat(ClearCell(init, ts, ch), one, t);
      }
    }
  }

  /** The slotframe list with slotframe i holding the links `ls`. */
  function WithLinks(sfs: seq<Slotframe>, i: nat, ls: seq<Link>): seq<Slotframe>
    requires i < |sfs|
  {
    sfs[i := sfs[i].(links := ls)]
  }

  /** The schedule with the cell (ts, ch) of slotframe i cleared. */
  function Cleared(sfs: seq<Slotframe>, i: nat, ts: int, ch: int): seq<Slotframe>
    requires i < |sfs|
  {
    WithLinks(sfs, i, ClearCell(sfs[i].links, ts, ch))
  }

  /** Adding a link to slotframe i and then removing it again restores the schedule. */
  lemma AddThenRemoveRestores(sfs: seq<Slotframe>, i: nat, l: Link)
    requires i < |sfs| && l !in sfs[i].links
    ensures l in (sfs[i].links + [l])
    ensures WithLinks(WithLinks(sfs, i, sfs[i].links + [l]), i, Without(sfs[i].links + [l], l)) == sfs
  {
    var ls := sfs[i].links;
    WithoutAtBoundary(ls, [l], l);
    assert ls + [l][1..] == ls;
    assert sfs[i].(links := ls) == sfs[i];
  }

  /** The default slotframe length of the 6TiSCH minimal schedule (tsch-conf.h). */
  const TSCH_SCHEDULE_DEFAULT_LENGTH: uint16 := 7

  /** The options of the single cell of the 6TiSCH minimal schedule. */
  const MinimalOptions := LinkOptions(tx := true, rx := true, shared := true, timeKeeping := true)

  predicate DistinctHandles(sfs: seq<Slotframe>) {
    forall i, j :: 0 <= i < j < |sfs| ==> sfs[i].handle != sfs[j].handle
  }

  predicate SlotframeOk(sf: Slotframe, next: nat) {
    sf.size > 0 &&
    forall l :: l in sf.links ==>
      l.slotframeHandle == sf.handle && l.timeslot < sf.size && (next <= 0x1_0000 ==> l.handle < next)
  }

  ghost predicate CountersOk(sfs: seq<Slotframe>, nbrs: map<LinkAddr, NbrCounters>, maxNbrs: nat) {
    (forall a :: a in nbrs ==> nbrs[a] == CountersFor(sfs, a)) &&
    (forall a :: a !in nbrs && |nbrs| < maxNbrs ==> Count(sfs, TxTo(a)) == 0)
  }

  /**
   * The neighbour counters after a Tx link is removed (tsch_schedule_remove_link):
   * the neighbour entry, when there is one, loses the link.
   */
  function AfterLinkRemoved(nbrs: map<LinkAddr, NbrCounters>, link: Link): map<LinkAddr, NbrCounters>
    requires link.options.tx && link.addr in nbrs ==>
      nbrs[link.addr].txLinks >= 1 && (!link.options.shared ==> nbrs[link.addr].dedicatedTxLinks >= 1)
  {
    if link.options.tx && link.addr in nbrs then
      var c := nbrs[link.addr];
      nbrs[link.addr := NbrCounters(c.txLinks - 1, if link.options.shared then c.dedicatedTxLinks else c.dedicatedTxLinks - 1)]
    else nbrs
  }

  /**
   * The neighbour counters after a link is added (tsch_schedule_add_link): a Tx
   * link finds or creates its neighbour entry (tsch_queue_add_nbr, which fails
   * when the pool is full) and counts itself there.
   */
  function AfterLinkAdded(nbrs: map<LinkAddr, NbrCounters>, link: Link, maxNbrs: nat): map<LinkAddr, NbrCounters> {
    if !link.options.tx then nbrs
    else if link.addr in nbrs then
      var c := nbrs[link.addr];
      nbrs[link.addr := NbrCounters(c.txLinks + 1, if link.options.shared then c.dedicatedTxLinks else c.dedicatedTxLinks + 1)]
    else if |nbrs| < maxNbrs then
      nbrs[link.addr := NbrCounters(1, if link.options.shared then 0 else 1)]
    else nbrs
  }

  /** Removing a counted link keeps the neighbour counters exact. */
  lemma RemovalKeepsCounters(before: seq<Slotframe>, after: seq<Slotframe>, nbrs: map<LinkAddr, NbrCounters>,
                             maxNbrs: nat, link: Link)
    requires CountersOk(before, nbrs, maxNbrs)
    requires forall t :: Count(after, t) + Ind(link, t) == Count(before, t)
    ensures link.options.tx && link.addr in nbrs ==>
      nbrs[link.addr].txLinks >= 1 && (!link.options.shared ==> nbrs[link.addr].dedicatedTxLinks >= 1)
    ensures CountersOk(after, AfterLinkRemoved(nbrs, link), maxNbrs)
  {
    var tx := TxTo(link.addr);
    var ded := DedicatedTxTo(link.addr);
    assert Count(after, tx) + Ind(link, tx) == Count(before, tx);
    assert Count(after, ded) + Ind(link, ded) == Count(before, ded);
    var m := AfterLinkRemoved(nbrs, link);
    forall a | a in m ensures m[a] == CountersFor(after, a) {
      assert Count(after, TxTo(a)) + Ind(link, TxTo(a)) == Count(before, TxTo(a));
      assert Count(after, DedicatedTxTo(a)) + Ind(link, DedicatedTxTo(a)) == Count(before, DedicatedTxTo(a));
    }
    forall a | a !in m && |m| < maxNbrs ensures Count(after, TxTo(a)) == 0 {
      assert Count(after, TxTo(a)) + Ind(link, TxTo(a)) == Count(before, TxTo(a));
    }
  }

  /** Adding a link keeps the neighbour counters exact. */
  lemma AdditionKeepsCounters(before: seq<Slotframe>, after: seq<Slotframe>, nbrs: map<LinkAddr, NbrCounters>,
                              maxNbrs: nat, link: Link)
    requires CountersOk(before, nbrs, maxNbrs)
    requires forall t :: Count(after, t) == Count(before, t) + Ind(link, t)
    ensures CountersOk(after, AfterLinkAdded(nbrs, link, maxNbrs), maxNbrs)
  {
    var m := AfterLinkAdded(nbrs, link, maxNbrs);
    if link.options.tx && link.addr !in nbrs && |nbrs| < maxNbrs {
      DedicatedAtMostTx(before, link.addr);
    }
    forall a | a in m ensures m[a] == CountersFor(after, a) {
      assert Count(after, TxTo(a)) == Count(before, TxTo(a)) + Ind(link, TxTo(a));
      assert Count(after, DedicatedTxTo(a)) == Count(before, DedicatedTxTo(a)) + Ind(link, DedicatedTxTo(a));
    }
    forall a | a !in m && |m| < maxNbrs ensures Count(after, TxTo(a)) == 0 {
      assert Count(after, TxTo(a)) == Count(before, TxTo(a)) + Ind(link, TxTo(a));
    }
  }

  /** Keeping only some links of one slotframe keeps every slotframe well formed. */
  lemma SublistKeepsShape(sfs: seq<Slotframe>, i: nat, ls: seq<Link>, next: nat)
    requires i < |sfs| && forall x :: x in ls ==> x in sfs[i].links
    requires DistinctHandles(sfs) && forall j :: 0 <= j < |sfs| ==> SlotframeOk(sfs[j], next)
    ensures DistinctHandles(WithLinks(sfs, i, ls))
    ensures forall j :: 0 <= j < |sfs| ==> SlotframeOk(WithLinks(sfs, i, ls)[j], next)
  {
    assert SlotframeOk(sfs[i], next);
  }

  /** Without keeps only links of the list. */
  lemma WithoutIsSublist(ls: seq<Link>, l: Link)
    requires l in ls
    ensures forall x :: x in Without(ls, l) ==> x in ls
  {
    var k := FirstIndex(ls, l);
    forall x | x in Without(ls, l) ensures x in ls {
      assert x in ls[..k] || x in ls[k + 1..];
    }
  }

  /** Removing the first copy of a link lowers every count by that link's share. */
  lemma WithoutCounts(sfs: seq<Slotframe>, i: nat, l: Link)
    requires i < |sfs| && l in sfs[i].links
    ensures forall t :: Count(WithLinks(sfs, i, Without(sfs[i].links, l)), t) + Ind(l, t) == Count(sfs, t)
  {
    var ls := sfs[i].links;
    var k := FirstIndex(ls, l);
    forall t ensures Count(WithLinks(sfs, i, Without(ls, l)), t) + Ind(l, t) == Count(sfs, t) {
      CountReplace(sfs, i, sfs[i].(links := Without(ls, l)), t);
      CountInRemoveAt(ls, k, t);
    }
  }

  lemma WithLinksTwice(sfs: seq<Slotframe>, i: nat, a: seq<Link>, b: seq<Link>)
    requires i < |sfs|
    ensures WithLinks(WithLinks(sfs, i, a), i, b) == WithLinks(sfs, i, b)
    ensures WithLinks(sfs, i, sfs[i].links) == sfs
  {
    assert sfs[i].(links := sfs[i].links) == sfs[i];
  }

  /** Changing the links of a slotframe moves no slotframe. */
  lemma WithLinksKeepsIndex(sfs: seq<Slotframe>, i: nat, ls: seq<Link>)
    requires i < |sfs|
    ensures HasHandle(WithLinks(sfs, i, ls), sfs[i].handle)
    ensures IndexOf(WithLinks(sfs, i, ls), sfs[i].handle) == IndexOf(sfs, sfs[i].handle)
  {
    var after := WithLinks(sfs, i, ls);
    assert after[i].handle == sfs[i].handle;
    var j := IndexOf(after, sfs[i].handle);
    var j' := IndexOf(sfs, sfs[i].handle);
    assert sfs[j].handle == after[j].handle && sfs[j'].handle == after[j'].handle;
  }

  lemma ClearStart(sfs: seq<Slotframe>, i: nat, ts: int, ch: int)
    requires i < |sfs|
    ensures WithLinks(sfs, i, ClearCell(sfs[i].links[..0], ts, ch) + sfs[i].links[0..]) == sfs
    ensures AtCellOf(sfs[i].links[..0], ts, ch) == []
  {
    var ls := sfs[i].links;
    assert ls[..0] == [] && ls[0..] == ls;
    assert ClearCell(ls[..0], ts, ch) + ls[0..] == ls;
    WithLinksTwice(sfs, i, ls, ls);
  }

  /** Extending the walked prefix by one link extends both filters by at most that link. */
  lemma PrefixStep(ls: seq<Link>, k: nat, ts: int, ch: int)
    requires k < |ls|
    ensures ClearCell(ls[..k + 1], ts, ch) ==
            ClearCell(ls[..k], ts, ch) + (if AtCell(ls[k], ts, ch) then [] else [ls[k]])
    ensures AtCellOf(ls[..k + 1], ts, ch) ==
            AtCellOf(ls[..k], ts, ch) + (if AtCell(ls[k], ts, ch) then [ls[k]] else [])
  {
    assert ls[..k + 1][..k] == ls[..k];
  }

  /** Removing a link that starts the unwalked part and is absent from the walked part. */
  lemma WithoutAtBoundary(kept: seq<Link>, rest: seq<Link>, l: Link)
    requires rest != [] && rest[0] == l && l !in kept
    ensures l in kept + rest
    ensures Without(kept + rest, l) == kept + rest[1..]
  {
    var walked := kept + rest;
    assert walked[|kept|] == l;
    var fi := FirstIndex(walked, l);
    assert forall m :: 0 <= m < |kept| ==> walked[m] != l by {
      forall m | 0 <= m < |kept| ensures walked[m] != l {
        assert walked[m] == kept[m];
      }
    }
    assert forall m :: 0 <= m < fi ==> walked[m] != l by {
      forall m | 0 <= m < fi ensures walked[m] != l {
        assert walked[..fi][m] == walked[m];
      }
    }
    assert walked[..fi] == kept;
    assert walked[fi + 1..] == rest[1..];
  }

  /**
   * One step of the loop of tsch_schedule_remove_link_by_timeslot: the link at
   * index k is either kept or removed (and then it is the first copy of itself
   * in the list being walked).
   */
  lemma ClearStep(ls: seq<Link>, k: nat, ts: int, ch: int)
    requires k < |ls|
    ensures var kept := ClearCell(ls[..k], ts, ch);
      if AtCell(ls[k], ts, ch) then
        ls[k] in kept + ls[k..] &&
        Without(kept + ls[k..], ls[k]) == ClearCell(ls[..k + 1], ts, ch) + ls[k + 1..] &&
        AtCellOf(ls[..k + 1], ts, ch) == AtCellOf(ls[..k], ts, ch) + [ls[k]]
      else
        kept + ls[k..] == ClearCell(ls[..k + 1], ts, ch) + ls[k + 1..] &&
        AtCellOf(ls[..k + 1], ts, ch) == AtCellOf(ls[..k], ts, ch)
  {
    PrefixStep(ls, k, ts, ch);
    var kept := ClearCell(ls[..k], ts, ch);
    assert ls[k..][1..] == ls[k + 1..];
    if AtCell(ls[k], ts, ch) {
      ClearCellEmptiesCell(ls[..k], ts, ch);
      WithoutAtBoundary(kept, ls[k..], ls[k]);
      assert kept + [] == kept;
    } else {
      assert AtCellOf(ls[..k], ts, ch) + [] == AtCellOf(ls[..k], ts, ch);
      assert ls[k..] == [ls[k]] + ls[k + 1..];
    }
  }

  lemma ClearEnd(ls: seq<Link>, ts: int, ch: int)
    ensures ClearCell(ls[..|ls|], ts, ch) + ls[|ls|..] == ClearCell(ls, ts, ch)
    ensures AtCellOf(ls[..|ls|], ts, ch) == AtCellOf(ls, ts, ch)
  {
    assert ls[..|ls|] == ls;
    assert ClearCell(ls, ts, ch) + [] == ClearCell(ls, ts, ch);
  }

  /** Appending a link that lies in the slotframe and takes the next handle keeps every slotframe well formed. */
  lemma AppendKeepsShape(sfs: seq<Slotframe>, i: nat, link: Link, next: nat)
    requires i < |sfs| && DistinctHandles(sfs) && forall j :: 0 <= j < |sfs| ==> SlotframeOk(sfs[j], next)
    requires link.slotframeHandle == sfs[i].handle && link.timeslot < sfs[i].size && link.handle == next % 0x1_0000
    ensures DistinctHandles(WithLinks(sfs, i, sfs[i].links + [link]))
    ensures forall j :: 0 <= j < |sfs| ==> SlotframeOk(WithLinks(sfs, i, sfs[i].links + [link])[j], next + 1)
  {
    var after := WithLinks(sfs, i, sfs[i].links + [link]);
    forall j | 0 <= j < |sfs| ensures SlotframeOk(after[j], next + 1) {
      assert SlotframeOk(sfs[j], next);
      forall x | x in after[j].links
        ensures x.slotframeHandle == after[j].handle && x.timeslot < after[j].size
        ensures next + 1 <= 0x1_0000 ==> x.handle < next + 1
      {
        if j == i && x != link {
          assert x in sfs[i].links;
        }
      }
    }
  }

  /** Appending a link raises every count by that link's share. */
  lemma AppendCounts(sfs: seq<Slotframe>, i: nat, link: Link)
    requires i < |sfs|
    ensures forall t :: Count(WithLinks(sfs, i, sfs[i].links + [link]), t) == Count(sfs, t) + Ind(link, t)
  {
    var ls := sfs[i].links;
    assert (ls + [link])[..|ls|] == ls;
    forall t ensures Count(WithLinks(sfs, i, ls + [link]), t) == Count(sfs, t) + Ind(link, t) {
      CountReplace(sfs, i, sfs[i].(links := ls + [link]), t);
    }
  }

  /** Before the 16-bit handle wraps, a link's handle is the counter itself. */
  lemma HandleBelowWrap(next: nat)
    ensures next < 0x1_0000 ==> next % 0x1_0000 == next
  {
  }

  /** While the handle counter has not wrapped, every scheduled link has a smaller handle. */
  lemma HandlesBelow(sfs: seq<Slotframe>, next: nat)
    requires forall j :: 0 <= j < |sfs| ==> SlotframeOk(sfs[j], next)
    ensures next <= 0x1_0000 ==> forall x :: InSchedule(sfs, x) ==> x.handle < next
  {
    forall x | InSchedule(sfs, x) && next <= 0x1_0000 ensures x.handle < next {
      var j :| 0 <= j < |sfs| && x in sfs[j].links;
      assert SlotframeOk(sfs[j], next);
    }
  }

  /** A link appended to a list with a clear cell is the only one at that cell. */
  lemma AppendAtCell(ls: seq<Link>, link: Link)
    requires AtCellOf(ls, link.timeslot, link.channelOffset) == []
    ensures AtCellOf(ls + [link], link.timeslot, link.channelOffset) == [link]
  {
    assert (ls + [link])[..|ls|] == ls;
  }

  /** list_remove of the head of a list leaves its tail. */
  lemma WithoutHead(ls: seq<Link>)
    requires ls != []
    ensures ls[0] in ls && Without(ls, ls[0]) == ls[1..]
  {
    assert ls[..0] == [];
  }

  /** The slotframe list with its i-th slotframe unlinked (list_remove on the slotframe list). */
  function Dropped(sfs: seq<Slotframe>, i: nat): seq<Slotframe>
    requires i < |sfs|
  {
    sfs[..i] + sfs[i + 1..]
  }

  /**
   * What the schedule keeps true between operations: the pools are not
   * overrun, slotframe handles are unique, every link lies in its slotframe
   * (and, until the 16-bit handle counter wraps, below the counter), and the
   * neighbour counters are exact.
   */
  ghost predicate Invariant(sfs: seq<Slotframe>, next: nat, nbrs: map<LinkAddr, NbrCounters>,
                            maxSf: nat, maxL: nat, maxN: nat) {
    |sfs| <= maxSf &&
    Count(sfs, AnyLink) <= maxL &&
    DistinctHandles(sfs) &&
    (forall i :: 0 <= i < |sfs| ==> SlotframeOk(sfs[i], next)) &&
    CountersOk(sfs, nbrs, maxN)
  }

  /** A scheduled link sits in the slotframe its slotframe handle names. */
  lemma LocateLink(sfs: seq<Slotframe>, next: nat, link: Link)
    requires DistinctHandles(sfs) && forall j :: 0 <= j < |sfs| ==> SlotframeOk(sfs[j], next)
    requires InSchedule(sfs, link)
    ensures HasHandle(sfs, link.slotframeHandle) && link in sfs[IndexOf(sfs, link.slotframeHandle)].links
  {
    var j :| 0 <= j < |sfs| && link in sfs[j].links;
    assert SlotframeOk(sfs[j], next);
  }

  /** Removing a scheduled link (and its share of the neighbour counters) keeps the invariant. */
  lemma RemovalKeepsInvariant(sfs: seq<Slotframe>, i: nat, link: Link, next: nat, nbrs: map<LinkAddr, NbrCounters>,
                              maxSf: nat, maxL: nat, maxN: nat)
    requires Invariant(sfs, next, nbrs, maxSf, maxL, maxN)
    requires i < |sfs| && link in sfs[i].links
    ensures link.options.tx && link.addr in nbrs ==>
      nbrs[link.addr].txLinks >= 1 && (!link.options.shared ==> nbrs[link.addr].dedicatedTxLinks >= 1)
    ensures Invariant(WithLinks(sfs, i, Without(sfs[i].links, link)), next, AfterLinkRemoved(nbrs, link), maxSf, maxL, maxN)
    ensures AfterLinkRemoved(nbrs, link).Keys == nbrs.Keys
  {
    var ls := sfs[i].links;
    WithoutIsSublist(ls, link);
    SublistKeepsShape(sfs, i, Without(ls, link), next);
    WithoutCounts(sfs, i, link);
    RemovalKeepsCounters(sfs, WithLinks(sfs, i, Without(ls, link)), nbrs, maxN, link);
  }

  /** Appending a link with the next handle to a slotframe that can hold it keeps the invariant. */
  lemma AdditionKeepsInvariant(sfs: seq<Slotframe>, i: nat, link: Link, next: nat, nbrs: map<LinkAddr, NbrCounters>,
                               maxSf: nat, maxL: nat, maxN: nat)
    requires Invariant(sfs, next, nbrs, maxSf, maxL, maxN) && Count(sfs, AnyLink) < maxL
    requires i < |sfs| && link.slotframeHandle == sfs[i].handle && link.timeslot < sfs[i].size
    requires link.handle == next % 0x1_0000
    ensures Invariant(WithLinks(sfs, i, sfs[i].links + [link]), next + 1, AfterLinkAdded(nbrs, link, maxN), maxSf, maxL, maxN)
    ensures nbrs.Keys <= AfterLinkAdded(nbrs, link, maxN).Keys
    ensures link.options.tx ==> AfterLinkAdded(nbrs, link, maxN).Keys <= nbrs.Keys + {link.addr}
    ensures !link.options.tx ==> AfterLinkAdded(nbrs, link, maxN) == nbrs
  {
    AppendKeepsShape(sfs, i, link, next);
    AppendCounts(sfs, i, link);
    AdditionKeepsCounters(sfs, WithLinks(sfs, i, sfs[i].links + [link]), nbrs, maxN, link);
  }

  /** Appending an empty slotframe with a fresh handle and a nonzero size keeps the invariant. */
  lemma NewSlotframeKeepsInvariant(sfs: seq<Slotframe>, sf: Slotframe, next: nat, nbrs: map<LinkAddr, NbrCounters>,
                                   maxSf: nat, maxL: nat, maxN: nat)
    requires Invariant(sfs, next, nbrs, maxSf, maxL, maxN) && |sfs| < maxSf
    requires sf.links == [] && sf.size > 0 && !HasHandle(sfs, sf.handle)
    ensures Invariant(sfs + [sf], next, nbrs, maxSf, maxL, maxN)
  {
    var after := sfs + [sf];
    forall t ensures Count(after, t) == Count(sfs, t) {
      assert after[..|after| - 1] == sfs;
    }
    forall a, b | 0 <= a < b < |after| ensures after[a].handle != after[b].handle {
      if b == |sfs| {
        assert after[a] == sfs[a];
      }
    }
    forall j | 0 <= j < |after| ensures SlotframeOk(after[j], next) {
      if j < |sfs| {
        assert after[j] == sfs[j];
      }
    }
    forall a | a in nbrs ensures nbrs[a] == CountersFor(after, a) {
      assert Count(after, TxTo(a)) == Count(sfs, TxTo(a));
      assert Count(after, DedicatedTxTo(a)) == Count(sfs, DedicatedTxTo(a));
    }
    forall a | a !in nbrs && |nbrs| < maxN ensures Count(after, TxTo(a)) == 0 {
      assert Count(after, TxTo(a)) == Count(sfs, TxTo(a));
    }
  }

  /** Moving the head of the rest of a walk to its walked part keeps their concatenation. */
  lemma MoveHead<T>(done: seq<T>, rest: seq<T>)
    requires rest != []
    ensures done + rest == (done + [rest[0]]) + rest[1..]
  {
    assert rest == [rest[0]] + rest[1..];
  }

  /** A link is scheduled in done + [sf] iff it is in done or in sf. */
  lemma InScheduleSnoc(done: seq<Slotframe>, sf: Slotframe, x: Link)
    ensures InSchedule(done + [sf], x) <==> InSchedule(done, x) || x in sf.links
  {
    var after := done + [sf];
    if InSchedule(after, x) {
      var j :| 0 <= j < |after| && x in after[j].links;
      assert j < |done| ==> after[j] == done[j];
    }
    if InSchedule(done, x) {
      var j :| 0 <= j < |done| && x in done[j].links;
      assert after[j] == done[j];
    }
    if x in sf.links {
      assert after[|done|] == sf;
    }
  }

  /** Unlinking the head slotframe leaves the tail. */
  lemma DroppedFirst(sfs: seq<Slotframe>)
    requires sfs != []
    ensures Dropped(sfs, 0) == sfs[1..]
  {
    assert sfs[..0] == [];
  }

  /** Dropping a slotframe without links keeps the invariant. */
  lemma DropEmptySlotframe(sfs: seq<Slotframe>, i: nat, next: nat, nbrs: map<LinkAddr, NbrCounters>,
                           maxSf: nat, maxL: nat, maxN: nat)
    requires Invariant(sfs, next, nbrs, maxSf, maxL, maxN)
    requires i < |sfs| && sfs[i].links == []
    ensures Invariant(Dropped(sfs, i), next, nbrs, maxSf, maxL, maxN)
  {
    var after := Dropped(sfs, i);
    forall t ensures Count(after, t) == Count(sfs, t) {
      CountRemoveSlotframe(sfs, i, t);
    }
    forall a, b | 0 <= a < b < |after| ensures after[a].handle != after[b].handle {
      var a', b' := if a < i then a else a + 1, if b < i then b else b + 1;
      assert after[a] == sfs[a'] && after[b] == sfs[b'];
    }
    forall j | 0 <= j < |after| ensures SlotframeOk(after[j], next) {
      var j' := if j < i then j else j + 1;
      assert after[j] == sfs[j'];
    }
    forall a | a in nbrs ensures nbrs[a] == CountersFor(after, a) {
      assert Count(after, TxTo(a)) == Count(sfs, TxTo(a));
      assert Count(after, DedicatedTxTo(a)) == Count(sfs, DedicatedTxTo(a));
    }
    forall a | a !in nbrs && |nbrs| < maxN ensures Count(after, TxTo(a)) == 0 {
      assert Count(after, TxTo(a)) == Count(sfs, TxTo(a));
    }
  }

  /** The store's invariant gives the slot selector what it needs. */
  lemma InvariantShaped(sfs: seq<Slotframe>, next: nat, nbrs: map<LinkAddr, NbrCounters>,
                        maxSf: nat, maxL: nat, maxN: nat)
    requires Invariant(sfs, next, nbrs, maxSf, maxL, maxN)
    ensures Shaped(sfs)
  {
    forall i | 0 <= i < |sfs| ensures sfs[i].size > 0 && forall l :: l in sfs[i].links ==> l.timeslot < sfs[i].size {
      assert SlotframeOk(sfs[i], next);
    }
  }

  class Schedule {
    /** slotframe_list, each slotframe with its links_list. */
    var slotframes: seq<Slotframe>
    /** The static current_link_handle counter of tsch_schedule_add_link. */
    var nextLinkHandle: nat
    /** The lock is held elsewhere: tsch_get_lock fails and lookups return NULL. */
    var locked: bool
    /** current_link: the link the slot operation is about to run. */
    var currentLink: Option<Link>
    /** The Tx link counters of the neighbour queues, keyed by address. */
    var nbrs: map<LinkAddr, NbrCounters>
    /** TSCH_SCHEDULE_MAX_SLOTFRAMES, TSCH_SCHEDULE_MAX_LINKS and the neighbour pool size. */
    const maxSlotframes: nat
    const maxLinks: nat
    const maxNbrs: nat
    /** Whether the ALICE scheduler is compiled in (WITH_ALICE): it limits channel offsets to 0..15. */
    const alice: bool

    ghost predicate Valid()
      reads this
    {
      Invariant(slotframes, nextLinkHandle, nbrs, maxSlotframes, maxLinks, maxNbrs)
    }

    /** tsch_schedule_init: an empty schedule with empty pools. */
    constructor Init(maxSf: nat, maxL: nat, maxN: nat, withAlice: bool)
      ensures Valid()
      ensures slotframes == [] && nextLinkHandle == 0 && !locked && currentLink == None && nbrs == map[]
      ensures maxSlotframes == maxSf && maxLinks == maxL && maxNbrs == maxN && alice == withAlice
    {
      slotframes := [];
      nextLinkHandle := 0;
      locked := false;
      currentLink := None;
      nbrs := map[];
      maxSlotframes, maxLinks, maxNbrs, alice := maxSf, maxL, maxN, withAlice;
    }

    /** tsch_schedule_get_slotframe_by_handle: the first slotframe with that handle; none while locked. */
    method GetSlotframeByHandle(h: uint16) returns (r: Option<Slotframe>)
      ensures locked ==> r == None
      ensures !locked ==> (r.Some? <==> HasHandle(slotframes, h))
      ensures r.Some? ==> exists i :: 0 <= i < |slotframes| && slotframes[i] == r.value && r.value.handle == h &&
                                      forall j :: 0 <= j < i ==> slotframes[j].handle != h
    {
      r := None;
      if !locked {
        var i := 0;
        while i < |slotframes|
          invariant 0 <= i <= |slotframes|
          invariant forall j :: 0 <= j < i ==> slotframes[j].handle != h
        {
          if slotframes[i].handle == h {
            return Some(slotframes[i]);
          }
          i := i + 1;
        }
      }
    }

    /** tsch_schedule_get_link_by_handle: the first link with that handle, slotframe by slotframe. */
    method GetLinkByHandle(h: uint16) returns (r: Option<Link>)
      ensures locked ==> r == None
      ensures r.None? && !locked ==> forall i, l :: 0 <= i < |slotframes| && l in slotframes[i].links ==> l.handle != h
      ensures r.Some? ==> (r.value.handle == h &&
        exists i, k :: 0 <= i < |slotframes| && 0 <= k < |slotframes[i].links| && slotframes[i].links[k] == r.value &&
          (forall i', l :: 0 <= i' < i && l in slotframes[i'].links ==> l.handle != h) &&
          (forall k' :: 0 <= k' < k ==> slotframes[i].links[k'].handle != h))
    {
      r := None;
      if !locked {
        var i := 0;
        while i < |slotframes|
          invariant 0 <= i <= |slotframes|
          invariant forall i', l :: 0 <= i' < i && l in slotframes[i'].links ==> l.handle != h
        {
          var ls := slotframes[i].links;
          var k := 0;
          while k < |ls|
            invariant 0 <= k <= |ls|
            invariant forall k' :: 0 <= k' < k ==> ls[k'].handle != h
          {
            if ls[k].handle == h {
              return Some(ls[k]);
            }
            k := k + 1;
          }
          i := i + 1;
        }
      }
    }

    /** tsch_schedule_get_link_by_timeslot: the first link of the slotframe at the cell. */
    method GetLinkByTimeslot(sfh: Option<uint16>, timeslot: uint16, channelOffset: uint16) returns (r: Option<Link>)
      requires sfh.Some? ==> HasHandle(slotframes, sfh.value)
      ensures locked || sfh.None? ==> r == None
      ensures !locked && sfh.Some? ==>
        var ls := slotframes[IndexOf(slotframes, sfh.value)].links;
        (r.None? ==> forall l :: l in ls ==> !AtCell(l, timeslot, channelOffset)) &&
        (r.Some? ==> exists k :: 0 <= k < |ls| && ls[k] == r.value && AtCell(r.value, timeslot, channelOffset) &&
                       forall j :: 0 <= j < k ==> !AtCell(ls[j], timeslot, channelOffset))
    {
      r := None;
      if !locked && sfh.Some? {
        var ls := slotframes[IndexOf(slotframes, sfh.value)].links;
        var k := 0;
        while k < |ls|
          invariant 0 <= k <= |ls|
          invariant forall j :: 0 <= j < k ==> !AtCell(ls[j], timeslot, channelOffset)
        {
          if ls[k].timeslot == timeslot && ls[k].channelOffset == channelOffset {
            return Some(ls[k]);
          }
          k := k + 1;
        }
      }
    }

    /**
     * tsch_schedule_get_next_active_link, without the pending-schedule check
     * of the OST build: nothing while the lock is held elsewhere, else the
     * soonest link, its Rx backup and the number of timeslots until it.
     */
    method NextActiveLink(asn: Asn, queued: LinkAddr -> nat) returns (r: Option<Selection>)
      requires Valid()
      ensures Shaped(slotframes)
      ensures locked ==> r == None
      ensures !locked ==> r == Some(Fold(Candidates(slotframes, asn), queued))
    {
      InvariantShaped(slotframes, nextLinkHandle, nbrs, maxSlotframes, maxLinks, maxNbrs);
      if locked {
        return None;
      }
      var sel := SelectNextActiveLink(slotframes, asn, queued);
      r := Some(sel);
    }

    /** tsch_schedule_add_slotframe. */
    method AddSlotframe(handle: uint16, size: uint16) returns (sf: Option<Slotframe>)
      requires Valid()
      modifies this
      ensures Valid()
      ensures sf.Some? <==> size > 0 && !HasHandle(old(slotframes), handle) && !locked && |old(slotframes)| < maxSlotframes
      ensures sf.Some? ==> sf.value == Slotframe(handle, size, []) && slotframes == old(slotframes) + [sf.value]
      ensures sf.None? ==> slotframes == old(slotframes)
      ensures nbrs == old(nbrs) && nextLinkHandle == old(nextLinkHandle)
      ensures currentLink == old(currentLink) && locked == old(locked)
    {
      if size == 0 {
        return None;
      }
      var existing := GetSlotframeByHandle(handle);
      if existing.Some? {
        return None;
      }
      if locked || |slotframes| >= maxSlotframes {
        return None;
      }
      var created := Slotframe(handle, size, []);
      NewSlotframeKeepsInvariant(slotframes, created, nextLinkHandle, nbrs, maxSlotframes, maxLinks, maxNbrs);
      slotframes := slotframes + [created];
      sf := Some(created);
    }

    /** tsch_schedule_remove_link: the link leaves its slotframe and its neighbour's counters. */
    method RemoveLink(sfh: Option<uint16>, l: Option<Link>) returns (ok: bool)
      requires Valid()
      requires sfh.Some? ==> HasHandle(slotframes, sfh.value)
      requires l.Some? ==> InSchedule(slotframes, l.value)
      modifies this
      ensures Valid()
      ensures ok <==> sfh.Some? && l.Some? && l.value.slotframeHandle == sfh.value && !locked
      ensures ok ==>
        var i := IndexOf(old(slotframes), sfh.value);
        l.value in old(slotframes)[i].links &&
        slotframes == WithLinks(old(slotframes), i, Without(old(slotframes)[i].links, l.value)) &&
        currentLink == (if old(currentLink) == l then None else old(currentLink))
      ensures !ok ==> slotframes == old(slotframes) && currentLink == old(currentLink)
      ensures nbrs.Keys == old(nbrs).Keys && nextLinkHandle == old(nextLinkHandle) && locked == old(locked)
    {
      if sfh.None? || l.None? || l.value.slotframeHandle != sfh.value || locked {
        return false;
      }
      var link := l.value;
      var i := IndexOf(slotframes, sfh.value);
      LocateLink(slotframes, nextLinkHandle, link);
      if currentLink == l {
        currentLink := None;
      }
      RemovalKeepsInvariant(slotframes, i, link, nextLinkHandle, nbrs, maxSlotframes, maxLinks, maxNbrs);
      slotframes := WithLinks(slotframes, i, Without(slotframes[i].links, link));
      nbrs := AfterLinkRemoved(nbrs, link);
      ok := true;
    }

    /**
     * tsch_schedule_remove_link_by_timeslot: every link of the slotframe at the
     * cell is removed; the result says whether any was.
     */
    method RemoveLinkByTimeslot(sfh: Option<uint16>, timeslot: uint16, channelOffset: uint16) returns (ok: bool)
      requires Valid()
      requires sfh.Some? ==> HasHandle(slotframes, sfh.value)
      modifies this
      ensures Valid()
      ensures locked || sfh.None? ==> !ok && slotframes == old(slotframes) && currentLink == old(currentLink)
      ensures !locked && sfh.Some? ==>
        var i := IndexOf(old(slotframes), sfh.value);
        var ls := old(slotframes)[i].links;
        slotframes == Cleared(old(slotframes), i, timeslot, channelOffset) &&
        (ok <==> AtCellOf(ls, timeslot, channelOffset) != []) &&
        currentLink == (if old(currentLink).Some? && old(currentLink).value in AtCellOf(ls, timeslot, channelOffset)
                        then None else old(currentLink))
      ensures nbrs.Keys == old(nbrs).Keys && nextLinkHandle == old(nextLinkHandle) && locked == old(locked)
    {
      ok := false;
      if locked || sfh.None? {
        return;
      }
      var i := IndexOf(slotframes, sfh.value);
      var ls := slotframes[i].links;
      ghost var sfs0 := slotframes;
      ghost var cur0 := currentLink;
      ClearStart(sfs0, i, timeslot, channelOffset);
      var k := 0;
      while k < |ls|
        invariant 0 <= k <= |ls|
        invariant Valid() && !locked && |slotframes| == |sfs0| && nbrs.Keys == old(nbrs).Keys
        invariant nextLinkHandle == old(nextLinkHandle)
        invariant slotframes == WithLinks(sfs0, i, ClearCell(ls[..k], timeslot, channelOffset) + ls[k..])
        invariant ok <==> AtCellOf(ls[..k], timeslot, channelOffset) != []
        invariant currentLink == (if cur0.Some? && cur0.value in AtCellOf(ls[..k], timeslot, channelOffset)
                                  then None else cur0)
      {
        ClearStep(ls, k, timeslot, channelOffset);
        if ls[k].timeslot == timeslot && ls[k].channelOffset == channelOffset {
          WithLinksKeepsIndex(sfs0, i, ClearCell(ls[..k], timeslot, channelOffset) + ls[k..]);
          var removed := RemoveLink(sfh, Some(ls[k]));
          WithLinksTwice(sfs0, i, ClearCell(ls[..k], timeslot, channelOffset) + ls[k..],
                         ClearCell(ls[..k + 1], timeslot, channelOffset) + ls[k + 1..]);
          ok := true;
        }
        k := k + 1;
      }
      ClearEnd(ls, timeslot, channelOffset);
    }

    /**
     * The allocation step of tsch_schedule_add_link: when the link pool has
     * room, the new link takes the counter's value as its (16-bit) handle, a
     * missing address becomes linkaddr_null, the link joins slotframe i and a
     * Tx link is counted at its neighbour.
     */
    method AllocateLink(i: nat, options: LinkOptions, linkType: LinkType, address: Option<LinkAddr>,
                        timeslot: uint16, channelOffset: uint16) returns (l: Option<Link>)
      requires Valid()
      requires i < |slotframes| && timeslot < slotframes[i].size
      modifies this
      ensures Valid()
      ensures l.Some? <==> Count(old(slotframes), AnyLink) < maxLinks
      ensures l.None? ==> slotframes == old(slotframes) && nextLinkHandle == old(nextLinkHandle) && nbrs == old(nbrs)
      ensures l.Some? ==>
        l.value == Link(old(nextLinkHandle) % 0x1_0000, options, linkType, old(slotframes)[i].handle,
                        timeslot, channelOffset, if address.None? then NullAddr else address.value) &&
        slotframes == WithLinks(old(slotframes), i, old(slotframes)[i].links + [l.value]) &&
        nextLinkHandle == old(nextLinkHandle) + 1 &&
        old(nbrs).Keys <= nbrs.Keys &&
        (l.value.options.tx ==> nbrs.Keys <= old(nbrs).Keys + {l.value.addr}) &&
        (!l.value.options.tx ==> nbrs == old(nbrs))
      ensures currentLink == old(currentLink) && locked == old(locked)
    {
      if Count(slotframes, AnyLink) >= maxLinks {
        return None;
      }
      var addr := if address.None? then NullAddr else address.value;
      var link := Link(nextLinkHandle % 0x1_0000, options, linkType, slotframes[i].handle, timeslot, channelOffset, addr);
      AdditionKeepsInvariant(slotframes, i, link, nextLinkHandle, nbrs, maxSlotframes, maxLinks, maxNbrs);
      slotframes := WithLinks(slotframes, i, slotframes[i].links + [link]);
      nextLinkHandle := nextLinkHandle + 1;
      nbrs := AfterLinkAdded(nbrs, link, maxNbrs);
      l := Some(link);
    }

    /**
     * The body of tsch_schedule_add_link once the arguments are accepted: with
     * doRemove the cell is cleared first, then the link is allocated.
     */
    method AddLinkAt(i: nat, options: LinkOptions, linkType: LinkType, address: Option<LinkAddr>,
                     timeslot: uint16, channelOffset: uint16, doRemove: bool) returns (l: Option<Link>)
      requires Valid() && !locked
      requires i < |slotframes| && timeslot < slotframes[i].size
      modifies this
      ensures Valid()
      ensures var mid := if doRemove then Cleared(old(slotframes), i, timeslot, channelOffset) else old(slotframes);
        (l.Some? <==> Count(mid, AnyLink) < maxLinks) &&
        (l.None? ==> slotframes == mid) &&
        (l.Some? ==> l.value == Link(old(nextLinkHandle) % 0x1_0000, options, linkType, old(slotframes)[i].handle,
                                     timeslot, channelOffset, if address.None? then NullAddr else address.value) &&
                     slotframes == WithLinks(mid, i, mid[i].links + [l.value]))
      ensures l.Some? && doRemove ==> AtCellOf(slotframes[i].links, timeslot, channelOffset) == [l.value]
      ensures l.Some? && old(nextLinkHandle) < 0x1_0000 ==>
        forall x :: InSchedule(old(slotframes), x) ==> x.handle < l.value.handle
      ensures nextLinkHandle == if l.Some? then old(nextLinkHandle) + 1 else old(nextLinkHandle)
      ensures currentLink == (if doRemove && old(currentLink).Some? &&
                                 old(currentLink).value in AtCellOf(old(slotframes)[i].links, timeslot, channelOffset)
                              then None else old(currentLink))
      ensures old(nbrs).Keys <= nbrs.Keys && !locked
      ensures l.Some? && l.value.options.tx ==> nbrs.Keys <= old(nbrs).Keys + {l.value.addr}
      ensures l.None? || !l.value.options.tx ==> nbrs.Keys == old(nbrs).Keys
    {
      ghost var sfs0 := slotframes;
      var sfh := slotframes[i].handle;
      if doRemove {
        assert HasHandle(slotframes, sfh) && IndexOf(slotframes, sfh) == i;
        var _ := RemoveLinkByTimeslot(Some(sfh), timeslot, channelOffset);
      }
      assert slotframes == if doRemove then Cleared(sfs0, i, timeslot, channelOffset) else sfs0;
      HandlesBelow(sfs0, nextLinkHandle);
      if doRemove {
        ClearCellEmptiesCell(sfs0[i].links, timeslot, channelOffset);
      }
      l := AllocateLink(i, options, linkType, address, timeslot, channelOffset);
      if l.Some? {
        HandleBelowWrap(old(nextLinkHandle));
        if doRemove {
          AppendAtCell(Cleared(sfs0, i, timeslot, channelOffset)[i].links, l.value);
        }
      }
    }

    /**
     * tsch_schedule_add_link: rejects a missing slotframe, a timeslot beyond
     * the slotframe, a channel offset above 15 under ALICE, and a held lock;
     * otherwise as AddLinkAt on the slotframe's place in the list.
     */
    method AddLink(sfh: Option<uint16>, options: LinkOptions, linkType: LinkType, address: Option<LinkAddr>,
                   timeslot: uint16, channelOffset: uint16, doRemove: bool) returns (l: Option<Link>)
      requires Valid()
      requires sfh.Some? ==> HasHandle(slotframes, sfh.value)
      modifies this
      ensures Valid()
      ensures sfh.None? || timeslot >= old(slotframes)[IndexOf(old(slotframes), sfh.value)].size ||
              (alice && channelOffset > 15) || locked ==>
        l == None && slotframes == old(slotframes) && currentLink == old(currentLink) && nbrs == old(nbrs)
      ensures sfh.Some? && timeslot < old(slotframes)[IndexOf(old(slotframes), sfh.value)].size &&
              !(alice && channelOffset > 15) && !locked ==>
        var i := IndexOf(old(slotframes), sfh.value);
        var mid := if doRemove then Cleared(old(slotframes), i, timeslot, channelOffset) else old(slotframes);
        (l.Some? <==> Count(mid, AnyLink) < maxLinks) &&
        (l.None? ==> slotframes == mid) &&
        (l.Some? ==> l.value == Link(old(nextLinkHandle) % 0x1_0000, options, linkType, sfh.value, timeslot, channelOffset,
                                     if address.None? then NullAddr else address.value) &&
                     slotframes == WithLinks(mid, i, mid[i].links + [l.value]) &&
                     (doRemove ==> AtCellOf(slotframes[i].links, timeslot, channelOffset) == [l.value]))
      ensures l.Some? && old(nextLinkHandle) < 0x1_0000 ==>
        forall x :: InSchedule(old(slotframes), x) ==> x.handle < l.value.handle
      ensures nextLinkHandle == if l.Some? then old(nextLinkHandle) + 1 else old(nextLinkHandle)
      ensures sfh.Some? && timeslot < old(slotframes)[IndexOf(old(slotframes), sfh.value)].size &&
              !(alice && channelOffset > 15) && !locked ==>
        currentLink == (if doRemove && old(currentLink).Some? &&
                           old(currentLink).value in AtCellOf(old(slotframes)[IndexOf(old(slotframes), sfh.value)].links,
                                                              timeslot, channelOffset)
                        then None else old(currentLink))
      ensures old(nbrs).Keys <= nbrs.Keys && locked == old(locked)
      ensures l.Some? && l.value.options.tx ==> nbrs.Keys <= old(nbrs).Keys + {l.value.addr}
      ensures l.None? || !l.value.options.tx ==> nbrs.Keys == old(nbrs).Keys
    {
      if sfh.None? {
        return None;
      }
      var i := IndexOf(slotframes, sfh.value);
      if timeslot > slotframes[i].size - 1 {
        return None;
      }
      if alice && channelOffset > 15 {
        return None;
      }
      if locked {
        return None;
      }
      l := AddLinkAt(i, options, linkType, address, timeslot, channelOffset, doRemove);
    }

    /**
     * tsch_schedule_remove_slotframe: all its links go first (one by one, from
     * the head of the list), then the slotframe itself.
     */
    method RemoveSlotframe(sfh: Option<uint16>) returns (ok: bool)
      requires Valid()
      requires sfh.Some? ==> HasHandle(slotframes, sfh.value)
      modifies this
      ensures Valid()
      ensures ok <==> sfh.Some? && !locked
      ensures ok ==>
        var i := IndexOf(old(slotframes), sfh.value);
        slotframes == Dropped(old(slotframes), i) &&
        currentLink == (if old(currentLink).Some? && old(currentLink).value in old(slotframes)[i].links
                        then None else old(currentLink))
      ensures !ok ==> slotframes == old(slotframes) && currentLink == old(currentLink)
      ensures nbrs.Keys == old(nbrs).Keys && nextLinkHandle == old(nextLinkHandle) && locked == old(locked)
    {
      if sfh.None? || locked {
        return false;
      }
      var i := IndexOf(slotframes, sfh.value);
      ghost var sfs0 := slotframes;
      ghost var cur0 := currentLink;
      ghost var all := slotframes[i].links;
      ghost var gone: seq<Link> := [];
      WithLinksTwice(sfs0, i, all, all);
      while slotframes[i].links != []
        invariant |slotframes| == |sfs0|
        invariant Valid() && !locked && nbrs.Keys == old(nbrs).Keys && nextLinkHandle == old(nextLinkHandle)
        invariant slotframes == WithLinks(sfs0, i, slotframes[i].links)
        invariant all == gone + slotframes[i].links
        invariant currentLink == (if cur0.Some? && cur0.value in gone then None else cur0)
        decreases |slotframes[i].links|
      {
        var rest := slotframes[i].links;
        var head := rest[0];
        WithLinksKeepsIndex(sfs0, i, rest);
        WithoutHead(rest);
        var removed := RemoveLink(sfh, Some(head));
        WithLinksTwice(sfs0, i, rest, rest[1..]);
        MoveHead(gone, rest);
        gone := gone + [head];
      }
      assert gone == all;
      DropEmptySlotframe(slotframes, i, nextLinkHandle, nbrs, maxSlotframes, maxLinks, maxNbrs);
      slotframes := Dropped(slotframes, i);
      assert slotframes == Dropped(sfs0, i);
      ok := true;
    }

    /** One round of tsch_schedule_remove_all_slotframes: the head slotframe goes. */
    method RemoveHeadSlotframe() returns (ok: bool)
      requires Valid() && slotframes != []
      modifies this
      ensures Valid()
      ensures ok <==> !locked
      ensures ok ==> (slotframes == old(slotframes)[1..] &&
        currentLink == (if old(currentLink).Some? && old(currentLink).value in old(slotframes)[0].links
                        then None else old(currentLink)))
      ensures !ok ==> slotframes == old(slotframes) && currentLink == old(currentLink)
      ensures nbrs.Keys == old(nbrs).Keys && nextLinkHandle == old(nextLinkHandle) && locked == old(locked)
    {
      assert HasHandle(slotframes, slotframes[0].handle);
      assert IndexOf(slotframes, slotframes[0].handle) == 0;
      DroppedFirst(slotframes);
      ok := RemoveSlotframe(Some(slotframes[0].handle));
    }

    /** tsch_schedule_remove_all_slotframes: removes slotframes from the head until none is left. */
    method RemoveAllSlotframes() returns (ok: bool)
      requires Valid()
      modifies this
      ensures Valid()
      ensures ok <==> !locked || old(slotframes) == []
      ensures ok ==> slotframes == []
      ensures ok && old(currentLink).Some? && InSchedule(old(slotframes), old(currentLink).value) ==> currentLink == None
      ensures ok && (old(currentLink).None? || !InSchedule(old(slotframes), old(currentLink).value)) ==>
        currentLink == old(currentLink)
      ensures !ok ==> slotframes == old(slotframes) && currentLink == old(currentLink)
      ensures nbrs.Keys == old(nbrs).Keys && nextLinkHandle == old(nextLinkHandle) && locked == old(locked)
    {
      ghost var sfs0 := slotframes;
      ghost var cur0 := currentLink;
      ghost var done: seq<Slotframe> := [];
      while slotframes != []
        invariant Valid() && nbrs.Keys == old(nbrs).Keys && nextLinkHandle == old(nextLinkHandle)
        invariant locked == old(locked)
        invariant sfs0 == done + slotframes
        invariant locked ==> done == []
        invariant currentLink == (if cur0.Some? && InSchedule(done, cur0.value) then None else cur0)
        decreases |slotframes|
      {
        ghost var rest := slotframes;
        var removed := RemoveHeadSlotframe();
        if !removed {
          return false;
        }
        MoveHead(done, rest);
        if cur0.Some? {
          InScheduleSnoc(done, rest[0], cur0.value);
        }
        done := done + [rest[0]];
      }
      assert done == sfs0;
      ok := true;
    }

    /**
     * tsch_schedule_create_minimal: empty the schedule, then one slotframe 0 of
     * the default length holding one Tx|Rx|Shared|TimeKeeping advertising link
     * to the broadcast address at cell (0, 0).
     */
    method CreateMinimal()
      requires Valid()
      modifies this
      ensures Valid()
      ensures !locked && maxSlotframes >= 1 && maxLinks >= 1 ==>
        slotframes == [Slotframe(0, TSCH_SCHEDULE_DEFAULT_LENGTH,
          [Link(old(nextLinkHandle) % 0x1_0000, MinimalOptions, Advertising, 0, 0, 0, BroadcastAddr)])]
      ensures !locked && maxSlotframes >= 1 && maxLinks >= 1 ==> nextLinkHandle == old(nextLinkHandle) + 1
      ensures !locked ==>
        currentLink == (if old(currentLink).Some? && InSchedule(old(slotframes), old(currentLink).value)
                        then None else old(currentLink))
      ensures locked ==> (slotframes == old(slotframes) && currentLink == old(currentLink) &&
                          nextLinkHandle == old(nextLinkHandle))
      ensures locked == old(locked)
    {
      var removed := RemoveAllSlotframes();
      var sf := AddSlotframe(0, TSCH_SCHEDULE_DEFAULT_LENGTH);
      var handle := if sf.Some? then Some(sf.value.handle) else None;
      if handle.Some? {
        assert slotframes[|slotframes| - 1].handle == 0;
      }
      var l := AddLink(handle, MinimalOptions, Advertising, Some(BroadcastAddr), 0, 0, true);
    }
  }
}
