/**
 * The rule dispatch of the Orchestra scheduler (os/services/orchestra/orchestra.c)
 * and its parent-knows-us flag.
 *
 * The rules themselves (ORCHESTRA_RULES) are not part of this model: a rule
 * is the set of callbacks it provides, and its select_packet is a function of
 * the (slotframe, timeslot, channel offset) values it is handed for the
 * current packet. Calls into rule callbacks other than select_packet are
 * recorded in a call log, in the order they are made.
 */
module Orchestra {
  import opened Wrappers
  import opened TschTypes
  import opened TschState

  /** The out-parameters of select_packet: slotframe handle, timeslot and channel offset. */
  datatype Cell = Cell(slotframe: uint16, timeslot: uint16, channelOffset: uint16)

  /** "Any slotframe, any timeslot, the link's own channel offset". */
  const DefaultCell: Cell := Cell(0xffff, 0xffff, 0xffff)

  /** What a rule's select_packet does with the current packet: whether it takes it, and the values it leaves. */
  type Selector = Cell -> (bool, Cell)

  /** The callbacks a rule provides (None for a NULL member). */
  datatype Rule = Rule(
    select: Option<Selector>,
    hasInit: bool,
    hasNewTimeSource: bool,
    hasChildAdded: bool,
    hasChildRemoved: bool)

  /** One call into a rule callback. */
  datatype Call =
    | InitCall(rule: nat)
    | NewTimeSourceCall(rule: nat, oldSource: Option<LinkAddr>, newSource: Option<LinkAddr>)
    | ChildAddedCall(rule: nat, child: LinkAddr)
    | ChildRemovedCall(rule: nat, child: LinkAddr)

  /** The events orchestra.c forwards to the rules. */
  datatype Event = OnInit | OnNewTimeSource(oldSource: Option<LinkAddr>, newSource: Option<LinkAddr>) | OnChildAdded(child: LinkAddr) | OnChildRemoved(child: LinkAddr)

  predicate Handles(r: Rule, e: Event) {
    match e
    case OnInit => r.hasInit
    case OnNewTimeSource(_, _) => r.hasNewTimeSource
    case OnChildAdded(_) => r.hasChildAdded
    case OnChildRemoved(_) => r.hasChildRemoved
  }

  function CallFor(i: nat, e: Event): (c: Call)
    ensures c.rule == i
  {
    match e
    case OnInit => InitCall(i)
    case OnNewTimeSource(o, n) => NewTimeSourceCall(i, o, n)
    case OnChildAdded(a) => ChildAddedCall(i, a)
    case OnChildRemoved(a) => ChildRemovedCall(i, a)
  }

  /** The calls a loop over rules[..n] makes for an event: one per rule with that callback, in rule order. */
  function Notified(rules: seq<Rule>, n: nat, e: Event): seq<Call>
    requires n <= |rules|
  {
    if n == 0 then []
    else Notified(rules, n - 1, e) + (if Handles(rules[n - 1], e) then [CallFor(n - 1, e)] else [])
  }

  /**
   * Each rule with the callback is called exactly once and the others never,
   * in increasing rule order, and every call is for this event.
   */
  lemma {:induction false} NotifiedOncePerRule(rules: seq<Rule>, n: nat, e: Event)
    requires n <= |rules|
    ensures forall c :: c in Notified(rules, n, e) ==> c.rule < n && Handles(rules[c.rule], e) && c == CallFor(c.rule, e)
    ensures forall i :: 0 <= i < n && Handles(rules[i], e) ==> CallFor(i, e) in Notified(rules, n, e)
    ensures forall j, k :: 0 <= j < k < |Notified(rules, n, e)| ==> Notified(rules, n, e)[j].rule < Notified(rules, n, e)[k].rule
  {
    if n > 0 {
      NotifiedOncePerRule(rules, n - 1, e);
    }
  }

  /**
   * The first-match search of orchestra_callback_packet_ready over
   * rules[i..], with the out-values as the previous selectors left them:
   * the index of the first rule whose select_packet takes the packet (-1 if
   * none) and the final values.
   */
  function Dispatch(rules: seq<Rule>, i: nat, cell: Cell): (r: (int, Cell))
    requires i <= |rules|
    decreases |rules| - i
  {
    if i == |rules| then (-1, cell)
    else if rules[i].select.None? then Dispatch(rules, i + 1, cell)
    else
      var (taken, next) := rules[i].select.value(cell);
      if taken then (i, next) else Dispatch(rules, i + 1, next)
  }

  /** The values rules[..i] leave when none of them takes the packet. */
  function PassedOver(rules: seq<Rule>, i: nat, cell: Cell): Cell
    requires i <= |rules|
  {
    if i == 0 then cell
    else
      var c := PassedOver(rules, i - 1, cell);
      if rules[i - 1].select.None? then c else rules[i - 1].select.value(c).1
  }

  /** Whether rule i takes the packet after rules[..i] passed it over. */
  predicate Takes(rules: seq<Rule>, i: nat, cell: Cell)
    requires i < |rules|
  {
    rules[i].select.Some? && rules[i].select.value(PassedOver(rules, i, cell)).0
  }

  /**
   * Dispatch returns the first rule with a select_packet that takes the
   * packet, and -1 exactly when no such rule exists.
   */
  lemma {:induction false} DispatchIsFirstMatch(rules: seq<Rule>, i: nat, cell: Cell)
    requires i <= |rules|
    requires forall j :: 0 <= j < i ==> !Takes(rules, j, cell)
    ensures var (m, _) := Dispatch(rules, i, PassedOver(rules, i, cell));
      (m == -1 <==> forall j :: i <= j < |rules| ==> !Takes(rules, j, cell)) &&
      (m != -1 ==> i <= m < |rules| && Takes(rules, m, cell) && forall j :: i <= j < m ==> !Takes(rules, j, cell))
    decreases |rules| - i
  {
    if i < |rules| {
      if !Takes(rules, i, cell) {
        DispatchIsFirstMatch(rules, i + 1, cell);
      }
    }
  }

  /** When every selector leaves the values it does not take alone, an unmatched packet keeps the 0xffff defaults. */
  lemma {:induction false} UnmatchedKeepsDefaults(rules: seq<Rule>, i: nat)
    requires i <= |rules|
    requires forall j :: 0 <= j < |rules| && rules[j].select.Some? ==>
      var (taken, next) := rules[j].select.value(DefaultCell); !taken ==> next == DefaultCell
    ensures Dispatch(rules, i, DefaultCell).0 == -1 ==> Dispatch(rules, i, DefaultCell).1 == DefaultCell
    decreases |rules| - i
  {
    if i < |rules| {
      UnmatchedKeepsDefaults(rules, i + 1);
    }
  }

  /** Values of the packetbuf attributes orchestra_packet_sent inspects. */
  datatype SentPacket = SentPacket(networkId: nat, channel: nat, receiver: LinkAddr, noPathDao: bool)

  /** UIP_PROTO_ICMP6: the ICMPv6 next-header value. */
  const PROTO_ICMP6: nat := 58
  /** ICMP6_RPL << 8 | RPL_CODE_DAO: ICMPv6 type 155, code 0x02 (a DAO, section 6 of RFC 6550). */
  const RPL_DAO_CHANNEL: nat := 155 * 256 + 2

  /**
   * Whether a transmission tells us our parent now knows us: a DAO, acked,
   * sent to the non-null preferred parent (and, with
   * HCK_MOD_NO_PATH_DAO_FOR_ORCHESTRA_PARENT, not a No-Path DAO).
   */
  predicate ParentAckedDao(parent: LinkAddr, status: MacTxStatus, p: SentPacket, noPathMod: bool) {
    status == TxOk && p.networkId == PROTO_ICMP6 && p.channel == RPL_DAO_CHANNEL &&
    (noPathMod ==> !p.noPathDao) &&
    parent != NullAddr && parent == p.receiver
  }

  /** The rule state and the parent-knows-us flag of orchestra.c. */
  class Dispatcher {
    const rules: seq<Rule>
    /** orchestra_parent_linkaddr; written by the RPL parent-switch callback, which is not part of this model. */
    var parentAddr: LinkAddr
    var parentKnowsUs: bool
    /** The calls made into rule callbacks so far. */
    var calls: seq<Call>

    /** The statically initialised flag followed by orchestra_init. */
    constructor (rules: seq<Rule>)
      ensures this.rules == rules && parentAddr == NullAddr && !parentKnowsUs
      ensures calls == Notified(rules, |rules|, OnInit)
    {
      this.rules := rules;
      parentKnowsUs := false;
      parentAddr := NullAddr;
      calls := [];
      new;
      Notify(OnInit);
    }

    /** The loop over all rules that calls each non-NULL callback for an event. */
    method Notify(e: Event)
      modifies this
      ensures calls == old(calls) + Notified(rules, |rules|, e)
      ensures parentAddr == old(parentAddr) && parentKnowsUs == old(parentKnowsUs)
    {
      var i := 0;
      while i < |rules|
        invariant 0 <= i <= |rules|
        invariant calls == old(calls) + Notified(rules, i, e)
        invariant parentAddr == old(parentAddr) && parentKnowsUs == old(parentKnowsUs)
      {
        if Handles(rules[i], e) {
          calls := calls + [CallFor(i, e)];
        }
        i := i + 1;
      }
    }

    /** orchestra_callback_child_added. */
    method ChildAdded(child: LinkAddr)
      modifies this
      ensures calls == old(calls) + Notified(rules, |rules|, OnChildAdded(child))
      ensures parentAddr == old(parentAddr) && parentKnowsUs == old(parentKnowsUs)
    {
      Notify(OnChildAdded(child));
    }

    /** orchestra_callback_child_removed. */
    method ChildRemoved(child: LinkAddr)
      modifies this
      ensures calls == old(calls) + Notified(rules, |rules|, OnChildRemoved(child))
      ensures parentAddr == old(parentAddr) && parentKnowsUs == old(parentKnowsUs)
    {
      Notify(OnChildRemoved(child));
    }

    /**
     * orchestra_callback_new_time_source: a different time source clears
     * the flag; the rules hear about it either way.
     */
    method NewTimeSource(oldSource: Option<LinkAddr>, newSource: Option<LinkAddr>)
      modifies this
      ensures parentKnowsUs == (old(parentKnowsUs) && newSource == oldSource)
      ensures parentAddr == old(parentAddr)
      ensures calls == old(calls) + Notified(rules, |rules|, OnNewTimeSource(oldSource, newSource))
    {
      if newSource != oldSource {
        parentKnowsUs := false;
      }
      Notify(OnNewTimeSource(oldSource, newSource));
    }

    /** orchestra_packet_sent: set the flag on an acked DAO to the parent; never clear it. */
    method PacketSent(status: MacTxStatus, p: SentPacket, noPathMod: bool)
      modifies this
      ensures parentKnowsUs == (old(parentKnowsUs) || ParentAckedDao(parentAddr, status, p, noPathMod))
      ensures parentAddr == old(parentAddr) && calls == old(calls)
    {
      if !parentKnowsUs && status == TxOk && p.networkId == PROTO_ICMP6 && p.channel == RPL_DAO_CHANNEL {
        if !noPathMod || !p.noPathDao {
          if parentAddr != NullAddr && parentAddr == p.receiver {
            parentKnowsUs := true;
          }
        }
      }
    }

    /**
     * orchestra_callback_packet_ready: run the rules' select_packet in order
     * from the 0xffff defaults and stop at the first that takes the packet.
     */
    method PacketReady() returns (matched: int, cell: Cell)
      ensures (matched, cell) == Dispatch(rules, 0, DefaultCell)
    {
      cell := DefaultCell;
      matched := -1;
      var i := 0;
      while i < |rules|
        invariant 0 <= i <= |rules|
        invariant Dispatch(rules, i, cell) == Dispatch(rules, 0, DefaultCell)
      {
        if rules[i].select.Some? {
          var (taken, next) := rules[i].select.value(cell);
          cell := next;
          if taken {
            matched := i;
            return;
          }
        }
        i := i + 1;
      }
    }
  }

  /** The rule PacketReady reports is the first whose select_packet takes the packet; -1 when none does. */
  lemma PacketReadyIsFirstMatch(rules: seq<Rule>)
    ensures var (m, _) := Dispatch(rules, 0, DefaultCell);
      (m == -1 <==> forall j :: 0 <= j < |rules| ==> !Takes(rules, j, DefaultCell)) &&
      (m != -1 ==> 0 <= m < |rules| && Takes(rules, m, DefaultCell) && forall j :: 0 <= j < m ==> !Takes(rules, j, DefaultCell))
  {
    DispatchIsFirstMatch(rules, 0, DefaultCell);
  }
}
