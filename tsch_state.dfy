/**
 * The association and keep-alive logic of the TSCH MAC
 * (os/net/mac/tsch/tsch.c): joining a network from an enhanced beacon (EB),
 * following the time source's EBs, leaving and resetting, re-synchronising
 * after a lost keep-alive, the keep-alive and EB timers, and the unicast MAC
 * sequence number of send_packet.
 *
 * Each operation is a method of TschMac that updates the MAC's fields and is
 * specified by a function on a snapshot of those fields (MacState); the
 * properties that relate several calls are lemmas about those functions.
 * Timers are recorded as the delay they were armed with, process polls as
 * flags, keep-alives handed to the MAC as the list of their destinations;
 * random_rand() is a parameter. The EB itself arrives already parsed.
 */
module TschState {
  import opened Wrappers
  import opened TschTypes

  /**
   * Build-time constants of tsch-conf.h (not part of this model). Contiki-NG's
   * defaults are a maximum join priority of 32, a 16-byte hopping-sequence
   * buffer, 4 links in an EB's slotframe-and-link IE, the 4-channel sequence
   * 15, 25, 26, 20, joining only our own PAN, an EB period of 16 s and a
   * keep-alive timeout (TSCH_KEEPALIVE_TIMEOUT) of 12 s.
   */
  datatype Config = Config(
    maxJoinPriority: nat,
    hoppingSequenceMaxLen: nat,
    ieMaxLinks: nat,
    defaultHoppingSequence: seq<uint8>,
    panId: uint16,
    joinMyPanIdOnly: bool,
    defaultEbPeriod: nat,
    maxEbPeriod: nat,
    defaultTiming: seq<nat>,
    keepaliveTimeout: nat)

  /** What tsch_init checks of the configuration before starting: the default hopping sequence fits its buffer. */
  predicate ConfigOk(cfg: Config) {
    |cfg.defaultHoppingSequence| <= cfg.hoppingSequenceMaxLen
  }

  datatype KeepaliveStatus = Unchanged | ScheduleOrStop | SendImmediately

  /** keepalive_timer: stopped, or armed with a delay in clock ticks. */
  datatype KaTimer = Stopped | Armed(delay: nat)

  /** The MAC_TX_* status codes a transmission ends with. */
  datatype MacTxStatus = TxOk | TxCollision | TxNoAck | TxDeferred | TxErr | TxErrFatal

  /** The parts of a parsed EB header that association uses. */
  datatype EbFrame = EbFrame(src: LinkAddr, srcPanId: uint16, securityEnabled: bool)

  /** The parts of a parsed EB's information elements that association uses. */
  datatype EbIes = EbIes(
    asn: Asn,
    joinPriority: uint8,
    timeslotId: uint8,
    timeslotTiming: seq<nat>,
    hoppingSequenceId: uint8,
    hoppingSequence: seq<uint8>,
    numSlotframes: nat,
    numLinks: nat)

  datatype ParsedEb = ParsedEb(frame: EbFrame, ies: EbIes)

  /** What send_packet did with an outgoing packet (before framing and queueing). */
  datatype SendOutcome = NotAssociated | Unicast(seqno: uint8) | Broadcast

  /**
   * The global variables of the MAC that the operations below read and write,
   * apart from the timing table. locked is tsch_is_locked(): the slot
   * operation and schedule updates take the lock, none of the operations here.
   */
  datatype MacState = MacState(
    isCoordinator: bool,
    associated: bool,
    panSecured: bool,
    panId: uint16,
    joinPriority: uint8,
    asn: Asn,
    currentLink: Option<Link>,
    timeSource: Option<LinkAddr>,
    lastEbNbr: LinkAddr,
    lastEbJp: uint8,
    keepaliveStatus: KeepaliveStatus,
    kaTimer: KaTimer,
    kaTimeout: nat,
    kaSent: seq<LinkAddr>,
    kaTxCount: nat,
    ebPeriod: nat,
    hoppingSequence: seq<uint8>,
    syncCount: nat,
    txCount: nat,
    rxCount: nat,
    minDrift: int,
    maxDrift: int,
    packetSeqno: uint8,
    associationCount: nat,
    eventsPolled: bool,
    mainPolled: bool,
    locked: bool)

  /** tsch_schedule_keepalive: an immediate request always wins; a normal one never downgrades an immediate one. */
  function KeepaliveScheduled(s: MacState, immediate: bool): (r: MacState)
    ensures immediate ==> r.keepaliveStatus == SendImmediately
    ensures s.keepaliveStatus == SendImmediately ==> r.keepaliveStatus == SendImmediately
    ensures !immediate && s.keepaliveStatus != SendImmediately ==> r.keepaliveStatus == ScheduleOrStop
    ensures r.eventsPolled
  {
    var status :=
      if immediate then SendImmediately
      else if s.keepaliveStatus != SendImmediately then ScheduleOrStop
      else s.keepaliveStatus;
    s.(keepaliveStatus := status, eventsPolled := true)
  }

  /** A series of keep-alive requests, oldest first. */
  function KeepaliveRequests(s: MacState, requests: seq<bool>): MacState {
    if requests == [] then s
    else KeepaliveScheduled(KeepaliveRequests(s, requests[..|requests| - 1]), requests[|requests| - 1])
  }

  /** After any non-empty series of requests, a keep-alive is pending, and it is immediate iff one was ever asked for. */
  lemma {:induction false} ImmediateRequestSticks(s: MacState, requests: seq<bool>)
    requires |requests| > 0
    ensures KeepaliveRequests(s, requests).keepaliveStatus ==
      if true in requests || s.keepaliveStatus == SendImmediately then SendImmediately else ScheduleOrStop
  {
    var init := requests[..|requests| - 1];
    assert requests == init + [requests[|requests| - 1]];
    if |init| > 0 {
      ImmediateRequestSticks(s, init);
    }
  }

  /** The keep-alive delay: in [t - t/10, t - 1] for a timeout t of at least 10 ticks, t - 1 below that. */
  function KaDelay(timeout: nat, rand: uint16): (d: nat)
    requires timeout > 0
    ensures timeout >= 10 ==> timeout - timeout / 10 <= d <= timeout - 1
    ensures timeout < 10 ==> d == timeout - 1
  {
    if timeout >= 10 then (timeout - timeout / 10) + rand % (timeout / 10) else timeout - 1
  }

  /** keepalive_send: the timer stops; an associated node with a time source sends it a keep-alive. */
  function KeepaliveSent(s: MacState): (r: MacState)
    ensures r.kaTimer == Stopped
    ensures s.associated && s.timeSource.Some? ==> r.kaSent == s.kaSent + [s.timeSource.value]
    ensures !(s.associated && s.timeSource.Some?) ==> r.kaSent == s.kaSent
    ensures r == s.(kaTimer := Stopped, kaSent := r.kaSent)
  {
    var sent := if s.associated && s.timeSource.Some? then s.kaSent + [s.timeSource.value] else s.kaSent;
    s.(kaTimer := Stopped, kaSent := sent)
  }

  /**
   * tsch_keepalive_process_pending: a pending status is consumed; only an
   * associated non-coordinator sends (immediately) or arms the timer (with the
   * keep-alive delay, or stops it for a zero timeout); otherwise the timer
   * stops.
   */
  function KeepaliveProcessed(s: MacState, rand: uint16): (r: MacState)
    ensures r.keepaliveStatus == Unchanged
    ensures s.keepaliveStatus == Unchanged ==> r == s
    ensures |r.kaSent| != |s.kaSent| <==>
      s.keepaliveStatus == SendImmediately && !s.isCoordinator && s.associated && s.timeSource.Some?
    ensures s.keepaliveStatus != Unchanged && r.kaTimer.Armed? ==>
      s.keepaliveStatus == ScheduleOrStop && !s.isCoordinator && s.associated && s.kaTimeout > 0 &&
      (s.kaTimeout >= 10 ==> s.kaTimeout - s.kaTimeout / 10 <= r.kaTimer.delay < s.kaTimeout) &&
      (s.kaTimeout < 10 ==> r.kaTimer.delay == s.kaTimeout - 1)
    ensures r.associated == s.associated && r.timeSource == s.timeSource && r.kaTimeout == s.kaTimeout
  {
    if s.keepaliveStatus == Unchanged then s
    else
      var s1 := s.(keepaliveStatus := Unchanged);
      if !s.isCoordinator && s.associated then
        match s.keepaliveStatus
        case SendImmediately => KeepaliveSent(s1)
        case ScheduleOrStop =>
          if s.kaTimeout > 0 then s1.(kaTimer := Armed(KaDelay(s.kaTimeout, rand)))
          else s1.(kaTimer := Stopped)
      else s1.(kaTimer := Stopped)
  }

  /** tsch_disassociate: an associated node leaves and the main process is polled; otherwise nothing happens. */
  function Disassociated(s: MacState): (r: MacState)
    ensures !r.associated
    ensures !s.associated ==> r == s
    ensures s.associated ==> r == s.(associated := false, mainPolled := true)
  {
    if s.associated then s.(associated := false, mainPolled := true) else s
  }

  /** Leaving twice is leaving once. */
  lemma DisassociateIdempotent(s: MacState)
    ensures Disassociated(Disassociated(s)) == Disassociated(s)
  {
  }

  /** tsch_set_eb_period: the period is capped at the maximum. */
  function EbPeriodSet(s: MacState, cfg: Config, period: nat): (r: MacState)
    ensures r.ebPeriod <= cfg.maxEbPeriod && r.ebPeriod <= period
    ensures r.ebPeriod == period || r.ebPeriod == cfg.maxEbPeriod
    ensures r == s.(ebPeriod := r.ebPeriod)
  {
    s.(ebPeriod := if period < cfg.maxEbPeriod then period else cfg.maxEbPeriod)
  }

  /** tsch_set_ka_timeout: the new timeout, and a (non-immediate) keep-alive request. */
  function KaTimeoutSet(s: MacState, timeout: nat): (r: MacState)
    ensures r.kaTimeout == timeout && r.keepaliveStatus != Unchanged
    ensures r == KeepaliveScheduled(s.(kaTimeout := timeout), false)
  {
    KeepaliveScheduled(s.(kaTimeout := timeout), false)
  }

  /** tsch_set_coordinator: changing role drops the association; the EB period returns to its default. */
  function CoordinatorSet(s: MacState, cfg: Config, enable: bool): (r: MacState)
    ensures r.isCoordinator == enable
    ensures s.isCoordinator != enable ==> !r.associated
    ensures s.isCoordinator == enable ==> r.associated == s.associated
    ensures r.ebPeriod == EbPeriodSet(s, cfg, cfg.defaultEbPeriod).ebPeriod
  {
    var s1 := if s.isCoordinator != enable then s.(associated := false) else s;
    EbPeriodSet(s1.(isCoordinator := enable), cfg, cfg.defaultEbPeriod)
  }

  /** tsch_start_coordinator: the default hopping sequence, associated, with join priority 0. */
  function CoordinatorStarted(s: MacState, cfg: Config): (r: MacState)
    ensures r.associated && r.joinPriority == 0 && r.panId == cfg.panId
    ensures r.hoppingSequence == cfg.defaultHoppingSequence
  {
    s.(panId := cfg.panId, hoppingSequence := cfg.defaultHoppingSequence, associated := true, joinPriority := 0)
  }

  /**
   * tsch_queue_update_time_source (tsch-queue.c, not part of this model; as
   * Contiki-NG defines it): refused while the MAC is locked, on the
   * coordinator, or when a new time source finds no room in the neighbour
   * table (nbrRoom); otherwise addr becomes the time source, and when that is
   * a change the keep-alive timeout is set through tsch_set_ka_timeout, to
   * TSCH_KEEPALIVE_TIMEOUT for a neighbour and to 0 for none.
   */
  function TimeSourceUpdated(s: MacState, cfg: Config, addr: Option<LinkAddr>, nbrRoom: bool): (r: (MacState, bool))
    ensures r.1 <==> !s.locked && !s.isCoordinator && (addr.Some? ==> nbrRoom)
    ensures !r.1 || addr == s.timeSource ==> r.0 == s
    ensures r.1 ==> r.0.timeSource == addr
    ensures r.1 && addr != s.timeSource ==>
      r.0.kaTimeout == (if addr.Some? then cfg.keepaliveTimeout else 0) && r.0.keepaliveStatus != Unchanged &&
      r.0.associated == s.associated && r.0.isCoordinator == s.isCoordinator
  {
    if s.locked || s.isCoordinator || (addr.Some? && !nbrRoom) then (s, false)
    else if addr == s.timeSource then (s, true)
    else (KaTimeoutSet(s.(timeSource := addr), if addr.Some? then cfg.keepaliveTimeout else 0), true)
  }

  /**
   * tsch_reset: no PAN, no time source (which stops keep-alives: timeout 0),
   * join priority 0xff, ASN 0, no current link, no alternate EB neighbour, the
   * default EB period and no pending keep-alive (the timing table returns to
   * its defaults as well). Locked or on the coordinator the time source and
   * the timeout stay.
   */
  function ResetState(s: MacState, cfg: Config): (r: MacState)
    ensures r.panId == 0xffff && r.joinPriority == 0xff && r.asn == 0
    ensures r.currentLink.None? && r.lastEbNbr == NullAddr
    ensures r.ebPeriod == EbPeriodSet(s, cfg, cfg.defaultEbPeriod).ebPeriod && r.keepaliveStatus == Unchanged
    ensures r.associated == s.associated && r.isCoordinator == s.isCoordinator
    ensures r.hoppingSequence == s.hoppingSequence && r.packetSeqno == s.packetSeqno
    ensures !s.locked && !s.isCoordinator ==>
      r.timeSource.None? && r.kaTimeout == (if s.timeSource.Some? then 0 else s.kaTimeout)
    ensures s.locked || s.isCoordinator ==> r.timeSource == s.timeSource && r.kaTimeout == s.kaTimeout
  {
    var s0 := TimeSourceUpdated(s.(panId := 0xffff), cfg, None, true).0;
    var s1 := s0.(joinPriority := 0xff, asn := 0, currentLink := None, lastEbNbr := NullAddr);
    EbPeriodSet(s1, cfg, cfg.defaultEbPeriod).(keepaliveStatus := Unchanged)
  }

  /** The time source is no longer the neighbour the lost keep-alive went to. */
  predicate TimeSourceChanged(s: MacState, original: LinkAddr) {
    s.timeSource.Some? && s.timeSource.value != original
  }

  /**
   * resynchronize: when the time source is still the one that failed, switch
   * to the last other neighbour an EB came from (join priority one above its
   * own, in 8-bit arithmetic) and ask for an immediate keep-alive; with no
   * such neighbour, leave the network if no synchronisation happened at all.
   * The switch goes through tsch_queue_update_time_source, so it re-arms the
   * keep-alive timeout, and it does not happen when that update is refused
   * (nbrRoom: the neighbour table has room for the new time source). The
   * result says whether the next keep-alive is already scheduled.
   */
  function Resynchronized(s: MacState, cfg: Config, original: LinkAddr, nbrRoom: bool): (r: (MacState, bool))
    ensures r.1 <==> !TimeSourceChanged(s, original) && s.lastEbNbr != NullAddr
    ensures TimeSourceChanged(s, original) ==> r.0 == s
    ensures r.1 ==> r.0.joinPriority == (s.lastEbJp + 1) % 256 &&
                    r.0.keepaliveStatus == SendImmediately && r.0.associated == s.associated
    ensures r.1 && !s.locked && !s.isCoordinator && nbrRoom ==>
      (r.0.timeSource == Some(s.lastEbNbr) &&
       (s.timeSource != Some(s.lastEbNbr) ==> r.0.kaTimeout == cfg.keepaliveTimeout))
    ensures r.1 && (s.locked || s.isCoordinator || !nbrRoom) ==>
      r.0.timeSource == s.timeSource && r.0.kaTimeout == s.kaTimeout
    ensures !TimeSourceChanged(s, original) && s.lastEbNbr == NullAddr ==>
      r.0 == if s.syncCount == 0 then Disassociated(s) else s
  {
    if TimeSourceChanged(s, original) then (s, false)
    else if s.lastEbNbr == NullAddr then
      ((if s.syncCount == 0 then Disassociated(s) else s), false)
    else
      var s0 := TimeSourceUpdated(s, cfg, Some(s.lastEbNbr), nbrRoom).0;
      var s1 := s0.(joinPriority := (s.lastEbJp + 1) % 256);
      (KeepaliveScheduled(s1, true), true)
  }

  /**
   * keepalive_packet_sent: transmissions of acknowledged or unacknowledged
   * keep-alives are counted; a missing ACK triggers re-synchronisation; unless
   * that scheduled the next keep-alive, a normal one is requested. Either way a
   * keep-alive is pending afterwards.
   */
  function KeepaliveDone(s: MacState, cfg: Config, status: MacTxStatus, transmissions: nat, receiver: LinkAddr,
                         nbrRoom: bool): (r: MacState)
    ensures r.keepaliveStatus != Unchanged
    ensures status != TxNoAck ==> r.timeSource == s.timeSource && r.associated == s.associated
    ensures status == TxNoAck && Resynchronized(s, cfg, receiver, nbrRoom).1 ==> r.keepaliveStatus == SendImmediately
    ensures status == TxOk || status == TxNoAck ==> r.kaTxCount == s.kaTxCount + transmissions
    ensures status != TxOk && status != TxNoAck ==> r.kaTxCount == s.kaTxCount
  {
    var s1 := if status == TxNoAck || status == TxOk then s.(kaTxCount := s.kaTxCount + transmissions) else s;
    var (s2, resynced) := if status == TxNoAck then Resynchronized(s1, cfg, receiver, nbrRoom) else (s1, false);
    if resynced then s2 else KeepaliveScheduled(s2, false)
  }

  /** The checks tsch_associate makes before it takes the EB's timing: parsed, unsecured, our PAN, with a join priority. */
  predicate HeaderAccepted(cfg: Config, eb: Option<ParsedEb>) {
    eb.Some? &&
    !eb.value.frame.securityEnabled &&
    (cfg.joinMyPanIdOnly ==> eb.value.frame.srcPanId == cfg.panId) &&
    eb.value.ies.joinPriority != 0xff
  }

  /** Every check tsch_associate makes of an EB, in the default build (no link-layer security). */
  predicate AssociationAccepted(cfg: Config, eb: Option<ParsedEb>, nbrAdded: bool) {
    HeaderAccepted(cfg, eb) &&
    var ies := eb.value.ies;
    (ies.hoppingSequenceId != 0 ==> |ies.hoppingSequence| <= cfg.hoppingSequenceMaxLen) &&
    (ies.numSlotframes != 0 ==> ies.numLinks <= cfg.ieMaxLinks) &&
    ies.joinPriority + 1 < cfg.maxJoinPriority &&
    nbrAdded
  }

  /** The timing an EB announces: the defaults for timeslot template 0, its own values otherwise. */
  function EbTiming(cfg: Config, ies: EbIes): seq<nat> {
    if ies.timeslotId == 0 then cfg.defaultTiming else ies.timeslotTiming
  }

  /** The timing table after tsch_associate: the EB's once its header is accepted, even if a later check fails. */
  function TimingAfterAssociate(cfg: Config, eb: Option<ParsedEb>, timing: seq<nat>): (t: seq<nat>)
    ensures AssociationAccepted(cfg, eb, true) ==> t == EbTiming(cfg, eb.value.ies)
    ensures !HeaderAccepted(cfg, eb) ==> t == timing
  {
    if HeaderAccepted(cfg, eb) then EbTiming(cfg, eb.value.ies) else timing
  }

  /**
   * tsch_associate: the EB's ASN and join priority + 1 (8-bit) are taken
   * before any check; the timing (see TimingAfterAssociate) and the hopping
   * sequence are taken once the join priority is known to be present. The node associates, with the
   * sender as time source and fresh statistics, iff every check passes.
   */
  function Associated(s: MacState, cfg: Config, eb: Option<ParsedEb>, nbrAdded: bool): (r: (MacState, bool))
    ensures eb.None? ==> r == (s, false)
  {
    if eb.None? then (s, false)
    else
      var f, ies := eb.value.frame, eb.value.ies;
      var s1 := s.(asn := ies.asn, joinPriority := (ies.joinPriority + 1) % 256);
      if f.securityEnabled then (s1, false)
      else if cfg.joinMyPanIdOnly && f.srcPanId != cfg.panId then (s1, false)
      else if ies.joinPriority == 0xff then (s1, false)
      else AssociatedAfterHeader(s1, cfg, f, ies, nbrAdded)
  }

  /** tsch_associate once the EB's header and join priority are accepted: the hopping sequence, the link count, the join. */
  function AssociatedAfterHeader(s: MacState, cfg: Config, f: EbFrame, ies: EbIes, nbrAdded: bool): (r: (MacState, bool))
    ensures r.1 <==>
      (ies.hoppingSequenceId != 0 ==> |ies.hoppingSequence| <= cfg.hoppingSequenceMaxLen) &&
      (ies.numSlotframes != 0 ==> ies.numLinks <= cfg.ieMaxLinks) &&
      s.joinPriority < cfg.maxJoinPriority && nbrAdded
    ensures !r.1 ==>
      (r.0.associated == s.associated && r.0.timeSource == s.timeSource &&
       r.0.asn == s.asn && r.0.joinPriority == s.joinPriority)
  {
    if ies.hoppingSequenceId != 0 && |ies.hoppingSequence| > cfg.hoppingSequenceMaxLen then (s, false)
    else
      var s3 := s.(hoppingSequence :=
        if ies.hoppingSequenceId == 0 then cfg.defaultHoppingSequence else ies.hoppingSequence);
      if ies.numSlotframes != 0 && ies.numLinks > cfg.ieMaxLinks then (s3, false)
      else if s3.joinPriority < cfg.maxJoinPriority && nbrAdded then (Joined(s3, cfg, f), true)
      else (s3, false)
  }

  /**
   * The end of a successful tsch_associate: the sender becomes the time
   * source (through tsch_queue_update_time_source, which re-arms the keep-alive
   * timeout; the sender already has its neighbour entry) and its PAN ours, the
   * session statistics start over, and keep-alives are requested.
   */
  function Joined(s: MacState, cfg: Config, f: EbFrame): (r: MacState)
    ensures r.associated && r.panId == f.srcPanId && !r.panSecured
    ensures !s.locked && !s.isCoordinator ==>
      (r.timeSource == Some(f.src) && (s.timeSource != Some(f.src) ==> r.kaTimeout == cfg.keepaliveTimeout))
    ensures s.locked || s.isCoordinator ==> r.timeSource == s.timeSource && r.kaTimeout == s.kaTimeout
    ensures r.txCount == 0 && r.rxCount == 0 && r.syncCount == 0 && r.minDrift == 0 && r.maxDrift == 0
    ensures r.keepaliveStatus != Unchanged && r.associationCount == s.associationCount + 1
    ensures r.asn == s.asn && r.joinPriority == s.joinPriority && r.hoppingSequence == s.hoppingSequence
    ensures r.isCoordinator == s.isCoordinator && r.locked == s.locked
  {
    var s0 := TimeSourceUpdated(s, cfg, Some(f.src), true).0;
    var s1 := s0.(panId := f.srcPanId, associated := true, panSecured := false,
                  txCount := 0, rxCount := 0, syncCount := 0, minDrift := 0, maxDrift := 0);
    KeepaliveScheduled(s1, false).(associationCount := s.associationCount + 1)
  }

  /** The node associates iff the EB passes every check and the sender finds room in the neighbour table. */
  lemma AssociateAcceptsIff(s: MacState, cfg: Config, eb: Option<ParsedEb>, nbrAdded: bool)
    ensures Associated(s, cfg, eb, nbrAdded).1 <==> AssociationAccepted(cfg, eb, nbrAdded)
  {
  }

  /**
   * A rejected EB leaves the association and the time source as they were,
   * but its ASN and join priority have already been taken.
   */
  lemma AssociateRejectionKeepsAssociation(s: MacState, cfg: Config, eb: Option<ParsedEb>, nbrAdded: bool)
    requires !Associated(s, cfg, eb, nbrAdded).1
    ensures var r := Associated(s, cfg, eb, nbrAdded).0;
      r.associated == s.associated && r.timeSource == s.timeSource &&
      (eb.Some? ==> r.asn == eb.value.ies.asn && r.joinPriority == (eb.value.ies.joinPriority + 1) % 256)
  {
    if HeaderAccepted(cfg, eb) {
      var ies := eb.value.ies;
      var s1 := s.(asn := ies.asn, joinPriority := (ies.joinPriority + 1) % 256);
      assert Associated(s, cfg, eb, nbrAdded) == AssociatedAfterHeader(s1, cfg, eb.value.frame, ies, nbrAdded);
    }
  }

  /**
   * On success the node is associated to the sender, one join priority below
   * it, with the EB's ASN and hopping sequence, fresh statistics and
   * a keep-alive pending.
   */
  lemma AssociateSuccess(s: MacState, cfg: Config, eb: Option<ParsedEb>, nbrAdded: bool)
    requires Associated(s, cfg, eb, nbrAdded).1
    ensures var r := Associated(s, cfg, eb, nbrAdded).0;
      var ies := eb.value.ies;
      r.associated && r.panId == eb.value.frame.srcPanId &&
      (!s.locked && !s.isCoordinator ==> r.timeSource == Some(eb.value.frame.src)) &&
      r.asn == ies.asn && r.joinPriority == ies.joinPriority + 1 && r.joinPriority < cfg.maxJoinPriority &&
      r.txCount == 0 && r.rxCount == 0 && r.syncCount == 0 && r.minDrift == 0 && r.maxDrift == 0 &&
      !r.panSecured && r.keepaliveStatus != Unchanged &&
      r.hoppingSequence == (if ies.hoppingSequenceId == 0 then cfg.defaultHoppingSequence else ies.hoppingSequence) &&
      r.associationCount == s.associationCount + 1
  {
  }

  /**
   * Associating to a new time source starts its keep-alives: the next round of
   * keep-alive processing sends one to the sender at once if an immediate
   * keep-alive was pending, and otherwise arms the timer with the keep-alive
   * delay of TSCH_KEEPALIVE_TIMEOUT.
   */
  lemma JoinStartsKeepalives(s: MacState, cfg: Config, eb: Option<ParsedEb>, nbrAdded: bool, rand: uint16)
    requires Associated(s, cfg, eb, nbrAdded).1
    requires !s.locked && !s.isCoordinator && s.timeSource != Some(eb.value.frame.src) && cfg.keepaliveTimeout > 0
    ensures var a := Associated(s, cfg, eb, nbrAdded).0;
      var r := KeepaliveProcessed(a, rand);
      r.keepaliveStatus == Unchanged &&
      (s.keepaliveStatus == SendImmediately ==> r.kaSent == a.kaSent + [eb.value.frame.src]) &&
      (s.keepaliveStatus != SendImmediately ==> r.kaTimer == Armed(KaDelay(cfg.keepaliveTimeout, rand)))
  {
  }

  /** The EB comes from the current time source. */
  predicate FromTimeSource(s: MacState, eb: ParsedEb) {
    s.timeSource.Some? && eb.frame.src == s.timeSource.value
  }

  /**
   * TSCH_ASN_DIFF(a, b) != 0: the macro subtracts the low four bytes (ls4b)
   * of the two ASNs as 32-bit values, so only those bytes are compared.
   */
  predicate AsnDiffers(a: Asn, b: Asn) {
    a % 0x1_0000_0000 != b % 0x1_0000_0000
  }

  /** ASNs 2^32 apart show no drift: the most significant byte is not compared. */
  lemma AsnDiffIgnoresHighByte(a: Asn)
    requires a + 0x1_0000_0000 < 0x100_0000_0000
    ensures !AsnDiffers(a, a + 0x1_0000_0000)
    ensures forall b: Asn :: AsnDiffers(a, b) ==> a != b
  {
    assert (a + 0x1_0000_0000) % 0x1_0000_0000 == a % 0x1_0000_0000;
  }

  /** An EB from the time source that disagrees on the ASN or announces too high a join priority. */
  predicate LeavesOnEb(s: MacState, cfg: Config, eb: Option<ParsedEb>, rxAsn: Asn) {
    eb.Some? && FromTimeSource(s, eb.value) &&
    (AsnDiffers(rxAsn, eb.value.ies.asn) || eb.value.ies.joinPriority >= cfg.maxJoinPriority)
  }

  /**
   * eb_input: the sender is remembered as the alternate time source unless
   * the alternate already is the time source; an EB from the time source whose
   * ASN differs in its low 32 bits from the one it arrived at, or with a join priority that is
   * too high, makes the node leave; its hopping sequence replaces ours when it
   * differs and fits.
   */
  function AfterEbInput(s: MacState, cfg: Config, eb: Option<ParsedEb>, rxAsn: Asn): (r: MacState)
    ensures eb.None? ==> r == s
    ensures eb.Some? && (s.timeSource.None? || s.lastEbNbr != s.timeSource.value) ==>
      r.lastEbNbr == eb.value.frame.src && r.lastEbJp == eb.value.ies.joinPriority
    ensures eb.Some? && s.timeSource.Some? && s.lastEbNbr == s.timeSource.value ==>
      r.lastEbNbr == s.lastEbNbr && r.lastEbJp == s.lastEbJp
    ensures LeavesOnEb(s, cfg, eb, rxAsn) ==> !r.associated
    ensures !LeavesOnEb(s, cfg, eb, rxAsn) ==> r.associated == s.associated
    ensures r.hoppingSequence != s.hoppingSequence ==>
      eb.Some? && FromTimeSource(s, eb.value) && eb.value.ies.hoppingSequenceId != 0 &&
      r.hoppingSequence == eb.value.ies.hoppingSequence && |r.hoppingSequence| <= cfg.hoppingSequenceMaxLen
    ensures (eb.Some? && FromTimeSource(s, eb.value) && eb.value.ies.hoppingSequenceId != 0 &&
             |eb.value.ies.hoppingSequence| <= cfg.hoppingSequenceMaxLen) ==>
      r.hoppingSequence == eb.value.ies.hoppingSequence
    ensures r.timeSource == s.timeSource && r.joinPriority == s.joinPriority
  {
    if eb.None? then s
    else
      var f, ies := eb.value.frame, eb.value.ies;
      var s1 := if s.timeSource.None? || s.lastEbNbr != s.timeSource.value
                then s.(lastEbNbr := f.src, lastEbJp := ies.joinPriority) else s;
      if FromTimeSource(s, eb.value) then FollowedTimeSource(s1, cfg, ies, rxAsn) else s1
  }

  /** The part of eb_input for an EB from the time source: the drift and join-priority checks, then the hopping sequence. */
  function FollowedTimeSource(s: MacState, cfg: Config, ies: EbIes, rxAsn: Asn): (r: MacState)
    ensures AsnDiffers(rxAsn, ies.asn) || ies.joinPriority >= cfg.maxJoinPriority ==> !r.associated
    ensures !(AsnDiffers(rxAsn, ies.asn) || ies.joinPriority >= cfg.maxJoinPriority) ==> r.associated == s.associated
    ensures r.hoppingSequence != s.hoppingSequence ==>
      ies.hoppingSequenceId != 0 && r.hoppingSequence == ies.hoppingSequence &&
      |r.hoppingSequence| <= cfg.hoppingSequenceMaxLen
    ensures ies.hoppingSequenceId != 0 && |ies.hoppingSequence| <= cfg.hoppingSequenceMaxLen ==>
      r.hoppingSequence == ies.hoppingSequence
    ensures r.timeSource == s.timeSource && r.joinPriority == s.joinPriority
    ensures r.lastEbNbr == s.lastEbNbr && r.lastEbJp == s.lastEbJp
  {
    var s2 := if AsnDiffers(rxAsn, ies.asn) then Disassociated(s) else s;
    var s3 := if ies.joinPriority >= cfg.maxJoinPriority then Disassociated(s2) else s2;
    if ies.hoppingSequenceId != 0 && ies.hoppingSequence != s3.hoppingSequence &&
       |ies.hoppingSequence| <= cfg.hoppingSequenceMaxLen
    then s3.(hoppingSequence := ies.hoppingSequence)
    else s3
  }

  /** The unicast sequence number after one more frame: 8-bit increment that skips 0. */
  function NextSeqno(q: uint8): (r: uint8)
    ensures r != 0
    ensures q < 255 ==> r == q + 1
  {
    if (q + 1) % 256 == 0 then 1 else (q + 1) % 256
  }

  /** The sequence number after k unicast frames. */
  function SeqnoAfter(q: uint8, k: nat): uint8 {
    if k == 0 then q else NextSeqno(SeqnoAfter(q, k - 1))
  }

  /** From a non-zero start the sequence numbers run through 1..255 in a cycle of 255. */
  lemma {:induction false} SeqnoAfterCycles(q: uint8, k: nat)
    requires q != 0
    ensures SeqnoAfter(q, k) == (q - 1 + k) % 255 + 1
  {
    if k > 0 {
      SeqnoAfterCycles(q, k - 1);
      ModSucc(q - 1 + k - 1);
    }
  }

  lemma ModSucc(x: nat)
    ensures (x + 1) % 255 == if x % 255 == 254 then 0 else x % 255 + 1
  {
    var d, r := x / 255, x % 255;
    assert x == 255 * d + r;
    if r == 254 {
      assert x + 1 == 255 * (d + 1);
    } else {
      assert x + 1 == 255 * d + (r + 1);
    }
  }

  /** 255 consecutive unicast frames from a non-zero start carry pairwise different sequence numbers. */
  lemma SeqnosDistinct(q: uint8, i: nat, j: nat)
    requires q != 0 && i < j < i + 255
    ensures SeqnoAfter(q, i) != SeqnoAfter(q, j)
  {
    SeqnoAfterCycles(q, i);
    SeqnoAfterCycles(q, j);
  }

  /**
   * send_packet up to framing: a node that is not associated drops the packet
   * (its callback gets MAC_TX_ERR); a unicast frame takes the next sequence
   * number; a broadcast frame goes to the broadcast address without one.
   */
  function AfterSend(s: MacState, dest: LinkAddr): (r: (MacState, SendOutcome))
    ensures !s.associated <==> r.1 == NotAssociated
    ensures r.1.Unicast? <==> s.associated && dest != NullAddr
    ensures r.1.Unicast? ==> r.1.seqno != 0 && r.1.seqno == r.0.packetSeqno && r.0.packetSeqno == NextSeqno(s.packetSeqno)
    ensures !r.1.Unicast? ==> r.0 == s
  {
    if !s.associated then (s, NotAssociated)
    else if dest != NullAddr then
      var q := NextSeqno(s.packetSeqno);
      (s.(packetSeqno := q), Unicast(q))
    else (s, Broadcast)
  }

  /**
   * The delay to the next EB as tsch_send_eb_process computes it:
   * (p - p/4) + rand % (p/4) for a positive period p, the default period for
   * 0. None stands for the division by zero when 0 < p < 4.
   */
  function EbDelayAsWritten(period: nat, rand: uint16, defaultPeriod: nat): (d: Option<nat>)
    ensures d.None? <==> 0 < period < 4
  {
    if period > 0 then
      if period / 4 == 0 then None else Some((period - period / 4) + rand % (period / 4))
    else Some(defaultPeriod)
  }

  /** tsch_set_eb_period accepts a period of 3 ticks, for which the EB delay divides by zero. */
  lemma EbDelayDividesByZero(s: MacState, cfg: Config, rand: uint16)
    requires cfg.maxEbPeriod >= 3
    ensures var p := EbPeriodSet(s, cfg, 3).ebPeriod;
      p == 3 && EbDelayAsWritten(p, rand, cfg.defaultEbPeriod).None?
  {
  }

  /**
   * The EB delay with the random part dropped when the period is too short to
   * have a quarter: defined for every period, within [p - p/4, p[ for p >= 4
   * (where it is the delay as written) and exactly p below that.
   */
  function EbDelay(period: nat, rand: uint16, defaultPeriod: nat): (d: nat)
    ensures period >= 4 ==> period - period / 4 <= d < period && EbDelayAsWritten(period, rand, defaultPeriod) == Some(d)
    ensures 0 < period < 4 ==> d == period
    ensures period == 0 ==> d == defaultPeriod
  {
    if period > 0 then
      if period / 4 == 0 then period else (period - period / 4) + rand % (period / 4)
    else defaultPeriod
  }

  /** The statically initialised globals of tsch.c, with the sequence number from random_rand(). */
  function Initial(rand: uint16): MacState {
    MacState(false, false, false, 0, 0, 0, None, None, NullAddr, 0, Unchanged, Stopped, 0, [], 0, 0, [],
             0, 0, 0, 0, 0, rand % 256, 0, false, false, false)
  }

  /** The MAC: its timing table and its other global variables. */
  class TschMac {
    const cfg: Config
    /** tsch_timing_us, one entry per timeslot timing element. */
    const timingUs: array<nat>
    var state: MacState

    ghost predicate Valid()
      reads this
    {
      ConfigOk(cfg) && timingUs.Length == |cfg.defaultTiming|
    }

    /** The statically initialised globals, then tsch_init's reset; the sequence number starts at random_rand(). */
    constructor Init(config: Config, rand: uint16)
      requires ConfigOk(config)
      ensures Valid() && fresh(timingUs) && cfg == config && timingUs[..] == config.defaultTiming
      ensures state == ResetState(Initial(rand), config)
    {
      cfg := config;
      timingUs := new nat[|config.defaultTiming|](_ => 0);
      state := Initial(rand);
      new;
      Reset();
    }

    /** The loop that fills tsch_timing_us element by element. */
    method LoadTiming(values: seq<nat>)
      requires |values| == timingUs.Length
      modifies timingUs
      ensures timingUs[..] == values
    {
      for i := 0 to timingUs.Length
        invariant timingUs[..i] == values[..i]
      {
        timingUs[i] := values[i];
      }
    }

    /** tsch_reset, with the timing table refilled from the defaults. */
    method Reset()
      requires Valid()
      modifies this, timingUs
      ensures Valid() && state == ResetState(old(state), cfg) && timingUs[..] == cfg.defaultTiming
    {
      state := state.(panId := 0xffff);
      var updated := UpdateTimeSource(None, true);
      state := state.(joinPriority := 0xff, asn := 0, currentLink := None);
      LoadTiming(cfg.defaultTiming);
      state := state.(lastEbNbr := NullAddr);
      SetEbPeriod(cfg.defaultEbPeriod);
      state := state.(keepaliveStatus := Unchanged);
    }

    method SetEbPeriod(period: nat)
      modifies this
      ensures state == EbPeriodSet(old(state), cfg, period)
    {
      state := state.(ebPeriod := if period < cfg.maxEbPeriod then period else cfg.maxEbPeriod);
    }

    method SetKaTimeout(timeout: nat)
      modifies this
      ensures state == KaTimeoutSet(old(state), timeout)
    {
      state := state.(kaTimeout := timeout);
      ScheduleKeepalive(false);
    }

    method UpdateTimeSource(addr: Option<LinkAddr>, nbrRoom: bool) returns (ok: bool)
      modifies this
      ensures (state, ok) == TimeSourceUpdated(old(state), cfg, addr, nbrRoom)
    {
      if state.locked || state.isCoordinator || (addr.Some? && !nbrRoom) {
        return false;
      }
      if addr != state.timeSource {
        state := state.(timeSource := addr);
        SetKaTimeout(if addr.Some? then cfg.keepaliveTimeout else 0);
      }
      return true;
    }

    method SetCoordinator(enable: bool)
      modifies this
      ensures state == CoordinatorSet(old(state), cfg, enable)
    {
      if state.isCoordinator != enable {
        state := state.(associated := false);
      }
      state := state.(isCoordinator := enable);
      SetEbPeriod(cfg.defaultEbPeriod);
    }

    method StartCoordinator()
      modifies this
      ensures state == CoordinatorStarted(old(state), cfg)
    {
      state := state.(panId := cfg.panId, hoppingSequence := cfg.defaultHoppingSequence);
      state := state.(associated := true, joinPriority := 0);
    }

    method Disassociate()
      modifies this
      ensures state == Disassociated(old(state))
    {
      if state.associated {
        state := state.(associated := false, mainPolled := true);
      }
    }

    method ScheduleKeepalive(immediate: bool)
      modifies this
      ensures state == KeepaliveScheduled(old(state), immediate)
    {
      if immediate {
        state := state.(keepaliveStatus := SendImmediately);
      } else if state.keepaliveStatus != SendImmediately {
        state := state.(keepaliveStatus := ScheduleOrStop);
      }
      state := state.(eventsPolled := true);
    }

    method KeepaliveSend()
      modifies this
      ensures state == KeepaliveSent(old(state))
    {
      state := state.(kaTimer := Stopped);
      if state.associated && state.timeSource.Some? {
        state := state.(kaSent := state.kaSent + [state.timeSource.value]);
      }
    }

    method KeepaliveProcessPending(rand: uint16)
      modifies this
      ensures state == KeepaliveProcessed(old(state), rand)
    {
      if state.keepaliveStatus != Unchanged {
        var scheduled := state.keepaliveStatus;
        state := state.(keepaliveStatus := Unchanged);
        if !state.isCoordinator && state.associated {
          match scheduled
          case SendImmediately =>
            KeepaliveSend();
          case ScheduleOrStop =>
            var timeout := state.kaTimeout;
            if timeout > 0 {
              var delay;
              if timeout >= 10 {
                delay := (timeout - timeout / 10) + rand % (timeout / 10);
              } else {
                delay := timeout - 1;
              }
              state := state.(kaTimer := Armed(delay));
            } else {
              state := state.(kaTimer := Stopped);
            }
        } else {
          state := state.(kaTimer := Stopped);
        }
      }
    }

    /** resynchronize; nbrRoom says whether the neighbour table has room for the new time source. */
    method Resynchronize(original: LinkAddr, nbrRoom: bool) returns (scheduled: bool)
      modifies this
      ensures (state, scheduled) == Resynchronized(old(state), cfg, original, nbrRoom)
    {
      if state.timeSource.Some? && state.timeSource.value != original {
        return false;
      }
      if state.lastEbNbr == NullAddr {
        if state.syncCount == 0 {
          Disassociate();
        }
        return false;
      }
      var jp := (state.lastEbJp + 1) % 256;
      var updated := UpdateTimeSource(Some(state.lastEbNbr), nbrRoom);
      state := state.(joinPriority := jp);
      ScheduleKeepalive(true);
      return true;
    }

    method KeepalivePacketSent(status: MacTxStatus, transmissions: nat, receiver: LinkAddr, nbrRoom: bool)
      modifies this
      ensures state == KeepaliveDone(old(state), cfg, status, transmissions, receiver, nbrRoom)
    {
      var scheduleNext := true;
      if status == TxNoAck || status == TxOk {
        state := state.(kaTxCount := state.kaTxCount + transmissions);
      }
      if status == TxNoAck {
        var resynced := Resynchronize(receiver, nbrRoom);
        scheduleNext := !resynced;
      }
      if scheduleNext {
        ScheduleKeepalive(false);
      }
    }

    /** tsch_associate; nbrAdded says whether tsch_queue_add_nbr found room for the sender. */
    method Associate(eb: Option<ParsedEb>, nbrAdded: bool) returns (ok: bool)
      requires Valid()
      requires eb.Some? ==> |eb.value.ies.timeslotTiming| == |cfg.defaultTiming|
      modifies this, timingUs
      ensures Valid() && (state, ok) == Associated(old(state), cfg, eb, nbrAdded)
      ensures timingUs[..] == TimingAfterAssociate(cfg, eb, old(timingUs[..]))
    {
      if eb.None? {
        return false;
      }
      var f, ies := eb.value.frame, eb.value.ies;
      state := state.(asn := ies.asn, joinPriority := (ies.joinPriority + 1) % 256);
      if f.securityEnabled {
        return false;
      }
      if cfg.joinMyPanIdOnly && f.srcPanId != cfg.panId {
        return false;
      }
      if ies.joinPriority == 0xff {
        return false;
      }
      LoadTiming(if ies.timeslotId == 0 then cfg.defaultTiming else ies.timeslotTiming);
      ok := AssociateAfterHeader(f, ies, nbrAdded);
    }

    /** The rest of tsch_associate once the header and join priority are accepted. */
    method AssociateAfterHeader(f: EbFrame, ies: EbIes, nbrAdded: bool) returns (ok: bool)
      modifies this
      ensures (state, ok) == AssociatedAfterHeader(old(state), cfg, f, ies, nbrAdded)
    {
      if ies.hoppingSequenceId == 0 {
        state := state.(hoppingSequence := cfg.defaultHoppingSequence);
      } else if |ies.hoppingSequence| <= cfg.hoppingSequenceMaxLen {
        state := state.(hoppingSequence := ies.hoppingSequence);
      } else {
        return false;
      }
      if ies.numSlotframes != 0 && ies.numLinks > cfg.ieMaxLinks {
        return false;
      }
      if state.joinPriority < cfg.maxJoinPriority && nbrAdded {
        Join(f);
        return true;
      }
      return false;
    }

    method Join(f: EbFrame)
      modifies this
      ensures state == Joined(old(state), cfg, f)
    {
      var count := state.associationCount;
      var updated := UpdateTimeSource(Some(f.src), true);
      state := state.(panId := f.srcPanId);
      state := state.(associated := true, panSecured := false);
      state := state.(txCount := 0, rxCount := 0, syncCount := 0, minDrift := 0, maxDrift := 0);
      ScheduleKeepalive(false);
      state := state.(associationCount := count + 1);
    }

    method EbInput(eb: Option<ParsedEb>, rxAsn: Asn)
      modifies this
      ensures state == AfterEbInput(old(state), cfg, eb, rxAsn)
    {
      if eb.None? {
        return;
      }
      var f, ies := eb.value.frame, eb.value.ies;
      var ts := state.timeSource;
      if ts.None? || state.lastEbNbr != ts.value {
        state := state.(lastEbNbr := f.src, lastEbJp := ies.joinPriority);
      }
      if ts.Some? && f.src == ts.value {
        if rxAsn % 0x1_0000_0000 != ies.asn % 0x1_0000_0000 {
          Disassociate();
        }
        if ies.joinPriority >= cfg.maxJoinPriority {
          Disassociate();
        }
        if ies.hoppingSequenceId != 0 && ies.hoppingSequence != state.hoppingSequence &&
           |ies.hoppingSequence| <= cfg.hoppingSequenceMaxLen {
          state := state.(hoppingSequence := ies.hoppingSequence);
        }
      }
    }

    method SendPacket(dest: LinkAddr) returns (outcome: SendOutcome)
      modifies this
      ensures (state, outcome) == AfterSend(old(state), dest)
    {
      if !state.associated {
        return NotAssociated;
      }
      if dest != NullAddr {
        var q := (state.packetSeqno + 1) % 256;
        if q == 0 {
          q := q + 1;
        }
        state := state.(packetSeqno := q);
        return Unicast(q);
      }
      return Broadcast;
    }
  }
}
