# TSCH MAC core of ASAP, in Dafny

This project models the Time-Slotted Channel Hopping (TSCH) MAC layer of the
ASAP fork of Contiki-NG (IEEE 802.15.4-2015 TSCH), and proves properties of
the model:

- **Schedule store and slot selector** (`schedule.dfy`, `slot_selector.dfy`,
  `pending_schedule.dfy`, `alice_hash.dfy`). The slotframe table is a class
  over a sequence of slotframes, each with its links in insertion order. It
  also holds the static link-handle counter, the lock (a flag: while it is
  held, operations fail instead of blocking) and the Tx-link counters of the
  neighbour queues. `tsch_schedule_get_next_active_link` is a nested loop
  proved equal to a left fold over all (link, distance) candidates. The fold
  is proved to pick the soonest link, following the overlap rule of section
  6.2.6 of IEEE 802.15.4-2015. The OST pending matching-slot list is a
  16-entry array that is cleared in place. The ALICE hashes are pure bit-vector
  functions.
- **Duplicate-sequence windows** (`duplicate_window.dfy`). This covers both
  builds of `mac-sequence.c`: the per-sender `array2` history and the shared
  list. The application copy in `udp-server.c` reuses the per-sender history,
  including its 8-bit stored seqno.
- **Association and keep-alive state machine** (`tsch_state.dfy`). The MAC
  globals form one record `MacState`, which the class `TschMac` updates. Each
  operation is a function on that record, and its method is proved against
  the function. The timing table is an array filled by a loop.
- **Slot-length adaptation helpers** (`sla.dfy`, the `WITH_SLA` build). This
  covers frame-length quantisation, the hop-distance decay, the triggering
  ASN and the timeslot length. The per-window histograms and counters are
  arrays.
- **Framing glue** (`tsch_packet.dfy`, `little_endian.dfy`). This covers the
  validation chains of the EB and enhanced-ACK parsers over an abstract parsed
  header. It also covers the Time Correction and Synchronization IEs (section
  7.4.2.7 and section 7.4.4.2 of IEEE 802.15.4-2015), the enhanced-ACK and EB
  buffers, and the frame-pending bit of the Frame Control field (section
  7.2.1).
- **Application and scheduler glue** (`udp_server.dfy`, `orchestra.dfy`,
  `node_info.dfy`). This covers the rpl-hckim UDP root's trailer layout,
  downward seqno and destination round robin. It also covers Orchestra's
  first-match rule dispatch and parent-knows-us flag, and the node-id lookups.

Notes on the model:

- **Time and numbers.** The ASN is a natural number below 2^40. Clocks are
  natural numbers. `random_rand()` is a `uint16` parameter. Widths that
  matter are written out explicitly: 8-bit join priorities and seqnos, 16-bit
  SLA arithmetic and 32-bit hashes.
- **Pointers.** A C pointer to a slotframe or link becomes an
  `Option<handle>` or an `Option<Link>`. Pointer validity is a caller
  obligation, stated with `requires`.
- **Configuration.** Constants that come from configuration headers not in
  this model, such as `TSCH_MAX_JOIN_PRIORITY`, `TSCH_MAX_EB_PERIOD`, pool
  sizes, `NODE_NUM` and the SLA constants, are parameters.

## Model

| member | source | states |
|---|---|---|
| TschSchedule.Schedule.Init | os/net/mac/tsch/tsch-schedule.c:890-901 | the schedule starts empty, unlocked, with handle counter 0 and no neighbour counters, and satisfies the store invariant |
| TschSchedule.Schedule.GetSlotframeByHandle | os/net/mac/tsch/tsch-schedule.c:314-326 | none while locked; otherwise a slotframe is returned iff one has the handle, and it is the first such slotframe |
| TschSchedule.Schedule.GetLinkByHandle | os/net/mac/tsch/tsch-schedule.c:330-347 | none while locked; otherwise the first link with the handle, walking slotframe by slotframe, or none when no scheduled link has it |
| TschSchedule.Schedule.GetLinkByTimeslot | os/net/mac/tsch/tsch-schedule.c:669-686 | none for a missing slotframe or while locked; otherwise the first link of that slotframe at (timeslot, channel offset), none iff there is none |
| TschSchedule.Schedule.AddSlotframe | os/net/mac/tsch/tsch-schedule.c:83-110 | succeeds iff size > 0, the handle is new, the lock is free and the pool has room; then exactly one slotframe (handle, size, no links) is appended and nothing else changes |
| TschSchedule.Schedule.AllocateLink | os/net/mac/tsch/tsch-schedule.c:417-463 | a link is created iff the link pool has room; it takes the counter value as handle, a missing address becomes the null address, it is appended to its slotframe, and a Tx link is counted at its neighbour (dedicated when not Shared) |
| TschSchedule.Schedule.AddLinkAt | os/net/mac/tsch/tsch-schedule.c:412-463 | with do_remove the cell is cleared first (current_link is cleared if it was at that cell), and after a successful add the new link is the only one at its cell; the counter advances by one per created link, so handles strictly increase until the 16-bit wrap |
| TschSchedule.Schedule.AddLink | os/net/mac/tsch/tsch-schedule.c:392-468 | rejects a missing slotframe, a timeslot > size-1, a channel offset > 15 under ALICE and a held lock, leaving the schedule unchanged; otherwise behaves as AddLinkAt; keeps the store invariant |
| TschSchedule.Schedule.RemoveLink | os/net/mac/tsch/tsch-schedule.c:583-641 | succeeds iff slotframe and link are given, the link's slotframe handle matches and the lock is free; then exactly that link leaves its slotframe, current_link is cleared if it was that link, and the neighbour counters drop by its share |
| TschSchedule.Schedule.RemoveLinkByTimeslot | os/net/mac/tsch/tsch-schedule.c:645-665 | every link of the slotframe at the cell is removed, the other links keep their order, and the result says whether any was |
| TschSchedule.Schedule.RemoveSlotframe | os/net/mac/tsch/tsch-schedule.c:291-310 | succeeds iff the slotframe is given and the lock is free; then all its links are removed first and the slotframe itself is unlinked, the others unchanged |
| TschSchedule.Schedule.RemoveHeadSlotframe | os/net/mac/tsch/tsch-schedule.c:280-285 | one round of the remove-all loop: the head slotframe and its links go |
| TschSchedule.Schedule.RemoveAllSlotframes | os/net/mac/tsch/tsch-schedule.c:278-287 | on success no slotframe is left and current_link is cleared if it was scheduled; fails (unchanged) only when locked with slotframes present |
| TschSchedule.Schedule.CreateMinimal | os/net/mac/tsch/tsch-schedule.c:905-921 | when unlocked and the pools allow, the schedule becomes exactly slotframe 0 with one Tx/Rx/Shared/TimeKeeping advertising link to broadcast at cell (0, 0), and the handle counter advances by one; when unlocked, current_link is cleared iff it was scheduled; when locked, nothing changes |
| TschSchedule.Schedule.NextActiveLink | os/net/mac/tsch/tsch-schedule.c:759-886 | none while locked; otherwise the left fold of the selection step over all candidates of the schedule at the ASN |
| TschSchedule.RemovalKeepsInvariant | os/net/mac/tsch/tsch-schedule.c:583-641 | removing a scheduled link keeps pool bounds, unique slotframe handles, links inside their slotframes and exact neighbour Tx counters |
| TschSchedule.AdditionKeepsInvariant | os/net/mac/tsch/tsch-schedule.c:420-463 | appending a link with the next handle keeps the invariant, including exact neighbour counters |
| TschSchedule.NewSlotframeKeepsInvariant | os/net/mac/tsch/tsch-schedule.c:83-110 | appending an empty slotframe of nonzero size with a fresh handle keeps the invariant |
| TschSchedule.DropEmptySlotframe | os/net/mac/tsch/tsch-schedule.c:302-306 | unlinking a slotframe with no links keeps the invariant |
| TschSchedule.RemovalKeepsCounters | os/net/mac/tsch/tsch-schedule.c:625-633 | after a link is removed, each neighbour's tx and dedicated counters equal the number of its (dedicated) Tx links, and they never go negative |
| TschSchedule.AdditionKeepsCounters | os/net/mac/tsch/tsch-schedule.c:454-463 | after a link is added, each neighbour's counters still equal the number of its (dedicated) Tx links |
| TschSchedule.AddThenRemoveRestores | os/net/mac/tsch/tsch-schedule.c:428-620 | appending a link and then list_remove of it gives back the original schedule |
| TschSchedule.DedicatedAtMostTx | os/net/mac/tsch/tsch-schedule.c:458-461 | a neighbour never has more dedicated Tx links than Tx links |
| TschSchedule.ClearCellEmptiesCell | os/net/mac/tsch/tsch-schedule.c:645-665 | after the cell is cleared, no link occupies it, and every remaining link was there before |
| TschSchedule.ClearCellCounts | os/net/mac/tsch/tsch-schedule.c:645-665 | the cleared list and the removed links together account for every count of the original list |
| TschSchedule.InvariantShaped | os/net/mac/tsch/tsch-schedule.c:759-886 | the store invariant gives the selector non-empty slotframes holding their links |
| SlotSelector.TimeToTimeslot | os/net/mac/tsch/tsch-schedule.c:789-793 | the distance to a link's timeslot lies in [1, size] and brings the ASN's timeslot to the link's |
| SlotSelector.TimeToTimeslotIsLeast | os/net/mac/tsch/tsch-schedule.c:789-793 | no shorter positive distance reaches the link's timeslot |
| SlotSelector.Comparator | os/net/mac/tsch/tsch-schedule.c:735-754 | keeps the first link unless both are Tx to different neighbours and the second has strictly more queued packets; the kept link's neighbour has at least as many as the other |
| SlotSelector.ConsiderLink | os/net/mac/tsch/tsch-schedule.c:801-856 | the inner-loop body computes exactly one step of the selection fold |
| SlotSelector.SelectNextActiveLink | os/net/mac/tsch/tsch-schedule.c:773-862 | the nested loop over slotframes and links returns the fold of all candidates |
| SlotSelector.ScanSlotframe | os/net/mac/tsch/tsch-schedule.c:786-858 | the inner loop extends the fold by the candidates of one slotframe |
| SlotSelector.FoldIsSoonest | os/net/mac/tsch/tsch-schedule.c:795-808 | a link is chosen iff there are candidates; the choice is a candidate at the chosen distance and no candidate is sooner |
| SlotSelector.FoldPrefersTx | os/net/mac/tsch/tsch-schedule.c:809-820 | whenever a Tx link is among the soonest candidates, a Tx link is chosen |
| SlotSelector.FoldPrefersLowerSlotframe | os/net/mac/tsch/tsch-schedule.c:821-835 | among the soonest candidates with the chosen link's Tx flag, none has a lower slotframe handle |
| SlotSelector.FoldBackupIsRx | os/net/mac/tsch/tsch-schedule.c:836-856 | a backup, when set, has the Rx option and is due in the same timeslot |
| SlotSelector.FoldTxWithRxBackup | os/net/mac/tsch/tsch-schedule.c:809-856 | when the soonest candidates are a Tx-only and an Rx-only link, the Tx link is chosen and the Rx link is its backup, in either order |
| SlotSelector.FoldAtSharedOffset | os/net/mac/tsch/tsch-schedule.c:795-856 | the search state after meeting none, one or both of a Tx-only and an Rx-only link due soonest |
| SlotSelector.NextActiveLinkExists | os/net/mac/tsch/tsch-schedule.c:759-886 | a link is selected exactly when some slotframe holds a link |
| SlotSelector.NextActiveLinkIsScheduled | os/net/mac/tsch/tsch-schedule.c:759-886 | the selected link is in the schedule and the selected offset brings the ASN to its timeslot |
| SlotSelector.CandidateIsScheduled | os/net/mac/tsch/tsch-schedule.c:788-795 | every candidate is a scheduled link whose offset, in [1, size], brings the ASN to its timeslot |
| SlotSelector.NextActiveLinkIsSoonest | os/net/mac/tsch/tsch-schedule.c:759-886 | no scheduled link comes round sooner than the selected offset |
| SlotSelector.SlotframeCandidatesSound | os/net/mac/tsch/tsch-schedule.c:786-793 | every candidate of a slotframe is one of its links at its true distance |
| SlotSelector.SlotframeCandidatesComplete | os/net/mac/tsch/tsch-schedule.c:786-793 | every link of a slotframe is a candidate |
| SlotSelector.CandidatesSound | os/net/mac/tsch/tsch-schedule.c:773-862 | every candidate of the schedule is a scheduled link at its true distance |
| SlotSelector.CandidatesComplete | os/net/mac/tsch/tsch-schedule.c:773-862 | every scheduled link is a candidate |
| PendingSchedule.FirstStale | os/net/mac/tsch/tsch-schedule.c:195-205 | the first non-empty entry already due at the current ASN, none iff there is none |
| PendingSchedule.Earliest | os/net/mac/tsch/tsch-schedule.c:207-220 | the first non-empty entry with the smallest ASN, none iff all are empty |
| PendingSchedule.PendingList.EarlierThan | os/net/mac/tsch/tsch-schedule.c:184-245 | the in-place scan returns the specified override and leaves the specified entries |
| PendingSchedule.OverrideIsSoonest | os/net/mac/tsch/tsch-schedule.c:222-241 | an override is a non-empty entry strictly sooner than the regular link and no later than any other entry |
| PendingSchedule.NoOverrideWithoutRegularLink | os/net/mac/tsch/tsch-schedule.c:222-241 | with a regular offset of 0 no entry overrides |
| PendingSchedule.AfterEmptiesAtMostOne | os/net/mac/tsch/tsch-schedule.c:184-245 | one check empties at most one entry and changes nothing else |
| PendingSchedule.StaleEntryIsDropped | os/net/mac/tsch/tsch-schedule.c:195-205 | the first stale entry is emptied and gives no override |
| PendingSchedule.CombinedIsSoonest | os/net/mac/tsch/tsch-schedule.c:866-879 | the combined choice is never later than the regular one, nor than any pending entry, and an override drops the backup |
| PendingSchedule.NextActiveLinkWithPending | os/net/mac/tsch/tsch-schedule.c:759-886 | the OST selector: the regular fold, then the pending check with the regular offset; nothing changes while locked |
| AliceHash.RealHash | os/net/mac/tsch/tsch-schedule.c:251-262 | the hash is a valid index below mod |
| AliceHash.RealHash5 | os/net/mac/tsch/tsch-schedule.c:266-275 | the shorter hash is a valid index below mod |
| AliceHash.Reduce | os/net/mac/tsch/tsch-schedule.c:260-261 | the unsigned 32-bit remainder is below mod and fits the 16-bit result unchanged |
| DuplicateWindow.FirstMatch | os/net/mac/mac-sequence.c:94-98 | the first entry holding the seqno, none iff no entry does |
| DuplicateWindow.Shifted | os/net/mac/mac-sequence.c:124-135 | the descending copy loop: position 0 gets the new entry, 1..k take their predecessors, later entries stay |
| DuplicateWindow.RegisteredMovesToFront | os/net/mac/mac-sequence.c:111-138 | registering moves the old copy to the front, or pushes the new pair and evicts the oldest; the depth stays |
| DuplicateWindow.RegisterThenDuplicate | os/net/mac/mac-sequence.c:77-138 | a seqno registered now is reported as a duplicate at once, when it fits 8 bits |
| DuplicateWindow.WideSeqnoNeverDuplicate | examples/rpl-hckim/udp-server.c:51-84 | a seqno of 256 or more never matches the 8-bit field, so it is never a duplicate |
| DuplicateWindow.SeqnoHistories.Init | os/net/mac/mac-sequence.c:69-73 | every history entry starts as (0, 0) |
| DuplicateWindow.SeqnoHistories.IsDuplicateAt | os/net/mac/mac-sequence.c:94-107 | the scan returns 1 iff the first entry with the seqno is young enough (any match when the age limit is 0) |
| DuplicateWindow.SeqnoHistories.RegisterAt | os/net/mac/mac-sequence.c:111-138 | the sender's row becomes the registered history and every other sender's row is unchanged |
| DuplicateWindow.SeqnoHistories.IsDuplicate | os/net/mac/mac-sequence.c:77-108 | a sender id outside 1..NODE_NUM is a duplicate; otherwise the scan of its row |
| DuplicateWindow.SeqnoHistories.RegisterSeqno | os/net/mac/mac-sequence.c:111-138 | nothing changes for a sender id outside 1..NODE_NUM; otherwise RegisterAt on its row |
| DuplicateWindow.FirstOfSender | os/net/mac/mac-sequence.c:170-176 | the first entry from the sender, none iff there is none |
| DuplicateWindow.SharedRegisterThenDuplicate | os/net/mac/mac-sequence.c:164-214 | after registering, the sender's entry comes first and reports the seqno |
| DuplicateWindow.SharedRegisterKeepsOthers | os/net/mac/mac-sequence.c:193-214 | registering for one sender keeps another's first entry, one place later, unless it was evicted |
| DuplicateWindow.SharedHistory.Init | os/net/mac/mac-sequence.c:143-159 | every entry starts as (null address, 0, 0) |
| DuplicateWindow.SharedHistory.IsDuplicate | os/net/mac/mac-sequence.c:164-190 | only the sender's first entry decides: same seqno and young enough |
| DuplicateWindow.SharedHistory.RegisterSeqno | os/net/mac/mac-sequence.c:193-214 | the sender's entry, or the last one, moves to the front holding the new values |
| UdpServer.Trailer | examples/rpl-hckim/udp-server.c:304-310 | the trailer is 14 bytes: 8-byte ASN, 4-byte seqno, 2-byte magic |
| UdpServer.ReadTrailer | examples/rpl-hckim/udp-server.c:138-149 | the read ASN fits 64 bits and the seqno 32 bits |
| UdpServer.TrailerRoundTrip | examples/rpl-hckim/udp-server.c:138-310 | the receiver reads back the ASN and seqno the sender wrote, whatever precedes the trailer |
| UdpServer.DownSeqno | examples/rpl-hckim/udp-server.c:304 | the composed seqno is a 32-bit value |
| UdpServer.DownSeqnoDecodes | examples/rpl-hckim/udp-server.c:151-304 | for dest_id < 2^12 and count < 2^16 both fields decode back, and the receiver's key is the count |
| UdpServer.SenderId | examples/rpl-hckim/udp-server.c:140 | the sender id is bytes 14 and 15 of the source address, big-endian |
| UdpServer.AcceptsOutOfRangeIndex | examples/rpl-hckim/udp-server.c:141-146 | sender id 0 passes the check as written with index 65535, past every table |
| UdpServer.AcceptsExactlyNodeIds | examples/rpl-hckim/udp-server.c:141-146 | the corrected check accepts exactly the ids 1..NODE_NUM, each of which the original also accepts |
| UdpServer.Receiver.Init | examples/rpl-hckim/udp-server.c:44-57 | histories, rx counts and latency sums start at zero |
| UdpServer.Receiver.Receive | examples/rpl-hckim/udp-server.c:127-178 | with the corrected check: a duplicate key changes nothing; a new key is registered, the sender's uint16 rx count is incremented with wrap-around and the uint64 latency added modulo 2^64 |
| UdpServer.DownwardSender.Init | examples/rpl-hckim/udp-server.c:196-230 | dest_id starts at 2 and count at 1 |
| UdpServer.DownwardSender.CopyInto | examples/rpl-hckim/udp-server.c:307-310 | memcpy replaces exactly the bytes at the offset |
| UdpServer.DownwardSender.SendTimer | examples/rpl-hckim/udp-server.c:299-331 | while count <= max, the trailer goes at the end of the payload to dest_id, then dest_id cycles through 2..NODE_NUM and count increments only on the wrap; nothing happens afterwards |
| UdpServer.SentPayloadDecodes | examples/rpl-hckim/udp-server.c:138-310 | a node decodes the ASN and seqno the root sent, and the key is the round count |
| LittleEndian.LeRoundTrip | examples/rpl-hckim/udp-server.c:307-310 | reading back n little-endian bytes gives the value when it fits |
| TschState.KeepaliveScheduled | os/net/mac/tsch/tsch.c:1302-1312 | an immediate request always sets SEND_IMMEDIATELY; a normal one sets SCHEDULE_OR_STOP unless SEND_IMMEDIATELY is pending |
| TschState.ImmediateRequestSticks | os/net/mac/tsch/tsch.c:1302-1312 | after any series of requests a keep-alive is pending, immediate iff one request was |
| TschState.KaDelay | os/net/mac/tsch/tsch.c:1330-1337 | the delay lies in [t - t/10, t - 1] for t >= 10 and is t - 1 below |
| TschState.KeepaliveSent | os/net/mac/tsch/tsch.c:1274-1299 | the timer stops; an associated node with a time source sends it one keep-alive |
| TschState.KeepaliveProcessed | os/net/mac/tsch/tsch.c:1315-1354 | the status becomes UNCHANGED; only an associated non-coordinator sends or arms the timer, with KaDelay, and a zero timeout stops it |
| TschState.Disassociated | os/net/mac/tsch/tsch.c:1704-1711 | an associated node leaves and polls the main process; otherwise nothing changes |
| TschState.DisassociateIdempotent | os/net/mac/tsch/tsch.c:1704-1711 | leaving twice is leaving once |
| TschState.EbPeriodSet | os/net/mac/tsch/tsch.c:1118-1121 | the period becomes min(period, max EB period) |
| TschState.KaTimeoutSet | os/net/mac/tsch/tsch.c:1111-1115 | the timeout is stored and a normal keep-alive request is made |
| TschState.CoordinatorSet | os/net/mac/tsch/tsch.c:1089-1096 | changing role drops the association; the EB period returns to the default |
| TschState.CoordinatorStarted | os/net/mac/tsch/tsch.c:1682-1700 | associated with join priority 0, the configured PAN and the default hopping sequence |
| TschState.TimeSourceUpdated | os/net/mac/tsch/tsch.c:1134 | refused (unchanged) exactly when locked, the coordinator, or a new neighbour finds no room; otherwise the time source becomes the address, and a change sets the keep-alive timeout to TSCH_KEEPALIVE_TIMEOUT, or to 0 for none, and requests a keep-alive |
| TschState.ResetState | os/net/mac/tsch/tsch.c:1124-1200 | PAN 0xffff, join priority 0xff, ASN 0, no current link, null alternate EB neighbour, the EB period tsch_set_eb_period(TSCH_EB_PERIOD) sets, keep-alive UNCHANGED, hopping sequence and unicast seqno kept; unless locked or the coordinator, the time source is cleared, which sets the keep-alive timeout to 0 when there was one |
| TschState.Resynchronized | os/net/mac/tsch/tsch.c:1209-1239 | no change when the time source already moved; without an alternate it fails and leaves only when sync_count is 0; otherwise join priority (jp + 1) mod 256 and an immediate keep-alive, and the alternate becomes the time source with the keep-alive timeout re-armed unless the update is refused (locked, coordinator, neighbour table full) |
| TschState.KeepaliveDone | os/net/mac/tsch/tsch.c:1244-1270 | counts transmissions for OK and NOACK; a NOACK resynchronises, and a successful resynchronisation leaves an immediate keep-alive pending; a keep-alive is always pending afterwards |
| TschState.TimingAfterAssociate | os/net/mac/tsch/tsch.c:1771-1780 | the timing table takes the EB's timing (or the defaults for template 0) once the header is accepted, and is kept otherwise |
| TschState.Associated | os/net/mac/tsch/tsch.c:1715-1919 | an unparsed EB changes nothing; otherwise the EB's ASN and jp + 1 are taken before the checks |
| TschState.AssociatedAfterHeader | os/net/mac/tsch/tsch.c:1800-1893 | after the header checks, association succeeds iff the hopping sequence and link count fit, jp + 1 is below the maximum and the sender found room; a failure keeps association, time source, ASN and join priority |
| TschState.JoinStartsKeepalives | os/net/mac/tsch/tsch.c:1302-1354 | after associating to a new time source (unlocked, not the coordinator), the next keep-alive processing sends a pending immediate keep-alive to the sender, or else arms the timer with the keep-alive delay of TSCH_KEEPALIVE_TIMEOUT |
| TschState.AssociateAcceptsIff | os/net/mac/tsch/tsch.c:1722-1876 | association succeeds iff the EB parses, is unsecured, is from our PAN, has jp != 0xff, a hopping sequence and link count that fit, jp + 1 below the maximum, and the sender finds room |
| TschState.AssociateRejectionKeepsAssociation | os/net/mac/tsch/tsch.c:1722-1919 | a rejected EB leaves association and time source unchanged, though ASN and join priority were taken |
| TschState.AssociateSuccess | os/net/mac/tsch/tsch.c:1860-1893 | on success the node is associated one priority below the sender, with the EB's PAN, ASN and hopping sequence, zeroed statistics and a keep-alive pending; unless locked or the coordinator, the sender is the time source |
| TschState.Joined | os/net/mac/tsch/tsch.c:1862-1893 | the sender becomes the time source through tsch_queue_update_time_source (unless locked or the coordinator), re-arming the keep-alive timeout when it is a new one; its PAN becomes ours, statistics restart, a keep-alive is requested |
| TschState.AfterEbInput | os/net/mac/tsch/tsch.c:1357-1451 | the alternate EB neighbour is overwritten unless it is the time source; an EB from the time source whose ASN differs in the low 32 bits (TSCH_ASN_DIFF) or with too high a join priority disassociates; the hopping sequence becomes the time source's exactly when that EB carries a non-zero hopping-sequence ID and a sequence that fits, and otherwise stays |
| TschState.FollowedTimeSource | os/net/mac/tsch/tsch.c:1411-1451 | for an EB from the time source: leaves on an ASN drift in the low 32 bits or a join priority at the maximum, keeps association otherwise; the hopping sequence becomes the EB's iff its ID is non-zero and it fits, and otherwise stays |
| TschState.AsnDiffIgnoresHighByte | os/net/mac/tsch/tsch.c:1414 | ASNs 2^32 apart show no drift, and any drift means different ASNs |
| TschState.NextSeqno | os/net/mac/tsch/tsch.c:2288-2290 | the 8-bit increment skips 0 |
| TschState.SeqnoAfterCycles | os/net/mac/tsch/tsch.c:2288-2290 | from a non-zero start the seqnos cycle through 1..255 |
| TschState.SeqnosDistinct | os/net/mac/tsch/tsch.c:2288-2290 | 255 consecutive unicast frames carry pairwise different seqnos |
| TschState.AfterSend | os/net/mac/tsch/tsch.c:2273-2291 | an unassociated node drops the packet with MAC_TX_ERR; a unicast frame takes the next non-zero seqno; a broadcast leaves the state |
| TschState.EbDelayAsWritten | os/net/mac/tsch/tsch.c:2132-2138 | the delay as written is undefined exactly for 0 < p < 4 |
| TschState.EbDelayDividesByZero | os/net/mac/tsch/tsch.c:2132-2135 | the period setter accepts 3, for which the delay divides by zero |
| TschState.EbDelay | os/net/mac/tsch/tsch.c:2132-2138 | the corrected delay lies in [p - p/4, p - 1] for p >= 4 and agrees with the original there; p for 0 < p < 4; the default for 0 |
| TschState.TschMac.Init | os/net/mac/tsch/tsch.c:2173-2262 | the globals after tsch_init: the reset state with the default timing and a random seqno |
| TschState.TschMac.LoadTiming | os/net/mac/tsch/tsch.c:1141-1144 | the loop fills the timing table with the given values |
| TschState.TschMac.Reset | os/net/mac/tsch/tsch.c:1124-1200 | state becomes ResetState's and the timing table the defaults |
| TschState.TschMac.SetEbPeriod | os/net/mac/tsch/tsch.c:1118-1121 | state becomes EbPeriodSet's |
| TschState.TschMac.SetKaTimeout | os/net/mac/tsch/tsch.c:1111-1115 | state becomes KaTimeoutSet's |
| TschState.TschMac.SetCoordinator | os/net/mac/tsch/tsch.c:1089-1096 | state becomes CoordinatorSet's |
| TschState.TschMac.StartCoordinator | os/net/mac/tsch/tsch.c:1682-1700 | state becomes CoordinatorStarted's |
| TschState.TschMac.Disassociate | os/net/mac/tsch/tsch.c:1704-1711 | state becomes Disassociated's |
| TschState.TschMac.ScheduleKeepalive | os/net/mac/tsch/tsch.c:1302-1312 | state becomes KeepaliveScheduled's |
| TschState.TschMac.KeepaliveSend | os/net/mac/tsch/tsch.c:1274-1299 | state becomes KeepaliveSent's |
| TschState.TschMac.Join | os/net/mac/tsch/tsch.c:1862-1893 | state becomes Joined's |
| TschState.TschMac.Associate | os/net/mac/tsch/tsch.c:1715-1919 | state and result are Associated's, the timing table TimingAfterAssociate's |
| TschState.TschMac.AssociateAfterHeader | os/net/mac/tsch/tsch.c:1800-1893 | state and result are AssociatedAfterHeader's |
| TschState.TschMac.UpdateTimeSource | os/net/mac/tsch/tsch.c:1134 | state and result are TimeSourceUpdated's |
| TschState.TschMac.Resynchronize | os/net/mac/tsch/tsch.c:1209-1239 | state and result are Resynchronized's |
| TschState.TschMac.KeepalivePacketSent | os/net/mac/tsch/tsch.c:1244-1270 | state becomes KeepaliveDone's |
| TschState.TschMac.KeepaliveProcessPending | os/net/mac/tsch/tsch.c:1315-1354 | state becomes KeepaliveProcessed's |
| TschState.TschMac.EbInput | os/net/mac/tsch/tsch.c:1357-1451 | state becomes AfterEbInput's |
| TschState.TschMac.SendPacket | os/net/mac/tsch/tsch.c:2266-2291 | state and outcome are AfterSend's |
| Sla.QuantizeCovers | os/net/mac/tsch/tsch.c:737-776 | dequantising the level gives a length within one level above the original |
| Sla.QuantizeMonotone | os/net/mac/tsch/tsch.c:737-741 | longer frames never fall into a lower level |
| Sla.QuantizeLevel | os/net/mac/tsch/tsch.c:737-741 | without truncation the level is (len - 1) / 2^shift + 1 |
| Sla.RecordHops | os/net/mac/tsch/tsch.c:729-735 | the window keeps the larger of its maximum and the new hop count |
| Sla.ObservedHops | os/net/mac/tsch/tsch.c:857-868 | the larger of the two observed maxima, or the zero-hop offset when both are 0 |
| Sla.NextRefHops | os/net/mac/tsch/tsch.c:870-875 | the reference jumps up to the observed distance at once and otherwise drops by exactly one |
| Sla.RefHopsDecay | os/net/mac/tsch/tsch.c:870-875 | over k windows the reference drops by at most k and reaches any bound m on the observations |
| Sla.TriggeringAsn | os/net/mac/tsch/tsch.c:850-888 | without wrap the triggering ASN is the first multiple of the slotframe size strictly later than ASN + duration |
| Sla.TimeslotLengthValue | os/net/mac/tsch/tsch.c:892-912 | the new length is the default minus the unused part of the longest transmission |
| Sla.TimeslotLengthShortens | os/net/mac/tsch/tsch.c:892-912 | the new length never exceeds the default and equals it at maximal durations |
| Sla.TimeslotLengthMonotone | os/net/mac/tsch/tsch.c:892-912 | longer reference frames and ACKs never give a shorter timeslot |
| Sla.TopLevelIsHighest | os/net/mac/tsch/tsch.c:783-796 | the level found is the highest whose running total passes the percentile count; none iff no level does |
| Sla.RefCount | os/net/mac/tsch/tsch.c:783-784 | the percentile count never exceeds the window's frame count |
| Sla.ObservedWindowHasLevel | os/net/mac/tsch/tsch.c:778-800 | a window with frames and k >= 1 always has a passing level |
| Sla.Observations.constructor | os/net/mac/tsch/tsch.c:82-102 | all observation arrays start at zero, window 0 |
| Sla.Observations.RecordLen | os/net/mac/tsch/tsch.c:743-768 | exactly the level cell of the current window and its frame count increment (16-bit) |
| Sla.Observations.RecordMaxHops | os/net/mac/tsch/tsch.c:729-735 | only the current window's maximum changes, as RecordHops |
| Sla.Observations.CalculateNextRefLen | os/net/mac/tsch/tsch.c:778-848 | the loop returns the specified next reference length |
| Sla.Observations.AdvanceWindow | os/net/mac/tsch/tsch.c:1028-1043 | the window advances cyclically and only its histogram, count and hop maximum are cleared |
| TschPacket.Filled | os/net/mac/tsch/tsch-packet.c:565-585 | the IEs found overwrite the preset fields, the others keep the preset |
| TschPacket.ParseEbAccepts | os/net/mac/tsch/tsch-packet.c:531-594 | parse_eb fails exactly for a NULL frame, negative size, bad header, version before 2015, non-beacon type, missing MIC room or failed IE parse |
| TschPacket.EbWithoutSyncIeReportsMaxJoinPriority | os/net/mac/tsch/tsch-packet.c:565-568 | an accepted EB without a Synchronization IE reports join priority 0xff |
| TschPacket.ParseIesRegion | os/net/mac/tsch/tsch-packet.c:582 | the IE region is the buffer minus header and MIC, and the reported length adds what it consumed |
| TschPacket.ParseEackAccepts | os/net/mac/tsch/tsch-packet.c:254-315 | parse_eack accepts exactly a header of at least 3 octets, the expected seqno, our PAN, a destination that is us or null, and MIC room |
| TschPacket.EackWithoutTimeCorrectionIsZero | os/net/mac/tsch/tsch-packet.c:290-296 | without a Time Correction IE the drift is 0 and no NACK |
| TschPacket.TimeCorrectionRoundTrip | os/net/mac/tsch/tsch-packet.c:237-243 | a drift within 12 bits and the NACK flag survive the IE round trip |
| TschPacket.SyncRoundTrip | os/net/mac/tsch/tsch-packet.c:506-512 | the ASN and join priority survive the Synchronization IE round trip |
| TschPacket.Clear | os/net/mac/tsch/tsch-packet.c:204 | the buffer becomes all zeros |
| TschPacket.Write | os/net/mac/tsch/tsch-packet.c:237-249 | exactly the octets at the offset are replaced |
| TschPacket.CreateEack | os/net/mac/tsch/tsch-packet.c:129-250 | -1 for a NULL buffer or no room for the IE; otherwise the header, the Time Correction IE and zeros, and the length is header + IE |
| TschPacket.EackCarriesDrift | os/net/mac/tsch/tsch-packet.c:129-315 | the drift and NACK read back after the header of a created ACK are the ones written |
| TschPacket.EbContentOf | os/net/mac/tsch/tsch-packet.c:340-380 | under the three build flags: the timing IE (ID 1, this node's timing) iff TSCH_PACKET_EB_WITH_TIMESLOT_TIMING; the hopping sequence iff TSCH_PACKET_EB_WITH_HOPPING_SEQUENCE and it fits; the slotframe-and-link IE iff TSCH_PACKET_EB_WITH_SLOTFRAME_AND_LINK and slotframe 0 with a link at (0, 0) exist |
| TschPacket.OwnEbPassesContentChecks | os/net/mac/tsch/tsch-packet.c:340-380 | the EB a node builds, under any setting of the three flags, passes the hopping-sequence and link-count checks of association, and announces this node's timing exactly when the timing IE is built in |
| TschPacket.CreateEb | os/net/mac/tsch/tsch-packet.c:319-502 | an EB is built iff the framer succeeds and header, Payload IE header and IEs fit the buffer |
| TschPacket.CreatedEbSyncIeAtOffset | os/net/mac/tsch/tsch-packet.c:497-499 | the reported offset is header length + 2 and the Synchronization IE sits there |
| TschPacket.UpdateEb | os/net/mac/tsch/tsch-packet.c:506-512 | writes the Synchronization IE at the offset iff 8 octets fit, otherwise nothing |
| TschPacket.UpdatedEbAnnounces | os/net/mac/tsch/tsch-packet.c:497-512 | a created then updated EB announces the update's ASN and join priority and keeps everything else |
| TschPacket.SetPendingBitSets | os/net/mac/tsch/tsch-packet.c:598-608 | after tsch_packet_set_frame_pending, tsch_packet_get_frame_pending reads 1, and the other bits of the octet are unchanged |
| TschPacket.SetFramePending | os/net/mac/tsch/tsch-packet.c:598-601 | only octet 0 changes, to its value with bit 4 set |
| TschPacket.GetFramePending | os/net/mac/tsch/tsch-packet.c:605-608 | returns bit 4 of octet 0 |
| Orchestra.Dispatcher.constructor | os/services/orchestra/orchestra.c:181-201 | the flag is 0, the parent null, and each rule's non-NULL init is called once, in order |
| Orchestra.Dispatcher.Notify | os/services/orchestra/orchestra.c:103-125 | the call log grows by one call per rule with the callback, in rule order |
| Orchestra.Dispatcher.ChildAdded | os/services/orchestra/orchestra.c:103-113 | each non-NULL child_added is called once, in order, and the flag is unchanged |
| Orchestra.Dispatcher.ChildRemoved | os/services/orchestra/orchestra.c:115-125 | each non-NULL child_removed is called once, in order, and the flag is unchanged |
| Orchestra.Dispatcher.NewTimeSource | os/services/orchestra/orchestra.c:159-179 | the flag is cleared iff the time source changes, and the rules are told either way |
| Orchestra.Dispatcher.PacketSent | os/services/orchestra/orchestra.c:79-101 | the flag becomes 1 iff it was 0 and an acked DAO (not No-Path, with the HCK option) went to the non-null parent; it never becomes 0 |
| Orchestra.Dispatcher.PacketReady | os/services/orchestra/orchestra.c:127-157 | the loop returns the specified first match and values, starting from 0xffff |
| Orchestra.NotifiedOncePerRule | os/services/orchestra/orchestra.c:103-195 | each rule with the callback is called exactly once, the others never, in increasing rule order |
| Orchestra.DispatchIsFirstMatch | os/services/orchestra/orchestra.c:141-148 | the search returns the first rule whose select_packet takes the packet, -1 iff none does |
| Orchestra.PacketReadyIsFirstMatch | os/services/orchestra/orchestra.c:127-157 | packet_ready's index is the first matching rule, skipping NULL selectors, and -1 iff none matches |
| Orchestra.UnmatchedKeepsDefaults | os/services/orchestra/orchestra.c:132-154 | when selectors leave values alone on a miss, an unmatched packet keeps 0xffff |
| NodeInfo.IdOfUid | examples/rpl-hckim/node-info.c:171-181 | one more than the first row holding the uid, 0 iff none does, within [0, NODE_NUM] |
| NodeInfo.NodeIdFromUid | examples/rpl-hckim/node-info.c:171-181 | the search loop returns IdOfUid of the table's uid column |
| NodeInfo.SearchFinds | examples/rpl-hckim/node-info.c:175-178 | the first row holding the uid determines the id |
| NodeInfo.NodeIdFromLinkAddr | examples/rpl-hckim/node-info.c:202-207 | the id's high and low bytes are link-address bytes 6 and 7 |
| NodeInfo.NodeIdFromIpAddr | examples/rpl-hckim/node-info.c:195-200 | the id's high and low bytes are IPv6 address bytes 14 and 15 |
| NodeInfo.IpAndLinkIdsAgree | examples/rpl-hckim/node-info.c:195-207 | a node's IPv6 address built from its link address (section 6 of RFC 4944) gives the same id |

## Left out

- `tsch_schedule_get_subsequent_schedule` is not modelled: it reads an uninitialised array.
- The `WITH_OST_CEHCK` block (tsch-schedule.c:824-831) is not modelled: its misspelt guard makes it dead code.
- `ALICE_F_TIME_VARYING_SCHEDULING`, the ALICE link-option setter and ALICE's own add_link are not modelled: they depend on code that is not part of this model.
- `tsch_get_lock` and `tsch_release_lock` are one flag, and the slot operation that holds the lock from interrupt context is not modelled. With the lock held, `tsch_schedule_remove_slotframe` waits in C; the model returns failure.
- The neighbour queues (`tsch_queue_*`) are a map from address to Tx-link counters with a capacity, and the queued-packet count is the abstract function `queued`. The counters are unbounded naturals, so their 8-bit wrap is not modelled.
- `print_*` and logging are not modelled: they have no effect on state.
- Radio probing, the scan, send-EB and pending-events processes, and the slot operation are not modelled. Timers and `process_poll` are recorded as flags or timer states. `random_rand()` is a parameter.
- The schedule that `tsch_associate` installs from the EB's Slotframe and Link IE is not modelled. So are the adaptive time synchronisation and link-layer security (MIC computation and `tsch_security_*`). The security checks are kept as booleans.
- `TSCH_AUTOSELECT_TIME_SOURCE` is not modelled: it is off by default.
- TschPacket.EbContentOf takes the build flags `TSCH_PACKET_EB_WITH_TIMESLOT_TIMING`, `TSCH_PACKET_EB_WITH_HOPPING_SEQUENCE` and `TSCH_PACKET_EB_WITH_SLOTFRAME_AND_LINK` as the `EbOptions` parameter, because the header that sets them is not part of this model. The serialised EB (CreateEb) is an abstract framer output, so it does not depend on them.
- Calls out of the modelled functions that have no effect on the modelled state are not modelled: the `WITH_SLA` reset block of `tsch_reset` (tsch.c:1146-1174: the triggering ASN, the next timeslot length and the reference lengths), `TSCH_CALLBACK_LEAVING_NETWORK` (tsch.c:1184-1185), `TSCH_CALLBACK_JOINING_NETWORK` (tsch.c:1887-1888), and `link_stats_packet_sent` with `TSCH_CALLBACK_KA_SENT` (tsch.c:1248-1251).
- TimingAfterAssociate and TschMac.Associate model the default build: the `WITH_SLA` block of `tsch_associate` (tsch.c:1782-1799), which overwrites the timeslot length, `sla_triggering_asn` and `sla_next_timeslot_length` from the EB's SLA IEs, is not modelled, because those IEs are parsed by code that is not part of this model.
- TschState.AssociateAcceptsIff and AssociatedAfterHeader model `tsch_associate` with `TSCH_CHECK_TIME_AT_ASSOCIATION` at its default of 0. The block it enables (tsch.c:1815-1825) rejects an EB whose ASN is ahead of the ASN expected from the local clock. It is not modelled, because the model has no clock.
- tsch-queue.c is not part of this model. `tsch_queue_update_time_source` is modelled by TimeSourceUpdated after Contiki-NG's definition. Its other effects are not modelled: the neighbours' time-source flags, `tsch_stats_reset_neighbor_stats`, and the `TSCH_CALLBACK_NEW_TIME_SOURCE` call into Orchestra. Whether a new time source finds room in the neighbour table is a parameter. The MAC lock is the `locked` field, which only the slot operation and schedule updates take.
- The SLA branch of `eb_input` (tsch.c:1453-1494) is not modelled, because the SLA IEs it reads are parsed by code that is not part of this model. This covers the mismatch that disassociates, the adoption of the triggering ASN and next length, and rapid EB broadcasting (`sla_rapid_eb_broadcast`, `sla_packet_update_eb`).
- `sla_determine_next_timeslot_length_and_trig_asn` is modelled only through its parts: quantisation, percentile selection, hop decay, triggering ASN, timeslot length and window advance. Its debug output and rapid-EB start are not modelled.
- The three SLA histograms (broadcast, unicast and ACK) are one `Observations` class, instantiated per kind. The SLA constants are parameters.
- Sla.TriggeringAsn: its ensures states the rounding only when no 40-bit wrap occurs; the wrap itself is computed but not characterised. The common slotframe's size is a parameter: the model does not capture that `tsch_schedule_get_slotframe_by_handle` returns NULL while the schedule is locked or the slotframe is missing, which tsch.c:884-887 then dereferences.
- Sla.RecordLen: requires the quantised level to lie in the histogram. The C code indexes the array without a check.
- frame802154 and frame802154e-ie are not part of this model. Header parsing and the IE-list parser are abstract (an `IeParser` parameter and a `Header` record). The framer's output is an abstract byte string, and create_eb's encoder failures appear as missing header or buffer capacity.
- The OST piggyback in create_eack and create_eb, and the `WITH_UPA` and `WITH_OST` schedule fields, are not modelled: they depend on the uip-ds6 neighbour table, which is not part of this model.
- In udp-server.c the varying-PPM sender (`WITH_VARYING_PPM`) and the log reset are not modelled. The node table's rx count column is a sequence of uint16 counters, and the latency sums are computed modulo 2^64.
- UdpServer.Receiver.Receive: models the corrected index check; the check as written is modelled by `AcceptsAsWritten` (see Findings). It requires a datagram of at least 14 bytes; for a shorter one the C code reads before the start of the buffer, which the model does not capture.
- `print_node_info` is not modelled: it only logs.
- Orchestra rule bodies (`ORCHESTRA_RULES`) are not part of this model. Rules are callback records, `select_packet` is a function of the values it is handed, and the calls into the other callbacks are logged. `orchestra_parent_linkaddr` is written by the RPL parent-switch callback, which is not part of this model.
- `US_TO_RTIMERTICKS` and clock wraparound are not modelled: clocks are natural numbers.

## Findings

| source | as written | input that shows it | evidently intended | confidence | as-written member | corrected member |
|---|---|---|---|---|---|---|
| examples/rpl-hckim/udp-server.c:141-146 | the index check rejects only `sender_index == NODE_NUM` | a source address ending in 0x0000 (sender id 0, index 65535); also any id above NODE_NUM + 1 | reject every index of NODE_NUM or more before indexing the tables | high; not executed | UdpServer.AcceptsOutOfRangeIndex | UdpServer.AcceptsExactlyNodeIds |
| os/net/mac/tsch/tsch.c:2132-2135 | the EB delay takes `random_rand() % (period / 4)` for any positive period | `tsch_set_eb_period(3)`: 3 / 4 == 0, a remainder by zero | skip the random part when the period has no quarter | medium; not executed | TschState.EbDelayDividesByZero | TschState.EbDelay |
