/**
 * The application logic of the RPL root in examples/rpl-hckim/udp-server.c:
 * duplicate filtering of upward packets, the payload trailer (transmit ASN,
 * application seqno, magic) and the downward traffic generator.
 *
 * Multi-byte trailer fields are copied with memcpy on a little-endian
 * microcontroller, so they are little-endian byte strings here. uint16,
 * uint32 and uint64 arithmetic wraps and is written out modulo 2^16, 2^32
 * and 2^64.
 */
module UdpServer {
  import opened Wrappers
  import opened TschTypes
  import opened DuplicateWindow
  import opened LittleEndian

  const TWO_16: nat := 0x1_0000
  const TWO_32: nat := 0x1_0000_0000
  const TWO_64: nat := 0x1_0000_0000_0000_0000

  /** The byte length of the trailer: an 8-byte ASN, a 4-byte seqno and a 2-byte magic. */
  const TRAILER_LEN: nat := 14

  lemma Pow256Widths()
    ensures Pow256(2) == TWO_16 && Pow256(4) == TWO_32 && Pow256(8) == TWO_64
  {
    assert Pow256(2) == TWO_16;
    assert Pow256(4) == TWO_32;
    assert Pow256(6) == 0x1_0000_0000_0000;
  }

  /** The trailer the downward sender writes at the end of a payload of length len. */
  function Trailer(asn: nat, seqno: nat, magic: nat): (t: seq<uint8>)
    ensures |t| == TRAILER_LEN
  {
    LeBytes(asn, 8) + LeBytes(seqno, 4) + LeBytes(magic, 2)
  }

  /** What udp_rx_callback reads: the ASN from bytes [len-14, len-6), the seqno from [len-6, len-2). */
  function ReadTrailer(data: seq<uint8>): (r: (nat, nat))
    requires |data| >= TRAILER_LEN
    ensures r.0 < TWO_64 && r.1 < TWO_32
  {
    var n := |data|;
    Pow256Widths();
    (LeValue(data[n - 14..n - 6]), LeValue(data[n - 6..n - 2]))
  }

  /** The receiver reads back the ASN and seqno the sender wrote, whatever precedes the trailer. */
  lemma TrailerRoundTrip(body: seq<uint8>, asn: nat, seqno: nat, magic: nat)
    requires asn < TWO_64 && seqno < TWO_32
    ensures ReadTrailer(body + Trailer(asn, seqno, magic)) == (asn, seqno)
  {
    var data := body + Trailer(asn, seqno, magic);
    var n := |data|;
    assert data[n - 14..n - 6] == LeBytes(asn, 8);
    assert data[n - 6..n - 2] == LeBytes(seqno, 4);
    Pow256Widths();
    LeRoundTrip(asn, 8);
    LeRoundTrip(seqno, 4);
  }

  /** The downward seqno: (2 << 28) + (dest_id << 16) + count, in 32-bit arithmetic. */
  function DownSeqno(destId: nat, count: nat): (s: nat)
    ensures s < TWO_32
  {
    (0x2000_0000 + destId * TWO_16 + count) % TWO_32
  }

  /**
   * For a destination id below 2^12 and a count below 2^16 the fields do not
   * overlap: both decode back, and the receiver's key (the seqno modulo 2^16)
   * is the count.
   */
  lemma DownSeqnoDecodes(destId: nat, count: nat)
    requires destId < 0x1000 && count < TWO_16
    ensures DownSeqno(destId, count) % TWO_16 == count
    ensures (DownSeqno(destId, count) / TWO_16) % 0x1000 == destId
    ensures DownSeqno(destId, count) / 0x1000_0000 == 2
  {
    var s := 0x2000_0000 + destId * TWO_16 + count;
    assert s < TWO_32;
    assert s == (0x2000 + destId) * TWO_16 + count;
    assert s / TWO_16 == 0x2000 + destId;
  }

  /** sender_id - 1 in uint16 arithmetic: sender id 0 wraps to 65535. */
  function SenderIndex(senderId: uint16): (i: uint16) {
    (senderId + TWO_16 - 1) % TWO_16
  }

  /** The sender id of udp_rx_callback: the last two bytes of the IPv6 source address, big-endian. */
  function SenderId(addr: seq<uint8>): (id: uint16)
    requires |addr| == 16
    ensures id / 256 == addr[14] && id % 256 == addr[15]
  {
    addr[14] as int * 256 + addr[15] as int
  }

  /** The index check of udp_rx_callback as written: only sender_index == NODE_NUM is rejected. */
  predicate AcceptsAsWritten(senderId: uint16, nodeNum: nat) {
    SenderIndex(senderId) != nodeNum
  }

  /** Sender id 0 passes that check with index 65535, past the end of every history table. */
  lemma AcceptsOutOfRangeIndex(nodeNum: nat)
    requires nodeNum < 0xffff
    ensures AcceptsAsWritten(0, nodeNum) && SenderIndex(0) >= nodeNum
  {
  }

  /** The check the history tables need: the index lies below NODE_NUM. */
  predicate Accepts(senderId: uint16, nodeNum: nat) {
    SenderIndex(senderId) < nodeNum
  }

  /** Accepted sender ids are exactly 1..NODE_NUM, and each of them passes the check as written. */
  lemma AcceptsExactlyNodeIds(senderId: uint16, nodeNum: nat)
    requires nodeNum < 0xffff
    ensures Accepts(senderId, nodeNum) <==> 1 <= senderId <= nodeNum
    ensures Accepts(senderId, nodeNum) ==> AcceptsAsWritten(senderId, nodeNum)
  {
  }

  /** What udp_rx_callback did with an upward packet. */
  datatype RxOutcome = OutOfIndex | Duplicate(key: uint16) | Received(senderIndex: nat, key: uint16, latency: nat)

  /** The root's receive state: the duplicate histories, the rx counters and the latency sums. */
  class Receiver {
    const histories: SeqnoHistories
    /** iotlab_nodes[i][2]: packets received from node i + 1, a uint16. */
    var rxCounts: seq<uint16>
    /** lt_up_sum: summed ASN latency per node, a uint64. */
    var latencySums: seq<nat>

    ghost predicate Valid()
      reads this, histories
    {
      histories.Valid() && |rxCounts| == histories.nodeNum && |latencySums| == histories.nodeNum &&
      forall i :: 0 <= i < |latencySums| ==> latencySums[i] < TWO_64
    }

    constructor Init(nodeNum: nat, historyDepth: nat, ageLimit: nat)
      requires historyDepth > 0
      ensures Valid() && fresh(histories) && fresh(histories.seqnos) && histories.nodeNum == nodeNum
      ensures rxCounts == seq(nodeNum, _ => 0) && latencySums == seq(nodeNum, _ => 0)
    {
      histories := new SeqnoHistories.Init(nodeNum, historyDepth, ageLimit);
      rxCounts := seq(nodeNum, _ => 0);
      latencySums := seq(nodeNum, _ => 0);
    }

    /**
     * udp_rx_callback with the index check corrected to sender_index <
     * NODE_NUM: the trailer gives the transmit ASN and the seqno, whose low
     * 16 bits key the duplicate history of the sender; a new packet is
     * registered, counted (the uint16 counter wraps) and its latency (in
     * uint64 arithmetic) summed.
     */
    method Receive(senderAddr: seq<uint8>, data: seq<uint8>, rxAsn: nat, now: nat) returns (r: RxOutcome)
      requires Valid() && |senderAddr| == 16 && |data| >= TRAILER_LEN && rxAsn < TWO_64
      modifies this, histories.seqnos
      ensures Valid()
      ensures var id := SenderId(senderAddr);
        var key := ReadTrailer(data).1 % TWO_16;
        if !Accepts(id, histories.nodeNum) then
          r == OutOfIndex && unchanged(this) && unchanged(histories.seqnos)
        else
          var i := SenderIndex(id);
          if old(IsDup(histories.History(i), key, now, histories.maxAge)) then
            r == Duplicate(key) && unchanged(this) && unchanged(histories.seqnos)
          else
            var latency := (rxAsn + TWO_64 - ReadTrailer(data).0) % TWO_64;
            r == Received(i, key, latency) &&
            histories.History(i) == Registered(old(histories.History(i)), key, now) &&
            rxCounts == old(rxCounts)[i := (old(rxCounts)[i] as int + 1) % TWO_16] &&
            latencySums == old(latencySums)[i := (old(latencySums)[i] + latency) % TWO_64]
    {
      var (txAsn, seqno) := ReadTrailer(data);
      var senderId := SenderId(senderAddr);
      var senderIndex := SenderIndex(senderId);
      if senderIndex >= histories.nodeNum {
        return OutOfIndex;
      }
      var key := seqno % TWO_16;
      var dup := histories.IsDuplicateAt(senderIndex, key, now);
      if dup {
        return Duplicate(key);
      }
      histories.RegisterAt(senderIndex, key, now);
      var latency := (rxAsn + TWO_64 - txAsn) % TWO_64;
      rxCounts := rxCounts[senderIndex := (rxCounts[senderIndex] as int + 1) % TWO_16];
      latencySums := latencySums[senderIndex := (latencySums[senderIndex] + latency) % TWO_64];
      r := Received(senderIndex, key, latency);
    }
  }

  /**
   * The downward traffic generator of the root (DOWNWARD_TRAFFIC without
   * WITH_VARYING_PPM): each send timer addresses the next node, cycling
   * through ids 2..NODE_NUM; the round counter grows when the cycle wraps, and
   * sending stops after APP_DOWNWARD_MAX_TX rounds.
   */
  class DownwardSender {
    const nodeNum: nat
    const maxTx: nat
    /** app_payload, the static 128-byte buffer, and current_payload_len. */
    const payload: array<uint8>
    const payloadLen: nat
    const magic: uint16
    var destId: nat
    var count: nat

    ghost predicate Valid()
      reads this
    {
      nodeNum >= 2 && 2 <= destId <= nodeNum && count >= 1 &&
      TRAILER_LEN <= payloadLen <= payload.Length
    }

    /** dest_id starts at APP_ROOT_ID + 1 == 2 and count at 1. */
    constructor Init(nodes: nat, maxRounds: nat, len: nat, appMagic: uint16)
      requires nodes >= 2 && TRAILER_LEN <= len <= 128
      ensures Valid() && fresh(payload) && payload.Length == 128
      ensures nodeNum == nodes && maxTx == maxRounds && payloadLen == len && magic == appMagic
      ensures destId == 2 && count == 1
    {
      nodeNum, maxTx, payloadLen, magic := nodes, maxRounds, len, appMagic;
      payload := new uint8[128](_ => 0);
      destId, count := 2, 1;
    }

    /** memcpy of bytes into the payload at offset at. */
    method CopyInto(at: nat, bytes: seq<uint8>)
      requires at + |bytes| <= payload.Length
      modifies payload
      ensures payload[..] == old(payload[..at]) + bytes + old(payload[at + |bytes|..])
    {
      var k := 0;
      while k < |bytes|
        invariant 0 <= k <= |bytes|
        invariant payload[..] == old(payload[..at]) + bytes[..k] + old(payload[at + k..])
      {
        payload[at + k] := bytes[k];
        k := k + 1;
        assert bytes[..k] == bytes[..k - 1] + [bytes[k - 1]];
      }
    }

    /**
     * One expiry of send_timer: when rounds remain, the trailer (the ASN, the
     * composed seqno and the magic) is written at the end of the payload and
     * the payload goes to node dest_id; then dest_id advances, wrapping to 2
     * and starting a new round after NODE_NUM.
     */
    method SendTimer(asn: nat) returns (sent: Option<(nat, nat)>)
      requires Valid() && asn < TWO_64
      modifies this, payload
      ensures Valid()
      ensures old(count) > maxTx ==> sent == None && unchanged(this) && unchanged(payload)
      ensures old(count) <= maxTx ==>
        sent == Some((old(destId), DownSeqno(old(destId), old(count)))) &&
        payload[payloadLen - TRAILER_LEN..payloadLen] == Trailer(asn, DownSeqno(old(destId), old(count)), magic) &&
        payload[..payloadLen - TRAILER_LEN] == old(payload[..payloadLen - TRAILER_LEN]) &&
        (old(destId) < nodeNum ==> destId == old(destId) + 1 && count == old(count)) &&
        (old(destId) == nodeNum ==> destId == 2 && count == old(count) + 1)
    {
      if count > maxTx {
        return None;
      }
      var seqno := DownSeqno(destId, count);
      var at := payloadLen - TRAILER_LEN;
      ghost var before := payload[..at];
      CopyInto(at, LeBytes(asn, 8));
      CopyInto(at + 8, LeBytes(seqno, 4));
      CopyInto(at + 12, LeBytes(magic, 2));
      assert payload[..at] == before;
      assert payload[at..payloadLen] == Trailer(asn, seqno, magic);
      sent := Some((destId, seqno));
      destId := destId + 1;
      if destId > nodeNum {
        destId := 2;
        count := count + 1;
      }
    }
  }

  /**
   * What a node decodes from the payload the root sent: the ASN, and a seqno
   * whose low 16 bits are the round count (for ids below 2^12 and fewer than
   * 2^16 rounds).
   */
  lemma SentPayloadDecodes(payload: seq<uint8>, len: nat, asn: nat, destId: nat, count: nat, magic: nat)
    requires TRAILER_LEN <= len <= |payload| && asn < TWO_64
    requires payload[len - TRAILER_LEN..len] == Trailer(asn, DownSeqno(destId, count), magic)
    requires destId < 0x1000 && count < TWO_16
    ensures ReadTrailer(payload[..len]) == (asn, DownSeqno(destId, count))
    ensures ReadTrailer(payload[..len]).1 % TWO_16 == count
  {
    var data := payload[..len];
    assert data == data[..len - TRAILER_LEN] + Trailer(asn, DownSeqno(destId, count), magic);
    TrailerRoundTrip(data[..len - TRAILER_LEN], asn, DownSeqno(destId, count), magic);
    DownSeqnoDecodes(destId, count);
  }
}
