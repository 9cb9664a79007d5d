/**
 * The duplicate-sequence-number windows of os/net/mac/mac-sequence.c.
 *
 * In the per-sender build (HCK_MODIFIED_MAC_SEQNO_DUPLICATE_CHECK) every
 * sender has a fixed-depth history of (timestamp, seqno) pairs, most recent
 * first; the application copy in examples/rpl-hckim/udp-server.c uses the same
 * history. In the plain build one shared history holds (sender, timestamp,
 * seqno) triples. A lookup scans for the first matching entry and reports a
 * duplicate when that entry is young enough; registering moves the matching
 * entry (or, when there is none, evicts the oldest) so that the new pair
 * comes first.
 *
 * The stored seqno field is 8 bits wide while the incoming value is a 16-bit
 * packet attribute: the store keeps the low 8 bits, the comparison uses the
 * full value. Clocks are natural numbers; an age limit of 0 stands for the
 * build where SEQNO_MAX_AGE is 0 and the age check is compiled out.
 */
module DuplicateWindow {
  import opened Wrappers
  import opened TschTypes

  datatype SeqnoEntry = SeqnoEntry(timestamp: nat, seqno: uint8)

  /** An entry is recent enough when its age is at most maxAge (0: no age check). */
  predicate Fresh(timestamp: nat, now: nat, maxAge: nat) {
    maxAge == 0 || (timestamp <= now && now - timestamp <= maxAge)
  }

  /** The first of the first n entries holding the given seqno. */
  function FirstMatch(h: seq<SeqnoEntry>, seqno: int, n: nat): (r: Option<nat>)
    requires n <= |h|
    ensures r.None? <==> forall j :: 0 <= j < n ==> h[j].seqno != seqno
    ensures r.Some? ==> r.value < n && h[r.value].seqno == seqno && forall j :: 0 <= j < r.value ==> h[j].seqno != seqno
  {
    if n == 0 then None
    else
      var p := FirstMatch(h, seqno, n - 1);
      if p.Some? then p
      else if h[n - 1].seqno == seqno then Some(n - 1)
      else None
  }

  /** The verdict of the scan: the first entry with that seqno decides, by its age. */
  predicate IsDup(h: seq<SeqnoEntry>, seqno: int, now: nat, maxAge: nat) {
    var k := FirstMatch(h, seqno, |h|);
    k.Some? && Fresh(h[k.value].timestamp, now, maxAge)
  }

  /**
   * The history after the descending copy loop: position 0 gets e, positions
   * 1..m take the entries that were one place earlier, the rest stay.
   */
  function Shifted<T>(h: seq<T>, m: nat, e: T): (r: seq<T>)
    requires m < |h|
    ensures |r| == |h| && r[0] == e
    ensures forall p :: 1 <= p <= m ==> r[p] == h[p - 1]
    ensures forall p :: m < p < |h| ==> r[p] == h[p]
  {
    seq(|h|, p requires 0 <= p < |h| => if p == 0 then e else if p <= m then h[p - 1] else h[p])
  }

  /** Where the copy loop starts: the first match, or the last entry when there is none. */
  function ShiftEnd(h: seq<SeqnoEntry>, seqno: int): (m: nat)
    requires |h| > 0
    ensures m < |h|
  {
    var k := FirstMatch(h, seqno, |h|);
    if k.Some? then k.value else |h| - 1
  }

  /** The history after registering seqno at time now; the field keeps the low 8 bits. */
  function Registered(h: seq<SeqnoEntry>, seqno: uint16, now: nat): seq<SeqnoEntry>
    requires |h| > 0
  {
    Shifted(h, ShiftEnd(h, seqno), SeqnoEntry(now, seqno % 256))
  }

  /**
   * Registering moves the old copy of the seqno to the front, or, when there is
   * none, pushes the new pair in front and evicts the oldest; the depth stays.
   */
  lemma RegisteredMovesToFront(h: seq<SeqnoEntry>, seqno: uint16, now: nat)
    requires |h| > 0
    ensures var e := SeqnoEntry(now, seqno % 256);
      var k := FirstMatch(h, seqno, |h|);
      (k.Some? ==> Registered(h, seqno, now) == [e] + h[..k.value] + h[k.value + 1..]) &&
      (k.None? ==> Registered(h, seqno, now) == [e] + h[..|h| - 1])
  {
    var e := SeqnoEntry(now, seqno % 256);
    var m := ShiftEnd(h, seqno);
    ShiftedIsMove(h, m, e);
    assert h[|h|..] == [];
  }

  /** The copy loop moves entry m out and puts e in front, keeping the others in order. */
  lemma ShiftedIsMove<T>(h: seq<T>, m: nat, e: T)
    requires m < |h|
    ensures Shifted(h, m, e) == [e] + h[..m] + h[m + 1..]
  {
    var r := Shifted(h, m, e);
    var w := [e] + h[..m] + h[m + 1..];
    assert |w| == |r|;
    forall p | 0 <= p < |r| ensures r[p] == w[p] {
      if p == 0 {
      } else if p <= m {
        assert w[p] == h[..m][p - 1];
      } else {
        assert w[p] == h[m + 1..][p - 1 - m];
      }
    }
  }

  /** A seqno registered now is reported as a duplicate right away, as long as it fits in 8 bits. */
  lemma RegisterThenDuplicate(h: seq<SeqnoEntry>, seqno: uint16, now: nat, maxAge: nat)
    requires |h| > 0 && seqno < 256
    ensures IsDup(Registered(h, seqno, now), seqno, now, maxAge)
  {
    var r := Registered(h, seqno, now);
    assert FirstMatch(r, seqno, 1) == Some(0);
    FirstMatchFound(r, seqno, 0);
  }

  /** A seqno of 256 or more never matches an 8-bit field, so it is never a duplicate. */
  lemma WideSeqnoNeverDuplicate(h: seq<SeqnoEntry>, seqno: uint16, now: nat, maxAge: nat)
    requires seqno >= 256
    ensures !IsDup(h, seqno, now, maxAge)
  {
  }

  /** A match with no earlier match is the first match. */
  lemma FirstMatchFound(h: seq<SeqnoEntry>, seqno: int, i: nat)
    requires i < |h| && h[i].seqno == seqno && forall j :: 0 <= j < i ==> h[j].seqno != seqno
    ensures FirstMatch(h, seqno, |h|) == Some(i)
  {
    var r := FirstMatch(h, seqno, |h|);
    assert r.Some?;
    assert !(r.value < i) && !(i < r.value);
  }

  /**
   * received_seqnos of the per-sender build: one row of depth entries per
   * node, all zero at start. The application's app_up_received_seqnos has
   * the same shape.
   */
  class SeqnoHistories {
    const nodeNum: nat
    const depth: nat
    const maxAge: nat
    const seqnos: array2<SeqnoEntry>

    ghost predicate Valid()
      reads this
    {
      seqnos.Length0 == nodeNum && seqnos.Length1 == depth && depth > 0
    }

    /** The history of the sender with the given index, most recent first. */
    ghost function History(index: nat): (h: seq<SeqnoEntry>)
      reads this, seqnos
      requires Valid() && index < nodeNum
      ensures |h| == depth && forall j :: 0 <= j < depth ==> h[j] == seqnos[index, j]
    {
      seq(depth, j requires 0 <= j < depth reads seqnos => seqnos[index, j])
    }

    constructor Init(nodes: nat, historyDepth: nat, ageLimit: nat)
      requires historyDepth > 0
      ensures Valid() && fresh(seqnos)
      ensures nodeNum == nodes && depth == historyDepth && maxAge == ageLimit
      ensures forall i, j :: 0 <= i < nodes && 0 <= j < historyDepth ==> seqnos[i, j] == SeqnoEntry(0, 0)
    {
      nodeNum, depth, maxAge := nodes, historyDepth, ageLimit;
      seqnos := new SeqnoEntry[nodes, historyDepth]((_, _) => SeqnoEntry(0, 0));
    }

    /** The scan of app_up_sequence_is_duplicate and of the per-sender mac_sequence_is_duplicate. */
    method IsDuplicateAt(index: nat, seqno: uint16, now: nat) returns (dup: bool)
      requires Valid() && index < nodeNum
      ensures dup == IsDup(History(index), seqno, now, maxAge)
    {
      ghost var h := History(index);
      var i := 0;
      while i < depth
        invariant 0 <= i <= depth
        invariant forall j :: 0 <= j < i ==> h[j].seqno != seqno
      {
        if seqno == seqnos[index, i].seqno {
          FirstMatchFound(h, seqno, i);
          if maxAge == 0 {
            return true;
          }
          var timestamp := seqnos[index, i].timestamp;
          return timestamp <= now && now - timestamp <= maxAge;
        }
        i := i + 1;
      }
      return false;
    }

    /**
     * The search and descending copy loop of app_up_sequence_register_seqno
     * and of the per-sender mac_sequence_register_seqno; only the sender's own
     * row changes.
     */
    method RegisterAt(index: nat, seqno: uint16, now: nat)
      requires Valid() && index < nodeNum
      modifies seqnos
      ensures History(index) == Registered(old(History(index)), seqno, now)
      ensures forall r, j :: 0 <= r < nodeNum && r != index && 0 <= j < depth ==> seqnos[r, j] == old(seqnos[r, j])
    {
      ghost var h := History(index);
      var i := 0;
      while i < depth
        invariant 0 <= i <= depth
        invariant forall j :: 0 <= j < i ==> h[j].seqno != seqno
      {
        if seqno == seqnos[index, i].seqno {
          FirstMatchFound(h, seqno, i);
          i := i + 1;
          break;
        }
        i := i + 1;
      }
      ghost var m := i - 1;
      assert m == ShiftEnd(h, seqno);
      var j := i - 1;
      while j > 0
        invariant 0 <= j <= m < depth
        invariant forall p :: 0 <= p <= j ==> seqnos[index, p] == h[p]
        invariant forall p :: j < p <= m ==> seqnos[index, p] == h[p - 1]
        invariant forall p :: m < p < depth ==> seqnos[index, p] == h[p]
        invariant forall r, q :: 0 <= r < nodeNum && r != index && 0 <= q < depth ==> seqnos[r, q] == old(seqnos[r, q])
      {
        seqnos[index, j] := seqnos[index, j - 1];
        j := j - 1;
      }
      seqnos[index, 0] := SeqnoEntry(now, seqno % 256);
      assert History(index) == Registered(h, seqno, now);
    }

    /** The per-sender mac_sequence_is_duplicate: a sender id outside 1..NODE_NUM counts as a duplicate. */
    method IsDuplicate(senderId: int, seqno: uint16, now: nat) returns (dup: bool)
      requires Valid()
      ensures !(0 < senderId <= nodeNum) ==> dup
      ensures 0 < senderId <= nodeNum ==> dup == IsDup(History(senderId - 1), seqno, now, maxAge)
    {
      if !(0 < senderId <= nodeNum) {
        return true;
      }
      dup := IsDuplicateAt(senderId - 1, seqno, now);
    }

    /** The per-sender mac_sequence_register_seqno: nothing happens for a sender id outside 1..NODE_NUM. */
    method RegisterSeqno(senderId: int, seqno: uint16, now: nat)
      requires Valid()
      modifies seqnos
      ensures !(0 < senderId <= nodeNum) ==> unchanged(seqnos)
      ensures 0 < senderId <= nodeNum ==>
        History(senderId - 1) == Registered(old(History(senderId - 1)), seqno, now) &&
        forall r, j :: 0 <= r < nodeNum && r != senderId - 1 && 0 <= j < depth ==> seqnos[r, j] == old(seqnos[r, j])
    {
      if 0 < senderId <= nodeNum {
        RegisterAt(senderId - 1, seqno, now);
      }
    }
  }

  /** An entry of the shared history of the plain build. */
  datatype SenderEntry = SenderEntry(sender: LinkAddr, timestamp: nat, seqno: uint8)

  /** The first of the first n entries from the given sender. */
  function FirstOfSender(h: seq<SenderEntry>, a: LinkAddr, n: nat): (r: Option<nat>)
    requires n <= |h|
    ensures r.None? <==> forall j :: 0 <= j < n ==> h[j].sender != a
    ensures r.Some? ==> r.value < n && h[r.value].sender == a && forall j :: 0 <= j < r.value ==> h[j].sender != a
  {
    if n == 0 then None
    else
      var p := FirstOfSender(h, a, n - 1);
      if p.Some? then p
      else if h[n - 1].sender == a then Some(n - 1)
      else None
  }

  /** Only the sender's first entry is looked at: it must hold the seqno and be young enough. */
  predicate SharedIsDup(h: seq<SenderEntry>, a: LinkAddr, seqno: int, now: nat, maxAge: nat) {
    var k := FirstOfSender(h, a, |h|);
    k.Some? && h[k.value].seqno == seqno && Fresh(h[k.value].timestamp, now, maxAge)
  }

  /** The shared history after registering: the sender's entry, or the last one, moves to the front. */
  function SharedRegistered(h: seq<SenderEntry>, a: LinkAddr, seqno: uint16, now: nat): seq<SenderEntry>
    requires |h| > 0
  {
    var k := FirstOfSender(h, a, |h|);
    Shifted(h, if k.Some? then k.value else |h| - 1, SenderEntry(a, now, seqno % 256))
  }

  lemma FirstOfSenderFound(h: seq<SenderEntry>, a: LinkAddr, i: nat)
    requires i < |h| && h[i].sender == a && forall j :: 0 <= j < i ==> h[j].sender != a
    ensures FirstOfSender(h, a, |h|) == Some(i)
  {
    var r := FirstOfSender(h, a, |h|);
    assert r.Some?;
    assert !(r.value < i) && !(i < r.value);
  }

  /** After registering, the sender's own entry comes first and reports the seqno (when it fits in 8 bits). */
  lemma SharedRegisterThenDuplicate(h: seq<SenderEntry>, a: LinkAddr, seqno: uint16, now: nat, maxAge: nat)
    requires |h| > 0 && seqno < 256
    ensures FirstOfSender(SharedRegistered(h, a, seqno, now), a, |h|) == Some(0)
    ensures SharedIsDup(SharedRegistered(h, a, seqno, now), a, seqno, now, maxAge)
  {
    FirstOfSenderFound(SharedRegistered(h, a, seqno, now), a, 0);
  }

  /**
   * Registering for one sender leaves another sender's first entry in place
   * (one position later), unless that entry was the last one and was evicted.
   */
  lemma SharedRegisterKeepsOthers(h: seq<SenderEntry>, a: LinkAddr, b: LinkAddr, seqno: uint16, now: nat)
    requires |h| > 0 && a != b
    requires FirstOfSender(h, b, |h|).Some?
    requires FirstOfSender(h, a, |h|).Some? || FirstOfSender(h, b, |h|).value < |h| - 1
    ensures var r := SharedRegistered(h, a, seqno, now);
      var k := FirstOfSender(r, b, |r|);
      k.Some? && r[k.value] == h[FirstOfSender(h, b, |h|).value]
  {
    var r := SharedRegistered(h, a, seqno, now);
    var kb := FirstOfSender(h, b, |h|).value;
    var ka := FirstOfSender(h, a, |h|);
    var m := if ka.Some? then ka.value else |h| - 1;
    if kb < m {
      FirstOfSenderFound(r, b, kb + 1);
    } else {
      assert kb > m;
      FirstOfSenderFound(r, b, kb);
    }
  }

  /** received_seqnos of the plain build: MAX_SEQNOS (sender, timestamp, seqno) entries, all zero at start. */
  class SharedHistory {
    const depth: nat
    const maxAge: nat
    const entries: array<SenderEntry>

    ghost predicate Valid()
      reads this
    {
      entries.Length == depth && depth > 0
    }

    constructor Init(historyDepth: nat, ageLimit: nat)
      requires historyDepth > 0
      ensures Valid() && fresh(entries) && depth == historyDepth && maxAge == ageLimit
      ensures forall j :: 0 <= j < historyDepth ==> entries[j] == SenderEntry(NullAddr, 0, 0)
    {
      depth, maxAge := historyDepth, ageLimit;
      entries := new SenderEntry[historyDepth](_ => SenderEntry(NullAddr, 0, 0));
    }

    /** mac_sequence_is_duplicate of the plain build. */
    method IsDuplicate(sender: LinkAddr, seqno: uint16, now: nat) returns (dup: bool)
      requires Valid()
      ensures dup == SharedIsDup(entries[..], sender, seqno, now, maxAge)
    {
      var i := 0;
      while i < depth
        invariant 0 <= i <= depth
        invariant forall j :: 0 <= j < i ==> entries[j].sender != sender
      {
        if entries[i].sender == sender {
          FirstOfSenderFound(entries[..], sender, i);
          if seqno == entries[i].seqno {
            if maxAge == 0 {
              return true;
            }
            if entries[i].timestamp <= now && now - entries[i].timestamp <= maxAge {
              return true;
            }
          }
          break;
        }
        i := i + 1;
      }
      return false;
    }

    /** mac_sequence_register_seqno of the plain build. */
    method RegisterSeqno(sender: LinkAddr, seqno: uint16, now: nat)
      requires Valid()
      modifies entries
      ensures entries[..] == SharedRegistered(old(entries[..]), sender, seqno, now)
    {
      ghost var h := entries[..];
      var i := 0;
      while i < depth
        invariant 0 <= i <= depth
        invariant forall j :: 0 <= j < i ==> h[j].sender != sender
      {
        if entries[i].sender == sender {
          FirstOfSenderFound(h, sender, i);
          i := i + 1;
          break;
        }
        i := i + 1;
      }
      ghost var m := i - 1;
      var j := i - 1;
      while j > 0
        invariant 0 <= j <= m < depth
        invariant forall p :: 0 <= p <= j ==> entries[p] == h[p]
        invariant forall p :: j < p <= m ==> entries[p] == h[p - 1]
        invariant forall p :: m < p < depth ==> entries[p] == h[p]
      {
        entries[j] := entries[j - 1];
        j := j - 1;
      }
      entries[0] := SenderEntry(sender, now, seqno % 256);
      assert entries[..] == SharedRegistered(h, sender, seqno, now);
    }
  }
}
