/**
 * The integer helpers of the slot-length adaptation (WITH_SLA) in
 * os/net/mac/tsch/tsch.c: frame lengths are quantised into levels of
 * 2^shift bytes, the reference hop distance follows the observed one up at
 * once and down by one hop per window, and a new timeslot length takes effect
 * at the first slotframe boundary after the expected propagation time.
 *
 * SLA_SHIFT_BITS, SLA_ZERO_HOP_DISTANCE_OFFSET, SLA_TRIGGERING_ASN_INCREMENT,
 * SLA_TRIGGERING_ASN_MULTIPLIER and ORCHESTRA_CONF_EBSF_PERIOD are build-time
 * constants defined outside this model, so they are parameters here.
 */
module Sla {
  import opened Wrappers
  import opened TschTypes
  import opened SlotSelector

  function Pow2(n: nat): (p: nat)
    ensures p >= 1
  {
    if n == 0 then 1 else 2 * Pow2(n - 1)
  }

  /**
   * sla_quantize_frame_len_with_radio_phy_overhead: ((len - 1) >> shift) + 1,
   * returned as a uint8.
   */
  function Quantize(len: nat, shift: nat): (q: uint8)
    requires len >= 1
  {
    ((len - 1) / Pow2(shift) + 1) % 256
  }

  /** sla_get_frame_len_with_radio_phy_overhead: q << shift, returned as a uint8. */
  function Dequantize(q: uint8, shift: nat): (len: uint8) {
    (q * Pow2(shift)) % 256
  }

  /**
   * The level a length is quantised to is the smallest one whose length covers
   * it: dequantising gives back a length within one level above the original
   * (as long as that length fits the 8-bit result).
   */
  lemma QuantizeCovers(len: nat, shift: nat)
    requires 1 <= len && len + Pow2(shift) <= 256
    ensures Dequantize(Quantize(len, shift), shift) - Pow2(shift) < len <= Dequantize(Quantize(len, shift), shift)
  {
    var p := Pow2(shift);
    QuantizeLevel(len, shift);
    LevelFits(len - 1, p);
    SmallMod(((len - 1) / p + 1) * p, 256);
  }

  /** Longer frames never fall into a lower level. */
  lemma QuantizeMonotone(a: nat, b: nat, shift: nat)
    requires 1 <= a <= b && b + Pow2(shift) <= 256
    ensures Quantize(a, shift) <= Quantize(b, shift)
  {
    QuantizeLevel(a, shift);
    QuantizeLevel(b, shift);
    DivMono(a - 1, b - 1, Pow2(shift));
  }

  /** Without 8-bit truncation the level is (len - 1) / 2^shift + 1. */
  lemma QuantizeLevel(len: nat, shift: nat)
    requires 1 <= len && len + Pow2(shift) <= 256
    ensures Quantize(len, shift) == (len - 1) / Pow2(shift) + 1
  {
    LevelFits(len - 1, Pow2(shift));
    SmallMod((len - 1) / Pow2(shift) + 1, 256);
  }

  /** x / p + 1 levels of p bytes cover x + 1 bytes and fit in 8 bits. */
  lemma LevelFits(x: nat, p: nat)
    requires p >= 1 && x + 1 + p <= 256
    ensures 0 <= x / p && x / p + 1 < 256
    ensures (x / p + 1) * p - p <= x < (x / p + 1) * p < 256
  {
    DivBounds(x, p);
    LevelBound(x, p, x / p);
  }

  lemma LevelBound(x: nat, p: nat, d: nat)
    requires p >= 1 && x + 1 + p <= 256 && d * p <= x < d * p + p
    ensures d + 1 < 256
    ensures (d + 1) * p - p <= x < (d + 1) * p < 256
  {
    MulSucc(d, p);
    if d + 1 >= 256 {
      MulMono(256, d + 1, p);
    }
  }

  lemma SmallMod(x: int, m: int)
    requires 0 <= x < m
    ensures x % m == x
  {
  }

  lemma MulMono(a: nat, b: nat, p: nat)
    requires a <= b
    ensures a * p <= b * p
  {
  }

  lemma MulSucc(d: nat, p: nat)
    ensures (d + 1) * p == d * p + p
  {
  }

  lemma DivBounds(x: nat, p: nat)
    requires p >= 1
    ensures 0 <= x / p && (x / p) * p <= x < (x / p) * p + p
  {
  }

  lemma DivMono(x: nat, y: nat, p: nat)
    requires x <= y && p >= 1
    ensures x / p <= y / p
  {
    DivBounds(x, p);
    DivBounds(y, p);
    QuotientMono(x, y, p, x / p, y / p);
  }

  lemma QuotientMono(x: nat, y: nat, p: nat, qx: nat, qy: nat)
    requires p >= 1 && qx * p <= x <= y < qy * p + p
    ensures qx <= qy
  {
    if qx > qy {
      MulMono(qy + 1, qx, p);
      MulSucc(qy, p);
    }
  }

  /**
   * x + (p - x % p) is the first multiple of p strictly above x.
   */
  lemma RoundUp(x: nat, p: nat)
    requires p >= 1
    ensures (x + (p - x % p)) % p == 0
    ensures x < x + (p - x % p) <= x + p
    ensures forall b: nat {:trigger b % p} :: b % p == 0 && x < b ==> x + (p - x % p) <= b
  {
    var k := x / p;
    DivBounds(x, p);
    MulSucc(k, p);
    assert x + (p - x % p) == (k + 1) * p;
    ModUnique((k + 1) * p, p, k + 1, 0);
    forall b: nat | b % p == 0 && x < b
      ensures x + (p - x % p) <= b
    {
      DivBounds(b, p);
      assert b == (b / p) * p;
      if b / p <= k {
        MulMono(b / p, k, p);
      }
      MulMono(k + 1, b / p, p);
    }
  }

  /** sla_record_max_hop_distance: the window keeps the largest hop count seen. */
  function RecordHops(windowMax: uint16, hops: uint8): (r: uint16)
    ensures r >= windowMax && r >= hops
    ensures r == windowMax || r == hops
  {
    if hops > windowMax then hops else windowMax
  }

  /**
   * The hop distance observed in a window: the larger of the TTL-based and
   * the DAO-based maxima, or the zero-hop offset when both are 0.
   */
  function ObservedHops(ttlMax: uint16, daoMax: uint16, zeroOffset: uint16): (h: uint16)
    ensures (ttlMax != 0 || daoMax != 0) ==> h >= ttlMax && h >= daoMax && (h == ttlMax || h == daoMax)
    ensures ttlMax == 0 && daoMax == 0 ==> h == zeroOffset
  {
    var m := if ttlMax >= daoMax then ttlMax else daoMax;
    if m != 0 then m else zeroOffset
  }

  /**
   * The reference hop distance for the next window: raised to the observed
   * distance at once, lowered by at most one hop, never below the observed
   * distance.
   */
  function NextRefHops(ref: uint16, observed: uint16): (r: uint16)
    ensures r >= observed
    ensures ref <= observed ==> r == observed
    ensures ref > observed ==> r == ref - 1
  {
    if ref <= observed then observed
    else if ref - 1 >= observed then ref - 1 else observed
  }

  /** The reference hop distance after a series of windows, oldest first. */
  function RefHopsAfter(ref: uint16, observed: seq<uint16>): uint16 {
    if observed == [] then ref
    else NextRefHops(RefHopsAfter(ref, observed[..|observed| - 1]), observed[|observed| - 1])
  }

  /**
   * Over k windows whose observed distance stays at most m, the reference
   * drops by at most one hop per window and reaches m (or less) after
   * ref - m windows.
   */
  lemma {:induction false} RefHopsDecay(ref: uint16, observed: seq<uint16>, m: uint16)
    requires forall i :: 0 <= i < |observed| ==> observed[i] <= m
    ensures RefHopsAfter(ref, observed) >= ref - |observed|
    ensures RefHopsAfter(ref, observed) <= if ref - |observed| >= m then ref - |observed| else m
  {
    if observed != [] {
      var init := observed[..|observed| - 1];
      RefHopsDecay(ref, init, m);
    }
  }

  /** The number of timeslots the new length waits for: (hops + increment) * EB period * multiplier, as a uint16. */
  function PropagationDuration(refHops: uint16, increment: nat, ebPeriod: nat, multiplier: nat): (d: uint16) {
    ((refHops + increment) * ebPeriod * multiplier) % 0x1_0000
  }

  /**
   * sla_calculate_triggering_asn: the current ASN plus the propagation
   * duration, rounded up to the next multiple of the common slotframe size
   * (a full slotframe further when it already is one); ASN increments wrap at
   * 40 bits. Without wrap-around the result is the first slotframe boundary
   * strictly after current + duration.
   */
  function TriggeringAsn(current: Asn, duration: uint16, size: uint16): (t: Asn)
    requires size > 0
    ensures current + duration + size < ASN_LIMIT ==>
      t % size == 0 && current + duration < t <= current + duration + size &&
      forall b: nat {:trigger b % size} :: b % size == 0 && current + duration < b ==> t <= b
  {
    var t0 := (current + duration) % ASN_LIMIT;
    var t := t0 + (size - t0 % size);
    if current + duration + size < ASN_LIMIT then
      ModUnique(current + duration, ASN_LIMIT, 0, current + duration);
      RoundUp(t0, size);
      ModUnique(t, ASN_LIMIT, 0, t);
      t % ASN_LIMIT
    else
      t % ASN_LIMIT
  }

  function Min(a: nat, b: nat): nat { if a <= b then a else b }
  function Max(a: nat, b: nat): nat { if a >= b then a else b }

  /**
   * sla_calculate_timeslot_length: the default timeslot length shortened by
   * the gap between the longest possible transmission (max Tx + Tx-ACK delay
   * + max ACK) and the longer of the reference broadcast and unicast
   * transmissions, every intermediate stored as a uint16. The durations of the
   * reference lengths (SLA_CALCULATE_DURATION) are inputs.
   */
  function TimeslotLength(bcDur: nat, ucDur: nat, ackDur: nat, maxTx: uint16, maxAck: uint16,
                          txAckDelay: uint16, defaultLen: uint16): (len: uint16)
  {
    var bc := Min(bcDur, maxTx);
    var uc := Min(ucDur, maxTx);
    var ack := Min(ackDur, maxAck);
    var ucTx := (uc + txAckDelay + ack) % 0x1_0000;
    var longer := Max(bc, ucTx);
    var maxDur := (maxTx + txAckDelay + maxAck) % 0x1_0000;
    var diff := (maxDur - longer) % 0x1_0000;
    (defaultLen - diff) % 0x1_0000
  }

  /**
   * When the longest transmission fits 16 bits and the default timeslot
   * covers it, the new timeslot is the default minus the unused part of the
   * longest transmission.
   */
  lemma TimeslotLengthValue(bcDur: nat, ucDur: nat, ackDur: nat, maxTx: uint16, maxAck: uint16,
                            txAckDelay: uint16, defaultLen: uint16)
    requires maxTx + txAckDelay + maxAck < 0x1_0000 && maxTx + txAckDelay + maxAck <= defaultLen
    ensures var longer := Max(Min(bcDur, maxTx), Min(ucDur, maxTx) + txAckDelay + Min(ackDur, maxAck));
      TimeslotLength(bcDur, ucDur, ackDur, maxTx, maxAck, txAckDelay, defaultLen)
        == defaultLen - (maxTx + txAckDelay + maxAck) + longer
  {
    var maxDur := maxTx + txAckDelay + maxAck;
    var ucTx := Min(ucDur, maxTx) + txAckDelay + Min(ackDur, maxAck);
    var longer := Max(Min(bcDur, maxTx), ucTx);
    SmallMod(ucTx, 0x1_0000);
    SmallMod(maxDur, 0x1_0000);
    SmallMod(maxDur - longer, 0x1_0000);
    SmallMod(defaultLen - (maxDur - longer), 0x1_0000);
  }

  /**
   * Under the same conditions the new timeslot is never longer than the
   * default, and equals it when the reference frame and ACK need the maximum
   * durations.
   */
  lemma TimeslotLengthShortens(bcDur: nat, ucDur: nat, ackDur: nat, maxTx: uint16, maxAck: uint16,
                               txAckDelay: uint16, defaultLen: uint16)
    requires maxTx + txAckDelay + maxAck < 0x1_0000 && maxTx + txAckDelay + maxAck <= defaultLen
    ensures TimeslotLength(bcDur, ucDur, ackDur, maxTx, maxAck, txAckDelay, defaultLen) <= defaultLen
    ensures ucDur >= maxTx && ackDur >= maxAck ==>
      TimeslotLength(bcDur, ucDur, ackDur, maxTx, maxAck, txAckDelay, defaultLen) == defaultLen
  {
    TimeslotLengthValue(bcDur, ucDur, ackDur, maxTx, maxAck, txAckDelay, defaultLen);
  }

  /** Longer reference frames and ACKs never give a shorter timeslot. */
  lemma TimeslotLengthMonotone(bcDur: nat, ucDur: nat, ackDur: nat, bcDur': nat, ucDur': nat, ackDur': nat,
                               maxTx: uint16, maxAck: uint16, txAckDelay: uint16, defaultLen: uint16)
    requires maxTx + txAckDelay + maxAck < 0x1_0000 && maxTx + txAckDelay + maxAck <= defaultLen
    requires bcDur <= bcDur' && ucDur <= ucDur' && ackDur <= ackDur'
    ensures TimeslotLength(bcDur, ucDur, ackDur, maxTx, maxAck, txAckDelay, defaultLen)
         <= TimeslotLength(bcDur', ucDur', ackDur', maxTx, maxAck, txAckDelay, defaultLen)
  {
    TimeslotLengthValue(bcDur, ucDur, ackDur, maxTx, maxAck, txAckDelay, defaultLen);
    TimeslotLengthValue(bcDur', ucDur', ackDur', maxTx, maxAck, txAckDelay, defaultLen);
  }

  /**
   * The running total of the histogram levels i.. (from the top level down),
   * in the uint16 accumulator of sla_calculate_next_ref_*.
   */
  function Accum(c: seq<uint16>, i: nat): uint16
    requires i <= |c|
    decreases |c| - i
  {
    if i == |c| then 0 else (Accum(c, i + 1) + c[i]) % 0x1_0000
  }

  /** Level i is where the running total first passes the percentile count. */
  predicate Exceeds(c: seq<uint16>, ref: nat, i: nat)
    requires i < |c|
  {
    Accum(c, i) != 0 && Accum(c, i) > ref
  }

  /** The highest level below n whose running total passes ref, if any. */
  function TopLevel(c: seq<uint16>, ref: nat, n: nat): (r: Option<nat>)
    requires n <= |c|
    ensures r.Some? ==> r.value < n
  {
    if n == 0 then None
    else if Exceeds(c, ref, n - 1) then Some(n - 1)
    else TopLevel(c, ref, n - 1)
  }

  /** TopLevel finds exactly the highest passing level below n, and None only when no level passes. */
  lemma {:induction false} TopLevelIsHighest(c: seq<uint16>, ref: nat, n: nat)
    requires n <= |c|
    ensures TopLevel(c, ref, n).Some? ==>
      Exceeds(c, ref, TopLevel(c, ref, n).value) &&
      forall j :: TopLevel(c, ref, n).value < j < n ==> !Exceeds(c, ref, j)
    ensures TopLevel(c, ref, n).None? <==> forall j :: 0 <= j < n ==> !Exceeds(c, ref, j)
  {
    if n > 0 && !Exceeds(c, ref, n - 1) {
      TopLevelIsHighest(c, ref, n - 1);
    }
  }

  /** The percentile count: the window's frame count times (100 - k) / 100, which fits its uint16. */
  function RefCount(count: uint16, kth: nat): (r: uint16)
    requires kth <= 100
    ensures r <= count
  {
    count * (100 - kth) / 100
  }

  /**
   * The next reference length: the length of the highest level at which the
   * levels from the top account for more than the percentile count; level 0
   * when only the full total is positive; the current reference when the
   * window saw no frame.
   */
  function NextRefLen(c: seq<uint16>, count: uint16, kth: nat, current: uint8, shift: nat): (len: uint8)
    requires kth <= 100
  {
    match TopLevel(c, RefCount(count, kth), |c|)
    case Some(i) => Dequantize(i % 256, shift)
    case None => if Accum(c, 0) > 0 then Dequantize(0, shift) else current
  }

  /**
   * When the window's frame count matches its histogram and is positive, and
   * k is at least 1, some level passes the percentile count, so the reference
   * follows the observations rather than the current value.
   */
  lemma ObservedWindowHasLevel(c: seq<uint16>, count: uint16, kth: nat)
    requires 1 <= kth <= 100 && |c| > 0 && count > 0 && Accum(c, 0) == count
    ensures TopLevel(c, RefCount(count, kth), |c|).Some?
  {
    assert RefCount(count, kth) < count;
    assert Exceeds(c, RefCount(count, kth), 0);
    TopLevelIsHighest(c, RefCount(count, kth), |c|);
  }

  /**
   * The frame-length observations of the SLA coordinator: per window, a
   * histogram of quantised lengths, a frame count and the largest hop
   * distance seen. The broadcast, unicast and ACK histograms of the source
   * are three copies of the same code; one instance models one of them.
   */
  class Observations {
    const windows: nat
    const levels: nat
    const lengths: array2<uint16>
    const counts: array<uint16>
    const maxHops: array<uint16>
    var window: nat

    predicate Valid()
      reads this
    {
      lengths.Length0 == windows && lengths.Length1 == levels &&
      counts.Length == windows && maxHops.Length == windows && counts != maxHops &&
      window < windows
    }

    /** The histogram of window w. */
    function Row(w: nat): (r: seq<uint16>)
      requires Valid() && w < windows
      reads this, lengths
      ensures |r| == levels && forall j :: 0 <= j < levels ==> r[j] == lengths[w, j]
    {
      seq(levels, j requires 0 <= j < levels reads lengths => lengths[w, j])
    }

    /** The statically zeroed observation arrays, starting at window 0. */
    constructor (windows: nat, levels: nat)
      requires windows > 0
      ensures Valid() && this.windows == windows && this.levels == levels && window == 0
      ensures fresh(lengths) && fresh(counts) && fresh(maxHops)
      ensures forall w, j :: 0 <= w < windows && 0 <= j < levels ==> lengths[w, j] == 0
      ensures forall w :: 0 <= w < windows ==> counts[w] == 0 && maxHops[w] == 0
    {
      this.windows := windows;
      this.levels := levels;
      lengths := new uint16[windows, levels]((_, _) => 0);
      counts := new uint16[windows](_ => 0);
      maxHops := new uint16[windows](_ => 0);
      window := 0;
    }

    /**
     * sla_record_*_len: count one frame of len bytes (with the PHY overhead)
     * at its quantised level of the current window. The level must lie in
     * the histogram, which the source leaves to its callers.
     */
    method RecordLen(len: nat, shift: nat)
      requires Valid() && len >= 1 && Quantize(len, shift) < levels
      modifies lengths, counts
      ensures lengths[window, Quantize(len, shift)] == (old(lengths[window, Quantize(len, shift)]) as int + 1) % 0x1_0000
      ensures forall w, j :: 0 <= w < windows && 0 <= j < levels && (w, j) != (window, Quantize(len, shift)) ==>
        lengths[w, j] == old(lengths[w, j])
      ensures counts[..] == old(counts[..])[window := (old(counts[window]) as int + 1) % 0x1_0000]
    {
      var q := Quantize(len, shift);
      lengths[window, q] := (lengths[window, q] as int + 1) % 0x1_0000;
      counts[window] := (counts[window] as int + 1) % 0x1_0000;
    }

    /** sla_record_max_hop_distance on the current window. */
    method RecordMaxHops(hops: uint8)
      requires Valid()
      modifies maxHops
      ensures maxHops[..] == old(maxHops[..])[window := RecordHops(old(maxHops[window]), hops)]
    {
      if hops as int > maxHops[window] as int {
        maxHops[window] := hops as uint16;
      }
    }

    /**
     * sla_calculate_next_ref_*: walk the current window's histogram from the
     * top level down, accumulating counts, and stop at the first level where
     * the total passes the percentile count.
     */
    method CalculateNextRefLen(kth: nat, current: uint8, shift: nat) returns (len: uint8)
      requires Valid() && kth <= 100
      ensures len == NextRefLen(Row(window), counts[window], kth, current, shift)
    {
      ghost var c := Row(window);
      var ref := RefCount(counts[window], kth);
      var accum: uint16 := 0;
      var i := levels;
      while i > 0
        invariant 0 <= i <= levels
        invariant accum == Accum(c, i)
        invariant TopLevel(c, ref, levels) == TopLevel(c, ref, i)
      {
        i := i - 1;
        accum := (accum + lengths[window, i]) % 0x1_0000;
        if accum != 0 && accum > ref {
          return Dequantize(i % 256, shift);
        }
      }
      if accum > 0 {
        len := Dequantize(0, shift);
      } else {
        len := current;
      }
    }

    /**
     * The window advance at the end of sla_determine_next_timeslot_length_and_trig_asn:
     * move to the next window (cyclically) and clear its histogram, count and
     * hop maximum, leaving the other windows as they were.
     */
    method AdvanceWindow()
      requires Valid()
      modifies this, lengths, counts, maxHops
      ensures Valid() && window == (old(window) + 1) % windows
      ensures forall j :: 0 <= j < levels ==> lengths[window, j] == 0
      ensures forall w, j :: 0 <= w < windows && w != window && 0 <= j < levels ==> lengths[w, j] == old(lengths[w, j])
      ensures counts[..] == old(counts[..])[window := 0]
      ensures maxHops[..] == old(maxHops[..])[window := 0]
    {
      window := (window + 1) % windows;
      var j := 0;
      while j < levels
        invariant 0 <= j <= levels && Valid() && window == (old(window) + 1) % windows
        invariant forall k :: 0 <= k < j ==> lengths[window, k] == 0
        invariant forall w, k :: 0 <= w < windows && 0 <= k < levels && (w != window || k >= j) ==>
          lengths[w, k] == old(lengths[w, k])
        invariant counts[..] == old(counts[..]) && maxHops[..] == old(maxHops[..])
      {
        lengths[window, j] := 0;
        j := j + 1;
      }
      counts[window] := 0;
      maxHops[window] := 0;
    }
  }
}
