/**
 The estimate of the packets lost on the way here: the weighted mean, over the reals, of what the
 sessions of the ring have missed, from the current one backwards.
 */
module LossEstimates {
  import opened Wrappers
  import opened Words
  import opened Crypto
  import opened Sessions
  import opened Handshakes
  import opened Tunnels
  import opened TunnelRuns
  import opened ReceiveAccounting

  // ---------------------------------------------------------------- the slots visited

  /** `session_idx.wrapping_sub(i) % N_SESSIONS`. */
  function VisitedSlot(current: nat, i: nat): nat
    requires current < U64_LIMIT && i < N_SESSIONS
  {
    (current - i) % U64_LIMIT % N_SESSIONS
  }

  /** Despite the wrap-around the loop visits every slot, and only once, from the current one down. */
  lemma EverySlotOnce(current: nat, slot: nat)
    requires current < U64_LIMIT && slot < N_SESSIONS
    ensures exists i: nat :: i < N_SESSIONS && VisitedSlot(current, i) == slot
    ensures forall i: nat, j: nat :: i < j < N_SESSIONS ==> VisitedSlot(current, i) != VisitedSlot(current, j)
  {
    forall i: nat | i < N_SESSIONS
      ensures VisitedSlot(current, i) == SlotsBack(current % N_SESSIONS, i)
    {
      WrapKeepsSlot(current, i);
    }
    var i := SlotsBack(current % N_SESSIONS, slot);
    assert VisitedSlot(current, i) == slot;
  }

  /** The current slot comes first, and then the one before each. */
  lemma CurrentSlotFirst(current: nat, i: nat)
    requires current < U64_LIMIT && 0 < i < 8
    ensures VisitedSlot(current, 0) == current % 8
    ensures VisitedSlot(current, i - 1) == (VisitedSlot(current, i) + 1) % 8
  {
    hide VisitedSlot;
    WrapKeepsSlot(current, 0);
    WrapKeepsSlot(current, i - 1);
    WrapKeepsSlot(current, i);
  }

  /** The slot i places before slot m, around the ring. */
  function SlotsBack(m: nat, i: nat): nat
    requires m < N_SESSIONS && i < N_SESSIONS
  {
    if i <= m then m - i else m + N_SESSIONS - i
  }

  lemma WrapKeepsSlot(current: nat, i: nat)
    requires current < U64_LIMIT && i < N_SESSIONS
    ensures VisitedSlot(current, i) == SlotsBack(current % N_SESSIONS, i)
  {
    var q, m := current / N_SESSIONS, current % N_SESSIONS;
    if current < i {
      assert (current - i) % U64_LIMIT == current - i + U64_LIMIT;
    } else if m < i {
      assert current - i == (q - 1) * N_SESSIONS + (m + N_SESSIONS - i);
    }
  }

  // ---------------------------------------------------------------- the weighted mean

  /** What a session has missed of the counters below the next one expected. */
  function Loss(s: SessionState): real {
    if s.window.next == 0 then 0.0 else 1.0 - s.receiveCnt as real / s.window.next as real
  }

  function VisitedSlots(sessions: seq<Option<SessionState>>, current: nat): (r: seq<Option<SessionState>>)
    requires |sessions| == N_SESSIONS && current < U64_LIMIT
    ensures |r| == N_SESSIONS && forall i :: 0 <= i < N_SESSIONS ==> r[i] == sessions[VisitedSlot(current, i)]
  {
    seq(N_SESSIONS, i requires 0 <= i < N_SESSIONS => sessions[VisitedSlot(current, i)])
  }

  /** The losses of the occupied slots, in order. */
  function Losses(slots: seq<Option<SessionState>>): seq<real> {
    if slots == [] then []
    else
      var last := slots[|slots| - 1];
      Losses(slots[..|slots| - 1]) + if last.Some? then [Loss(last.value)] else []
  }

  /** The weight of the k-th occupied slot: each counts a third as much as the one before. */
  function WeightAt(k: nat): (w: real)
    ensures w > 0.0
  {
    if k == 0 then 9.0 else WeightAt(k - 1) / 3.0
  }

  /** A loss times the weight of the k-th occupied slot. */
  function Discounted(l: real, k: nat): real {
    if k == 0 then 9.0 * l else Discounted(l, k - 1) / 3.0
  }

  lemma {:induction false} DiscountedIsWeighted(l: real, k: nat)
    ensures Discounted(l, k) == l * WeightAt(k)
  {
    if k > 0 {
      DiscountedIsWeighted(l, k - 1);
    }
  }

  function WeightedSum(ls: seq<real>): real {
    if ls == [] then 0.0 else WeightedSum(ls[..|ls| - 1]) + Discounted(ls[|ls| - 1], |ls| - 1)
  }

  function TotalWeight(n: nat): (w: real)
    ensures w >= 0.0 && (w == 0.0 <==> n == 0)
  {
    if n == 0 then 0.0 else TotalWeight(n - 1) + WeightAt(n - 1)
  }

  /** The weighted mean, most recent session first. */
  function WeightedMean(ls: seq<real>): real {
    if ls == [] then 0.0 else WeightedSum(ls) / TotalWeight(|ls|)
  }

  lemma QuotientIsAFraction(a: real, b: real)
    requires 0.0 <= a <= b && b > 0.0
    ensures 0.0 <= a / b <= 1.0
  {
    assert a / b * b == a;
  }

  /** A session that has counted what it received has lost a fraction of what it expected. */
  lemma LossIsAFraction(s: SessionState)
    requires s.Counted()
    ensures 0.0 <= Loss(s) <= 1.0
  {
    BoundedSetSize(s.window.next, s.window.seen);
    if s.window.next > 0 {
      QuotientIsAFraction(s.receiveCnt as real, s.window.next as real);
    }
  }

  lemma {:induction false} LossesAreFractions(slots: seq<Option<SessionState>>)
    requires AllCounted(slots)
    ensures forall k :: 0 <= k < |Losses(slots)| ==> 0.0 <= Losses(slots)[k] <= 1.0
  {
    if slots != [] {
      var last := slots[|slots| - 1];
      assert forall i :: 0 <= i < |slots| - 1 ==> slots[..|slots| - 1][i] == slots[i];
      LossesAreFractions(slots[..|slots| - 1]);
      if last.Some? {
        LossIsAFraction(last.value);
      }
    }
  }

  lemma {:induction false} DiscountedWithinWeight(l: real, k: nat)
    requires 0.0 <= l <= 1.0
    ensures 0.0 <= Discounted(l, k) <= WeightAt(k)
  {
    if k > 0 {
      DiscountedWithinWeight(l, k - 1);
    }
  }

  lemma {:induction false} SumWithinWeight(ls: seq<real>)
    requires forall k :: 0 <= k < |ls| ==> 0.0 <= ls[k] <= 1.0
    ensures 0.0 <= WeightedSum(ls) <= TotalWeight(|ls|)
  {
    if ls != [] {
      SumWithinWeight(ls[..|ls| - 1]);
      DiscountedWithinWeight(ls[|ls| - 1], |ls| - 1);
    }
  }

  /** The estimate for a ring of sessions of which one slot is current. */
  function Estimate(sessions: seq<Option<SessionState>>, current: nat): real
    requires |sessions| == N_SESSIONS && current < U64_LIMIT
  {
    WeightedMean(Losses(VisitedSlots(sessions, current)))
  }

  lemma EstimateOfCounted(sessions: seq<Option<SessionState>>, current: nat)
    requires |sessions| == N_SESSIONS && current < U64_LIMIT && AllCounted(sessions)
    ensures 0.0 <= Estimate(sessions, current) <= 1.0
  {
    var slots := VisitedSlots(sessions, current);
    var ls := Losses(slots);
    LossesAreFractions(slots);
    if ls != [] {
      SumWithinWeight(ls);
      QuotientIsAFraction(WeightedSum(ls), TotalWeight(|ls|));
    }
  }

  /** The estimate at its ends: nothing lost, nothing received, nothing stored. */
  lemma LossAtTheEnds(s: SessionState)
    ensures s.window.next > 0 && s.receiveCnt == s.window.next ==> Loss(s) == 0.0
    ensures s.window.next > 0 && s.receiveCnt == 0 ==> Loss(s) == 1.0
    ensures s.window.next == 0 ==> Loss(s) == 0.0
    ensures s.window.next == 4 && s.receiveCnt == 3 ==> Loss(s) == 0.25
  {
  }

  /** One session counts alone; of two, the more recent one three times as much as the other. */
  lemma MeanOfFew(x: real, y: real)
    ensures WeightedMean([]) == 0.0 && WeightedMean([x]) == x
    ensures WeightedMean([x, y]) == (3.0 * x + y) / 4.0
  {
    assert [x][..0] == [] && [x, y][..1] == [x];
    assert WeightAt(1) == 3.0 && Discounted(y, 1) == 3.0 * y;
    assert WeightedSum([x]) == 9.0 * x && TotalWeight(1) == 9.0;
    assert WeightedSum([x, y]) == 9.0 * x + 3.0 * y && TotalWeight(2) == 12.0;
  }

  /** In every state of every run of a tunnel the estimate lies between nothing lost and everything
      lost. The index a tunnel is given has 24 bits. */
  lemma EstimateIsAFraction(c: Primitives, hs: seq<History>, calls: seq<(Event, Env)>, params: Params,
                            index: nat, keepalive: nat, k: nat)
    requires IsRun(c, hs, calls, params, index, keepalive, false) && k < |hs| && index < 0x100_0000
    ensures hs[k].t.WellFormed() && hs[k].t.current < U64_LIMIT
    ensures 0.0 <= Estimate(hs[k].t.sessions, hs[k].t.current) <= 1.0
  {
    EveryRunKeepsInv(c, hs, calls, params, index, keepalive, false, k);
    EstimateOfCounted(hs[k].t.sessions, hs[k].t.current);
  }

  lemma NothingLost()
    ensures Losses([]) == [] && WeightedSum([]) == 0.0 && TotalWeight(0) == 0.0 && WeightAt(0) == 9.0
  {
  }

  lemma LossesGrow(slots: seq<Option<SessionState>>, i: nat)
    requires i < |slots|
    ensures Losses(slots[..i + 1]) ==
            Losses(slots[..i]) + if slots[i].Some? then [Loss(slots[i].value)] else []
  {
    assert slots[..i + 1][..i] == slots[..i];
  }

  lemma SumGrows(done: seq<real>, l: real)
    ensures WeightedSum(done + [l]) == WeightedSum(done) + Discounted(l, |done|)
    ensures TotalWeight(|done| + 1) == TotalWeight(|done|) + WeightAt(|done|)
    ensures WeightAt(|done| + 1) == WeightAt(|done|) / 3.0
  {
    assert (done + [l])[..|done|] == done;
  }
}
