/**
 The replay window of a session: a 1024-bit ring bitmap that must behave exactly like an
 unbounded set of the counters seen so far (section 5.4.6 of the WireGuard whitepaper).
 */
module ReplayWindow {
  import opened Words

  const WORD_SIZE: nat := 64
  const N_WORDS: nat := 16
  const N_BITS: nat := WORD_SIZE * N_WORDS

  datatype Verdict = Accepted | InvalidCounter | DuplicateCounter

  // ---------------------------------------------------------------- the specification

  /** What the window means: every counter accepted so far, and one more than the highest. */
  datatype Window = Window(next: nat, seen: set<nat>) {

    /** `next` is 0 for the empty set and otherwise the maximum plus one. */
    ghost predicate Consistent() {
      && (forall c :: c in seen ==> c < next)
      && (next > 0 ==> next - 1 in seen)
    }

    predicate Admits(c: nat) {
      c !in seen && c + N_BITS >= next
    }

    function Insert(c: nat): Window {
      Window(if c >= next then c + 1 else next, seen + {c})
    }

    /** The verdict of the check made before decryption. */
    function QuickCheck(c: nat): Verdict {
      if Admits(c) then Accepted else if c + N_BITS < next then InvalidCounter else DuplicateCounter
    }

    /** The verdict and the new window of the check made after decryption. */
    function Mark(c: nat): (Window, Verdict) {
      if Admits(c) then (Insert(c), Accepted) else (this, InvalidCounter)
    }
  }

  const EmptyWindow := Window(0, {})

  function Run(w: Window, cs: seq<nat>): (r: (Window, seq<Verdict>))
    ensures |r.1| == |cs|
  {
    if cs == [] then (w, [])
    else
      var (w1, vs) := Run(w, cs[..|cs| - 1]);
      var (w2, v) := w1.Mark(cs[|cs| - 1]);
      (w2, vs + [v])
  }

  lemma {:induction false} RunPrefix(w: Window, cs: seq<nat>, k: nat)
    requires k < |cs|
    ensures Run(w, cs).1[k] == Run(w, cs[..k]).0.Mark(cs[k]).1
  {
    if k < |cs| - 1 {
      RunPrefix(w, cs[..|cs| - 1], k);
      assert cs[..|cs| - 1][..k] == cs[..k];
    }
  }

  /** After any run the window holds exactly the counters accepted, below the next one expected. */
  lemma {:induction false} RunSees(cs: seq<nat>)
    ensures var (w, vs) := Run(EmptyWindow, cs);
            && w.Consistent()
            && forall c :: c in w.seen <==> exists k :: 0 <= k < |cs| && cs[k] == c && vs[k] == Accepted
  {
    var (w, vs) := Run(EmptyWindow, cs);
    if cs != [] {
      var n := |cs| - 1;
      RunSees(cs[..n]);
      var (w1, vs1) := Run(EmptyWindow, cs[..n]);
      forall c
        ensures c in w.seen <==> exists k :: 0 <= k < |cs| && cs[k] == c && vs[k] == Accepted
      {
        if c in w.seen {
          if c in w1.seen {
            var k :| 0 <= k < n && cs[..n][k] == c && vs1[k] == Accepted;
            assert cs[k] == c && vs[k] == Accepted;
          } else {
            assert cs[n] == c && vs[n] == Accepted;
          }
        }
        if k :| 0 <= k < |cs| && cs[k] == c && vs[k] == Accepted {
          if k < n {
            assert cs[..n][k] == c && vs1[k] == Accepted;
          }
        }
      }
    }
  }

  /** In any run, counter k is accepted exactly when no earlier acceptance was of the same
      counter and none was more than the window size ahead of it. */
  lemma AcceptedExactlyWhen(cs: seq<nat>, k: nat)
    requires k < |cs|
    ensures var vs := Run(EmptyWindow, cs).1;
            vs[k] == Accepted <==>
            forall j :: 0 <= j < k && vs[j] == Accepted ==> cs[j] != cs[k] && cs[j] < cs[k] + 1024
  {
    var vs := Run(EmptyWindow, cs).1;
    var (w, vs0) := Run(EmptyWindow, cs[..k]);
    RunPrefix(EmptyWindow, cs, k);
    RunSees(cs[..k]);
    forall j | 0 <= j < k
      ensures vs[j] == vs0[j] && cs[..k][j] == cs[j]
    {
      RunPrefix(EmptyWindow, cs, j);
      RunPrefix(EmptyWindow, cs[..k], j);
      assert cs[..k][..j] == cs[..j];
    }
    assert forall j :: 0 <= j < k && vs[j] == Accepted ==> cs[j] in w.seen;
    if vs[k] != Accepted && cs[k] !in w.seen {
      assert w.next - 1 in w.seen;
      var j :| 0 <= j < k && cs[..k][j] == w.next - 1 && vs0[j] == Accepted;
      assert vs[j] == Accepted && cs[j] >= cs[k] + N_BITS;
    }
    if vs[k] != Accepted && cs[k] in w.seen {
      var j :| 0 <= j < k && cs[..k][j] == cs[k] && vs0[j] == Accepted;
      assert vs[j] == Accepted && cs[j] == cs[k];
    }
  }

  /** Replay protection: no run accepts one counter twice. */
  lemma AcceptedAtMostOnce(cs: seq<nat>, i: nat, j: nat)
    requires i < j < |cs| && cs[i] == cs[j]
    ensures var vs := Run(EmptyWindow, cs).1; !(vs[i] == Accepted && vs[j] == Accepted)
  {
    AcceptedExactlyWhen(cs, j);
  }

  // ---------------------------------------------------------------- the ring of bits

  predicate IsBitmap(ws: seq<nat>) {
    |ws| == N_WORDS && forall k :: 0 <= k < N_WORDS ==> ws[k] < U64_LIMIT
  }

  /** Bit p of the ring. */
  predicate RingBit(ws: seq<nat>, p: nat)
    requires |ws| == N_WORDS && p < N_BITS
  {
    Bit(ws[p / WORD_SIZE], p % WORD_SIZE)
  }

  ghost function Ring(ws: seq<nat>): (bits: seq<bool>)
    requires |ws| == N_WORDS
    ensures |bits| == N_BITS
    ensures forall p :: 0 <= p < N_BITS ==> bits[p] == RingBit(ws, p)
  {
    seq(N_BITS, p requires 0 <= p < N_BITS => RingBit(ws, p))
  }

  /** The plain form of skipping ahead: clear the ring position of each counter in [lo, hi). */
  ghost function ClearEach(bits: seq<bool>, lo: nat, hi: nat): (r: seq<bool>)
    requires |bits| == N_BITS
    ensures |r| == N_BITS
  {
    if hi <= lo then bits else ClearEach(bits, lo, hi - 1)[(hi - 1) % N_BITS := false]
  }

  ghost predicate Hits(p: nat, lo: nat, hi: nat) {
    exists i: nat :: lo <= i < hi && i % N_BITS == p
  }

  lemma {:induction false} ClearEachAt(bits: seq<bool>, lo: nat, hi: nat, p: nat)
    requires |bits| == N_BITS && p < N_BITS
    ensures ClearEach(bits, lo, hi)[p] <==> bits[p] && !Hits(p, lo, hi)
  {
    if lo < hi {
      ClearEachAt(bits, lo, hi - 1, p);
      if (hi - 1) % N_BITS == p {
        assert Hits(p, lo, hi);
      } else {
        assert Hits(p, lo, hi) <==> Hits(p, lo, hi - 1);
      }
    }
  }

  /** Clearing up to a whole aligned word at once. */
  lemma {:induction false} ClearEachInWord(bits: seq<bool>, lo: nat, i: nat, n: nat)
    requires |bits| == N_BITS && lo <= i && i % WORD_SIZE == 0 && n <= WORD_SIZE
    ensures ClearEach(bits, lo, i + n) == ClearSpan(ClearEach(bits, lo, i), i % N_BITS, n)
  {
    if n > 0 {
      ClearEachInWord(bits, lo, i, n - 1);
      AlignedOffset(i, n - 1);
      ClearEachStep(bits, lo, i + (n - 1));
    }
  }

  /** The bits from position `start` on, `n` of them, made false. */
  ghost function ClearSpan(bits: seq<bool>, start: nat, n: nat): (r: seq<bool>)
    requires |bits| == N_BITS
    ensures |r| == N_BITS
    ensures forall p :: 0 <= p < N_BITS ==> r[p] == (bits[p] && !(start <= p < start + n))
  {
    seq(N_BITS, p requires 0 <= p < N_BITS => bits[p] && !(start <= p < start + n))
  }

  lemma ClearEachStep(bits: seq<bool>, lo: nat, i: nat)
    requires |bits| == N_BITS && lo <= i
    ensures ClearEach(bits, lo, i + 1) == ClearEach(bits, lo, i)[i % N_BITS := false]
  {
  }

  lemma AlignedOffset(i: nat, k: nat)
    requires i % WORD_SIZE == 0 && k < WORD_SIZE
    ensures (i + k) % N_BITS == i % N_BITS + k
    ensures i % N_BITS % WORD_SIZE == 0 && i % N_BITS + WORD_SIZE <= N_BITS
  {
    WordPosition(i, i / WORD_SIZE / N_WORDS, i / WORD_SIZE % N_WORDS, 0);
    WordPosition(i + k, i / WORD_SIZE / N_WORDS, i / WORD_SIZE % N_WORDS, k);
  }

  lemma WordPosition(i: nat, turn: nat, word: nat, k: nat)
    requires i == N_BITS * turn + WORD_SIZE * word + k && word < N_WORDS && k < WORD_SIZE
    ensures i % N_BITS == WORD_SIZE * word + k && i % N_BITS % WORD_SIZE == k
  {
  }

  lemma ClearEachOfWholeRing(bits: seq<bool>, lo: nat, hi: nat)
    requires |bits| == N_BITS && hi >= lo + N_BITS
    ensures ClearEach(bits, lo, hi) == seq(N_BITS, _ => false)
  {
    forall p: nat | p < N_BITS
      ensures !ClearEach(bits, lo, hi)[p]
    {
      ClearEachAt(bits, lo, hi, p);
      WholeRingHits(lo, hi, p);
    }
  }

  lemma WholeRingHits(lo: nat, hi: nat, p: nat)
    requires p < N_BITS && hi >= lo + N_BITS
    ensures Hits(p, lo, hi)
  {
    var q, m := lo / N_BITS, lo % N_BITS;
    var i := (if m <= p then q else q + 1) * N_BITS + p;
    assert lo <= i < hi && i % N_BITS == p;
  }

  /** The ring holds the set of counters seen, throughout the window. */
  ghost predicate Agrees(bits: seq<bool>, w: Window)
    requires |bits| == N_BITS
  {
    forall c: nat :: c < w.next <= c + N_BITS ==> (bits[c % N_BITS] <==> c in w.seen)
  }

  /** Two different counters with the same ring position are a whole ring apart. */
  lemma RingDistance(c: nat, d: nat)
    requires c < d && c % N_BITS == d % N_BITS
    ensures c + N_BITS <= d
  {
  }

  // ---------------------------------------------------------------- the implementation

  class Validator {
    var next: nat
    var receiveCnt: nat
    const bitmap: array<nat>
    ghost var seen: set<nat>

    ghost function Abstract(): Window
      reads this
    {
      Window(next, seen)
    }

    /** The ring agrees with the set of counters seen, throughout the window. */
    ghost predicate Valid()
      reads this, bitmap
    {
      && IsBitmap(bitmap[..])
      && Abstract().Consistent()
      && Agrees(Ring(bitmap[..]), Abstract())
    }

    constructor ()
      ensures Valid() && fresh(bitmap) && Abstract() == EmptyWindow && receiveCnt == 0
    {
      next, receiveCnt := 0, 0;
      bitmap := new nat[N_WORDS](_ => 0);
      seen := {};
    }

    method SetBit(idx: nat)
      requires IsBitmap(bitmap[..])
      modifies bitmap
      ensures IsBitmap(bitmap[..])
      ensures Ring(bitmap[..]) == old(Ring(bitmap[..]))[idx % N_BITS := true]
    {
      var bitIdx := idx % N_BITS;
      var word := bitIdx / WORD_SIZE;
      var bit := bitIdx % WORD_SIZE;
      Pow2Of64();
      BitUpdatesFit(bitmap[word], bit, 64);
      forall c {
        WithBitAt(bitmap[word], bit, c);
      }
      bitmap[word] := WithBit(bitmap[word], bit);
    }

    method ClearBit(idx: nat)
      requires IsBitmap(bitmap[..])
      modifies bitmap
      ensures IsBitmap(bitmap[..])
      ensures Ring(bitmap[..]) == old(Ring(bitmap[..]))[idx % N_BITS := false]
    {
      var bitIdx := idx % N_BITS;
      var word := bitIdx / WORD_SIZE;
      var bit := bitIdx % WORD_SIZE;
      Pow2Of64();
      BitUpdatesFit(bitmap[word], bit, 64);
      forall c {
        WithoutBitAt(bitmap[word], bit, c);
      }
      bitmap[word] := WithoutBit(bitmap[word], bit);
    }

    /** Clear the word that contains idx. */
    method ClearWord(idx: nat)
      requires IsBitmap(bitmap[..])
      modifies bitmap
      ensures IsBitmap(bitmap[..])
      ensures Ring(bitmap[..]) ==
              ClearSpan(old(Ring(bitmap[..])), idx % N_BITS / WORD_SIZE * WORD_SIZE, WORD_SIZE)
    {
      var bitIdx := idx % N_BITS;
      var word := bitIdx / WORD_SIZE;
      forall c {
        ZeroHasNoBits(c);
      }
      bitmap[word] := 0;
    }

    /** One step of the word-at-a-time phase, as the bit-at-a-time form sees it. */
    method ClearAlignedWord(ghost was: seq<bool>, ghost lo: nat, i: nat)
      requires IsBitmap(bitmap[..]) && |was| == N_BITS
      requires lo <= i && i % WORD_SIZE == 0 && Ring(bitmap[..]) == ClearEach(was, lo, i)
      modifies bitmap
      ensures IsBitmap(bitmap[..])
      ensures Ring(bitmap[..]) == ClearEach(was, lo, i + WORD_SIZE)
    {
      ClearWord(i);
      ClearEachInWord(was, lo, i, WORD_SIZE);
      AlignedWordStart(i);
    }

    method ClearAll()
      requires IsBitmap(bitmap[..])
      modifies bitmap
      ensures IsBitmap(bitmap[..])
      ensures Ring(bitmap[..]) == seq(N_BITS, _ => false)
    {
      var k := 0;
      while k < N_WORDS
        invariant 0 <= k <= N_WORDS
        invariant forall j :: 0 <= j < k ==> bitmap[j] == 0
        invariant IsBitmap(bitmap[..])
      {
        bitmap[k] := 0;
        k := k + 1;
      }
      forall c {
        ZeroHasNoBits(c);
      }
    }

    predicate CheckBit(idx: nat)
      requires IsBitmap(bitmap[..])
      reads this, bitmap
      ensures CheckBit(idx) == Ring(bitmap[..])[idx % N_BITS]
    {
      var bitIdx := idx % N_BITS;
      Bit(bitmap[bitIdx / WORD_SIZE], bitIdx % WORD_SIZE)
    }

    method WillAccept(counter: nat) returns (v: Verdict)
      requires Valid() && counter + N_BITS < U64_LIMIT
      ensures v == Abstract().QuickCheck(counter)
    {
      if counter >= next {
        return Accepted;
      }
      if counter + N_BITS < next {
        return InvalidCounter;
      }
      if !CheckBit(counter) {
        v := Accepted;
      } else {
        v := DuplicateCounter;
      }
    }

    /** Skip ahead from `next` to `counter`: bits up to a word boundary, then whole words,
        then the remaining bits; or everything at once when the gap spans the ring. */
    method SkipTo(counter: nat)
      requires IsBitmap(bitmap[..]) && next < counter
      modifies bitmap
      ensures IsBitmap(bitmap[..])
      ensures Ring(bitmap[..]) == ClearEach(old(Ring(bitmap[..])), next, counter)
    {
      ghost var was := Ring(bitmap[..]);
      if counter - next >= N_BITS {
        ClearAll();
        ClearEachOfWholeRing(was, next, counter);
        return;
      }
      var i := next;
      while i % WORD_SIZE != 0 && i < counter
        invariant next <= i <= counter
        invariant IsBitmap(bitmap[..])
        invariant Ring(bitmap[..]) == ClearEach(was, next, i)
        decreases counter - i
      {
        ClearBit(i);
        i := i + 1;
      }
      while i + WORD_SIZE < counter
        invariant next <= i <= counter
        invariant i % WORD_SIZE == 0 || i == counter
        invariant IsBitmap(bitmap[..])
        invariant Ring(bitmap[..]) == ClearEach(was, next, i)
        decreases counter - i
      {
        ClearAlignedWord(was, next, i);
        AlignedWordStart(i);
        i := (i + WORD_SIZE) / WORD_SIZE * WORD_SIZE;
      }
      while i < counter
        invariant next <= i <= counter
        invariant IsBitmap(bitmap[..])
        invariant Ring(bitmap[..]) == ClearEach(was, next, i)
      {
        ClearBit(i);
        i := i + 1;
      }
    }

    method MarkDidReceive(counter: nat) returns (v: Verdict)
      requires Valid() && counter + N_BITS < U64_LIMIT
      modifies this`next, this`seen, bitmap
      ensures Valid()
      ensures (Abstract(), v) == old(Abstract()).Mark(counter)
    {
      if counter + N_BITS < next {
        return InvalidCounter;
      }
      ghost var was := Ring(bitmap[..]);
      ghost var before := Abstract();
      if counter == next {
        SetBit(counter);
        next := next + 1;
      } else if counter < next {
        if CheckBit(counter) {
          return InvalidCounter;
        }
        SetBit(counter);
      } else {
        SkipTo(counter);
        SetBit(counter);
        next := counter + 1;
      }
      KeepsAgreement(before, was, counter);
      seen := seen + {counter};
      v := Accepted;
    }

    /** As the session calls it: count the acceptances. */
    method ReceivingCounterMark(counter: nat) returns (v: Verdict)
      requires Valid() && counter + N_BITS < U64_LIMIT
      modifies this, bitmap
      ensures Valid()
      ensures (Abstract(), v) == old(Abstract()).Mark(counter)
      ensures receiveCnt == old(receiveCnt) + if v == Accepted then 1 else 0
    {
      v := MarkDidReceive(counter);
      if v == Accepted {
        receiveCnt := receiveCnt + 1;
      }
    }
  }

  lemma AlignedWordStart(i: nat)
    requires i % WORD_SIZE == 0
    ensures i % N_BITS / WORD_SIZE * WORD_SIZE == i % N_BITS
    ensures (i + WORD_SIZE) / WORD_SIZE * WORD_SIZE == i + WORD_SIZE
  {
    AlignedOffset(i, 0);
  }

  /** The ring that `ClearEach` and one set bit leave agrees with the window `Insert` leaves. */
  lemma KeepsAgreement(w: Window, bits: seq<bool>, counter: nat)
    requires |bits| == N_BITS && w.Consistent() && w.Admits(counter)
    requires Agrees(bits, w)
    ensures w.Insert(counter).Consistent()
    ensures Agrees(ClearEach(bits, w.next, counter)[counter % N_BITS := true], w.Insert(counter))
  {
    var w' := w.Insert(counter);
    forall c: nat | c < w'.next <= c + N_BITS
      ensures ClearEach(bits, w.next, counter)[counter % N_BITS := true][c % N_BITS] <==> c in w'.seen
    {
      ClearEachAt(bits, w.next, counter, c % N_BITS);
      if c != counter {
        if c < counter && c % N_BITS == counter % N_BITS {
          RingDistance(c, counter);
        }
        if counter < c && c % N_BITS == counter % N_BITS {
          RingDistance(counter, c);
        }
        if w.next <= c {
          assert Hits(c % N_BITS, w.next, counter);
        } else if Hits(c % N_BITS, w.next, counter) {
          var i: nat :| w.next <= i < counter && i % N_BITS == c % N_BITS;
          RingDistance(c, i);
        }
      }
    }
  }
}
