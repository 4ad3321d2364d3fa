/**
 Threads sharing one rate limiter. A thread takes its number from the shared counter in one step and
 acts on it in a later one; another may set the counter back to zero in between. The bound on
 messages admitted without proof of address holds for every interleaving of these steps.
 */
module Admissions {
  import opened Wrappers
  import opened ByteStrings
  import opened Crypto
  import opened Wire
  import opened Handshakes
  import opened RateLimiters

  // ---------------------------------------------------------------- the threads

  /** A message long enough for its two MACs. */
  type Message = s: Bytes | |s| >= 32 witness seq(32, _ => 0)

  /** Where a thread is between its accesses to what is shared. The round of a number, how often the
      counter had been set back when it was taken, is not in the source; no thread looks at it. */
  datatype Phase =
    | Idle
    | Numbered(addr: Option<IpAddr>, src: Message, cap: nat, number: nat, round: nat)
    | Replying(src: Message)
    | Resetting(now: nat)

  /** A handshake message that passed: its number and round, the round in which it passed, and
      whether its mac2 was valid then. */
  datatype Admission = Admission(number: nat, taken: nat, at: nat, proven: bool)

  /** The limiter, the threads, how often the counter was set back, the messages that passed, and
      the nonce counters of the cookie replies. */
  datatype System = System(l: Limiter, threads: seq<Phase>, round: nat, log: seq<Admission>, nonces: seq<nat>)

  /** `now` is what a thread reads from the clock. */
  datatype Move =
    | Take(addr: Option<IpAddr>, src: Bytes, cap: nat)
    | Finish(now: nat)
    | Reply
    | ReadClock(now: nat)
    | Store

  function Start(l: Limiter, n: nat): System {
    System(l, seq(n, _ => Idle), 0, [], [])
  }

  /** A handshake message with a valid mac1, for which a number is taken. */
  predicate Counts(c: Primitives, l: Limiter, src: Bytes): (r: bool)
    ensures r ==> |src| >= 32
  {
    var parsed := ParseIncomingPacket(src);
    && parsed.Success? && (parsed.value.HandshakeInit? || parsed.value.HandshakeResponse?)
    && c.mac16(l.mac1Key, Split(src).0) == Split(src).1
  }

  /** The decision on a numbered message: whether it passes, and what the thread does next. */
  function Decide(c: Primitives, l: Limiter, p: Phase, now: nat): (bool, Phase)
    requires p.Numbered?
  {
    if p.number < l.limit then (true, Idle)
    else if p.addr.None? then (false, Idle)
    else if Mac2Valid(c, l, p.addr, p.src, now) then (true, Idle)
    else (false, if p.cap < COOKIE_REPLY_SZ then Idle else Replying(p.src))
  }

  /** One step of thread t; none where the thread is not at that point. */
  function Step(c: Primitives, s: System, t: nat, m: Move): System {
    if t >= |s.threads| then s
    else
      match (s.threads[t], m)
      case (Idle, Take(addr, src, cap)) =>
        if !Counts(c, s.l, src) then s
        else s.(l := s.l.(count := s.l.count + 1),
                threads := s.threads[t := Numbered(addr, src, cap, s.l.count, s.round)])
      case (Numbered(addr, src, _, number, round), Finish(now)) =>
        var (passes, next) := Decide(c, s.l, s.threads[t], now);
        var a := Admission(number, round, s.round, Mac2Valid(c, s.l, addr, src, now));
        s.(threads := s.threads[t := next], log := if passes then s.log + [a] else s.log)
      case (Replying(_), Reply) =>
        s.(l := s.l.(nonceCtr := s.l.nonceCtr + 1), threads := s.threads[t := Idle],
           nonces := s.nonces + [s.l.nonceCtr])
      case (Idle, ReadClock(now)) =>
        s.(threads := s.threads[t := Resetting(now)])
      case (Resetting(now), Store) =>
        s.(l := s.l.ResetCount(now), threads := s.threads[t := Idle],
           round := if s.l.ResetDue(now) then s.round + 1 else s.round)
      case _ => s
  }

  function Run(c: Primitives, s: System, moves: seq<(nat, Move)>): System
    decreases |moves|
  {
    if moves == [] then s else Run(c, Step(c, s, moves[0].0, moves[0].1), moves[1..])
  }

  lemma {:induction false} RunOfMore(c: Primitives, s: System, ms: seq<(nat, Move)>, ns: seq<(nat, Move)>)
    ensures Run(c, s, ms + ns) == Run(c, Run(c, s, ms), ns)
    decreases |ms|
  {
    if ms == [] {
      assert ms + ns == ns;
    } else {
      assert (ms + ns)[1..] == ms[1..] + ns;
      RunOfMore(c, Step(c, s, ms[0].0, ms[0].1), ms[1..], ns);
    }
  }

  /** A thread that nobody interrupts does what `verify_packet` does as a whole. */
  lemma ThreadAlone(c: Primitives, s: System, t: nat, addr: Option<IpAddr>, src: Bytes, cap: nat, now: nat)
    requires t < |s.threads| && s.threads[t] == Idle && Counts(c, s.l, src)
    ensures var (l, verified) := VerifyPacket(c, s.l, addr, src, cap, now);
            var s' := Run(c, s, [(t, Take(addr, src, cap))] + [(t, Finish(now))] + [(t, Reply)]);
            && s'.l == l && s'.threads == s.threads
            && |s'.log| == |s.log| + (if verified.Admitted? then 1 else 0)
            && |s'.nonces| == |s.nonces| + (if verified.CookieSent? then 1 else 0)
  {
    hide VerifyPacket, Run, Counts, Mac2Valid;
    var s1 := Step(c, s, t, Take(addr, src, cap));
    var s2 := Step(c, s1, t, Finish(now));
    RunTwo(c, s, t, Take(addr, src, cap), t, Finish(now));
    RunOfMore(c, s, [(t, Take(addr, src, cap))] + [(t, Finish(now))], [(t, Reply)]);
    RunOne(c, s2, t, Reply);
    assert Step(c, s2, t, Reply).threads == s.threads;
    WholeCall(c, s.l, addr, src, cap, now, s.round);
  }

  lemma RunOne(c: Primitives, s: System, t: nat, m: Move)
    ensures Run(c, s, [(t, m)]) == Step(c, s, t, m)
  {
    assert [(t, m)][1..] == [];
  }

  lemma RunTwo(c: Primitives, s: System, t: nat, m: Move, u: nat, n: Move)
    ensures Run(c, s, [(t, m)] + [(u, n)]) == Step(c, Step(c, s, t, m), u, n)
  {
    RunOfMore(c, s, [(t, m)], [(u, n)]);
    RunOne(c, s, t, m);
    RunOne(c, Step(c, s, t, m), u, n);
  }

  /** The whole call, by the decision on the number it takes. */
  lemma WholeCall(c: Primitives, l: Limiter, addr: Option<IpAddr>, src: Bytes, cap: nat, now: nat,
                  round: nat)
    requires Counts(c, l, src)
    ensures var (l', verified) := VerifyPacket(c, l, addr, src, cap, now);
            var (passes, next) := Decide(c, l.(count := l.count + 1), Numbered(addr, src, cap, l.count, round), now);
            && (verified.Admitted? <==> passes) && (verified.CookieSent? <==> next.Replying?)
            && l' == l.(count := l.count + 1, nonceCtr := if next.Replying? then l.nonceCtr + 1 else l.nonceCtr)
  {
  }

  // ---------------------------------------------------------------- what every interleaving keeps

  /** Two messages with the same number took it in different rounds. */
  ghost predicate Apart(n: nat, r: nat, n': nat, r': nat) {
    n != n' || r != r'
  }

  ghost predicate NumberOk(s: System, n: nat, r: nat) {
    r <= s.round && (r == s.round ==> n < s.l.count)
  }

  ghost predicate ThreadsApart(s: System) {
    && (forall t :: 0 <= t < |s.threads| && s.threads[t].Numbered? ==>
          NumberOk(s, s.threads[t].number, s.threads[t].round))
    && (forall t, u :: 0 <= t < u < |s.threads| && s.threads[t].Numbered? && s.threads[u].Numbered? ==>
          Apart(s.threads[t].number, s.threads[t].round, s.threads[u].number, s.threads[u].round))
  }

  ghost predicate LogApart(s: System) {
    && (forall i :: 0 <= i < |s.log| ==>
          && NumberOk(s, s.log[i].number, s.log[i].taken) && s.log[i].taken <= s.log[i].at <= s.round
          && (s.log[i].number < s.l.limit || s.log[i].proven))
    && (forall i, k :: 0 <= i < k < |s.log| ==>
          Apart(s.log[i].number, s.log[i].taken, s.log[k].number, s.log[k].taken))
    && (forall i, t :: 0 <= i < |s.log| && 0 <= t < |s.threads| && s.threads[t].Numbered? ==>
          Apart(s.log[i].number, s.log[i].taken, s.threads[t].number, s.threads[t].round))
  }

  ghost predicate NoncesApart(s: System) {
    && (forall i :: 0 <= i < |s.nonces| ==> s.nonces[i] < s.l.nonceCtr)
    && (forall i, k :: 0 <= i < k < |s.nonces| ==> s.nonces[i] < s.nonces[k])
  }

  ghost predicate Inv(s: System) {
    ThreadsApart(s) && LogApart(s) && NoncesApart(s)
  }

  lemma StepKeepsKeys(c: Primitives, s: System, t: nat, m: Move)
    ensures SameKeys(s.l, Step(c, s, t, m).l)
  {
    hide Counts, Mac2Valid;
  }

  lemma StepKeepsInv(c: Primitives, s: System, t: nat, m: Move)
    requires Inv(s)
    ensures Inv(Step(c, s, t, m))
    ensures SameKeys(s.l, Step(c, s, t, m).l)
  {
    hide Counts, Mac2Valid;
  }

  /** The keys, the limit and the start time never change. */
  ghost predicate SameKeys(l: Limiter, l': Limiter) {
    l' == l.(count := l'.count, nonceCtr := l'.nonceCtr, lastReset := l'.lastReset)
  }

  lemma {:induction false} EveryRunKeepsInv(c: Primitives, s: System, moves: seq<(nat, Move)>)
    requires Inv(s)
    ensures Inv(Run(c, s, moves)) && SameKeys(s.l, Run(c, s, moves).l)
    decreases |moves|
  {
    hide Inv, Step;
    if moves != [] {
      StepKeepsInv(c, s, moves[0].0, moves[0].1);
      EveryRunKeepsInv(c, Step(c, s, moves[0].0, moves[0].1), moves[1..]);
    }
  }

  // ---------------------------------------------------------------- the bound by number

  /** How many messages passed without a valid mac2 of those whose number was taken in round r. */
  function Unproven(log: seq<Admission>, r: nat): nat {
    if log == [] then 0
    else
      var a := log[|log| - 1];
      Unproven(log[..|log| - 1], r) + if a.taken == r && !a.proven then 1 else 0
  }

  ghost function Numbers(log: seq<Admission>, r: nat): set<nat> {
    set i | 0 <= i < |log| && log[i].taken == r && !log[i].proven :: log[i].number
  }

  lemma {:induction false} UnprovenHaveNumbers(log: seq<Admission>, r: nat)
    requires forall i, k :: 0 <= i < k < |log| ==> Apart(log[i].number, log[i].taken, log[k].number, log[k].taken)
    ensures Unproven(log, r) == |Numbers(log, r)|
  {
    if log != [] {
      var init, a := log[..|log| - 1], log[|log| - 1];
      UnprovenHaveNumbers(init, r);
      NumbersOfMore(init, a, r);
      assert log == init + [a];
      assert a.taken == r && !a.proven ==> a.number !in Numbers(init, r);
    }
  }

  lemma NumbersOfMore(log: seq<Admission>, a: Admission, r: nat)
    ensures Numbers(log + [a], r) == Numbers(log, r) + if a.taken == r && !a.proven then {a.number} else {}
  {
    var more := log + [a];
    forall x | x in Numbers(log, r)
      ensures x in Numbers(more, r)
    {
      var i :| 0 <= i < |log| && log[i].taken == r && !log[i].proven && log[i].number == x;
      assert more[i] == log[i];
    }
    assert more[|log|] == a;
  }

  lemma {:induction false} BelowLimit(s: set<nat>, n: nat)
    requires forall x :: x in s ==> x < n
    ensures |s| <= n
  {
    if n == 0 {
      assert s == {};
    } else {
      BelowLimit(s - {n - 1}, n - 1);
    }
  }

  /** In every interleaving, of the messages that took their number between two settings back of the
      counter at most `limit` pass without a valid mac2. */
  lemma AtMostLimitUnproven(c: Primitives, l: Limiter, n: nat, moves: seq<(nat, Move)>, r: nat)
    ensures Unproven(Run(c, Start(l, n), moves).log, r) <= l.limit
  {
    EveryRunKeepsInv(c, Start(l, n), moves);
    var s := Run(c, Start(l, n), moves);
    UnprovenHaveNumbers(s.log, r);
    BelowLimit(Numbers(s.log, r), l.limit);
  }

  /** No two cookie replies use the same nonce. */
  lemma NoncesAreFresh(c: Primitives, l: Limiter, n: nat, moves: seq<(nat, Move)>, i: nat, k: nat)
    requires i < k < |Run(c, Start(l, n), moves).nonces|
    ensures Run(c, Start(l, n), moves).nonces[i] != Run(c, Start(l, n), moves).nonces[k]
  {
    EveryRunKeepsInv(c, Start(l, n), moves);
  }

  // ---------------------------------------------------------------- the bound by time

  /** How many messages passed without a valid mac2 in round r; and of these, on an older number. */
  function UnprovenAt(log: seq<Admission>, r: nat): nat {
    if log == [] then 0
    else
      var a := log[|log| - 1];
      UnprovenAt(log[..|log| - 1], r) + if a.at == r && !a.proven then 1 else 0
  }

  function Late(log: seq<Admission>, r: nat): nat {
    if log == [] then 0
    else
      var a := log[|log| - 1];
      Late(log[..|log| - 1], r) + if a.at == r && a.taken < r && !a.proven then 1 else 0
  }

  /** How many threads hold a number below the limit that was taken before round r. */
  function InFlight(threads: seq<Phase>, limit: nat, r: nat): nat {
    if threads == [] then 0
    else
      var p := threads[|threads| - 1];
      InFlight(threads[..|threads| - 1], limit, r) + if Holds(p, limit, r) then 1 else 0
  }

  predicate Holds(p: Phase, limit: nat, r: nat) {
    p.Numbered? && p.number < limit && p.round < r
  }

  lemma {:induction false} InFlightAfter(threads: seq<Phase>, limit: nat, r: nat, t: nat, p: Phase)
    requires t < |threads|
    ensures InFlight(threads[t := p], limit, r) + (if Holds(threads[t], limit, r) then 1 else 0) ==
            InFlight(threads, limit, r) + (if Holds(p, limit, r) then 1 else 0)
  {
    var last := |threads| - 1;
    if t < last {
      assert threads[t := p][..last] == threads[..last][t := p];
      InFlightAfter(threads[..last], limit, r, t, p);
    } else {
      assert threads[t := p][..last] == threads[..last];
    }
  }

  lemma LogGrows(log: seq<Admission>, a: Admission, r: nat)
    ensures Late(log + [a], r) == Late(log, r) + if a.at == r && a.taken < r && !a.proven then 1 else 0
    ensures UnprovenAt(log + [a], r) == UnprovenAt(log, r) + if a.at == r && !a.proven then 1 else 0
    ensures Unproven(log + [a], r) == Unproven(log, r) + if a.taken == r && !a.proven then 1 else 0
  {
    assert (log + [a])[..|log|] == log;
  }

  lemma {:induction false} EachIsLateOrNumbered(log: seq<Admission>, r: nat)
    requires forall i :: 0 <= i < |log| ==> log[i].taken <= log[i].at
    ensures UnprovenAt(log, r) <= Unproven(log, r) + Late(log, r)
  {
    if log != [] {
      EachIsLateOrNumbered(log[..|log| - 1], r);
    }
  }

  /** A late message was in flight before. */
  lemma LateStep(c: Primitives, s: System, t: nat, m: Move, r: nat)
    requires r <= s.round
    ensures var s' := Step(c, s, t, m);
            && r <= s'.round
            && Late(s'.log, r) + InFlight(s'.threads, s.l.limit, r)
               <= Late(s.log, r) + InFlight(s.threads, s.l.limit, r)
  {
    hide Counts, Mac2Valid, Late, InFlight, UnprovenAt, Unproven;
    var s' := Step(c, s, t, m);
    if t < |s.threads| {
      InFlightAfter(s.threads, s.l.limit, r, t, s'.threads[t]);
      if |s'.log| > |s.log| {
        LogGrows(s.log, s'.log[|s.log|], r);
      } else {
        assert s'.log == s.log;
      }
    }
  }

  lemma {:induction false} LateRun(c: Primitives, s: System, moves: seq<(nat, Move)>, r: nat)
    requires r <= s.round
    ensures Late(Run(c, s, moves).log, r) <= Late(s.log, r) + InFlight(s.threads, s.l.limit, r)
    decreases |moves|
  {
    hide Step;
    if moves != [] {
      var s' := Step(c, s, moves[0].0, moves[0].1);
      StepKeepsKeys(c, s, moves[0].0, moves[0].1);
      LateStep(c, s, moves[0].0, moves[0].1, r);
      LateRun(c, s', moves[1..], r);
    }
  }

  lemma {:induction false} NoneBefore(log: seq<Admission>, r: nat)
    requires forall i :: 0 <= i < |log| ==> log[i].at < r
    ensures Late(log, r) == 0 && UnprovenAt(log, r) == 0
  {
    if log != [] {
      NoneBefore(log[..|log| - 1], r);
    }
  }

  /** Counted by when they pass, the messages of one round may be more: those that held a number
      below the limit when the counter was set back come on top, and no others. */
  lemma AtMostLimitAndInFlight(c: Primitives, l: Limiter, n: nat, before: seq<(nat, Move)>, t: nat,
                               moves: seq<(nat, Move)>)
    requires var s := Run(c, Start(l, n), before); Step(c, s, t, Store).round > s.round
    ensures var s := Step(c, Run(c, Start(l, n), before), t, Store);
            UnprovenAt(Run(c, s, moves).log, s.round) <= l.limit + InFlight(s.threads, l.limit, s.round)
  {
    hide Run;
    var s0 := Run(c, Start(l, n), before);
    var s := Step(c, s0, t, Store);
    EveryRunKeepsInv(c, Start(l, n), before);
    NoneBefore(s.log, s.round);
    StepKeepsInv(c, s0, t, Store);
    EveryRunKeepsInv(c, s, moves);
    LateRun(c, s, moves, s.round);
    RunOne(c, s0, t, Store);
    RunOfMore(c, Start(l, n), before, [(t, Store)]);
    RunOfMore(c, Start(l, n), before + [(t, Store)], moves);
    AtMostLimitUnproven(c, l, n, before + [(t, Store)] + moves, s.round);
    EachIsLateOrNumbered(Run(c, s, moves).log, s.round);
  }

  // ---------------------------------------------------------------- the bound is attained

  /** A message without an address takes a number below the limit and passes. */
  lemma PassOnce(c: Primitives, s: System, t: nat, src: Bytes)
    requires t < |s.threads| && s.threads[t] == Idle && Counts(c, s.l, src) && s.l.count < s.l.limit
    ensures var s' := Run(c, s, [(t, Take(None, src, 0))] + [(t, Finish(0))]);
            s' == s.(l := s.l.(count := s.l.count + 1),
                     log := s.log + [Admission(s.l.count, s.round, s.round, false)])
  {
    hide Run, Counts;
    var s1 := Step(c, s, t, Take(None, src, 0));
    assert Numbered(None, src, 0, s.l.count, s.round) == s1.threads[t];
    RunTwo(c, s, t, Take(None, src, 0), t, Finish(0));
    assert Step(c, s1, t, Finish(0)).threads == s.threads;
  }

  lemma {:induction false} PassUpToLimit(c: Primitives, s: System, t: nat, src: Bytes) returns (moves: seq<(nat, Move)>)
    requires t < |s.threads| && s.threads[t] == Idle && Counts(c, s.l, src) && s.l.count <= s.l.limit
    ensures var s' := Run(c, s, moves);
            s'.round == s.round && UnprovenAt(s'.log, s.round) == UnprovenAt(s.log, s.round) + s.l.limit - s.l.count
    decreases s.l.limit - s.l.count
  {
    if s.l.count == s.l.limit {
      moves := [];
    } else {
      hide Run, Counts, UnprovenAt;
      var once := [(t, Take(None, src, 0))] + [(t, Finish(0))];
      PassOnce(c, s, t, src);
      LogGrows(s.log, Admission(s.l.count, s.round, s.round, false), s.round);
      CountsSame(c, s.l, s.l.(count := s.l.count + 1), src);
      var rest := PassUpToLimit(c, Run(c, s, once), t, src);
      RunOfMore(c, s, once, rest);
      moves := once + rest;
    }
  }

  lemma FinishOne(c: Primitives, s: System, t: nat)
    requires t < |s.threads| && Holds(s.threads[t], s.l.limit, s.round) && s.threads[t].addr.None?
    ensures var s' := Step(c, s, t, Finish(0));
            && s' == s.(threads := s.threads[t := Idle], log := s'.log)
            && UnprovenAt(s'.log, s.round) == UnprovenAt(s.log, s.round) + 1
  {
    var p := s.threads[t];
    LogGrows(s.log, Admission(p.number, p.round, s.round, false), s.round);
  }

  /** The threads in flight among the first k act on their numbers. */
  lemma {:induction false} FinishInFlight(c: Primitives, s: System, k: nat) returns (moves: seq<(nat, Move)>)
    requires k <= |s.threads|
    requires forall t :: 0 <= t < k && Holds(s.threads[t], s.l.limit, s.round) ==> s.threads[t].addr.None?
    ensures var s' := Run(c, s, moves);
            && s' == s.(threads := s'.threads, log := s'.log) && |s'.threads| == |s.threads|
            && s'.threads[k..] == s.threads[k..]
            && (forall t :: 0 <= t < |s.threads| && s.threads[t] == Idle ==> s'.threads[t] == Idle)
            && UnprovenAt(s'.log, s.round) ==
               UnprovenAt(s.log, s.round) + InFlight(s.threads[..k], s.l.limit, s.round)
  {
    if k == 0 {
      moves := [];
    } else {
      hide Run, UnprovenAt;
      moves := FinishInFlight(c, s, k - 1);
      var s1 := Run(c, s, moves);
      assert s.threads[..k][..k - 1] == s.threads[..k - 1];
      assert s1.threads[k - 1..][0] == s.threads[k - 1..][0];
      assert s1.threads[k - 1..][1..] == s.threads[k - 1..][1..];
      if Holds(s.threads[k - 1], s.l.limit, s.round) {
        FinishOne(c, s1, k - 1);
        RunOne(c, s1, k - 1, Finish(0));
        RunOfMore(c, s, moves, [(k - 1, Finish(0))]);
        moves := moves + [(k - 1, Finish(0))];
      }
    }
  }

  /** The bound by time is exact: right after the counter was set back, the messages in flight, if
      they come without an address, and `limit` more can all pass before it is set back again. */
  lemma BoundIsAttained(c: Primitives, s: System, t: nat, src: Bytes) returns (moves: seq<(nat, Move)>)
    requires Inv(s) && s.l.count == 0 && UnprovenAt(s.log, s.round) == 0
    requires t < |s.threads| && s.threads[t] == Idle && Counts(c, s.l, src)
    requires forall u :: 0 <= u < |s.threads| && Holds(s.threads[u], s.l.limit, s.round) ==> s.threads[u].addr.None?
    ensures var s' := Run(c, s, moves);
            && s'.round == s.round
            && UnprovenAt(s'.log, s.round) == s.l.limit + InFlight(s.threads, s.l.limit, s.round)
  {
    hide Run, UnprovenAt, Counts;
    var late := FinishInFlight(c, s, |s.threads|);
    assert s.threads[..|s.threads|] == s.threads;
    var more := PassUpToLimit(c, Run(c, s, late), t, src);
    RunOfMore(c, s, late, more);
    moves := late + more;
  }

  /** So with a limit of one, two messages can pass in a second: the first thread takes its number,
      the counter is set back, the first message passes, and then another. */
  lemma TwoPassWithLimitOne(c: Primitives, l: Limiter, src: Bytes, now: nat) returns (moves: seq<(nat, Move)>)
    requires l.limit == 1 && l.count == 0 && l.ResetDue(now) && Counts(c, l, src)
    ensures var s := Run(c, Start(l, 2), moves);
            s.round == 1 && UnprovenAt(s.log, 1) == 2
  {
    hide Run, Counts;
    var s0 := Start(l, 2);
    var s1 := Step(c, s0, 0, Take(None, src, 0));
    var s2 := Step(c, s1, 1, ReadClock(now));
    var s3 := Step(c, s2, 1, Store);
    var first := [(0, Take(None, src, 0))] + [(1, ReadClock(now))];
    RunTwo(c, s0, 0, Take(None, src, 0), 1, ReadClock(now));
    RunOfMore(c, s0, first, [(1, Store)]);
    RunOne(c, s2, 1, Store);
    assert Inv(s0);
    StepKeepsInv(c, s0, 0, Take(None, src, 0));
    StepKeepsInv(c, s1, 1, ReadClock(now));
    StepKeepsInv(c, s2, 1, Store);
    CountsSame(c, l, s3.l, src);
    assert s3.threads == [Numbered(None, src, 0, 0, 0), Idle];
    OneInFlight(s3.threads);
    var rest := BoundIsAttained(c, s3, 1, src);
    RunOfMore(c, s0, first + [(1, Store)], rest);
    moves := first + [(1, Store)] + rest;
  }

  lemma CountsSame(c: Primitives, l: Limiter, l': Limiter, src: Bytes)
    requires SameKeys(l, l')
    ensures Counts(c, l', src) <==> Counts(c, l, src)
  {
  }

  lemma OneInFlight(threads: seq<Phase>)
    requires |threads| == 2 && Holds(threads[0], 1, 1) && threads[1] == Idle
    ensures InFlight(threads, 1, 1) == 1
  {
    assert InFlight(threads[..1], 1, 1) == 1;
  }
}
