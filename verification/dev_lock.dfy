/**
 The read lock that can be upgraded by agreement. Any number of threads run `read` and
 `try_writeable` one blocking operation at a time; a schedule says whose turn it is. A thread's
 phase is the operation it will do next, so a state records everything the threads share: the
 mutex of `wants_write`, the flag itself, the inner read/write lock, and who sleeps on the
 condition variable. Wake-ups are only by `notify_all`.
 */
module DevLock {
  import opened Wrappers

  type Thread = nat

  datatype Phase =
    // no guard held
    | Idle
    // in `read`
    | ReadLock            // lock the mutex
    | ReadCheck           // holding the mutex: look at the flag
    | ReadSleep           // asleep on the condition variable
    | ReadRelock          // woken: lock the mutex again
    | ReadAcquire         // holding the mutex: take the inner read lock
    | ReadUnlock          // holding both: unlock the mutex
    // holding a guard, running the caller's code
    | Reading
    // in `try_writeable`, first stage
    | WriteLock           // holding the read lock: lock the mutex
    | WriteYield          // holding both: release the read lock
    | WriteCheck          // holding the mutex: look at the flag, or set it
    | WriteSleep          // asleep on the condition variable
    | WriteRelock         // woken: lock the mutex again
    | WriteUnlock         // flag set, holding the mutex: unlock it
    | WriteResume         // take the read lock back
    // second and third stage
    | Prepare             // holding the read lock: run `prep_func`, then release the lock
    | Upgrade             // take the write lock
    | Mutate              // holding the write lock: run `mut_func`, then release the lock
    | Restore             // take the read lock back
    // last stage, holding the read lock
    | SignalLock          // lock the mutex
    | Signal              // clear the flag and notify everybody
    | SignalUnlock        // unlock the mutex

  predicate HoldsMutex(p: Phase) {
    p.ReadCheck? || p.ReadAcquire? || p.ReadUnlock? || p.WriteYield? || p.WriteCheck? || p.WriteUnlock?
    || p.Signal? || p.SignalUnlock?
  }

  predicate HoldsRead(p: Phase) {
    p.ReadUnlock? || p.Reading? || p.WriteLock? || p.WriteYield? || p.Prepare? || p.SignalLock? || p.Signal?
    || p.SignalUnlock?
  }

  /** Between setting the flag and clearing it. */
  predicate Owns(p: Phase) {
    WillWrite(p) || HasWritten(p)
  }

  predicate WillWrite(p: Phase) {
    p.WriteUnlock? || p.WriteResume? || p.Prepare? || p.Upgrade? || p.Mutate?
  }

  predicate HasWritten(p: Phase) {
    p.Restore? || p.SignalLock? || p.Signal?
  }

  predicate Asleep(p: Phase) {
    p.ReadSleep? || p.WriteSleep?
  }

  predicate WantsMutex(p: Phase) {
    p.ReadLock? || p.ReadRelock? || p.WriteLock? || p.WriteRelock? || p.SignalLock?
  }

  predicate WantsRead(p: Phase) {
    p.ReadAcquire? || p.WriteResume? || p.Restore?
  }

  /** What happened to the flag and to the value it protects, in order. */
  datatype Entry = Marked(thread: Thread) | Wrote(thread: Thread) | Cleared(thread: Thread)

  datatype State = State(
    mutex: Option<Thread>,
    wantsWrite: bool,
    readers: set<Thread>,
    writer: Option<Thread>,
    phase: map<Thread, Phase>,
    log: seq<Entry>)

  function Initial(threads: set<Thread>): State {
    State(None, false, {}, None, map t | t in threads :: Idle, [])
  }

  // ---------------------------------------------------------------- steps

  /** Whether the operation thread t is about to do can complete now. */
  predicate Enabled(s: State, t: Thread) {
    && t in s.phase
    && var p := s.phase[t];
       && !Asleep(p)
       && (WantsMutex(p) ==> s.mutex.None?)
       && (WantsRead(p) ==> s.writer.None?)
       && (p.Upgrade? ==> s.writer.None? && s.readers == {})
  }

  function To(s: State, t: Thread, p: Phase): State {
    s.(phase := s.phase[t := p])
  }

  function Locking(s: State, t: Thread, p: Phase): State {
    To(s, t, p).(mutex := Some(t))
  }

  function Unlocking(s: State, t: Thread, p: Phase): State {
    To(s, t, p).(mutex := None)
  }

  function TakingRead(s: State, t: Thread, p: Phase): State {
    To(s, t, p).(readers := s.readers + {t})
  }

  function ReleasingRead(s: State, t: Thread, p: Phase): State {
    To(s, t, p).(readers := s.readers - {t})
  }

  function Woken(p: Phase): Phase {
    match p
    case ReadSleep => ReadRelock
    case WriteSleep => WriteRelock
    case _ => p
  }

  function NotifyAll(s: State): State {
    s.(phase := map t | t in s.phase :: Woken(s.phase[t]))
  }

  /** `read`, and dropping the guard it returns. A thread holding a guard drops it or upgrades. */
  function ReadStep(s: State, t: Thread, upgrade: bool): State
    requires t in s.phase
  {
    match s.phase[t]
    case Idle => To(s, t, ReadLock)
    case ReadLock => Locking(s, t, ReadCheck)
    case ReadCheck => if s.wantsWrite then Unlocking(s, t, ReadSleep) else To(s, t, ReadAcquire)
    case ReadRelock => Locking(s, t, ReadCheck)
    case ReadAcquire => TakingRead(s, t, ReadUnlock)
    case ReadUnlock => Unlocking(s, t, Reading)
    case Reading => if upgrade then To(s, t, WriteLock) else ReleasingRead(s, t, Idle)
    case _ => s
  }

  /** The first stage of `try_writeable`: the flag is set while the read lock is given up. */
  function MarkStep(s: State, t: Thread): State
    requires t in s.phase
  {
    match s.phase[t]
    case WriteLock => Locking(s, t, WriteYield)
    case WriteYield => ReleasingRead(s, t, WriteCheck)
    case WriteCheck =>
      if s.wantsWrite then Unlocking(s, t, WriteSleep)
      else To(s, t, WriteUnlock).(wantsWrite := true, log := s.log + [Marked(t)])
    case WriteRelock => Locking(s, t, WriteCheck)
    case WriteUnlock => Unlocking(s, t, WriteResume)
    case WriteResume => TakingRead(s, t, Prepare)
    case _ => s
  }

  /** The rest of `try_writeable`: preparing, writing, and telling the others. */
  function WriteStep(s: State, t: Thread): State
    requires t in s.phase
  {
    match s.phase[t]
    case Prepare => ReleasingRead(s, t, Upgrade)
    case Upgrade => To(s, t, Mutate).(writer := Some(t))
    case Mutate => To(s, t, Restore).(writer := None, log := s.log + [Wrote(t)])
    case Restore => TakingRead(s, t, SignalLock)
    case SignalLock => Locking(s, t, Signal)
    case Signal => To(NotifyAll(s), t, SignalUnlock).(wantsWrite := false, log := s.log + [Cleared(t)])
    case SignalUnlock => Unlocking(s, t, Reading)
    case _ => s
  }

  predicate InRead(p: Phase) {
    || p.Idle? || p.ReadLock? || p.ReadCheck? || p.ReadSleep? || p.ReadRelock? || p.ReadAcquire?
    || p.ReadUnlock? || p.Reading?
  }

  predicate InMark(p: Phase) {
    || p.WriteLock? || p.WriteYield? || p.WriteCheck? || p.WriteSleep? || p.WriteRelock?
    || p.WriteUnlock? || p.WriteResume?
  }

  /** One operation of thread t. */
  function Step(s: State, t: Thread, upgrade: bool): State
    requires t in s.phase
  {
    if InRead(s.phase[t]) then ReadStep(s, t, upgrade)
    else if InMark(s.phase[t]) then MarkStep(s, t)
    else WriteStep(s, t)
  }

  datatype Turn = Turn(thread: Thread, upgrade: bool)

  /** A run: turns of threads that cannot proceed are skipped. */
  function Run(threads: set<Thread>, turns: seq<Turn>): State {
    if turns == [] then Initial(threads)
    else
      var s := Run(threads, turns[..|turns| - 1]);
      var turn := turns[|turns| - 1];
      if Enabled(s, turn.thread) then Step(s, turn.thread, turn.upgrade) else s
  }

  // ---------------------------------------------------------------- what every step keeps

  ghost predicate MutexMatches(s: State) {
    forall t :: s.mutex == Some(t) <==> t in s.phase && HoldsMutex(s.phase[t])
  }

  ghost predicate ReadersMatch(s: State) {
    forall t :: t in s.readers <==> t in s.phase && HoldsRead(s.phase[t])
  }

  ghost predicate WriterMatches(s: State) {
    && (forall t :: s.writer == Some(t) <==> t in s.phase && s.phase[t].Mutate?)
    && (s.writer.Some? ==> s.readers == {})
  }

  ghost predicate OwnerIsOne(s: State) {
    && (forall t :: t in s.phase && Owns(s.phase[t]) ==> s.wantsWrite)
    && (forall t, u :: t in s.phase && u in s.phase && Owns(s.phase[t]) && Owns(s.phase[u]) ==> t == u)
  }

  ghost predicate FlagHasOwner(s: State) {
    s.wantsWrite ==> exists t :: t in s.phase && Owns(s.phase[t])
  }

  ghost predicate FlagMatchesOthers(s: State) {
    forall t :: t in s.phase ==>
      (Asleep(s.phase[t]) ==> s.wantsWrite) && (s.phase[t].ReadAcquire? ==> !s.wantsWrite)
  }

  /** The log is a sequence of rounds: one thread marks, the same writes, the same clears. */
  ghost predicate LogIsRounds(log: seq<Entry>) {
    forall k :: 0 <= k < |log| ==> InRound(log, k)
  }

  predicate InRound(log: seq<Entry>, k: nat)
    requires k < |log|
  {
    if k % 3 == 0 then log[k].Marked?
    else if k % 3 == 1 then log[k] == Wrote(log[k - 1].thread)
    else log[k] == Cleared(log[k - 1].thread)
  }

  ghost predicate LogMatches(s: State) {
    && (!s.wantsWrite <==> |s.log| % 3 == 0)
    && (forall t :: t in s.phase && WillWrite(s.phase[t]) ==> |s.log| % 3 == 1 && s.log[|s.log| - 1] == Marked(t))
    && (forall t :: t in s.phase && HasWritten(s.phase[t]) ==> |s.log| % 3 == 2 && s.log[|s.log| - 1] == Wrote(t))
  }

  ghost predicate Inv(s: State) {
    && MutexMatches(s) && ReadersMatch(s) && WriterMatches(s)
    && OwnerIsOne(s) && FlagHasOwner(s) && FlagMatchesOthers(s)
    && LogIsRounds(s.log) && LogMatches(s)
  }

  /** What a step of thread t may do, as far as the invariant is concerned: to the other threads
      and to the two locks, ... */
  ghost predicate MovesLocks(s: State, next: State, t: Thread) {
    MovesMutex(s, next, t) && MovesReaders(s, next, t)
  }

  ghost predicate MovesMutex(s: State, next: State, t: Thread) {
    && t in s.phase && t in next.phase
    && (forall u :: u != t ==> (u in next.phase <==> u in s.phase))
    && (forall u :: u != t && u in s.phase ==> next.phase[u] == s.phase[u] || next.phase[u] == Woken(s.phase[u]))
    && (next.mutex == s.mutex || (s.mutex.None? && next.mutex == Some(t)) || (s.mutex == Some(t) && next.mutex.None?))
    && (next.mutex == Some(t) <==> HoldsMutex(next.phase[t]))
  }

  ghost predicate MovesReaders(s: State, next: State, t: Thread) {
    && t in next.phase
    && (forall u :: u != t ==> (u in next.readers <==> u in s.readers))
    && (t in next.readers <==> HoldsRead(next.phase[t]))
    && (next.writer == s.writer || (s.writer.None? && next.writer == Some(t))
        || (s.writer == Some(t) && next.writer.None?))
    && (next.writer == Some(t) <==> next.phase[t].Mutate?)
    && (next.writer.Some? ==> next.readers == {} || (next.writer == s.writer && next.readers <= s.readers))
  }

  /** ... and to the flag and the log. */
  ghost predicate MovesFlag(s: State, next: State, t: Thread) {
    && t in s.phase && t in next.phase
    && var p, q := s.phase[t], next.phase[t];
       && (Asleep(q) ==> next.wantsWrite) && (q.ReadAcquire? ==> !next.wantsWrite)
       && (|| (next.wantsWrite == s.wantsWrite && next.log == s.log
               && WillWrite(q) == WillWrite(p) && HasWritten(q) == HasWritten(p))
           || (!s.wantsWrite && next.wantsWrite && next.log == s.log + [Marked(t)] && WillWrite(q)
               && s.mutex == Some(t))
           || (s.wantsWrite && next.wantsWrite && next.log == s.log + [Wrote(t)] && WillWrite(p) && HasWritten(q))
           || (s.wantsWrite && !next.wantsWrite && next.log == s.log + [Cleared(t)] && HasWritten(p) && !Owns(q)
               && forall u :: u != t && u in next.phase ==> !Asleep(next.phase[u])))
  }

  /** What the invariant says of the thread that is about to step. */
  ghost predicate Here(s: State, t: Thread) {
    && t in s.phase
    && var p := s.phase[t];
       && (s.mutex == Some(t) <==> HoldsMutex(p))
       && (t in s.readers <==> HoldsRead(p))
       && (s.writer == Some(t) <==> p.Mutate?)
       && (s.writer.Some? ==> s.readers == {})
       && (Owns(p) || Asleep(p) ==> s.wantsWrite)
       && (p.ReadAcquire? ==> !s.wantsWrite)
  }

  lemma ReadStepMovesLocks(s: State, t: Thread, upgrade: bool)
    requires Enabled(s, t) && InRead(s.phase[t]) && Here(s, t)
    ensures MovesLocks(s, ReadStep(s, t, upgrade), t)
  {
    ReadStepMovesMutex(s, t, upgrade);
    ReadStepMovesReaders(s, t, upgrade);
    hide ReadStep;
  }

  lemma ReadStepMovesMutex(s: State, t: Thread, upgrade: bool)
    requires Enabled(s, t) && InRead(s.phase[t]) && Here(s, t)
    ensures MovesMutex(s, ReadStep(s, t, upgrade), t)
  {
    hide Owns, WillWrite, HasWritten, HoldsRead;
  }

  lemma ReadStepMovesReaders(s: State, t: Thread, upgrade: bool)
    requires Enabled(s, t) && InRead(s.phase[t]) && Here(s, t)
    ensures MovesReaders(s, ReadStep(s, t, upgrade), t)
  {
    hide Owns, WillWrite, HasWritten, HoldsMutex;
  }

  lemma ReadStepMovesFlag(s: State, t: Thread, upgrade: bool)
    requires Enabled(s, t) && InRead(s.phase[t]) && Here(s, t)
    ensures MovesFlag(s, ReadStep(s, t, upgrade), t)
  {
  }

  lemma MarkStepMovesLocks(s: State, t: Thread)
    requires Enabled(s, t) && InMark(s.phase[t]) && Here(s, t)
    ensures MovesLocks(s, MarkStep(s, t), t)
  {
    hide Owns, WillWrite, HasWritten;
  }

  lemma MarkStepMovesFlag(s: State, t: Thread)
    requires Enabled(s, t) && InMark(s.phase[t]) && Here(s, t)
    ensures MovesFlag(s, MarkStep(s, t), t)
  {
  }

  lemma WriteStepMovesLocks(s: State, t: Thread)
    requires Enabled(s, t) && !InRead(s.phase[t]) && !InMark(s.phase[t]) && Here(s, t)
    ensures MovesLocks(s, WriteStep(s, t), t)
  {
    WriteStepMovesMutex(s, t);
    WriteStepMovesReaders(s, t);
    hide WriteStep;
  }

  lemma WriteStepMovesMutex(s: State, t: Thread)
    requires Enabled(s, t) && !InRead(s.phase[t]) && !InMark(s.phase[t]) && Here(s, t)
    ensures MovesMutex(s, WriteStep(s, t), t)
  {
    hide Owns, WillWrite, HasWritten, HoldsRead;
  }

  lemma WriteStepMovesReaders(s: State, t: Thread)
    requires Enabled(s, t) && !InRead(s.phase[t]) && !InMark(s.phase[t]) && Here(s, t)
    ensures MovesReaders(s, WriteStep(s, t), t)
  {
    hide Owns, WillWrite, HasWritten, HoldsMutex;
  }

  lemma WriteStepMovesFlag(s: State, t: Thread)
    requires Enabled(s, t) && !InRead(s.phase[t]) && !InMark(s.phase[t]) && Here(s, t)
    ensures MovesFlag(s, WriteStep(s, t), t)
  {
  }

  lemma StepMoves(s: State, t: Thread, upgrade: bool)
    requires Enabled(s, t) && Here(s, t)
    ensures MovesLocks(s, Step(s, t, upgrade), t) && MovesFlag(s, Step(s, t, upgrade), t)
  {
    if InRead(s.phase[t]) {
      ReadStepMovesLocks(s, t, upgrade);
      ReadStepMovesFlag(s, t, upgrade);
    } else if InMark(s.phase[t]) {
      MarkStepMovesLocks(s, t);
      MarkStepMovesFlag(s, t);
    } else {
      WriteStepMovesLocks(s, t);
      WriteStepMovesFlag(s, t);
    }
  }

  lemma MoveKeepsLocks(s: State, next: State, t: Thread)
    requires MutexMatches(s) && ReadersMatch(s) && WriterMatches(s) && MovesLocks(s, next, t)
    ensures MutexMatches(next) && ReadersMatch(next) && WriterMatches(next)
  {
  }

  /** A thread that did not step keeps its part in the protocol. */
  lemma OthersKeepRoles(s: State, next: State, t: Thread, u: Thread)
    requires MovesLocks(s, next, t) && u != t && u in next.phase
    ensures u in s.phase
    ensures var p, q := s.phase[u], next.phase[u];
            && WillWrite(q) == WillWrite(p) && HasWritten(q) == HasWritten(p)
            && (Asleep(q) ==> Asleep(p)) && q.ReadAcquire? == p.ReadAcquire?
  {
  }

  lemma MoveKeepsOwner(s: State, next: State, t: Thread)
    requires OwnerIsOne(s) && MovesLocks(s, next, t) && MovesFlag(s, next, t)
    ensures OwnerIsOne(next)
  {
    forall u | u in next.phase && Owns(next.phase[u])
      ensures next.wantsWrite && (u == t || Owns(s.phase[u]))
    {
      if u != t {
        OthersKeepRoles(s, next, t, u);
      }
    }
  }

  lemma MoveKeepsFlag(s: State, next: State, t: Thread)
    requires FlagHasOwner(s) && MovesLocks(s, next, t) && MovesFlag(s, next, t)
    ensures FlagHasOwner(next)
  {
    if next.wantsWrite {
      if s.wantsWrite {
        var u :| u in s.phase && Owns(s.phase[u]);
        if u != t {
          OthersKeepRoles(s, next, t, u);
        }
        assert Owns(next.phase[u]);
      } else {
        assert Owns(next.phase[t]);
      }
    }
  }

  lemma MoveKeepsOthers(s: State, next: State, t: Thread)
    requires MutexMatches(s) && FlagMatchesOthers(s) && MovesLocks(s, next, t) && MovesFlag(s, next, t)
    ensures FlagMatchesOthers(next)
  {
    forall u | u in next.phase
      ensures (Asleep(next.phase[u]) ==> next.wantsWrite) && (next.phase[u].ReadAcquire? ==> !next.wantsWrite)
    {
      if u != t {
        OthersKeepRoles(s, next, t, u);
      }
    }
  }

  lemma MoveKeepsLog(s: State, next: State, t: Thread)
    requires LogMatches(s) && OwnerIsOne(s) && MovesLocks(s, next, t) && MovesFlag(s, next, t)
    ensures LogMatches(next)
  {
    forall u | u in next.phase
      ensures WillWrite(next.phase[u]) ==> |next.log| % 3 == 1 && next.log[|next.log| - 1] == Marked(u)
      ensures HasWritten(next.phase[u]) ==> |next.log| % 3 == 2 && next.log[|next.log| - 1] == Wrote(u)
    {
      if u != t {
        OthersKeepRoles(s, next, t, u);
      }
    }
  }

  lemma MoveKeepsRounds(s: State, next: State, t: Thread)
    requires LogIsRounds(s.log) && LogMatches(s) && MovesFlag(s, next, t)
    ensures LogIsRounds(next.log)
  {
    forall k | 0 <= k < |next.log|
      ensures InRound(next.log, k)
    {
      if k < |s.log| {
        assert InRound(s.log, k);
      }
    }
  }

  lemma StepKeepsInv(s: State, t: Thread, upgrade: bool)
    requires Inv(s) && Enabled(s, t)
    ensures Inv(Step(s, t, upgrade))
  {
    StepMoves(s, t, upgrade);
    var next := Step(s, t, upgrade);
    MoveKeepsLocks(s, next, t);
    MoveKeepsOwner(s, next, t);
    MoveKeepsFlag(s, next, t);
    MoveKeepsOthers(s, next, t);
    MoveKeepsLog(s, next, t);
    MoveKeepsRounds(s, next, t);
  }

  lemma {:induction false} EveryRunKeepsInv(threads: set<Thread>, turns: seq<Turn>)
    ensures Inv(Run(threads, turns))
  {
    if turns != [] {
      var s := Run(threads, turns[..|turns| - 1]);
      var turn := turns[|turns| - 1];
      EveryRunKeepsInv(threads, turns[..|turns| - 1]);
      if Enabled(s, turn.thread) {
        StepKeepsInv(s, turn.thread, turn.upgrade);
      }
    }
  }

  // ---------------------------------------------------------------- what follows for every run

  /** At most one thread owns the flag; the flag is up exactly while somebody owns it. */
  lemma OneOwner(threads: set<Thread>, turns: seq<Turn>)
    ensures var s := Run(threads, turns);
            && (s.wantsWrite <==> exists t :: t in s.phase && Owns(s.phase[t]))
            && forall t, u :: t in s.phase && u in s.phase && Owns(s.phase[t]) && Owns(s.phase[u]) ==> t == u
  {
    EveryRunKeepsInv(threads, turns);
  }

  /** While `mut_func` runs nobody else does, and nobody reads. */
  lemma MutationIsExclusive(threads: set<Thread>, turns: seq<Turn>, t: Thread, u: Thread)
    requires var s := Run(threads, turns); t in s.phase && u in s.phase && s.phase[t].Mutate? && t != u
    ensures var p := Run(threads, turns).phase[u]; !p.Mutate? && !p.Reading? && !p.Prepare? && !HoldsRead(p)
  {
    EveryRunKeepsInv(threads, turns);
  }

  /** A thread asleep on the condition variable holds neither lock, and there is an owner who will
      wake it: no wake-up is lost. */
  lemma SleepersHoldNothing(threads: set<Thread>, turns: seq<Turn>, t: Thread)
    requires var s := Run(threads, turns); t in s.phase && Asleep(s.phase[t])
    ensures var s := Run(threads, turns);
            && t !in s.readers && s.mutex != Some(t) && s.writer != Some(t)
            && exists u :: u in s.phase && u != t && Owns(s.phase[u])
  {
    EveryRunKeepsInv(threads, turns);
  }

  /** Every write is immediately preceded by its own thread's mark: nothing is written between a
      thread setting the flag, or its `prep_func`, and its `mut_func`. */
  lemma WritesFollowTheirOwnMark(threads: set<Thread>, turns: seq<Turn>, k: nat)
    requires k < |Run(threads, turns).log| && Run(threads, turns).log[k].Wrote?
    ensures var log := Run(threads, turns).log;
            && k > 0 && log[k - 1] == Marked(log[k].thread)
            && (k + 1 < |log| ==> log[k + 1] == Cleared(log[k].thread))
  {
    EveryRunKeepsInv(threads, turns);
    RoundsInOrder(Run(threads, turns).log, k);
  }

  lemma RoundsInOrder(log: seq<Entry>, k: nat)
    requires LogIsRounds(log) && k < |log| && log[k].Wrote?
    ensures k > 0 && log[k - 1] == Marked(log[k].thread)
    ensures k + 1 < |log| ==> log[k + 1] == Cleared(log[k].thread)
  {
    assert InRound(log, k);
    assert InRound(log, k - 1);
    if k + 1 < |log| {
      assert InRound(log, k + 1);
    }
  }

  predicate Busy(p: Phase) {
    !p.Idle? && !p.Reading?
  }

  /** Nothing can block for good: if some thread is inside `read` or `try_writeable`, then some such
      thread can take its next step, unless a writer is waiting for guards still being used. */
  lemma NoDeadlock(threads: set<Thread>, turns: seq<Turn>, t: Thread)
    requires var s := Run(threads, turns); t in s.phase && Busy(s.phase[t])
    ensures var s := Run(threads, turns);
            || (exists u :: u in s.phase && Busy(s.phase[u]) && Enabled(s, u))
            || (exists u, r :: u in s.phase && r in s.phase && s.phase[u].Upgrade? && s.phase[r].Reading?)
  {
    EveryRunKeepsInv(threads, turns);
    var s := Run(threads, turns);
    if s.mutex.Some? {
      MutexHolderProceeds(s);
    } else if WantsMutex(s.phase[t]) {
      assert Enabled(s, t);
    } else if s.wantsWrite {
      OwnerProceeds(s);
    } else {
      assert Enabled(s, t);
    }
  }

  lemma MutexHolderProceeds(s: State)
    requires Inv(s) && s.mutex.Some?
    ensures s.mutex.value in s.phase && Busy(s.phase[s.mutex.value]) && Enabled(s, s.mutex.value)
  {
    var u := s.mutex.value;
    assert s.writer.Some? ==> Owns(s.phase[s.writer.value]);
  }

  lemma OwnerProceeds(s: State)
    requires Inv(s) && s.wantsWrite && s.mutex.None?
    ensures || (exists u :: u in s.phase && Busy(s.phase[u]) && Enabled(s, u))
            || (exists u, r :: u in s.phase && r in s.phase && s.phase[u].Upgrade? && s.phase[r].Reading?)
  {
    var u :| u in s.phase && Owns(s.phase[u]);
    if s.phase[u].Upgrade? && s.readers != {} {
      var r :| r in s.readers;
      assert HoldsRead(s.phase[r]) && r != u;
      if !s.phase[r].Reading? {
        assert !HoldsMutex(s.phase[r]) && !Owns(s.phase[r]);
        assert Enabled(s, r) && Busy(s.phase[r]);
      }
    } else {
      assert s.writer.Some? ==> s.phase[s.writer.value].Mutate?;
      assert Enabled(s, u) && Busy(s.phase[u]);
    }
  }
}
