/**
 Several threads receive on one session at once. The counter is checked twice, each time under
 the validator's lock: before decryption and, marking it, after. Between the two any other
 thread may act.
 */
module ReceiveAccounting {
  import opened ReplayWindow

  type Thread = nat

  /** Where a thread is inside the receive path, and with which counter. */
  datatype Phase = Idle | Checked(counter: nat) | Decrypted(counter: nat)

  datatype State = State(
    window: Window,
    receiveCnt: nat,
    phase: map<Thread, Phase>,     // threads inside the receive path; the others are idle
    delivered: seq<nat>)           // counters of the packets handed on, in order

  function PhaseOf(s: State, t: Thread): Phase {
    if t in s.phase then s.phase[t] else Idle
  }

  ghost predicate Init(s: State) {
    s == State(EmptyWindow, 0, map[], [])
  }

  /** A thread passes, or is stopped by, the check before decryption. */
  ghost predicate QuickCheck(s: State, s': State, t: Thread, counter: nat) {
    && PhaseOf(s, t) == Idle
    && s' == if s.window.QuickCheck(counter) == Accepted
             then s.(phase := s.phase[t := Checked(counter)]) else s
  }

  /** Decryption succeeds or fails; no shared state is involved. */
  ghost predicate Decrypt(s: State, s': State, t: Thread, genuine: bool) {
    && PhaseOf(s, t).Checked?
    && s' == s.(phase := s.phase[t := if genuine then Decrypted(s.phase[t].counter) else Idle])
  }

  /** The thread marks its counter and delivers the packet if the mark is accepted. */
  ghost predicate Mark(s: State, s': State, t: Thread) {
    && PhaseOf(s, t).Decrypted?
    && var counter := s.phase[t].counter;
       var (window, verdict) := s.window.Mark(counter);
       s' == s.(window := window,
                receiveCnt := s.receiveCnt + (if verdict == Accepted then 1 else 0),
                phase := s.phase[t := Idle],
                delivered := if verdict == Accepted then s.delivered + [counter] else s.delivered)
  }

  ghost predicate Next(s: State, s': State) {
    || (exists t, counter :: QuickCheck(s, s', t, counter))
    || (exists t, genuine :: Decrypt(s, s', t, genuine))
    || (exists t :: Mark(s, s', t))
  }

  ghost predicate Run(states: seq<State>) {
    && |states| > 0
    && Init(states[0])
    && forall i :: 0 <= i < |states| - 1 ==> Next(states[i], states[i + 1])
  }

  ghost predicate NoDuplicates(s: seq<nat>) {
    forall i, j :: 0 <= i < j < |s| ==> s[i] != s[j]
  }

  ghost predicate Accounts(s: State) {
    && s.window.Consistent()
    && NoDuplicates(s.delivered)
    && (forall c :: c in s.window.seen <==> c in s.delivered)
    && s.receiveCnt == |s.delivered|
    && s.receiveCnt == |s.window.seen|
  }

  lemma StepKeepsAccounts(s: State, s': State)
    requires Accounts(s) && Next(s, s')
    ensures Accounts(s')
  {
    if t :| Mark(s, s', t) {
      var counter := s.phase[t].counter;
      if s.window.Admits(counter) {
        assert counter !in s.delivered;
        assert s'.window.seen == s.window.seen + {counter};
      }
    }
  }

  lemma {:induction false} BoundedSetSize(n: nat, s: set<nat>)
    requires forall c :: c in s ==> c < n
    ensures |s| <= n
  {
    if n == 0 {
      assert s == {};
    } else {
      BoundedSetSize(n - 1, s - {n - 1});
    }
  }

  /** In every state of every interleaving each counter has been delivered at most once, and the
      receive count is the number delivered and at most the next counter expected. */
  lemma {:induction false} DeliveredAtMostOnce(states: seq<State>, k: nat)
    requires Run(states) && k < |states|
    ensures var s := states[k];
            && Accounts(s)
            && NoDuplicates(s.delivered)
            && s.receiveCnt == |s.delivered| <= s.window.next
  {
    if k > 0 {
      DeliveredAtMostOnce(states, k - 1);
      StepKeepsAccounts(states[k - 1], states[k]);
    }
    BoundedSetSize(states[k].window.next, states[k].window.seen);
  }

  /** The check before decryption alone would not do: two threads can both pass it with the
      same counter, and then only the first to mark delivers. */
  lemma BothMayPassTheQuickCheck(t: Thread, u: Thread, c: nat)
    requires t != u
    ensures var both := map[t := Decrypted(c), u := Decrypted(c)];
            && Run([State(EmptyWindow, 0, map[], []),
                    State(EmptyWindow, 0, map[t := Checked(c)], []),
                    State(EmptyWindow, 0, map[t := Checked(c), u := Checked(c)], []),
                    State(EmptyWindow, 0, map[t := Decrypted(c), u := Checked(c)], []),
                    State(EmptyWindow, 0, both, []),
                    State(Window(c + 1, {c}), 1, both[t := Idle], [c]),
                    State(Window(c + 1, {c}), 1, both[t := Idle][u := Idle], [c])])
  {
    var a := State(EmptyWindow, 0, map[], []);
    var b := State(EmptyWindow, 0, map[t := Checked(c)], []);
    var d := State(EmptyWindow, 0, map[t := Checked(c), u := Checked(c)], []);
    var e := State(EmptyWindow, 0, map[t := Decrypted(c), u := Checked(c)], []);
    var f := State(EmptyWindow, 0, map[t := Decrypted(c), u := Decrypted(c)], []);
    var g := State(Window(c + 1, {c}), 1, f.phase[t := Idle], [c]);
    var h := State(Window(c + 1, {c}), 1, f.phase[t := Idle][u := Idle], [c]);
    assert QuickCheck(a, b, t, c);
    assert QuickCheck(b, d, u, c);
    assert Decrypt(d, e, t, true);
    assert Decrypt(e, f, u, true);
    assert Mark(f, g, t);
    assert Mark(g, h, u);
  }
}
