/**
 Carrying datagrams over a TCP stream: each is preceded by its length as a big-endian u16.
 The receiving side keeps one fixed buffer, cuts complete frames off its front and shifts what
 is left down again. The theorems say that how the stream is cut into reads does not matter.
 */
module TcpFrames {
  import opened Wrappers
  import opened ByteStrings

  const MAX_DATAGRAM_SIZE := 65535
  const HEADER_LEN := 2
  const MAX_ITR := 100

  // ---------------------------------------------------------------- frames

  /** What is written for one packet; the length is truncated to 16 bits. */
  function Frame(p: Bytes): Bytes {
    [(|p| % 65536) / 256, |p| % 256] + p
  }

  function Stream(ps: seq<Bytes>): Bytes {
    if ps == [] then [] else Frame(ps[0]) + Stream(ps[1..])
  }

  function PayloadLength(s: Bytes): (n: nat)
    requires |s| >= HEADER_LEN
  {
    s[0] as nat * 256 + s[1] as nat
  }

  /** The payload of the frame that begins s, once all of it is there. */
  function NextFrame(s: Bytes): (p: Option<Bytes>)
    ensures p.Some? ==> |p.value| < 65536 && HEADER_LEN + |p.value| <= |s|
  {
    if |s| < HEADER_LEN || |s| < HEADER_LEN + PayloadLength(s) then None
    else Some(s[HEADER_LEN..HEADER_LEN + PayloadLength(s)])
  }

  /** The complete frame at an offset, if there is one: its length with the header, its payload. */
  function FrameAt(s: Bytes, offset: nat): (r: Option<(nat, Bytes)>)
    ensures r.Some? ==> offset + r.value.0 <= |s| && r.value.0 == HEADER_LEN + |r.value.1| && |r.value.1| < 65536
  {
    if offset > |s| then None
    else
      var p := NextFrame(s[offset..]);
      if p.None? then None else Some((HEADER_LEN + |p.value|, p.value))
  }

  predicate AllFit(ps: seq<Bytes>, limit: nat) {
    forall i :: 0 <= i < |ps| ==> |ps[i]| <= limit
  }

  lemma Associative<T>(a: seq<T>, b: seq<T>, c: seq<T>)
    ensures a + b + c == a + (b + c)
  {
  }

  lemma SliceOfSlice(b: Bytes, end: nat, at: nat, from: nat, to: nat)
    requires from <= to && at + to <= end <= |b|
    ensures b[at + from..at + to] == b[..end][at..][from..to]
  {
    var tail := b[at..end];
    assert tail == b[..end][at..];
    forall i | 0 <= i < to - from
      ensures b[at + from..at + to][i] == tail[from..to][i]
    {
      assert tail[from + i] == b[at + from + i];
    }
  }

  lemma StreamOfMore(p: Bytes, ps: seq<Bytes>)
    ensures Stream([p] + ps) == Frame(p) + Stream(ps)
  {
    assert ([p] + ps)[1..] == ps;
  }

  lemma CutOfFrame(p: Bytes, rest: Bytes)
    requires |p| < 65536
    ensures NextFrame(Frame(p) + rest) == Some(p)
  {
    var s := Frame(p) + rest;
    assert s[0] == |p| / 256 && s[1] == |p| % 256;
    assert s[HEADER_LEN..HEADER_LEN + |p|] == p;
  }

  lemma FrameOfCut(s: Bytes)
    requires NextFrame(s).Some?
    ensures var p := NextFrame(s).value; s == Frame(p) + s[HEADER_LEN + |p|..]
  {
    var p := NextFrame(s).value;
    HighAndLow(s[0], s[1]);
    assert s == [s[0], s[1]] + s[HEADER_LEN..HEADER_LEN + |p|] + s[HEADER_LEN + |p|..];
  }

  lemma HighAndLow(high: byte, low: byte)
    ensures var n := high as nat * 256 + low as nat; n / 256 == high as nat && n % 256 == low as nat && n < 65536
  {
  }

  lemma {:induction false} StreamOfJoined(ps: seq<Bytes>, qs: seq<Bytes>)
    ensures Stream(ps + qs) == Stream(ps) + Stream(qs)
  {
    hide Frame;
    if ps == [] {
      assert ps + qs == qs;
    } else {
      StreamOfJoined(ps[1..], qs);
      assert (ps + qs)[1..] == ps[1..] + qs && (ps + qs)[0] == ps[0];
      Associative(Frame(ps[0]), Stream(ps[1..]), Stream(qs));
    }
  }

  lemma StreamOfOneMore(ps: seq<Bytes>, p: Bytes)
    ensures Stream(ps + [p]) == Stream(ps) + [(|p| % 65536) / 256, |p| % 256] + p
  {
    StreamOfJoined(ps, [p]);
    assert Stream([p]) == Frame(p) by {
      assert [p][1..] == [];
    }
    Associative(Stream(ps), [(|p| % 65536) / 256, |p| % 256], p);
  }

  /** Frames are a prefix code: whatever complete frames begin a stream of frames, they are the
      first packets of that stream. */
  lemma {:induction false} FramesArePrefixCode(ds: seq<Bytes>, rest: Bytes, sent: seq<Bytes>)
    requires AllFit(ds, 65535) && AllFit(sent, 65535)
    requires Stream(ds) + rest <= Stream(sent)
    ensures ds <= sent
    ensures rest <= Stream(sent[|ds|..])
  {
    if ds == [] {
      assert Stream(ds) + rest == rest && sent[0..] == sent;
    } else {
      var tail := Stream(ds[1..]) + rest;
      assert Stream(ds) + rest == Frame(ds[0]) + tail;
      CutOfFrame(ds[0], tail);
      var s := Stream(sent);
      assert sent != [];
      assert s == Frame(sent[0]) + Stream(sent[1..]);
      CutOfFrame(sent[0], Stream(sent[1..]));
      FrameOfExtension(Frame(ds[0]) + tail, s);
      assert ds[0] == sent[0];
      assert tail == (Frame(ds[0]) + tail)[|Frame(ds[0])|..];
      assert Stream(sent[1..]) == s[|Frame(ds[0])|..];
      assert tail <= Stream(sent[1..]);
      FramesArePrefixCode(ds[1..], rest, sent[1..]);
      assert sent[1..][|ds[1..]|..] == sent[|ds|..];
      assert ds == [ds[0]] + ds[1..] && sent == [sent[0]] + sent[1..];
    }
  }

  /** More bytes never change a frame that is already complete. */
  lemma FrameOfExtension(s: Bytes, longer: Bytes)
    requires s <= longer && NextFrame(s).Some?
    ensures NextFrame(longer) == NextFrame(s)
  {
    assert longer[0] == s[0] && longer[1] == s[1];
    var n := HEADER_LEN + PayloadLength(s);
    assert longer[HEADER_LEN..n] == s[HEADER_LEN..n];
  }

  // ---------------------------------------------------------------- one pass of the handler

  /** What the device made of a packet: refused by the rate limiter, perhaps with a cookie reply,
      or handled, with the packets that were written in answer. */
  datatype Outcome = Refused(cookie: Option<Bytes>) | Handled(replies: seq<Bytes>)

  /** What a pass took off the buffer, what it left, and what it wrote on the two sockets. */
  datatype Drained = Drained(delivered: seq<Bytes>, rest: Bytes, cookies: seq<Bytes>, replies: seq<Bytes>, counted: nat)

  /** How the i-th packet of a pass was answered; past the end of the list it was just refused. */
  function OutcomeAt(outcomes: seq<Outcome>, i: nat): Outcome {
    if i < |outcomes| then outcomes[i] else Refused(None)
  }

  function CookieOf(o: Outcome): seq<Bytes> {
    if o.Refused? && o.cookie.Some? then [o.cookie.value] else []
  }

  function RepliesOf(o: Outcome): seq<Bytes> {
    if o.Handled? then o.replies else []
  }

  /** From position k, packets leave s until no frame is complete, no keys are set, or `MAX_ITR`
      were handled; a refused packet is taken off as well but is not counted. */
  function Drain(s: Bytes, k: nat, keys: bool, outcomes: seq<Outcome>, i: nat, counted: nat): Drained
    requires k <= |s|
    decreases |s| - k
  {
    var f := FrameAt(s, k);
    if f.None? || !keys || counted >= MAX_ITR then Drained([], s[k..], [], [], counted)
    else
      var o := OutcomeAt(outcomes, i);
      var d := Drain(s, k + f.value.0, keys, outcomes, i + 1, if o.Handled? then counted + 1 else counted);
      Drained([f.value.1] + d.delivered, d.rest, CookieOf(o) + d.cookies, RepliesOf(o) + d.replies, d.counted)
  }

  /** Nothing is lost or made up: what was taken, framed again, and what is left is what was there. */
  lemma {:induction false} DrainConserves(s: Bytes, k: nat, keys: bool, outcomes: seq<Outcome>, i: nat, counted: nat)
    requires k <= |s|
    ensures var d := Drain(s, k, keys, outcomes, i, counted);
            && Stream(d.delivered) + d.rest == s[k..]
            && AllFit(d.delivered, 65535)
    decreases |s| - k
  {
    hide FrameAt, OutcomeAt;
    var f := FrameAt(s, k);
    if f.None? || !keys || counted >= MAX_ITR {
      assert Stream([]) + s[k..] == s[k..];
    } else {
      hide Stream;
      var (total, p) := f.value;
      var after := k + total;
      var next := if OutcomeAt(outcomes, i).Handled? then counted + 1 else counted;
      DrainConserves(s, after, keys, outcomes, i + 1, next);
      var d := Drain(s, after, keys, outcomes, i + 1, next);
      OneFrameBack(s, k, total, p, d.delivered, d.rest);
    }
  }

  lemma OneFrameBack(s: Bytes, k: nat, total: nat, p: Bytes, ds: seq<Bytes>, rest: Bytes)
    requires FrameAt(s, k) == Some((total, p)) && Stream(ds) + rest == s[k + total..]
    ensures Stream([p] + ds) + rest == s[k..]
  {
    FrameOfCut(s[k..]);
    assert s[k..][total..] == s[k + total..];
    StreamOfMore(p, ds);
    Associative(Frame(p), Stream(ds), rest);
  }

  /** A pass stops only for one of its three reasons, and the count is of the handled packets. */
  lemma {:induction false} DrainStopsWhen(s: Bytes, k: nat, keys: bool, outcomes: seq<Outcome>, i: nat, counted: nat)
    requires k <= |s| && counted <= MAX_ITR
    ensures var d := Drain(s, k, keys, outcomes, i, counted);
            && (NextFrame(d.rest).None? || !keys || d.counted == MAX_ITR)
            && counted <= d.counted <= MAX_ITR
            && d.counted - counted <= |d.delivered|
            && (d.delivered == [] ==> d.rest == s[k..])
            && (d.delivered != [] ==> |d.rest| <= |s| - k - HEADER_LEN)
    decreases |s| - k
  {
    var f := FrameAt(s, k);
    if f.None? || !keys || counted >= MAX_ITR {
    } else {
      DrainStopsWhen(s, k + f.value.0, keys, outcomes, i + 1,
                     if OutcomeAt(outcomes, i).Handled? then counted + 1 else counted);
    }
  }

  /** The length before a payload is its length in two bytes, the highest first. */
  lemma FrameHeader(p: Bytes)
    requires |p| < 65536
    ensures |Frame(p)| == 2 + |p| && Frame(p)[2..] == p && FromBigEndian(Frame(p)[..2]) == |p|
  {
    var b := Frame(p)[..2];
    assert b[..1] == [|p| / 256] && b[..1][..0] == [];
    assert FromBigEndian(b[..1]) == |p| / 256;
  }

  /** All the answers to some packets, in order: the cookie replies to those refused with one, and what
      the handled ones led to. */
  function CookieReplies(outcomes: seq<Outcome>): seq<Bytes> {
    if outcomes == [] then []
    else
      var before := CookieReplies(outcomes[..|outcomes| - 1]);
      match outcomes[|outcomes| - 1]
      case Refused(Some(cookie)) => before + [cookie]
      case _ => before
  }

  function AllReplies(outcomes: seq<Outcome>): seq<Bytes> {
    if outcomes == [] then []
    else
      var before := AllReplies(outcomes[..|outcomes| - 1]);
      match outcomes[|outcomes| - 1]
      case Handled(replies) => before + replies
      case _ => before
  }

  /** How n packets were answered, from the i-th on. */
  function Answered(outcomes: seq<Outcome>, i: nat, n: nat): (r: seq<Outcome>)
    ensures |r| == n && forall j :: 0 <= j < n ==> r[j] == OutcomeAt(outcomes, i + j)
  {
    seq(n, j requires 0 <= j < n => OutcomeAt(outcomes, i + j))
  }

  lemma {:induction false} FirstAnswers(outcomes: seq<Outcome>)
    requires outcomes != []
    ensures CookieReplies(outcomes) == CookieOf(outcomes[0]) + CookieReplies(outcomes[1..])
    ensures AllReplies(outcomes) == RepliesOf(outcomes[0]) + AllReplies(outcomes[1..])
  {
    if |outcomes| > 1 {
      var init := outcomes[..|outcomes| - 1];
      FirstAnswers(init);
      assert outcomes[1..][..|outcomes[1..]| - 1] == init[1..];
    } else {
      assert outcomes[..0] == [] && outcomes[1..] == [];
    }
  }

  /** What a pass writes is the answers to the packets it took off, and nothing else. */
  lemma {:induction false} PassAnswers(s: Bytes, k: nat, keys: bool, outcomes: seq<Outcome>, i: nat, counted: nat)
    requires k <= |s|
    ensures var d := Drain(s, k, keys, outcomes, i, counted);
            var answered := Answered(outcomes, i, |d.delivered|);
            d.cookies == CookieReplies(answered) && d.replies == AllReplies(answered)
    decreases |s| - k
  {
    hide OutcomeAt, CookieOf, RepliesOf;
    var d := Drain(s, k, keys, outcomes, i, counted);
    var answered := Answered(outcomes, i, |d.delivered|);
    var f := FrameAt(s, k);
    if f.Some? && keys && counted < MAX_ITR {
      var next := if OutcomeAt(outcomes, i).Handled? then counted + 1 else counted;
      PassAnswers(s, k + f.value.0, keys, outcomes, i + 1, next);
      var rest := Drain(s, k + f.value.0, keys, outcomes, i + 1, next);
      assert answered[1..] == Answered(outcomes, i + 1, |rest.delivered|);
      FirstAnswers(answered);
    }
  }

  /** How many complete frames stand in a row from position k. */
  function Frames(s: Bytes, k: nat): nat
    requires k <= |s|
    decreases |s| - k
  {
    var f := FrameAt(s, k);
    if f.None? then 0 else 1 + Frames(s, k + f.value.0)
  }

  /** How many of n packets of a pass, from the i-th on, are handled and not refused. */
  function HandledIn(outcomes: seq<Outcome>, i: nat, n: nat): nat
    decreases n
  {
    if n == 0 then 0 else (if OutcomeAt(outcomes, i).Handled? then 1 else 0) + HandledIn(outcomes, i + 1, n - 1)
  }

  /** A pass takes every complete frame off if and only if there is none, or keys are set and fewer
      than 100 packets have been handled when the last of them is reached. */
  lemma {:induction false} PassTakesAll(s: Bytes, k: nat, keys: bool, outcomes: seq<Outcome>, i: nat, counted: nat)
    requires k <= |s|
    ensures NextFrame(Drain(s, k, keys, outcomes, i, counted).rest).None? <==>
            TakesAll(s, k, keys, outcomes, i, counted)
    decreases |s| - k
  {
    hide OutcomeAt, NextFrame;
    var f := FrameAt(s, k);
    if f.Some? && keys && counted < MAX_ITR {
      PassTakesAll(s, k + f.value.0, keys, outcomes, i + 1,
                   if OutcomeAt(outcomes, i).Handled? then counted + 1 else counted);
    }
  }

  predicate TakesAll(s: Bytes, k: nat, keys: bool, outcomes: seq<Outcome>, i: nat, counted: nat)
    requires k <= |s|
  {
    Frames(s, k) == 0 || (keys && counted + HandledIn(outcomes, i, Frames(s, k) - 1) < 100)
  }

  /** A pass over at most a bufferful leaves room to read into exactly when there was room before,
      or keys are set and the first frame is not too long for the buffer. */
  lemma PassLeavesRoom(s: Bytes, keys: bool, outcomes: seq<Outcome>)
    requires |s| <= 65535
    ensures |Drain(s, 0, keys, outcomes, 0, 0).rest| < 65535 <==>
            |s| < 65535 || (keys && PayloadLength(s) <= 65533)
  {
    DrainStopsWhen(s, 0, keys, outcomes, 0, 0);
  }

  // ---------------------------------------------------------------- runs of one connection

  /** The state of one connection: the buffered bytes, the packets taken off so far, what was
      written back, and whether the handler has given the connection up. */
  datatype Connection =
    Connection(pending: Bytes, delivered: seq<Bytes>, cookies: seq<Bytes>, replies: seq<Bytes>, open: bool)

  const NewConnection := Connection([], [], [], [], true)

  /** One readable event: what `read` returned, and how the device answered during the pass.
      `read` returns no bytes at the end of the stream and also when offered an empty slice. */
  datatype Event = Event(chunk: Bytes, keys: bool, outcomes: seq<Outcome>)

  function Handle(c: Connection, e: Event): Connection {
    if e.chunk == [] then c.(open := false)
    else Finish(c, Drain(c.pending + e.chunk, 0, e.keys, e.outcomes, 0, 0))
  }

  function Finish(c: Connection, d: Drained): Connection {
    c.(pending := d.rest, delivered := c.delivered + d.delivered,
       cookies := c.cookies + d.cookies, replies := c.replies + d.replies)
  }

  /** One packet taken off, while the buffer itself is left for the end of the pass. */
  function TakeOff(c: Connection, p: Bytes, o: Outcome): Connection {
    c.(delivered := c.delivered + [p], cookies := c.cookies + CookieOf(o), replies := c.replies + RepliesOf(o))
  }

  lemma OneMore(c: Connection, s: Bytes, k: nat, keys: bool, outcomes: seq<Outcome>, i: nat, counted: nat,
                total: nat, p: Bytes, o: Outcome, nextCounted: nat)
    requires FrameAt(s, k) == Some((total, p)) && keys && counted < MAX_ITR && o == OutcomeAt(outcomes, i)
    requires nextCounted == if o.Handled? then counted + 1 else counted
    ensures Finish(c, Drain(s, k, keys, outcomes, i, counted)) ==
            Finish(TakeOff(c, p, o), Drain(s, k + total, keys, outcomes, i + 1, nextCounted))
  {
    var d := Drain(s, k + total, keys, outcomes, i + 1, nextCounted);
    Associative(c.cookies, CookieOf(o), d.cookies);
    Associative(c.replies, RepliesOf(o), d.replies);
    Associative(c.delivered, [p], d.delivered);
  }

  lemma NoMore(c: Connection, s: Bytes, k: nat, keys: bool, outcomes: seq<Outcome>, i: nat, counted: nat)
    requires k <= |s| && (FrameAt(s, k).None? || !keys || counted >= MAX_ITR)
    ensures Finish(c, Drain(s, k, keys, outcomes, i, counted)) == c.(pending := s[k..])
  {
  }

  function RunEvents(es: seq<Event>): Connection {
    if es == [] then NewConnection
    else
      var c := RunEvents(es[..|es| - 1]);
      if c.open then Handle(c, es[|es| - 1]) else c
  }

  function Received(es: seq<Event>): Bytes {
    if es == [] then [] else Received(es[..|es| - 1]) + es[|es| - 1].chunk
  }

  /** Every read fits the free part of the buffer, and reads nothing only where there is none. */
  ghost predicate Live(es: seq<Event>) {
    forall i :: 0 <= i < |es| ==> FitsBuffer(es, i)
  }

  ghost predicate FitsBuffer(es: seq<Event>, i: nat)
    requires i < |es|
  {
    var before := RunEvents(es[..i]);
    && |before.pending| + |es[i].chunk| <= MAX_DATAGRAM_SIZE
    && (es[i].chunk == [] ==> |before.pending| == MAX_DATAGRAM_SIZE)
  }

  lemma LivePrefix(es: seq<Event>)
    requires Live(es) && es != []
    ensures Live(es[..|es| - 1]) && FitsBuffer(es, |es| - 1)
  {
    var init := es[..|es| - 1];
    forall i | 0 <= i < |init|
      ensures FitsBuffer(init, i)
    {
      assert FitsBuffer(es, i);
      assert init[..i] == es[..i];
    }
  }

  /** In every run that is still open, the packets taken off, framed, and the bytes still
      buffered are together exactly the bytes received. */
  lemma {:induction false} EveryRunConserves(es: seq<Event>)
    ensures var c := RunEvents(es);
            && AllFit(c.delivered, 65535)
            && (c.open ==> Stream(c.delivered) + c.pending == Received(es))
            && Stream(c.delivered) + c.pending <= Received(es)
  {
    if es != [] {
      var init := es[..|es| - 1];
      var e := es[|es| - 1];
      EveryRunConserves(init);
      var c := RunEvents(init);
      if c.open && e.chunk != [] {
        HandleConserves(c, e);
        Associative(Stream(c.delivered), c.pending, e.chunk);
      }
    }
  }

  lemma HandleConserves(c: Connection, e: Event)
    requires e.chunk != [] && AllFit(c.delivered, 65535)
    ensures var next := Handle(c, e);
            && AllFit(next.delivered, 65535)
            && Stream(next.delivered) + next.pending == Stream(c.delivered) + (c.pending + e.chunk)
  {
    var s := c.pending + e.chunk;
    var d := Drain(s, 0, e.keys, e.outcomes, 0, 0);
    DrainConserves(s, 0, e.keys, e.outcomes, 0, 0);
    StreamOfJoined(c.delivered, d.delivered);
    Associative(Stream(c.delivered), Stream(d.delivered), d.rest);
  }

  /** Whatever the reads were, the packets taken off are the first of those sent, in order; and
      what is still buffered is the beginning of the frames of the others. */
  lemma DeliveredInOrder(es: seq<Event>, sent: seq<Bytes>)
    requires AllFit(sent, 65535) && Received(es) <= Stream(sent)
    ensures var c := RunEvents(es);
            && c.delivered <= sent
            && c.pending <= Stream(sent[|c.delivered|..])
  {
    EveryRunConserves(es);
    FramesArePrefixCode(RunEvents(es).delivered, RunEvents(es).pending, sent);
  }

  /** Two runs over the same bytes take off the same packets as far as both got, and the same
      packets altogether when neither has left a complete frame in the buffer. */
  lemma ChunkingDoesNotMatter(es: seq<Event>, fs: seq<Event>)
    requires Received(es) == Received(fs)
    requires RunEvents(es).open && RunEvents(fs).open
    ensures var c, d := RunEvents(es), RunEvents(fs);
            && (c.delivered <= d.delivered || d.delivered <= c.delivered)
            && (NextFrame(c.pending).None? && NextFrame(d.pending).None? ==>
                  c.delivered == d.delivered && c.pending == d.pending)
  {
    var c, d := RunEvents(es), RunEvents(fs);
    EveryRunConserves(es);
    EveryRunConserves(fs);
    SameParse(c.delivered, c.pending, d.delivered, d.pending);
  }

  lemma {:induction false} SameParse(ps: seq<Bytes>, p: Bytes, qs: seq<Bytes>, q: Bytes)
    requires AllFit(ps, 65535) && AllFit(qs, 65535)
    requires Stream(ps) + p == Stream(qs) + q
    ensures ps <= qs || qs <= ps
    ensures NextFrame(p).None? && NextFrame(q).None? ==> ps == qs && p == q
    decreases |ps|
  {
    hide Stream, NextFrame;
    StreamBegins(ps, p);
    StreamBegins(qs, q);
    if ps != [] && qs != [] {
      SameParse(ps[1..], p, qs[1..], q);
      assert ps == [ps[0]] + ps[1..] && qs == [qs[0]] + qs[1..];
    }
  }

  /** What a stream begins with, and what comes after. */
  lemma StreamBegins(ps: seq<Bytes>, p: Bytes)
    requires AllFit(ps, 65535)
    ensures ps == [] ==> Stream(ps) + p == p
    ensures ps != [] ==>
              && NextFrame(Stream(ps) + p) == Some(ps[0])
              && HEADER_LEN + |ps[0]| <= |Stream(ps) + p|
              && (Stream(ps) + p)[HEADER_LEN + |ps[0]|..] == Stream(ps[1..]) + p
  {
    if ps != [] {
      Associative(Frame(ps[0]), Stream(ps[1..]), p);
      CutOfFrame(ps[0], Stream(ps[1..]) + p);
    }
  }

  /** Once every byte has come in, every packet has been taken off exactly when the last pass came
      to the last complete frame with keys set and fewer than 100 packets handled. */
  lemma EverythingIsDelivered(es: seq<Event>, sent: seq<Bytes>)
    requires AllFit(sent, 65535) && Received(es) == Stream(sent) && RunEvents(es).open
    ensures RunEvents(es).delivered == sent <==>
            es == [] ||
              var e := es[|es| - 1];
              TakesAll(RunEvents(es[..|es| - 1]).pending + e.chunk, 0, e.keys, e.outcomes, 0, 0)
  {
    hide TakesAll, Drain, NextFrame;
    var c := RunEvents(es);
    EveryRunConserves(es);
    NoFrame();
    if NextFrame(c.pending).None? {
      assert Stream(sent) + [] == Stream(sent);
      SameParse(c.delivered, c.pending, sent, []);
    } else {
      assert |Received(es)| == |Stream(c.delivered)| + |c.pending|;
      assert c.pending != [];
    }
    if es != [] {
      var e := es[|es| - 1];
      PassTakesAll(RunEvents(es[..|es| - 1]).pending + e.chunk, 0, e.keys, e.outcomes, 0, 0);
    }
  }

  lemma NoFrame()
    ensures NextFrame([]) == None
  {
  }

  // ---------------------------------------------------------------- runs that leave packets behind

  function Nothing(n: nat): (r: Bytes)
    ensures |r| == n && forall i :: 0 <= i < n ==> r[i] == 0
  {
    seq(n, _ => 0)
  }

  /** A row of zeros is a row of empty frames. */
  lemma {:induction false} EmptyFrames(n: nat, k: nat)
    requires k <= n
    ensures Frames(Nothing(2 * n), 2 * k) == n - k
    decreases n - k
  {
    if k < n {
      var tail := Nothing(2 * n)[2 * k..];
      assert tail[0] == 0 && tail[1] == 0;
      EmptyFrames(n, k + 1);
    }
  }

  lemma {:induction false} AllHandled(outcomes: seq<Outcome>, i: nat, n: nat)
    requires i + n <= |outcomes| && forall k :: 0 <= k < |outcomes| ==> outcomes[k].Handled?
    ensures HandledIn(outcomes, i, n) == n
    decreases n
  {
    if n > 0 {
      AllHandled(outcomes, i + 1, n - 1);
    }
  }

  /** It does happen: of 101 packets that come in one read and are all handled, the last stays in
      the buffer, complete, and the handler has nothing more to do. */
  lemma LastPacketStays()
    ensures var es := [Event(Nothing(202), true, seq(101, _ => Handled([])))];
            && Live(es) && RunEvents(es).open && NextFrame(RunEvents(es).pending).Some?
            && |RunEvents(es).delivered| == 100
  {
    hide Nothing, Frames, HandledIn, Stream, NextFrame, Drain;
    var s, outcomes := Nothing(202), seq(101, _ => Handled([]));
    FirstEvent(Event(s, true, outcomes));
    EmptyFrames(101, 0);
    AllHandled(outcomes, 0, 100);
    PassTakesAll(s, 0, true, outcomes, 0, 0);
    DrainStopsWhen(s, 0, true, outcomes, 0, 0);
    var es := [Event(s, true, outcomes)];
    EveryRunConserves(es);
    StreamIsLonger(RunEvents(es).delivered);
  }

  lemma FirstEvent(e: Event)
    requires 0 < |e.chunk| <= MAX_DATAGRAM_SIZE
    ensures RunEvents([e]) == Finish(NewConnection, Drain(e.chunk, 0, e.keys, e.outcomes, 0, 0))
    ensures Live([e]) && Received([e]) == e.chunk
  {
    hide Drain;
    var es := [e];
    assert es[..0] == [] && es[..|es| - 1] == [];
    assert [] + e.chunk == e.chunk;
  }

  lemma {:induction false} StreamIsLonger(ps: seq<Bytes>)
    ensures |Stream(ps)| >= 2 * |ps|
  {
    if ps != [] {
      StreamIsLonger(ps[1..]);
    }
  }

  /** It does happen: a bufferful is read before keys are set, and the next read, offered nothing
      to read into, closes the connection. */
  lemma FullBufferCloses()
    ensures var es := [Event(Nothing(MAX_DATAGRAM_SIZE), false, []), Event([], false, [])];
            Live(es) && !RunEvents(es).open
  {
    var es := [Event(Nothing(MAX_DATAGRAM_SIZE), false, []), Event([], false, [])];
    var s := es[0].chunk;
    FirstEvent(es[0]);
    NoMore(NewConnection, s, 0, false, [], 0, 0);
    assert es[..1] == [es[0]] && es[..0] == [] && s[0..] == s;
    assert FitsBuffer([es[0]], 0) && FitsBuffer(es, 0) && FitsBuffer(es, 1);
  }

  /** With keys set and no payload too long for the buffer, no run offers `read` an empty slice:
      the connection is never taken for closed, and there is always room for the next byte. */
  lemma {:induction false} LiveRunStaysOpen(es: seq<Event>, sent: seq<Bytes>)
    requires AllFit(sent, 65533)
    requires Received(es) <= Stream(sent) && Live(es)
    requires forall i :: 0 <= i < |es| ==> es[i].keys
    ensures RunEvents(es).open && |RunEvents(es).pending| < 65535
  {
    if es != [] {
      var init := es[..|es| - 1];
      var e := es[|es| - 1];
      LivePrefix(es);
      assert Received(es) == Received(init) + e.chunk;
      LiveRunStaysOpen(init, sent);
      var c := RunEvents(init);
      EveryRunConserves(init);
      Associative(Stream(c.delivered), c.pending, e.chunk);
      hide Stream, Drain, Live, AllFit;
      LiveStep(c, e, sent);
    }
  }

  lemma LiveStep(c: Connection, e: Event, sent: seq<Bytes>)
    requires AllFit(sent, MAX_DATAGRAM_SIZE - HEADER_LEN) && AllFit(c.delivered, 65535)
    requires Stream(c.delivered) + (c.pending + e.chunk) <= Stream(sent)
    requires c.open && e.chunk != [] && e.keys && |c.pending| + |e.chunk| <= MAX_DATAGRAM_SIZE
    ensures Handle(c, e).open && |Handle(c, e).pending| < MAX_DATAGRAM_SIZE
  {
    var s := c.pending + e.chunk;
    FramesArePrefixCode(c.delivered, s, sent);
    PassLeavesRoom(s, e.keys, e.outcomes);
    if |s| == MAX_DATAGRAM_SIZE {
      FirstLengthFits(s, sent[|c.delivered|..]);
    }
  }

  lemma FirstLengthFits(s: Bytes, sent: seq<Bytes>)
    requires AllFit(sent, MAX_DATAGRAM_SIZE - HEADER_LEN)
    requires s <= Stream(sent) && |s| >= HEADER_LEN
    ensures PayloadLength(s) <= MAX_DATAGRAM_SIZE - HEADER_LEN
  {
    StreamHeader(sent);
    hide Stream;
    var t := Stream(sent);
    assert s[0] == t[0] && s[1] == t[1];
  }

  lemma StreamHeader(sent: seq<Bytes>)
    requires AllFit(sent, 65535)
    ensures sent == [] ==> Stream(sent) == []
    ensures sent != [] ==>
              && |Stream(sent)| >= 2 && Stream(sent)[0] == |sent[0]| / 256 && Stream(sent)[1] == |sent[0]| % 256
  {
    if sent != [] {
      var f := Frame(sent[0]);
      assert Stream(sent)[0] == f[0] && Stream(sent)[1] == f[1];
    }
  }

  // ---------------------------------------------------------------- the buffer

  class TcpFraming {
    const buffer: array<byte>
    var unprocessed: nat

    ghost predicate Valid()
      reads this
    {
      buffer.Length == MAX_DATAGRAM_SIZE && unprocessed <= MAX_DATAGRAM_SIZE
    }

    ghost function Pending(): Bytes
      requires Valid()
      reads this, buffer
    {
      buffer[..unprocessed]
    }

    constructor ()
      ensures Valid() && fresh(buffer) && Pending() == []
    {
      buffer := new byte[MAX_DATAGRAM_SIZE](_ => 0);
      unprocessed := 0;
    }

    /** The slice offered to `read`, as the index where it starts and its length. */
    method GetFreeSpace() returns (start: nat, length: nat)
      requires Valid()
      ensures start == |Pending()| && length == MAX_DATAGRAM_SIZE - |Pending()|
    {
      start, length := unprocessed, buffer.Length - unprocessed;
    }

    /** `read` filling the start of the free slice, then `advance` by the number of bytes read. */
    method Fill(chunk: Bytes)
      requires Valid() && |Pending()| + |chunk| <= MAX_DATAGRAM_SIZE
      modifies this, buffer
      ensures Valid() && Pending() == old(Pending()) + chunk
    {
      for i := 0 to |chunk|
        invariant unprocessed == old(unprocessed)
        invariant buffer[..unprocessed] == old(buffer[..unprocessed])
        invariant buffer[unprocessed..unprocessed + i] == chunk[..i]
      {
        buffer[unprocessed + i] := chunk[i];
      }
      Advance(|chunk|);
    }

    method Advance(len: nat)
      requires Valid() && |Pending()| + len <= MAX_DATAGRAM_SIZE
      modifies this`unprocessed
      ensures Valid() && unprocessed == old(unprocessed) + len
    {
      unprocessed := unprocessed + len;
    }

    method PeekPacket(offset: nat) returns (r: Option<(nat, Bytes)>)
      requires Valid()
      ensures r == FrameAt(Pending(), offset)
    {
      if unprocessed < offset + HEADER_LEN {
        return None;
      }
      ghost var s := Pending()[offset..];
      var length := buffer[offset] as nat * 256 + buffer[offset + 1] as nat;
      assert length == PayloadLength(s);
      var total := HEADER_LEN + length;
      if unprocessed < offset + total {
        return None;
      }
      SliceOfSlice(buffer[..], unprocessed, offset, HEADER_LEN, total);
      assert buffer[..][..unprocessed] == Pending();
      return Some((total, buffer[offset + HEADER_LEN..offset + total]));
    }

    /** Shift what is left to the front; the copy runs upwards, below its source. */
    method Compact(consumed: nat)
      requires Valid() && consumed <= |Pending()|
      modifies this, buffer
      ensures Valid() && Pending() == old(Pending())[consumed..]
    {
      if consumed > 0 {
        if unprocessed > consumed {
          for i := 0 to unprocessed - consumed
            invariant unprocessed == old(unprocessed)
            invariant forall k :: 0 <= k < i ==> buffer[k] == old(buffer[consumed + k])
            invariant forall k :: i <= k < unprocessed ==> buffer[k] == old(buffer[k])
          {
            buffer[i] := buffer[i + consumed];
          }
        }
        unprocessed := unprocessed - consumed;
      }
    }
  }

  // ---------------------------------------------------------------- the handler

  /** The handler of one TCP stream. What it writes on the two sockets is, framed, the cookie
      replies and the tunnels' answers, each list in order. */
  /** What `read` returned: bytes, put into the slice it was offered, or an error. */
  datatype Read = Got(chunk: Bytes) | WouldBlock | Failed

  class StreamHandler {
    const framing: TcpFraming
    var delivered: seq<Bytes>
    var toSocket: Bytes
    var toStream: Bytes
    var open: bool
    ghost var cookies: seq<Bytes>
    ghost var replies: seq<Bytes>

    ghost predicate Valid()
      reads this, framing
    {
      framing.Valid() && toSocket == Stream(cookies) && toStream == Stream(replies)
    }

    ghost function State(): Connection
      requires Valid()
      reads this, framing, framing.buffer
    {
      Connection(framing.Pending(), delivered, cookies, replies, open)
    }

    constructor ()
      ensures Valid() && fresh(framing) && fresh(framing.buffer) && State() == NewConnection
    {
      framing := new TcpFraming();
      delivered, toSocket, toStream, open := [], [], [], true;
      cookies, replies := [], [];
    }

    method WriteToSocket(p: Bytes)
      requires Valid()
      modifies this`toSocket, this`cookies
      ensures Valid() && cookies == old(cookies) + [p]
    {
      toSocket := toSocket + [(|p| % 65536) / 256, |p| % 256];
      toSocket := toSocket + p;
      StreamOfOneMore(cookies, p);
      cookies := cookies + [p];
    }

    method WriteToStream(ps: seq<Bytes>)
      requires Valid()
      modifies this`toStream, this`replies
      ensures Valid() && replies == old(replies) + ps
    {
      hide Stream;
      for i := 0 to |ps|
        invariant Valid() && replies == old(replies) + ps[..i]
      {
        toStream := toStream + [(|ps[i]| % 65536) / 256, |ps[i]| % 256];
        toStream := toStream + ps[i];
        StreamOfOneMore(replies, ps[i]);
        replies := replies + [ps[i]];
      }
    }

    /** What the pass does with one packet: the answers it writes. */
    method Process(packet: Bytes, o: Outcome)
      requires Valid()
      modifies this
      ensures Valid() && State() == TakeOff(old(State()), packet, o)
    {
      delivered := delivered + [packet];
      match o {
        case Refused(cookie) =>
          if cookie.Some? {
            WriteToSocket(cookie.value);
          }
        case Handled(answers) =>
          WriteToStream(answers);
      }
    }

    /** The packet loop; it moves nothing in the buffer but says how much of it is done with. */
    method Pass(keys: bool, outcomes: seq<Outcome>) returns (consumed: nat)
      requires Valid()
      modifies this
      ensures Valid() && framing.Pending() == old(framing.Pending()) && consumed <= |framing.Pending()|
      ensures State().(pending := framing.Pending()[consumed..]) ==
              Finish(old(State()), Drain(old(framing.Pending()), 0, keys, outcomes, 0, 0))
    {
      hide Drain, FrameAt, OutcomeAt, Stream;
      ghost var s := framing.Pending();
      ghost var result := Finish(State(), Drain(s, 0, keys, outcomes, 0, 0));
      var i, counted := 0, 0;
      consumed := 0;
      var next := framing.PeekPacket(consumed);
      while next.Some? && keys && counted < MAX_ITR
        invariant Valid() && framing.Pending() == s && consumed <= |s|
        invariant next == FrameAt(s, consumed)
        invariant result == Finish(State(), Drain(s, consumed, keys, outcomes, i, counted))
        decreases |s| - consumed
      {
        var (total, packet) := next.value;
        var o := OutcomeAt(outcomes, i);
        ghost var before := counted;
        if o.Handled? {
          counted := counted + 1;
        }
        OneMore(State(), s, consumed, keys, outcomes, i, before, total, packet, o, counted);
        Process(packet, o);
        consumed := consumed + total;
        i := i + 1;
        next := framing.PeekPacket(consumed);
      }
      NoMore(State(), s, consumed, keys, outcomes, i, counted);
    }

    /** One call of the handler, given what `read` returned and how the device answers each packet:
        an event of the runs if there were bytes or the end of the stream; a read that would block
        changes nothing, and any other error gives the connection up. */
    method OnReadable(read: Read, keys: bool, outcomes: seq<Outcome>)
      requires Valid() && (read.Got? ==> |framing.Pending()| + |read.chunk| <= MAX_DATAGRAM_SIZE)
      modifies this, framing, framing.buffer
      ensures Valid()
      ensures match read
              case Got(chunk) => State() == Handle(old(State()), Event(chunk, keys, outcomes))
              case WouldBlock => State() == old(State())
              case Failed => State() == old(State()).(open := false)
    {
      match read {
        case WouldBlock =>
        case Failed =>
          open := false;
        case Got(chunk) =>
          if |chunk| == 0 {
            open := false;
            return;
          }
          framing.Fill(chunk);
          var consumed := Pass(keys, outcomes);
          framing.Compact(consumed);
      }
    }
  }
}
