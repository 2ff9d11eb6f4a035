/**
Runs on which a property fails that one might expect of a TCP connection, next to the
theorems that say when it holds.
 */
module TcpCounterexamples {
  import opened Words
  import opened Clock
  import opened TcpSpec
  import opened TcpPair
  import opened TcpBackoff

  /** No slice is refused on a block that is waited on, and no copy overruns a buffer. */
  ghost predicate Clean(ps: seq<Pair>, ms: seq<Move>)
    requires |ps| == |ms| + 1
  {
    NoHeldRefusals(ms, |ms|) && NoOverruns(ps, ms, |ms|)
  }

  predicate Harmless(p: Pair, m: Move) {
    !HeldRefusal(m.ev) && !OverrunMove(p, m)
  }

  /** Some run leads to `p`; with `clean`, one without a harmful move. */
  ghost predicate Reachable(p: Pair, clean: bool) {
    exists ps: seq<Pair>, ms: seq<Move> :: IsPairRun(ps, ms) && ps[|ps| - 1] == p && (clean ==> Clean(ps, ms))
  }

  lemma RunExtends(ps: seq<Pair>, ms: seq<Move>, m: Move, p': Pair)
    requires IsPairRun(ps, ms) && Moves(ps[|ms|], m, p') && Budget(p'.a) && Budget(p'.b)
    ensures IsPairRun(ps + [p'], ms + [m])
  {
    var ps', ms' := ps + [p'], ms + [m];
    forall i | 0 <= i < |ms'|
      ensures MoveAt(ps', ms', i)
    {
      if i < |ms| {
        assert MoveAt(ps, ms, i);
      }
    }
  }

  lemma CleanExtends(ps: seq<Pair>, ms: seq<Move>, m: Move, p': Pair)
    requires |ps| == |ms| + 1 && Clean(ps, ms) && Harmless(ps[|ms|], m)
    ensures Clean(ps + [p'], ms + [m])
  {
    var ps', ms' := ps + [p'], ms + [m];
    forall i | 0 <= i < |ms'|
      ensures !OverrunAt(ps', ms', i)
    {
      if i < |ms| {
        assert !OverrunAt(ps, ms, i);
      }
    }
  }

  lemma ReachableStep(p: Pair, m: Move, p': Pair, clean: bool)
    requires Reachable(p, clean) && Moves(p, m, p') && Budget(p'.a) && Budget(p'.b) && (clean ==> Harmless(p, m))
    ensures Reachable(p', clean)
  {
    var ps: seq<Pair>, ms: seq<Move> :| IsPairRun(ps, ms) && ps[|ps| - 1] == p && (clean ==> Clean(ps, ms));
    RunExtends(ps, ms, m, p');
    if clean {
      CleanExtends(ps, ms, m, p');
    }
    var ps', ms' := ps + [p'], ms + [m];
    assert IsPairRun(ps', ms') && ps'[|ps'| - 1] == p' && (clean ==> Clean(ps', ms'));
  }

  lemma CleanlyReachable(p: Pair)
    requires Reachable(p, true)
    ensures Reachable(p, false)
  {
    var ps: seq<Pair>, ms: seq<Move> :| IsPairRun(ps, ms) && ps[|ps| - 1] == p && Clean(ps, ms);
    assert IsPairRun(ps, ms) && ps[|ps| - 1] == p;
  }

  // Segments and queue entries that occur in the runs. A's ISS is 100 and B's is 500.

  const T0 := Timeval(0, 0)
  const T1 := Timeval(0, 300_000)
  const ENV := Env(500, T0, false)

  const SYN_A := Segment(100, 0, SYN, 65535, [])
  const SYN_B := Segment(500, 101, SYN_ACK, 65535, [])
  const ACK_A := Segment(101, 501, ACK, 65535, [])
  const ONE := Segment(101, 501, PSH_ACK, 65535, [1])
  const TWO := Segment(102, 501, PSH_ACK, 65535, [2])
  const NINE := Segment(501, 101, PSH_ACK, 65535, [9])
  const ACK_ONE := Segment(502, 102, ACK, 65534, [])

  function Queued(seqNo: U32, flg: Flags, data: seq<Byte>): Entry {
    Entry(T0, T0, DEFAULT_RTO, seqNo, flg, data)
  }

  // ---- the handshake

  function SynSentA(): Node {
    Node(Tcb(SynSent, 100, 101, 100, 0, 0, 0, 0, 0, 65535, [], [Queued(100, SYN, [])], T0),
         Tx(true, [], {}, false), Rx(false, [], [], [], false, false), {SYN_A}, false, [])
  }

  function SynReceivedB(): Node {
    Node(Tcb(SynReceived, 500, 501, 500, 0, 0, 0, 100, 101, 65535, [], [Queued(500, SYN_ACK, [])], T0),
         Tx(true, [], {}, false), Rx(true, [], [], [], false, false), {SYN_B}, false, [])
  }

  function OpenA(): Node {
    Node(Tcb(Established, 100, 101, 101, 65535, 500, 101, 500, 501, 65535, [], [], T0),
         Tx(true, [], {}, false), Rx(true, [], [], [], false, false), {SYN_A, ACK_A}, false, [])
  }

  function OpenB(): Node {
    Node(Tcb(Established, 500, 501, 501, 65535, 101, 501, 100, 101, 65535, [], [], T0),
         Tx(true, [], {}, false), Rx(true, [], [], [], false, false), {SYN_B}, false, [])
  }

  function ListenB(): Node {
    Start().(t := Fresh().(state := Listen))
  }

  lemma BListens()
    ensures Reachable(Pair(Start(), ListenB()), true)
  {
    var p := Pair(Start(), Start());
    assert Reachable(p, true) by {
      assert IsPairRun([p], []) && Clean([p], []);
    }
    assert StepNode(p.b, ListenCmd) == ListenB();
    ReachableStep(p, ByB(ListenCmd), Pair(Start(), ListenB()), true);
  }

  lemma AConnects()
    ensures Reachable(Pair(SynSentA(), ListenB()), true)
  {
    BListens();
    var connect := Connect(100, T0, true);
    assert StepNode(Start(), connect) == SynSentA();
    ReachableStep(Pair(Start(), ListenB()), ByA(connect), Pair(SynSentA(), ListenB()), true);
  }

  lemma BothOpen()
    ensures Reachable(Pair(SynSentA(), SynReceivedB()), true)
  {
    AConnects();
    assert StepNode(ListenB(), Arrive(SYN_A, ENV)) == SynReceivedB();
    ReachableStep(Pair(SynSentA(), ListenB()), ByB(Arrive(SYN_A, ENV)), Pair(SynSentA(), SynReceivedB()), true);
  }

  lemma AEstablished()
    ensures Reachable(Pair(OpenA(), SynReceivedB()), true)
  {
    BothOpen();
    assert StepNode(SynSentA(), Arrive(SYN_B, ENV)) == OpenA();
    ReachableStep(Pair(SynSentA(), SynReceivedB()), ByA(Arrive(SYN_B, ENV)), Pair(OpenA(), SynReceivedB()), true);
  }

  lemma BEstablished()
    ensures Reachable(Pair(OpenA(), OpenB()), true)
  {
    AEstablished();
    assert StepNode(SynReceivedB(), Arrive(ACK_A, ENV)) == OpenB();
    ReachableStep(Pair(OpenA(), SynReceivedB()), ByB(Arrive(ACK_A, ENV)), Pair(OpenA(), OpenB()), true);
  }

  /** A step that says one segment, in terms of the block alone. */
  lemma OneSegmentSaid(x: Node, ev: Event, t': Tcb, s: Segment)
    requires Enabled(x.t, ev) && Apply(x.t, ev) == Result(t', [s]) && t'.state != Free && !HeldRefusal(ev)
    ensures StepNode(x, ev) == Node(t', TxAfter(x, ev), RxAfter(x, ev), x.out + {s},
                                    x.stale || (ev.Arrive? && OverstatesWindow(x.t, ev.seg)), x.held)
  {
    assert (set u | u in [s]) == {s};
  }

  function Took(t: Tcb, s: Segment): Tcb
    requires |s.data| <= t.rcvWnd && s.seqNo + |s.data| < TWO_32
  {
    t.(buf := t.buf + s.data, rcvNxt := s.seqNo + |s.data|, rcvWnd := t.rcvWnd - |s.data|)
  }

  /** The segment's text is accepted and fits, and it acknowledges nothing new. */
  predicate Welcome(t: Tcb, s: Segment) {
    && t.state == Established && s.flg == PSH_ACK && s.data != [] && s.ackNo == t.sndUna <= t.sndNxt
    && t.rcvNxt <= s.seqNo < t.rcvNxt + t.rcvWnd < TWO_32 - TWO_16
    && |s.data| <= t.rcvWnd && |t.buf| + t.rcvWnd == BUF_SIZE
  }

  lemma TextTakenByBlock(t: Tcb, s: Segment)
    requires Welcome(t, s)
    ensures TakesText(t, s, ENV) && Arrives(t, s, ENV) == Result(Took(t, s), [AckNow(Took(t, s))])
    ensures !SynAccepted(t, s) && !TakesFin(t, s, ENV) && !OverstatesWindow(t, s)
  {
    assert SegLen(s) == |s.data| && Acceptable(t, s);
    assert ProcessAck(t, s, ENV) == Continue(t);
    assert ProcessText(t, s) == Result(Took(t, s), [AckNow(Took(t, s))]);
    assert ProcessTextAndFin(t, s, ENV) == ProcessText(t, s);
  }

  lemma TextRecorded(x: Node, s: Segment)
    requires x.t.state == Established && TakesText(x.t, s, ENV) && !SynAccepted(x.t, s) && !TakesFin(x.t, s, ENV)
    ensures TxAfter(x, Arrive(s, ENV)) == x.tx
    ensures RxAfter(x, Arrive(s, ENV)) ==
            x.rx.(texts := x.rx.texts + [Piece(s.seqNo, s.data)], accepted := x.rx.accepted + s.data,
                  gap := x.rx.gap || s.seqNo != x.t.rcvNxt)
  {
  }

  /** Text that starts anywhere in the window and acknowledges nothing new. */
  lemma TextTaken(x: Node, s: Segment)
    requires Welcome(x.t, s)
    ensures Enabled(x.t, Arrive(s, ENV)) && !Overruns(x.t, Arrive(s, ENV))
    ensures StepNode(x, Arrive(s, ENV)) ==
            Node(Took(x.t, s), x.tx,
                 x.rx.(texts := x.rx.texts + [Piece(s.seqNo, s.data)], accepted := x.rx.accepted + s.data,
                       gap := x.rx.gap || s.seqNo != x.t.rcvNxt),
                 x.out + {AckNow(Took(x.t, s))}, x.stale, x.held)
  {
    TextTakenByBlock(x.t, s);
    TextRecorded(x, s);
    OneSegmentSaid(x, Arrive(s, ENV), Took(x.t, s), AckNow(Took(x.t, s)));
  }

  // ---- text is appended wherever in the window it starts

  function SentOneA(): Node {
    OpenA().(t := OpenA().t.(sndNxt := 102, queue := [Queued(101, PSH_ACK, [1])]),
             tx := Tx(true, [1], {Piece(101, [1])}, false), out := OpenA().out + {ONE})
  }

  function SentTwoA(): Node {
    SentOneA().(t := SentOneA().t.(sndNxt := 103, queue := [Queued(101, PSH_ACK, [1]), Queued(102, PSH_ACK, [2])]),
                tx := Tx(true, [1, 2], {Piece(101, [1]), Piece(102, [2])}, false), out := SentOneA().out + {TWO})
  }

  lemma SendsOne(a: Node, b: Node)
    requires a == OpenA() && Reachable(Pair(a, b), true) && Budget(b)
    ensures Reachable(Pair(SentOneA(), b), true)
  {
    OneSegmentSaid(a, Send([1], T0), SentOneA().t, ONE);
    ReachableStep(Pair(a, b), ByA(Send([1], T0)), Pair(SentOneA(), b), true);
  }

  lemma SendsTwo(a: Node, b: Node)
    requires a == SentOneA() && Reachable(Pair(a, b), true) && Budget(b)
    ensures Reachable(Pair(SentTwoA(), b), true)
  {
    OneSegmentSaid(a, Send([2], T0), SentTwoA().t, TWO);
    ReachableStep(Pair(a, b), ByA(Send([2], T0)), Pair(SentTwoA(), b), true);
  }

  function SkippedB(): Node {
    OpenB().(t := OpenB().t.(rcvNxt := 103, rcvWnd := 65534, buf := [2]),
             rx := Rx(true, [Piece(102, [2])], [2], [], false, true),
             out := OpenB().out + {Segment(501, 103, ACK, 65534, [])})
  }

  lemma SkipsOne(a: Node, b: Node)
    requires a == SentTwoA() && b == OpenB() && Reachable(Pair(a, b), true)
    ensures Reachable(Pair(a, SkippedB()), true)
  {
    TextTaken(b, TWO);
    ReachableStep(Pair(a, b), ByB(Arrive(TWO, ENV)), Pair(a, SkippedB()), true);
  }

  /**
  When the second of two one-byte segments arrives first it is accepted, and the first
  byte is lost: B holds the second byte only and has acknowledged both.
   */
  lemma OvertakingSegmentDropsBytes() returns (a: Node, b: Node)
    ensures Reachable(Pair(a, b), true) && b.t.rcvNxt == a.t.sndNxt
    ensures a.tx.stream == [1, 2] && b.rx.delivered == [] && b.t.buf == [2]
  {
    BEstablished();
    SendsOne(OpenA(), OpenB());
    SendsTwo(SentOneA(), OpenB());
    SkipsOne(SentTwoA(), OpenB());
    a, b := SentTwoA(), SkippedB();
  }

  // ---- the send window goes stale when both sides send

  /** So many bytes that they nearly fill the window of 65534. */
  function Bulk(): seq<Byte> {
    seq(65494, _ => 2)
  }

  /** One byte more than the window then leaves. */
  function Rest(): seq<Byte> {
    seq(41, _ => 3)
  }

  function BulkSegment(): Segment {
    Segment(102, 501, PSH_ACK, 65535, Bulk())
  }

  function NineAgain(): Segment {
    Segment(501, 65596, PSH_ACK, 40, [9])
  }

  function RestSegment(): Segment {
    Segment(65596, 502, PSH_ACK, 65534, Rest())
  }

  function SentNineB(): Node {
    OpenB().(t := OpenB().t.(sndNxt := 502, queue := [Queued(501, PSH_ACK, [9])]),
             tx := Tx(true, [9], {Piece(501, [9])}, false), out := OpenB().out + {NINE})
  }

  function TookOneB(): Node {
    SentNineB().(t := SentNineB().t.(rcvNxt := 102, rcvWnd := 65534, buf := [1]),
                 rx := Rx(true, [Piece(101, [1])], [1], [], false, false), out := SentNineB().out + {ACK_ONE})
  }

  function TookBulkB(): Node {
    TookOneB().(t := TookOneB().t.(rcvNxt := 65596, rcvWnd := 40, buf := [1] + Bulk()),
                rx := Rx(true, [Piece(101, [1]), Piece(102, Bulk())], [1] + Bulk(), [], false, false),
                out := TookOneB().out + {Segment(502, 65596, ACK, 40, [])})
  }

  function ResentNineB(): Node {
    TookBulkB().(t := TookBulkB().t.(queue := [Entry(T0, T1, 400_000, 501, PSH_ACK, [9])]),
                 out := TookBulkB().out + {NineAgain()})
  }

  function HeardAckA(): Node {
    SentOneA().(t := SentOneA().t.(sndUna := 102, sndWnd := 65534, wl1 := 502, wl2 := 102, queue := []))
  }

  function SentBulkA(): Node {
    HeardAckA().(t := HeardAckA().t.(sndNxt := 65596, queue := [Queued(102, PSH_ACK, Bulk())]),
                 tx := Tx(true, [1] + Bulk(), {Piece(101, [1]), Piece(102, Bulk())}, false),
                 out := HeardAckA().out + {BulkSegment()})
  }

  function StaleA(): Node {
    SentBulkA().(t := SentBulkA().t.(sndUna := 65596, queue := [], rcvNxt := 502, rcvWnd := 65534, buf := [9]),
                 rx := Rx(true, [Piece(501, [9])], [9], [], false, false),
                 out := SentBulkA().out + {Segment(65596, 502, ACK, 65534, [])}, stale := true)
  }

  function SentRestA(): Node {
    StaleA().(t := StaleA().t.(sndNxt := 65637, queue := [Queued(65596, PSH_ACK, Rest())]),
              tx := Tx(true, [1] + Bulk() + Rest(),
                       {Piece(101, [1]), Piece(102, Bulk()), Piece(65596, Rest())}, false),
              out := StaleA().out + {RestSegment()})
  }

  lemma BSendsNine(a: Node, b: Node)
    requires b == OpenB() && Reachable(Pair(a, b), true) && Budget(a)
    ensures Reachable(Pair(a, SentNineB()), true)
  {
    OneSegmentSaid(b, Send([9], T0), SentNineB().t, NINE);
    ReachableStep(Pair(a, b), ByB(Send([9], T0)), Pair(a, SentNineB()), true);
  }

  lemma BTakesOne(a: Node, b: Node)
    requires b == SentNineB() && Reachable(Pair(a, b), true) && Budget(a) && ONE in a.out
    ensures Reachable(Pair(a, TookOneB()), true)
  {
    TextTaken(b, ONE);
    ReachableStep(Pair(a, b), ByB(Arrive(ONE, ENV)), Pair(a, TookOneB()), true);
  }

  lemma AHearsAck(a: Node, b: Node)
    requires a == SentOneA() && Reachable(Pair(a, b), true) && Budget(b) && ACK_ONE in b.out
    ensures Reachable(Pair(HeardAckA(), b), true)
  {
    assert Cleanup(a.t.queue, 102) == [];
    assert ProcessAck(a.t, ACK_ONE, ENV) == Continue(HeardAckA().t);
    assert StepNode(a, Arrive(ACK_ONE, ENV)) == HeardAckA();
    ReachableStep(Pair(a, b), ByA(Arrive(ACK_ONE, ENV)), Pair(HeardAckA(), b), true);
  }

  lemma ASendsBulk(a: Node, b: Node)
    requires a == HeardAckA() && Reachable(Pair(a, b), true) && Budget(b)
    ensures Reachable(Pair(SentBulkA(), b), true)
  {
    OneSegmentSaid(a, Send(Bulk(), T0), SentBulkA().t, BulkSegment());
    ReachableStep(Pair(a, b), ByA(Send(Bulk(), T0)), Pair(SentBulkA(), b), true);
  }

  lemma BTakesBulk(a: Node, b: Node)
    requires b == TookOneB() && Reachable(Pair(a, b), true) && Budget(a) && BulkSegment() in a.out
    ensures Reachable(Pair(a, TookBulkB()), true)
  {
    TextTaken(b, BulkSegment());
    ReachableStep(Pair(a, b), ByB(Arrive(BulkSegment(), ENV)), Pair(a, TookBulkB()), true);
  }

  lemma LoneEntryResent(t: Tcb, e: Entry, now: Time)
    requires t.queue == [e] && FateOf(e, now) == Due && t.state != Free && t.state != TimeWait
    ensures Tick(t, now, [now], false) ==
            Result(t.(queue := [Backoff(e, now)]), [Segment(e.seqNo, t.rcvNxt, e.flg, t.rcvWnd, e.data)])
  {
    var r := EmitOne(t, 0, now);
    assert t.queue[0 := Backoff(e, now)] == [Backoff(e, now)];
    assert EmitFrom(r.t, 1, [now]) == Result(r.t, []);
  }

  lemma FirstResendIsDue(e: Entry, now: Time)
    requires e.first == e.last == T0 && e.rto == DEFAULT_RTO && now == T1
    ensures FateOf(e, now) == Due
  {
    FateByInstant(e, now);
  }

  lemma FirstBackoff(e: Entry, now: Time)
    requires e.rto == DEFAULT_RTO
    ensures Backoff(e, now) == e.(last := now, rto := 400_000)
  {
  }

  lemma NineIsResent(t: Tcb, now: Time)
    requires t == TookBulkB().t && now == T1
    ensures Tick(t, now, [now], false) == Result(ResentNineB().t, [NineAgain()])
  {
    var e := Queued(501, PSH_ACK, [9]);
    FirstResendIsDue(e, now);
    FirstBackoff(e, now);
    LoneEntryResent(t, e, now);
  }

  lemma BResendsNine(a: Node, b: Node, now: Time)
    requires b == TookBulkB() && now == T1 && Reachable(Pair(a, b), true) && Budget(a)
    ensures Reachable(Pair(a, ResentNineB()), true)
  {
    var tick := TimerTick(now, [now], false);
    NineIsResent(b.t, now);
    OneSegmentSaid(b, tick, ResentNineB().t, NineAgain());
    ReachableStep(Pair(a, b), ByB(tick), Pair(a, ResentNineB()), true);
  }

  lemma StaleBlock(t: Tcb)
    requires t == SentBulkA().t
    ensures OverstatesWindow(t, NineAgain()) && TakesText(t, NineAgain(), ENV) && TextFits(t, NineAgain(), ENV)
    ensures Arrives(t, NineAgain(), ENV) == Result(StaleA().t, [Segment(65596, 502, ACK, 65534, [])])
  {
    var s := NineAgain();
    assert Cleanup(t.queue, 65596) == [];
    var t1 := t.(sndUna := 65596, queue := []);
    assert SegLen(s) == 1 && Acceptable(t, s);
    assert ProcessAck(t, s, ENV) == Continue(t1);
    assert ProcessText(t1, s) == Result(StaleA().t, [Segment(65596, 502, ACK, 65534, [])]);
    assert ProcessTextAndFin(t1, s, ENV) == ProcessText(t1, s);
  }

  lemma AGoesStale(a: Node, b: Node)
    requires a == SentBulkA() && Reachable(Pair(a, b), true) && Budget(b) && NineAgain() in b.out
    ensures Reachable(Pair(StaleA(), b), true)
  {
    StaleBlock(a.t);
    OneSegmentSaid(a, Arrive(NineAgain(), ENV), StaleA().t, Segment(65596, 502, ACK, 65534, []));
    ReachableStep(Pair(a, b), ByA(Arrive(NineAgain(), ENV)), Pair(StaleA(), b), true);
  }

  lemma ASendsRest(a: Node, b: Node)
    requires a == StaleA() && Reachable(Pair(a, b), true) && Budget(b)
    ensures Reachable(Pair(SentRestA(), b), true)
  {
    OneSegmentSaid(a, Send(Rest(), T0), SentRestA().t, RestSegment());
    ReachableStep(Pair(a, b), ByA(Send(Rest(), T0)), Pair(SentRestA(), b), true);
  }

  /**
  With data in both directions the window bookkeeping can go stale: a retransmission with
  an older sequence number acknowledges new data but may not refresh the window, and A
  then believes in room beyond B's right edge.
   */
  lemma StaleWindowOverrunsRightEdge()
    ensures Reachable(Pair(StaleA(), ResentNineB()), true) && StaleA().stale
    ensures StaleA().t.sndUna + StaleA().t.sndWnd > RightEdge(ResentNineB().t)
  {
    BEstablished();
    BSendsNine(OpenA(), OpenB());
    SendsOne(OpenA(), SentNineB());
    BTakesOne(SentOneA(), SentNineB());
    AHearsAck(SentOneA(), TookOneB());
    ASendsBulk(HeardAckA(), TookOneB());
    BTakesBulk(SentBulkA(), TookOneB());
    BResendsNine(SentBulkA(), TookBulkB(), T1);
    AGoesStale(SentBulkA(), ResentNineB());
  }

  lemma RestDoesNotFit(t: Tcb)
    requires t == ResentNineB().t
    ensures !TextFits(t, RestSegment(), ENV)
  {
    var s := RestSegment();
    var t1 := t.(sndUna := 502, queue := []);
    assert Cleanup(t.queue, 502) == [];
    assert SegLen(s) == 41 && Acceptable(t, s);
  }

  /** And then it sends: B's next copy runs past the end of its receive buffer. */
  lemma StaleWindowOverrunsBuffer() returns (a: Node, b: Node, s: Segment)
    ensures Reachable(Pair(a, b), true) && a.stale
    ensures s in a.out && !TextFits(b.t, s, ENV)
  {
    StaleWindowOverrunsRightEdge();
    ASendsRest(StaleA(), ResentNineB());
    RestDoesNotFit(ResentNineB().t);
    a, b, s := SentRestA(), ResentNineB(), RestSegment();
  }

  // ---- a refused slice is retransmitted

  const SEVEN := Segment(101, 501, PSH_ACK, 65535, [7])

  /** IP refused the slice while a second thread waited on the block. */
  function RefusedA(): Node {
    OpenA().(t := OpenA().t.(state := Closed, queue := [Queued(101, PSH_ACK, [7])]), held := [7])
  }

  function ResentSevenA(): Node {
    RefusedA().(t := RefusedA().t.(queue := [Entry(T0, T1, 400_000, 101, PSH_ACK, [7])]), out := OpenA().out + {SEVEN})
  }

  function TookSevenB(): Node {
    OpenB().(t := OpenB().t.(rcvNxt := 102, rcvWnd := 65534, buf := [7]),
             rx := Rx(true, [Piece(101, [7])], [7], [], false, false),
             out := OpenB().out + {Segment(501, 102, ACK, 65534, [])})
  }

  lemma ARefuses(a: Node, b: Node)
    requires a == OpenA() && Reachable(Pair(a, b), false) && Budget(b)
    ensures Reachable(Pair(RefusedA(), b), false)
  {
    var ev := SendFails([7], T0, true);
    assert Apply(a.t, ev) == Result(RefusedA().t, []);
    assert StepNode(a, ev) == RefusedA();
    ReachableStep(Pair(a, b), ByA(ev), Pair(RefusedA(), b), false);
  }

  lemma AResendsSeven(a: Node, b: Node, now: Time)
    requires a == RefusedA() && now == T1 && Reachable(Pair(a, b), false) && Budget(b)
    ensures Reachable(Pair(ResentSevenA(), b), false)
  {
    var tick := TimerTick(now, [now], false);
    var e := Queued(101, PSH_ACK, [7]);
    FirstResendIsDue(e, now);
    FirstBackoff(e, now);
    LoneEntryResent(a.t, e, now);
    OneSegmentSaid(a, tick, ResentSevenA().t, SEVEN);
    ReachableStep(Pair(a, b), ByA(tick), Pair(ResentSevenA(), b), false);
  }

  lemma BTakesSeven(a: Node, b: Node)
    requires a == ResentSevenA() && b == OpenB() && Reachable(Pair(a, b), false)
    ensures Reachable(Pair(a, TookSevenB()), false)
  {
    TextTaken(b, SEVEN);
    ReachableStep(Pair(a, b), ByB(Arrive(SEVEN, ENV)), Pair(a, TookSevenB()), false);
  }

  /**
  After a refused slice on a block that another thread waits on, the timer still puts the
  slice on the wire although tcp_send reported failure and SND.NXT did not move: B ends
  with a byte that A's stream does not have, and with RCV.NXT beyond A's SND.NXT.
   */
  lemma HeldRefusalReachesPeer() returns (a: Node, b: Node)
    ensures Reachable(Pair(a, b), false)
    ensures TookHeld(a, b)
    ensures !AckSafe(a, b) && !WireCarriesStream(a) && !Follows(a, b, b.rx.delivered + b.t.buf)
  {
    BEstablished();
    CleanlyReachable(Pair(OpenA(), OpenB()));
    ARefuses(OpenA(), OpenB());
    AResendsSeven(RefusedA(), OpenB(), T1);
    BTakesSeven(ResentSevenA(), OpenB());
    a, b := ResentSevenA(), TookSevenB();
    assert SEVEN in a.out && SEVEN.data != [];
    assert b.rx.delivered + b.t.buf == [7];
  }
}
