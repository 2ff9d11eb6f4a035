/**
Whole runs of a connection: two nodes, both of which may connect, listen, send, receive,
close, time out and reset, over a network that loses, duplicates and reorders.
 */
module TcpConnection {
  import opened Words
  import opened Clock
  import opened TcpSpec
  import opened TcpQueue
  import opened TcpLocal
  import opened TcpPair
  import opened TcpPairSteps
  import opened TcpPairArrive
  import opened TcpPairWide
  import opened TcpHistory

  // ---- the invariant

  lemma StartIsOk()
    ensures WideInv(Start(), Start())
  {
  }

  lemma MoveKeepsPair(p: Pair, m: Move, p': Pair)
    requires WideInv(p.a, p.b) && Moves(p, m, p') && Budget(p.a) && Budget(p.b) && Budget(p'.a) && Budget(p'.b)
    ensures WideInv(p'.a, p'.b)
  {
    match m
    case ByA(ev) => WideStepKeepsInv(p.a, p.b, ev);
    case ByB(ev) => WideStepKeepsInv(p.b, p.a, ev);
  }

  lemma RunStarts(ps: seq<Pair>, ms: seq<Move>)
    requires IsPairRun(ps, ms)
    ensures InvAt(ps, 0)
  {
    StartIsOk();
  }

  lemma RunMoves(ps: seq<Pair>, ms: seq<Move>, k: nat)
    requires IsPairRun(ps, ms) && 0 < k < |ps|
    ensures MoveAt(ps, ms, k - 1)
  {
  }

  lemma RunStep(ps: seq<Pair>, ms: seq<Move>, k: nat)
    requires IsPairRun(ps, ms) && 0 < k < |ps| && InvUpTo(ps, k - 1)
    ensures InvAt(ps, k)
  {
    assert InvAt(ps, k - 1);
    RunMoves(ps, ms, k);
    MoveKeepsPair(ps[k - 1], ms[k - 1], ps[k]);
  }

  lemma {:induction false} RunKeepsInvUpTo(ps: seq<Pair>, ms: seq<Move>, k: nat)
    requires IsPairRun(ps, ms) && k < |ps|
    ensures InvUpTo(ps, k)
    decreases k
  {
    if k == 0 {
      RunStarts(ps, ms);
    } else {
      RunKeepsInvUpTo(ps, ms, k - 1);
      RunStep(ps, ms, k);
    }
  }

  /** In every state of every run: the invariant, held slices counted as sent. */
  lemma RunKeepsInv(ps: seq<Pair>, ms: seq<Move>, k: nat)
    requires IsPairRun(ps, ms) && k < |ps|
    ensures InvAt(ps, k)
  {
    RunKeepsInvUpTo(ps, ms, k);
  }

  lemma MoveKeepsHistory(p: Pair, m: Move, p': Pair)
    requires WideInv(p.a, p.b) && WideInv(p'.a, p'.b) && Moves(p, m, p') && Budget(p.a) && Budget(p.b)
    requires HistoryOk(p.a, p.b) && HistoryOk(p.b, p.a)
    ensures HistoryOk(p'.a, p'.b) && HistoryOk(p'.b, p'.a)
  {
    match m
    case ByA(ev) => StepKeepsHistory(p.a, p.b, ev);
    case ByB(ev) => StepKeepsHistory(p.b, p.a, ev);
  }

  lemma RunStepKeepsHistory(ps: seq<Pair>, ms: seq<Move>, k: nat)
    requires IsPairRun(ps, ms) && 0 < k < |ps| && InvUpTo(ps, k) && HistoryUpTo(ps, k - 1)
    ensures HistoryAt(ps, k)
  {
    assert HistoryAt(ps, k - 1) && InvAt(ps, k - 1) && InvAt(ps, k);
    RunMoves(ps, ms, k);
    MoveKeepsHistory(ps[k - 1], ms[k - 1], ps[k]);
  }

  lemma StartHistory(ps: seq<Pair>, ms: seq<Move>)
    requires IsPairRun(ps, ms)
    ensures HistoryAt(ps, 0)
  {
  }

  lemma {:induction false} RunKeepsHistoryUpTo(ps: seq<Pair>, ms: seq<Move>, k: nat)
    requires IsPairRun(ps, ms) && k < |ps| && InvUpTo(ps, k)
    ensures HistoryUpTo(ps, k)
    decreases k
  {
    if k == 0 {
      StartHistory(ps, ms);
    } else {
      RunKeepsHistoryUpTo(ps, ms, k - 1);
      RunStepKeepsHistory(ps, ms, k);
    }
  }

  /** In every state of every run: text is accepted only after it was sent, and RCV.NXT is where it ended. */
  lemma RunKeepsHistory(ps: seq<Pair>, ms: seq<Move>, k: nat)
    requires IsPairRun(ps, ms) && k < |ps|
    ensures HistoryAt(ps, k)
  {
    RunKeepsInvUpTo(ps, ms, k);
    RunKeepsHistoryUpTo(ps, ms, k);
  }

  // ---- refused slices

  lemma MoveHoldsNothingIff(p: Pair, m: Move, p': Pair)
    requires Moves(p, m, p')
    ensures p'.a.held == [] && p'.b.held == [] <==> p.a.held == [] && p.b.held == [] && !HeldRefusal(m.ev)
  {
  }

  lemma HeldStepAt(ps: seq<Pair>, ms: seq<Move>, k: nat)
    requires |ps| == |ms| + 1 && 0 < k < |ps| && MoveAt(ps, ms, k - 1)
    ensures NothingHeldAt(ps, k) <==> NothingHeldAt(ps, k - 1) && !HeldRefusal(ms[k - 1].ev)
  {
    MoveHoldsNothingIff(ps[k - 1], ms[k - 1], ps[k]);
  }

  lemma RefusalsPrefix(ms: seq<Move>, k: nat)
    requires 0 < k <= |ms|
    ensures NoHeldRefusals(ms, k) <==> NoHeldRefusals(ms, k - 1) && !HeldRefusal(ms[k - 1].ev)
  {
  }

  lemma {:induction false} HoldsNothingIff(ps: seq<Pair>, ms: seq<Move>, k: nat)
    requires IsPairRun(ps, ms) && k < |ps|
    ensures NothingHeldAt(ps, k) <==> NoHeldRefusals(ms, k)
    decreases k
  {
    if k > 0 {
      HoldsNothingIff(ps, ms, k - 1);
      RunMoves(ps, ms, k);
      HeldStepAt(ps, ms, k);
      RefusalsPrefix(ms, k);
    }
  }

  /** The queue ends where the range ends. */
  lemma {:induction false} CoverEnds(q: seq<Entry>, a: int, b: int)
    requires Covers(q, a, b)
    ensures b == if q == [] then a else q[|q| - 1].seqNo + EntryLen(q[|q| - 1])
  {
    if q != [] {
      CoverEnds(q[1..], a + EntryLen(q[0]), b);
    }
  }

  lemma CoverTwiceEnds(q: seq<Entry>, iss: int, a: int, b: int)
    requires CoversTwiceSyn(q, iss, a, b)
    ensures b == if q == [] then a else q[|q| - 1].seqNo + EntryLen(q[|q| - 1])
  {
    if Covers(q, a, b) {
      CoverEnds(q, a, b);
    } else {
      CoverEnds(q[1..], a, b);
    }
  }

  lemma QueueExactIff(x: Node)
    requires Sound(x)
    ensures QueueExact(x) <==> x.held == []
  {
    if x.held != [] {
      HeldFacts(x);
      CoverTwiceEnds(x.t.queue, x.t.iss, x.t.sndUna, Wide(x).t.sndNxt);
      if QueueExact(x) {
        CoverTwiceEnds(x.t.queue, x.t.iss, x.t.sndUna, x.t.sndNxt);
      }
    }
  }

  /**
  Both retransmit queues cover exactly what is sent and not acknowledged, if and only if
  so far no slice was refused on a block that was waited on.
   */
  lemma QueuesCoverIff(ps: seq<Pair>, ms: seq<Move>, k: nat)
    requires IsPairRun(ps, ms) && k < |ps|
    ensures QueueExact(ps[k].a) && QueueExact(ps[k].b) <==> NoHeldRefusals(ms, k)
  {
    RunIsSound(ps, ms, k);
    HoldsNothingIff(ps, ms, k);
    QueueExactIff(ps[k].a);
    QueueExactIff(ps[k].b);
  }

  lemma RunIsSound(ps: seq<Pair>, ms: seq<Move>, k: nat)
    requires IsPairRun(ps, ms) && k < |ps|
    ensures SoundAt(ps, k)
  {
    RunKeepsInv(ps, ms, k);
  }

  lemma RunIsSoundUpTo(ps: seq<Pair>, ms: seq<Move>, k: nat)
    requires IsPairRun(ps, ms) && k < |ps|
    ensures SoundUpTo(ps, k)
  {
    RunKeepsInvUpTo(ps, ms, k);
    forall j | 0 <= j <= k
      ensures SoundAt(ps, j)
    {
      assert InvAt(ps, j);
    }
  }

  lemma SoundBothEnds(ps: seq<Pair>, k: nat)
    requires 0 < k < |ps| && SoundUpTo(ps, k)
    ensures SoundAt(ps, k - 1) && SoundAt(ps, k)
  {
  }

  lemma StepIsSound(ps: seq<Pair>, ms: seq<Move>, k: nat)
    requires IsPairRun(ps, ms) && 0 < k < |ps|
    ensures SoundAt(ps, k - 1) && SoundAt(ps, k)
  {
    RunIsSoundUpTo(ps, ms, k);
    SoundBothEnds(ps, k);
  }

  // ---- payloads

  lemma MoveLeaksIff(p: Pair, m: Move, p': Pair)
    requires Moves(p, m, p') && Sound(p.a) && Sound(p.b) && Sound(p'.a) && Sound(p'.b)
    ensures Leaked(p'.a) || Leaked(p'.b) <==> Leaked(p.a) || Leaked(p.b) || LeakMove(p, m)
  {
    match m
    case ByA(ev) => LeakedIff(p.a, p.b, ev);
    case ByB(ev) => LeakedIff(p.b, p.a, ev);
  }

  lemma LeakStepAt(ps: seq<Pair>, ms: seq<Move>, k: nat)
    requires |ps| == |ms| + 1 && 0 < k < |ps| && MoveAt(ps, ms, k - 1) && SoundAt(ps, k - 1) && SoundAt(ps, k)
    ensures LeakedAt(ps, k) <==> LeakedAt(ps, k - 1) || LeakAt(ps, ms, k - 1)
  {
    MoveLeaksIff(ps[k - 1], ms[k - 1], ps[k]);
  }

  lemma RunStepLeaksIff(ps: seq<Pair>, ms: seq<Move>, k: nat)
    requires IsPairRun(ps, ms) && 0 < k < |ps|
    ensures LeakedAt(ps, k) <==> LeakedAt(ps, k - 1) || LeakAt(ps, ms, k - 1)
  {
    StepIsSound(ps, ms, k);
    RunMoves(ps, ms, k);
    LeakStepAt(ps, ms, k);
  }

  lemma LeaksPrefix(ps: seq<Pair>, ms: seq<Move>, k: nat)
    requires |ps| == |ms| + 1 && 0 < k < |ps|
    ensures NoLeaks(ps, ms, k) <==> NoLeaks(ps, ms, k - 1) && !LeakAt(ps, ms, k - 1)
  {
  }

  /** A held slice has been on the wire exactly if some timer pass has sent one. */
  lemma {:induction false} LeakedRunIff(ps: seq<Pair>, ms: seq<Move>, k: nat)
    requires IsPairRun(ps, ms) && k < |ps|
    ensures LeakedAt(ps, k) <==> !NoLeaks(ps, ms, k)
    decreases k
  {
    if k > 0 {
      LeakedRunIff(ps, ms, k - 1);
      RunStepLeaksIff(ps, ms, k);
      LeaksPrefix(ps, ms, k);
    }
  }

  /**
  Every payload either side has put on the wire is the slice of its stream at SEQ - ISS - 1,
  if and only if so far no timer pass has sent text at or beyond SND.NXT.
   */
  lemma PayloadsAreSlicesIff(ps: seq<Pair>, ms: seq<Move>, k: nat)
    requires IsPairRun(ps, ms) && k < |ps|
    ensures WireCarriesStream(ps[k].a) && WireCarriesStream(ps[k].b) <==> NoLeaks(ps, ms, k)
  {
    RunIsSound(ps, ms, k);
    CarriesStreamIff(ps[k].a);
    CarriesStreamIff(ps[k].b);
    LeakedRunIff(ps, ms, k);
  }

  /** Only a block that a slice was refused on sends such text. */
  lemma LeaksNeedRefusal(ps: seq<Pair>, ms: seq<Move>, k: nat)
    requires IsPairRun(ps, ms) && k < |ps| && NoHeldRefusals(ms, k)
    ensures NoLeaks(ps, ms, k)
  {
    RunIsSound(ps, ms, k);
    HoldsNothingIff(ps, ms, k);
    LeakedRunIff(ps, ms, k);
    NothingHeld(ps[k].a);
    NothingHeld(ps[k].b);
  }

  lemma NoLeaksNoneTaken(ps: seq<Pair>, ms: seq<Move>, k: nat)
    requires IsPairRun(ps, ms) && k < |ps| && NoLeaks(ps, ms, k)
    ensures !TookHeld(ps[k].a, ps[k].b) && !TookHeld(ps[k].b, ps[k].a)
  {
    LeakedRunIff(ps, ms, k);
    RunKeepsHistory(ps, ms, k);
    var a, b := ps[k].a, ps[k].b;
    if TookHeld(a, b) {
      TookHeldMeansLeaked(a, b);
    }
    if TookHeld(b, a) {
      TookHeldMeansLeaked(b, a);
    }
  }

  // ---- acknowledgement safety

  lemma LinksAreAckSafe(x: Node, y: Node)
    requires NodeOk(x) && LinkOk(x, y)
    ensures AckSafe(x, y)
  {
  }

  lemma TakenHeldIsBeyond(x: Node, y: Node)
    requires Sound(x) && TextsOk(Wide(x).tx.pieces, y.t.rcvNxt, y.rx.texts) && TookHeld(x, y)
    ensures y.t.rcvNxt > x.t.sndNxt
  {
    var i :| 0 <= i < |y.rx.texts| && y.rx.texts[i] == Piece(x.t.sndNxt, x.held);
  }

  lemma UntakenHeldIsAhead(x: Node, y: Node)
    requires Sound(x) && EndOk(y) && x.held != [] && !TookHeld(x, y) && y.rx.synced
    requires TextsOk(Wide(x).tx.pieces, y.t.rcvNxt, y.rx.texts)
    requires RcvNxtOk(x.t.iss, Wide(x).tx, y.t.irs, y.t.rcvNxt, y.rx)
    ensures y.t.rcvNxt <= x.t.sndNxt && !y.rx.fin
  {
    HeldFacts(x);
    if y.rx.texts != [] {
      OtherPieces(x, y.rx.texts[|y.rx.texts| - 1]);
    }
  }

  lemma WideLinks(x: Node, y: Node)
    requires WideInv(x, y)
    ensures Sound(x) && AckSafe(Wide(x), y)
    ensures TextsOk(Wide(x).tx.pieces, y.t.rcvNxt, y.rx.texts)
    ensures RcvNxtOk(x.t.iss, Wide(x).tx, y.t.irs, y.t.rcvNxt, y.rx)
    ensures StreamOk(x.t.iss, Wide(x).tx.stream, y.t.rcvNxt, y.rx)
    ensures !y.rx.synced ==> NotSynced(y.rx)
  {
    LinksAreAckSafe(Wide(x), Wide(y));
  }

  lemma AckSafeIff(x: Node, y: Node)
    requires WideInv(x, y) && EndOk(y)
    ensures AckSafe(x, y) <==> !TookHeld(x, y)
  {
    WideLinks(x, y);
    if TookHeld(x, y) {
      TakenHeldIsBeyond(x, y);
    } else if x.held != [] && y.rx.synced {
      UntakenHeldIsAhead(x, y);
    }
  }

  /**
  In every state of every run, in both directions: ISS <= SND.UNA <= the peer's RCV.NXT
  <= SND.NXT, if and only if the peer has not accepted a held slice. None can have been
  accepted while no timer pass has sent one.
   */
  lemma AcknowledgementSafety(ps: seq<Pair>, ms: seq<Move>, k: nat)
    requires IsPairRun(ps, ms) && k < |ps|
    ensures AckSafe(ps[k].a, ps[k].b) <==> !TookHeld(ps[k].a, ps[k].b)
    ensures AckSafe(ps[k].b, ps[k].a) <==> !TookHeld(ps[k].b, ps[k].a)
    ensures NoLeaks(ps, ms, k) ==> AckSafe(ps[k].a, ps[k].b) && AckSafe(ps[k].b, ps[k].a)
  {
    RunKeepsInv(ps, ms, k);
    RunKeepsHistory(ps, ms, k);
    AckSafeIff(ps[k].a, ps[k].b);
    AckSafeIff(ps[k].b, ps[k].a);
    if NoLeaks(ps, ms, k) {
      NoLeaksNoneTaken(ps, ms, k);
    }
  }

  // ---- stream delivery

  lemma TextsAreWidePieces(x: Node, y: Node)
    requires Sound(x) && TextsOk(Wide(x).tx.pieces, y.t.rcvNxt, y.rx.texts)
    ensures TextsArePieces(Wide(x), y)
  {
    var texts := y.rx.texts;
    forall i, j | 0 <= i < j < |texts|
      ensures texts[i].seqNo < texts[j].seqNo
    {
      assert texts[i] in Wide(x).tx.pieces;
    }
  }

  lemma TextsArePiecesIff(x: Node, y: Node)
    requires Sound(x) && TextsOk(Wide(x).tx.pieces, y.t.rcvNxt, y.rx.texts)
    ensures TextsArePieces(x, y) <==> !TookHeld(x, y)
  {
    TextsAreWidePieces(x, y);
    if TookHeld(x, y) {
      HeldFacts(x);
      var i :| 0 <= i < |y.rx.texts| && y.rx.texts[i] == Piece(x.t.sndNxt, x.held);
      HeldIsNew(x);
    } else {
      forall i | 0 <= i < |y.rx.texts|
        ensures y.rx.texts[i] in x.tx.pieces
      {
        OtherPieces(x, y.rx.texts[i]);
      }
    }
  }

  lemma AcceptedFollowsIff(x: Node, y: Node)
    requires WideInv(x, y) && EndOk(y)
    ensures Follows(x, y, y.rx.accepted) <==> !TookHeld(x, y)
  {
    WideLinks(x, y);
    LinkedFollowsIff(x, y);
  }

  lemma LinkedFollowsIff(x: Node, y: Node)
    requires Sound(x) && EndOk(y) && (!y.rx.synced ==> NotSynced(y.rx))
    requires TextsOk(Wide(x).tx.pieces, y.t.rcvNxt, y.rx.texts)
    requires RcvNxtOk(x.t.iss, Wide(x).tx, y.t.irs, y.t.rcvNxt, y.rx)
    requires StreamOk(x.t.iss, Wide(x).tx.stream, y.t.rcvNxt, y.rx)
    ensures Follows(x, y, y.rx.accepted) <==> !TookHeld(x, y)
  {
    TextsArePiecesIff(x, y);
    if !TookHeld(x, y) && x.held != [] && y.rx.synced {
      UntakenHeldIsAhead(x, y);
      HeldFacts(x);
    }
  }

  /**
  The text accepted is made of the peer's pieces in increasing order: never repeated,
  never swapped. It is a prefix of the peer's stream, and all of it once the FIN is in,
  when every accepted segment started at RCV.NXT; and it falls short of the sequence
  numbers passed exactly when one did not. All this holds if and only if no held slice
  was accepted, so in particular while no timer pass has sent one. While no copy has
  overrun a buffer, what tcp_receive has returned followed by what is pending is just the
  text accepted.
   */
  lemma StreamDelivery(ps: seq<Pair>, ms: seq<Move>, k: nat)
    requires IsPairRun(ps, ms) && k < |ps|
    ensures Follows(ps[k].a, ps[k].b, ps[k].b.rx.accepted) <==> !TookHeld(ps[k].a, ps[k].b)
    ensures Follows(ps[k].b, ps[k].a, ps[k].a.rx.accepted) <==> !TookHeld(ps[k].b, ps[k].a)
    ensures NoLeaks(ps, ms, k) ==> !TookHeld(ps[k].a, ps[k].b) && !TookHeld(ps[k].b, ps[k].a)
    ensures NoOverruns(ps, ms, k) ==>
              && (Follows(ps[k].a, ps[k].b, ps[k].b.rx.delivered + ps[k].b.t.buf) <==> !TookHeld(ps[k].a, ps[k].b))
              && (Follows(ps[k].b, ps[k].a, ps[k].a.rx.delivered + ps[k].a.t.buf) <==> !TookHeld(ps[k].b, ps[k].a))
  {
    RunKeepsInv(ps, ms, k);
    RunKeepsHistory(ps, ms, k);
    AcceptedFollowsIff(ps[k].a, ps[k].b);
    AcceptedFollowsIff(ps[k].b, ps[k].a);
    if NoLeaks(ps, ms, k) {
      NoLeaksNoneTaken(ps, ms, k);
    }
    if NoOverruns(ps, ms, k) {
      AccountedIff(ps, ms, k);
      assert AccountedAt(ps, k);
    }
  }

  // ---- accounting

  lemma OverrunShrinks(t: Tcb, s: Segment, env: Env)
    requires ReadsText(t.state) && |t.buf| + t.rcvWnd == BUF_SIZE
    ensures var t' := ProcessTextAndFin(t, s, env).t;
            && t'.state != Free
            && (if |s.data| > t.rcvWnd then |t'.buf| < |t.buf| + |s.data| else t'.buf == t.buf + s.data)
  {
    var t1 := ProcessText(t, s).t;
    assert t1.state == t.state && ProcessFin(t1, s, env).t.buf == t1.buf;
  }

  lemma TextStepShape(x: Node, ev: Event)
    requires Enabled(x.t, ev) && ev.Arrive? && TakesText(x.t, ev.seg, ev.env) && BufferOk(x.t.buf, x.t.rcvWnd)
    ensures var x', data := StepNode(x, ev), ev.seg.data;
            && x'.rx.synced == x.rx.synced && x'.rx.delivered == x.rx.delivered
            && x'.rx.accepted == x.rx.accepted + data
            && if |data| > x.t.rcvWnd then |x'.t.buf| < |x.t.buf| + |data| else x'.t.buf == x.t.buf + data
  {
    var t1 := ProcessAck(x.t, ev.seg, ev.env).t;
    assert t1.buf == x.t.buf && t1.rcvWnd == x.t.rcvWnd;
    OverrunShrinks(t1, ev.seg, ev.env);
    assert Apply(x.t, ev) == ProcessTextAndFin(t1, ev.seg, ev.env);
  }

  lemma AccountIff(delivered: seq<Byte>, pending: seq<Byte>, data: seq<Byte>, buf: seq<Byte>, fits: bool)
    requires if fits then buf == pending + data else |buf| < |pending| + |data|
    ensures (delivered + pending) + data == delivered + buf <==> fits
  {
    if fits {
      assert (delivered + pending) + data == delivered + (pending + data);
    } else {
      assert |(delivered + pending) + data| > |delivered + buf|;
    }
  }

  /** A text is accounted for exactly when its copy stays inside the buffer. */
  lemma TextAccountedIff(x: Node, ev: Event)
    requires Enabled(x.t, ev) && ev.Arrive? && TakesText(x.t, ev.seg, ev.env) && Accounted(x) && x.rx.synced
    requires BufferOk(x.t.buf, x.t.rcvWnd)
    ensures Accounted(StepNode(x, ev)) <==> !Overruns(x.t, ev)
  {
    TextStepShape(x, ev);
    AccountIff(x.rx.delivered, x.t.buf, ev.seg.data, StepNode(x, ev).t.buf, |ev.seg.data| <= x.t.rcvWnd);
  }

  lemma ReachAccounts(x: Node, ev: Event)
    requires Enabled(x.t, ev) && ev.Arrive? && Reaches(x.t, ev.seg, ev.env) && !TakesText(x.t, ev.seg, ev.env)
    requires Accounted(x) && x.rx.synced
    ensures Accounted(StepNode(x, ev))
  {
    var t1 := ProcessAck(x.t, ev.seg, ev.env).t;
    AckMoves(x.t, ev.seg, ev.env);
    assert ProcessText(t1, ev.seg).t == t1;
    assert ProcessFin(t1, ev.seg, ev.env).t.buf == t1.buf == x.t.buf;
  }

  lemma OtherArrivalAccounts(x: Node, ev: Event)
    requires Enabled(x.t, ev) && ev.Arrive? && !Reaches(x.t, ev.seg, ev.env) && Accounted(x)
    requires SynAccepted(x.t, ev.seg) ==> NotSynced(x.rx) && (x.t.state == SynSent ==> x.t.buf == [])
    ensures Accounted(StepNode(x, ev))
  {
  }

  lemma TickAccounts(x: Node, ev: Event)
    requires Enabled(x.t, ev) && ev.TimerTick? && Accounted(x)
    ensures Accounted(StepNode(x, ev))
  {
    TickShape(x, ev);
  }

  lemma ReceiveAccounts(x: Node, ev: Event)
    requires ev.Receive? && Accounted(x) && (MayReceive(x.t.state) ==> BufferOk(x.t.buf, x.t.rcvWnd))
    ensures Accounted(StepNode(x, ev))
  {
    if MayReceive(x.t.state) {
      var x', n := ReceiveShape(x, ev);
      assert x.rx.delivered + x.t.buf == (x.rx.delivered + x.t.buf[..n]) + x.t.buf[n..];
    } else {
      ReceiveIgnored(x, ev);
    }
  }

  lemma CommandAccounts(x: Node, ev: Event)
    requires Enabled(x.t, ev) && !ev.Arrive? && !ev.TimerTick? && !ev.Receive? && Accounted(x)
    requires ev.Connect? || ev.ListenCmd? ==> !x.rx.synced
    ensures Accounted(StepNode(x, ev))
  {
  }

  lemma OpenStepAccountsIff(x: Node, y: Node, ev: Event)
    requires NodeOk(x) && Accounted(x) && CanStep(x, y, ev)
    ensures Accounted(StepNode(x, ev)) <==> !Overruns(x.t, ev)
  {
    if ev.TimerTick? {
      TickAccounts(x, ev);
    } else if ev.Receive? {
      ReceiveAccounts(x, ev);
    } else if !ev.Arrive? {
      CommandAccounts(x, ev);
    } else if TakesText(x.t, ev.seg, ev.env) {
      TextAccountedIff(x, ev);
    } else if Reaches(x.t, ev.seg, ev.env) {
      ReachAccounts(x, ev);
    } else {
      OtherArrivalAccounts(x, ev);
    }
  }

  lemma StepAccountsIff(x: Node, y: Node, ev: Event)
    requires Sound(x) && Accounted(x) && CanStep(x, y, ev)
    ensures Accounted(StepNode(x, ev)) <==> !Overruns(x.t, ev)
  {
    if x.held == [] {
      OpenStepAccountsIff(x, y, ev);
    } else {
      GoneFrame(x, ev);
    }
  }

  lemma MoveAccountsIff(p: Pair, m: Move, p': Pair)
    requires Sound(p.a) && Sound(p.b) && Accounted(p.a) && Accounted(p.b) && Moves(p, m, p')
    ensures Accounted(p'.a) && Accounted(p'.b) <==> !OverrunMove(p, m)
  {
    match m
    case ByA(ev) => StepAccountsIff(p.a, p.b, ev);
    case ByB(ev) => StepAccountsIff(p.b, p.a, ev);
  }

  lemma RunStepAccountsIff(ps: seq<Pair>, ms: seq<Move>, k: nat)
    requires IsPairRun(ps, ms) && 0 < k < |ps| && AccountedAt(ps, k - 1)
    ensures AccountedAt(ps, k) <==> !OverrunAt(ps, ms, k - 1)
  {
    StepIsSound(ps, ms, k);
    RunMoves(ps, ms, k);
    MoveAccountsIff(ps[k - 1], ms[k - 1], ps[k]);
  }

  lemma OverrunsPrefix(ps: seq<Pair>, ms: seq<Move>, k: nat)
    requires |ps| == |ms| + 1 && 0 < k < |ps|
    ensures NoOverruns(ps, ms, k) <==> NoOverruns(ps, ms, k - 1) && !OverrunAt(ps, ms, k - 1)
    ensures AccountedUpTo(ps, k) <==> AccountedUpTo(ps, k - 1) && AccountedAt(ps, k)
  {
  }

  lemma StartIsAccounted(ps: seq<Pair>, ms: seq<Move>)
    requires IsPairRun(ps, ms)
    ensures AccountedUpTo(ps, 0) && NoOverruns(ps, ms, 0)
  {
    assert AccountedAt(ps, 0);
  }

  /** On both sides every accepted byte is delivered or pending, exactly until a copy overruns a buffer. */
  lemma {:induction false} AccountedIff(ps: seq<Pair>, ms: seq<Move>, k: nat)
    requires IsPairRun(ps, ms) && k < |ps|
    ensures AccountedUpTo(ps, k) <==> NoOverruns(ps, ms, k)
    decreases k
  {
    if k == 0 {
      StartIsAccounted(ps, ms);
    } else {
      AccountedIff(ps, ms, k - 1);
      OverrunsPrefix(ps, ms, k);
      if AccountedUpTo(ps, k - 1) {
        assert AccountedAt(ps, k - 1);
        RunStepAccountsIff(ps, ms, k);
      }
    }
  }

  // ---- window safety

  lemma AcceptedTextFits(x: Node, y: Node, s: Segment, env: Env)
    requires NodeOk(x) && NodeOk(y) && LinkOk(x, y) && Budget(x) && !x.stale && s in x.out
    ensures TextFits(y.t, s, env)
  {
    if TakesText(y.t, s, env) {
      AcceptedTextIsAhead(y, x, s);
    }
  }

  lemma WideTextFits(x: Node, y: Node, s: Segment, env: Env)
    requires WideInv(x, y) && Budget(x) && !x.stale && s in x.out
    ensures TextFits(y.t, s, env)
  {
    if y.held == [] {
      WideBudget(x);
      AcceptedTextFits(Wide(x), y, s, env);
    }
  }

  lemma FreshWindowEdges(x: Node, y: Node)
    requires NodeOk(x) && NodeOk(y) && LinkOk(x, y) && !x.stale
    ensures x.tx.began && x.t.sndUna > x.t.iss ==>
              && x.t.sndUna + x.t.sndWnd <= RightEdge(y.t)
              && Top(x.t.iss, x.tx) - x.t.sndUna <= x.t.sndWnd
    ensures MaySend(x.t.state) ==> Cap(x.t) == x.t.sndWnd - (x.t.sndNxt - x.t.sndUna)
  {
  }

  lemma WideWindowEdges(x: Node, y: Node)
    requires WideInv(x, y) && !x.stale
    ensures x.tx.began && x.t.sndUna > x.t.iss ==>
              && x.t.sndUna + x.t.sndWnd <= RightEdge(y.t)
              && Top(x.t.iss, x.tx) - x.t.sndUna <= x.t.sndWnd
    ensures MaySend(x.t.state) ==> Cap(x.t) == x.t.sndWnd - (x.t.sndNxt - x.t.sndUna)
  {
    FreshWindowEdges(Wide(x), Wide(y));
  }

  lemma FreshWindowIsSafe(x: Node, y: Node)
    requires WideInv(x, y) && Budget(x) && !x.stale
    ensures WindowSafe(x, y)
  {
    WideWindowEdges(x, y);
    forall s, env | s in x.out
      ensures TextFits(y.t, s, env)
    {
      WideTextFits(x, y, s, env);
    }
  }

  /**
  An advancing acknowledgement leaves the sender believing in more room than it offers
  exactly when it may not refresh SND.WND and offers less.
   */
  lemma AdvanceOverstatesIff(t: Tcb, s: Segment)
    ensures AdvanceUna(t, s).sndUna + AdvanceUna(t, s).sndWnd > Offer(s) <==> KeepsWiderWindow(t, s)
  {
  }

  /**
  As long as no acknowledgement has left SND.WND too wide: the bytes in flight fit the
  window, `cap` does not wrap, the peer has room up to our right edge, and every text
  segment the peer can accept fits its buffer.
   */
  lemma WindowSafety(ps: seq<Pair>, ms: seq<Move>, k: nat)
    requires IsPairRun(ps, ms) && k < |ps|
    ensures !ps[k].a.stale ==> WindowSafe(ps[k].a, ps[k].b)
    ensures !ps[k].b.stale ==> WindowSafe(ps[k].b, ps[k].a)
  {
    RunKeepsInv(ps, ms, k);
    if !ps[k].a.stale {
      FreshWindowIsSafe(ps[k].a, ps[k].b);
    }
    if !ps[k].b.stale {
      FreshWindowIsSafe(ps[k].b, ps[k].a);
    }
  }

  /**
  While the peer has put neither data nor its FIN on the wire the window is never left too
  wide, and so window safety holds with nothing else assumed about acknowledgements.
   */
  lemma SilentPeerKeepsWindowFresh(ps: seq<Pair>, ms: seq<Move>, k: nat)
    requires IsPairRun(ps, ms) && k < |ps| && Silent(ps[k].b)
    ensures !ps[k].a.stale && WindowSafe(ps[k].a, ps[k].b)
  {
    RunKeepsInv(ps, ms, k);
    RunKeepsHistory(ps, ms, k);
    FreshWindowIsSafe(ps[k].a, ps[k].b);
  }

  // ---- when no copy overruns the buffer

  /** A copy overruns a buffer only after the sender's window has been left too wide. */
  lemma OverrunMeansStale(x: Node, y: Node, ev: Event)
    requires WideInv(y, x) && Budget(y) && CanStep(x, y, ev) && Overruns(x.t, ev)
    ensures y.stale
  {
    if !y.stale {
      WideTextFits(y, x, ev.seg, ev.env);
      assert false;
    }
  }

  lemma OverrunMoveMeansStale(p: Pair, m: Move, p': Pair)
    requires WideInv(p.a, p.b) && WideInv(p.b, p.a) && Moves(p, m, p') && Budget(p.a) && Budget(p.b)
    ensures OverrunMove(p, m) ==> if m.ByA? then p.b.stale else p.a.stale
  {
    if OverrunMove(p, m) {
      match m
      case ByA(ev) => OverrunMeansStale(p.a, p.b, ev);
      case ByB(ev) => OverrunMeansStale(p.b, p.a, ev);
    }
  }

  /** In every run: whoever overruns its buffer has a peer whose window was left too wide. */
  lemma OverrunNeedsStaleWindow(ps: seq<Pair>, ms: seq<Move>, i: nat)
    requires IsPairRun(ps, ms) && i < |ms| && OverrunAt(ps, ms, i)
    ensures if ms[i].ByA? then ps[i].b.stale else ps[i].a.stale
  {
    RunKeepsInv(ps, ms, i);
    RunMoves(ps, ms, i + 1);
    OverrunMoveMeansStale(ps[i], ms[i], ps[i + 1]);
  }

  // ---- monotonicity

  lemma WideStepGrows(x: Node, y: Node, ev: Event)
    requires WideInv(x, y) && CanStep(x, y, ev) && Budget(y)
    ensures Grows(x, StepNode(x, ev))
  {
    if x.held == [] {
      HoldsNothing(x, y, ev);
      StepGrows(x, Wide(y), ev);
    } else {
      HolderFrame(x, y, ev);
    }
  }

  lemma MoveGrows(p: Pair, m: Move, p': Pair)
    requires WideInv(p.a, p.b) && WideInv(p.b, p.a) && Moves(p, m, p') && Budget(p.a) && Budget(p.b)
    ensures Grows(p.a, p'.a) && Grows(p.b, p'.b)
  {
    match m
    case ByA(ev) => WideStepGrows(p.a, p.b, ev);
    case ByB(ev) => WideStepGrows(p.b, p.a, ev);
  }

  lemma RunGrows(ps: seq<Pair>, ms: seq<Move>, k: nat)
    requires IsPairRun(ps, ms) && 0 < k < |ps|
    ensures Grows(ps[k - 1].a, ps[k].a) && Grows(ps[k - 1].b, ps[k].b)
  {
    RunKeepsInvUpTo(ps, ms, k);
    RunMoves(ps, ms, k);
    GrowStepAt(ps, ms, k);
  }

  lemma GrowStepAt(ps: seq<Pair>, ms: seq<Move>, k: nat)
    requires |ps| == |ms| + 1 && 0 < k < |ps| && MoveAt(ps, ms, k - 1) && InvUpTo(ps, k)
    requires Budget(ps[k - 1].a) && Budget(ps[k - 1].b)
    ensures Grows(ps[k - 1].a, ps[k].a) && Grows(ps[k - 1].b, ps[k].b)
  {
    assert InvAt(ps, k - 1);
    MoveGrows(ps[k - 1], ms[k - 1], ps[k]);
  }

  /** RCV.NXT and the right edge of the receive window never move left. */
  lemma {:induction false} ReceiverNeverRetreats(ps: seq<Pair>, ms: seq<Move>, i: nat, j: nat)
    requires IsPairRun(ps, ms) && i <= j < |ps|
    ensures Grows(ps[i].a, ps[j].a) && Grows(ps[i].b, ps[j].b)
    decreases j
  {
    if i < j {
      ReceiverNeverRetreats(ps, ms, i, j - 1);
      RunGrows(ps, ms, j);
    }
  }
}
