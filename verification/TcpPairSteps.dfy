/**
Every step of either node keeps the pair invariant. A step is a quiet change of the
node followed by speaking, that is, adding segments to what it has sent.
 */
module TcpPairSteps {
  import opened Words
  import opened Clock
  import opened TcpSpec
  import opened TcpQueue
  import opened TcpLocal
  import opened TcpPair

  // ---- speaking

  /** A reset, or something issued that carries the current RCV.NXT and RCV.WND. */
  ghost predicate MaySay(x: Node, s: Segment) {
    s.flg.rst ||
    (&& Issued(x.t.iss, x.tx, s.seqNo, s.flg, s.data)
     && s.ackNo == x.t.rcvNxt && s.wnd == x.t.rcvWnd && (s.flg.ack ==> x.rx.synced))
  }

  function Say(x: Node, said: set<Segment>): Node {
    x.(out := x.out + said)
  }

  lemma SayKeepsInv(x: Node, y: Node, said: set<Segment>)
    requires PairInv(x, y) && forall s :: s in said ==> MaySay(x, s)
    ensures PairInv(Say(x, said), y)
  {
  }

  // ---- quiet changes that only move the state

  lemma GoneKeepsStates(t: Tcb, tx: Tx, synced: bool, st: State)
    requires SendVarsOk(t, tx) && SendStateOk(t, tx) && RcvStateOk(t, synced) && Gone(st)
    ensures var t' := t.(state := st); SendVarsOk(t', tx) && SendStateOk(t', tx) && RcvStateOk(t', synced)
  {
  }

  lemma GoneKeepsNode(x: Node, st: State)
    requires NodeOk(x) && Gone(st)
    ensures NodeOk(x.(t := x.t.(state := st)))
  {
    GoneKeepsStates(x.t, x.tx, x.rx.synced, st);
  }

  lemma MoveKeepsNode(x: Node, st: State, tw: Time)
    requires NodeOk(x) && Synchronised(x.t.state) && Synchronised(st) && st != SynReceived
    requires MaySend(st) ==> !x.tx.fin && x.t.sndUna > x.t.iss
    ensures NodeOk(x.(t := x.t.(state := st, twTimer := tw)))
  {
    MoveKeepsStates(x.t, x.tx, x.rx.synced, st, tw);
  }

  lemma MoveKeepsStates(t: Tcb, tx: Tx, synced: bool, st: State, tw: Time)
    requires SendVarsOk(t, tx) && SendStateOk(t, tx) && RcvStateOk(t, synced)
    requires Synchronised(t.state) && Synchronised(st) && st != SynReceived
    requires MaySend(st) ==> !tx.fin && t.sndUna > t.iss
    ensures var t' := t.(state := st, twTimer := tw);
            SendVarsOk(t', tx) && SendStateOk(t', tx) && RcvStateOk(t', synced)
  {
  }

  lemma GoneKeepsInv(x: Node, y: Node, st: State)
    requires PairInv(x, y) && Gone(st)
    ensures PairInv(x.(t := x.t.(state := st)), y)
  {
    GoneKeepsNode(x, st);
    MoveKeepsLinks(x, y, st, x.t.twTimer);
  }

  /** The links do not depend on the state or the TIME-WAIT timer. */
  lemma MoveKeepsLinks(x: Node, y: Node, st: State, tw: Time)
    requires LinkOk(x, y) && LinkOk(y, x)
    ensures LinkOk(x.(t := x.t.(state := st, twTimer := tw)), y)
    ensures LinkOk(y, x.(t := x.t.(state := st, twTimer := tw)))
  {
  }

  // ---- acknowledgements

  function Advance(x: Node, s: Segment): Node {
    x.(t := AdvanceUna(x.t, s), stale := x.stale || KeepsWiderWindow(x.t, s))
  }

  /** An acknowledgement between pieces splits no queue entry. */
  lemma WholeAckSplitsNothing(x: Node, n: U32)
    requires QueueIssued(x.t.iss, x.tx, x.t.queue) && Whole(x.tx.pieces, n)
    ensures !Splits(x.t.queue, n)
  {
    forall e | e in x.t.queue
      ensures !(e.seqNo < n < e.seqNo + EntryLen(e))
    {
      assert Issued(x.t.iss, x.tx, e.seqNo, e.flg, e.data);
      if e.data != [] {
        assert Piece(e.seqNo, e.data) in x.tx.pieces;
      }
    }
  }

  lemma CleanupKeepsQueue(x: Node, n: U32)
    requires QueueIssued(x.t.iss, x.tx, x.t.queue) && Whole(x.tx.pieces, n)
    requires CoversTwiceSyn(x.t.queue, x.t.iss, x.t.sndUna, x.t.sndNxt) && x.t.sndUna <= n <= x.t.sndNxt
    ensures QueueIssued(x.t.iss, x.tx, Cleanup(x.t.queue, n))
    ensures CoversTwiceSyn(Cleanup(x.t.queue, n), x.t.iss, n, x.t.sndNxt)
  {
    CleanupCoversTwiceSyn(x.t.queue, x.t.iss, x.t.sndUna, x.t.sndNxt, n);
    CleanupIsSuffix(x.t.queue, n);
    WholeAckSplitsNothing(x, n);
  }

  /** Only the acknowledged part and the send window change, and the queue still fits. */
  lemma AckedKeepsNode(x: Node, x': Node)
    requires NodeOk(x) && Synchronised(x.t.state)
    requires x' == x.(t := x'.t, stale := x'.stale)
    requires x'.t == x.t.(sndUna := x'.t.sndUna, queue := x'.t.queue,
                             sndWnd := x'.t.sndWnd, wl1 := x'.t.wl1, wl2 := x'.t.wl2)
    requires x.t.sndUna <= x'.t.sndUna <= x.t.sndNxt
    requires QueueIssued(x.t.iss, x.tx, x'.t.queue)
    requires CoversTwiceSyn(x'.t.queue, x.t.iss, x'.t.sndUna, x.t.sndNxt)
    ensures NodeOk(x')
  {
  }

  lemma AdvanceKeepsNode(x: Node, s: Segment)
    requires NodeOk(x) && Synchronised(x.t.state) && Whole(x.tx.pieces, s.ackNo)
    requires x.t.sndUna < s.ackNo <= x.t.sndNxt
    ensures NodeOk(Advance(x, s))
  {
    CleanupKeepsQueue(x, s.ackNo);
    AckedKeepsNode(x, Advance(x, s));
  }

  lemma IssuedBounds(iss: int, tx: Tx, s: Segment)
    requires PiecesOk(iss, tx) && Issued(iss, tx, s.seqNo, s.flg, s.data)
    ensures iss <= s.seqNo <= Nxt(iss, tx) && (!s.flg.syn ==> iss < s.seqNo)
  {
    if !s.flg.syn && !s.flg.fin && s.data != [] {
      assert Piece(s.seqNo, s.data) in tx.pieces;
    }
  }

  lemma AdvanceKeepsLink(x: Node, y: Node, s: Segment)
    requires LinkOk(x, y) && OffersOk(y.out, RightEdge(y.t)) && OutOk(y.t.iss, y.tx, y.out) && PiecesOk(y.t.iss, y.tx)
    requires s in y.out && CarriesAck(s) && !s.flg.syn
    requires x.tx.began && x.t.sndUna < s.ackNo && (x.tx.stream != [] ==> x.t.sndUna > x.t.iss)
    ensures LinkOk(Advance(x, s), y)
  {
    IssuedBounds(y.t.iss, y.tx, s);
    assert OffersReach(y.out, s.ackNo, Offer(s));
  }

  lemma AdvanceKeepsReverse(x: Node, y: Node, s: Segment)
    requires LinkOk(y, x)
    ensures LinkOk(y, Advance(x, s))
  {
  }

  // ---- text and FIN

  function TakeText(x: Node, s: Segment): Node {
    var wnd: U16 := (x.t.rcvWnd - |s.data|) % TWO_16;
    x.(t := x.t.(buf := Filled(x.t.buf + s.data, wnd), rcvNxt := Add32(s.seqNo, SegLen(s)), rcvWnd := wnd),
       rx := RxTakes(x.rx, x.t, s, true, false))
  }

  lemma ConcatAppend(ps: seq<Piece>, p: Piece)
    ensures Concat(ps + [p]) == Concat(ps) + p.data
  {
    assert (ps + [p])[..|ps|] == ps;
  }

  /** Text that is accepted starts at or after RCV.NXT: pieces are never taken twice or in part. */
  lemma AcceptedTextIsAhead(x: Node, y: Node, s: Segment)
    requires RcvNxtOk(y.t.iss, y.tx, x.t.irs, x.t.rcvNxt, x.rx) && PiecesOk(y.t.iss, y.tx)
    requires OutOk(y.t.iss, y.tx, y.out)
    requires Budget(y) && s in y.out && !s.flg.rst && !s.flg.syn && s.data != []
    requires x.rx.synced && Acceptable(x.t, s)
    ensures Piece(s.seqNo, s.data) in y.tx.pieces && !s.flg.fin
    ensures x.t.rcvNxt <= s.seqNo && !x.rx.fin
    ensures SegLen(s) == |s.data| && Add32(s.seqNo, SegLen(s)) == s.seqNo + |s.data| <= Top(y.t.iss, y.tx)
  {
    assert Issued(y.t.iss, y.tx, s.seqNo, s.flg, s.data);
    var p := Piece(s.seqNo, s.data);
    assert p in y.tx.pieces;
    assert Whole(y.tx.pieces, x.t.rcvNxt);
  }

  lemma TextKeepsNode(x: Node, s: Segment)
    requires NodeOk(x) && ReadsText(x.t.state)
    requires x.t.rcvNxt <= s.seqNo && Add32(s.seqNo, SegLen(s)) == s.seqNo + |s.data|
    ensures NodeOk(TakeText(x, s))
  {
    var t' := TakeText(x, s).t;
    WindowShrinksByText(x.t, s);
    TextKeepsStates(x.t, x.tx, x.rx.synced, t');
    OffersStayBelow(x.out, RightEdge(x.t), RightEdge(t'));
  }

  /** Whether or not the 16-bit window wraps, the buffer stays accounted for and the right edge does not retreat. */
  lemma WindowShrinksByText(t: Tcb, s: Segment)
    requires BufferOk(t.buf, t.rcvWnd) && t.rcvNxt <= s.seqNo
    ensures var wnd: U16 := (t.rcvWnd - |s.data|) % TWO_16;
            && BufferOk(Filled(t.buf + s.data, wnd), wnd)
            && t.rcvNxt + t.rcvWnd <= s.seqNo + |s.data| + wnd
  {
  }

  lemma TextKeepsStates(t: Tcb, tx: Tx, synced: bool, t': Tcb)
    requires SendVarsOk(t, tx) && SendStateOk(t, tx) && RcvStateOk(t, synced) && ReadsText(t.state)
    requires t' == t.(buf := t'.buf, rcvNxt := t'.rcvNxt, rcvWnd := t'.rcvWnd)
    ensures SendVarsOk(t', tx) && SendStateOk(t', tx) && RcvStateOk(t', synced)
  {
  }

  lemma OffersStayBelow(out: set<Segment>, edge: int, edge': int)
    requires OffersOk(out, edge) && edge <= edge'
    ensures OffersOk(out, edge')
  {
  }

  lemma TextKeepsLink(x: Node, y: Node, s: Segment)
    requires LinkOk(x, y)
    ensures LinkOk(x.(t := TakeText(x, s).t, rx := TakeText(x, s).rx), y)
  {
  }

  lemma TextExtendsTexts(pieces: set<Piece>, rcvNxt: int, texts: seq<Piece>, p: Piece)
    requires TextsOk(pieces, rcvNxt, texts) && p in pieces && rcvNxt <= p.seqNo
    ensures TextsOk(pieces, End(p), texts + [p])
  {
  }

  lemma TextExtendsStream(iss: int, tx: Tx, rcvNxt: int, rx: Rx, p: Piece)
    requires StreamOk(iss, tx.stream, rcvNxt, rx) && rx.synced && !rx.fin
    requires PiecesOk(iss, tx) && p in tx.pieces && rcvNxt <= p.seqNo
    ensures StreamOk(iss, tx.stream, End(p),
                     rx.(texts := rx.texts + [p], accepted := rx.accepted + p.data, gap := rx.gap || p.seqNo != rcvNxt))
  {
    ConcatAppend(rx.texts, p);
    SliceExtendsStream(iss, tx.stream, rcvNxt, rx, p);
  }

  lemma SliceExtendsStream(iss: int, stream: seq<Byte>, rcvNxt: int, rx: Rx, p: Piece)
    requires StreamOk(iss, stream, rcvNxt, rx) && rx.synced && !rx.fin && rcvNxt <= p.seqNo
    requires iss < p.seqNo && End(p) <= iss + 1 + |stream| && p.data == stream[p.seqNo - iss - 1..End(p) - iss - 1]
    ensures var n := End(p) - iss - 1;
            && 0 <= n <= |stream|
            && (rx.gap || p.seqNo != rcvNxt ==> |rx.accepted + p.data| < n)
            && (!rx.gap && p.seqNo == rcvNxt ==> rx.accepted + p.data == stream[..n])
  {
    var n := Passed(iss, rcvNxt, rx);
    if !rx.gap && p.seqNo == rcvNxt {
      assert stream[..n] + stream[n..n + |p.data|] == stream[..n + |p.data|];
    }
  }

  lemma PieceEndIsWhole(iss: int, tx: Tx, p: Piece)
    requires PiecesOk(iss, tx) && p in tx.pieces
    ensures Whole(tx.pieces, End(p))
  {
  }

  /** The receiver moved on: what it acknowledged and offered before still stands. */
  lemma ForwardKeepsReverse(y: Node, x: Node, x': Node)
    requires LinkOk(y, x)
    requires x' == x.(t := x'.t, rx := x'.rx)
    requires x'.t == x.t.(rcvNxt := x'.t.rcvNxt, rcvWnd := x'.t.rcvWnd, buf := x'.t.buf)
    requires x'.rx.synced == x.rx.synced && x.t.rcvNxt <= x'.t.rcvNxt && RightEdge(x.t) <= RightEdge(x'.t)
    requires RcvNxtOk(y.t.iss, y.tx, x'.t.irs, x'.t.rcvNxt, x'.rx)
    requires TextsOk(y.tx.pieces, x'.t.rcvNxt, x'.rx.texts)
    requires StreamOk(y.t.iss, y.tx.stream, x'.t.rcvNxt, x'.rx)
    ensures LinkOk(y, x')
  {
  }

  lemma PieceKeepsReverse(x: Node, y: Node, x': Node, p: Piece)
    requires LinkOk(y, x) && PiecesOk(y.t.iss, y.tx) && p in y.tx.pieces
    requires x.rx.synced && !x.rx.fin && x.t.rcvNxt <= p.seqNo
    requires x' == x.(t := x'.t, rx := x'.rx)
    requires x'.t == x.t.(rcvNxt := x'.t.rcvNxt, rcvWnd := x'.t.rcvWnd, buf := x'.t.buf)
    requires x'.t.rcvNxt == End(p) && x'.t.rcvWnd >= x.t.rcvWnd - |p.data|
    requires x'.rx == x.rx.(texts := x.rx.texts + [p], accepted := x.rx.accepted + p.data,
                            gap := x.rx.gap || p.seqNo != x.t.rcvNxt)
    ensures LinkOk(y, x')
  {
    TextExtendsTexts(y.tx.pieces, x.t.rcvNxt, x.rx.texts, p);
    TextExtendsStream(y.t.iss, y.tx, x.t.rcvNxt, x.rx, p);
    PieceEndIsWhole(y.t.iss, y.tx, p);
    ForwardKeepsReverse(y, x, x');
  }

  lemma TextKeepsReverse(x: Node, y: Node, s: Segment)
    requires LinkOk(y, x) && PiecesOk(y.t.iss, y.tx) && Piece(s.seqNo, s.data) in y.tx.pieces
    requires x.rx.synced && !x.rx.fin && x.t.rcvNxt <= s.seqNo
    requires Add32(s.seqNo, SegLen(s)) == s.seqNo + |s.data|
    ensures LinkOk(y, TakeText(x, s))
  {
    PieceKeepsReverse(x, y, TakeText(x, s), Piece(s.seqNo, s.data));
  }

  function TakeFin(x: Node, s: Segment): Node {
    x.(t := x.t.(rcvNxt := Add32(s.seqNo, 1)), rx := RxTakes(x.rx, x.t, s, false, true))
  }

  /** A FIN that is accepted is the peer's only FIN, seen for the first time. */
  lemma AcceptedFinIsNew(x: Node, y: Node, s: Segment)
    requires RcvNxtOk(y.t.iss, y.tx, x.t.irs, x.t.rcvNxt, x.rx) && OutOk(y.t.iss, y.tx, y.out)
    requires Budget(y) && s in y.out && !s.flg.rst && !s.flg.syn && s.flg.fin
    requires x.rx.synced && Acceptable(x.t, s)
    ensures s.data == [] && y.tx.fin && s.seqNo == Top(y.t.iss, y.tx) && Add32(s.seqNo, 1) == Nxt(y.t.iss, y.tx)
    ensures x.t.rcvNxt <= s.seqNo && !x.rx.fin
  {
    assert Issued(y.t.iss, y.tx, s.seqNo, s.flg, s.data);
  }

  lemma FinKeepsNode(x: Node, s: Segment)
    requires NodeOk(x) && Synchronised(x.t.state)
    requires x.t.rcvNxt <= s.seqNo && Add32(s.seqNo, 1) == s.seqNo + 1
    ensures NodeOk(TakeFin(x, s))
  {
  }

  lemma FinKeepsLink(x: Node, y: Node, s: Segment)
    requires LinkOk(x, y)
    ensures LinkOk(TakeFin(x, s), y)
  {
  }

  lemma FinKeepsReverse(x: Node, y: Node, s: Segment)
    requires LinkOk(y, x) && PiecesOk(y.t.iss, y.tx) && y.tx.fin && s.seqNo == Top(y.t.iss, y.tx)
    requires x.rx.synced && !x.rx.fin && x.t.rcvNxt <= s.seqNo && Add32(s.seqNo, 1) == s.seqNo + 1
    ensures LinkOk(y, TakeFin(x, s))
  {
    var x' := TakeFin(x, s);
    assert Whole(y.tx.pieces, s.seqNo + 1);
    ForwardKeepsReverse(y, x, x');
  }

  // ---- opening and synchronising

  /** Before a node begins or synchronises, its peer has nothing of it to go by. */
  lemma StrangersKnowNothing(x: Node, y: Node)
    requires NodeOk(x) && NodeOk(y) && LinkOk(x, y)
    ensures !x.tx.began ==> !y.rx.synced && NotSynced(y.rx) && forall s :: s in x.out ==> s.flg.rst
    ensures !y.rx.synced ==> (x.tx.began ==> x.t.sndUna == x.t.iss) && forall s :: s in y.out ==> !CarriesAck(s)
  {
  }

  /** `x` begins: SND.UNA is its ISS and nothing else has been sent. */
  ghost predicate Begins(x: Node, x': Node) {
    && !x.tx.began && x'.tx == x.tx.(began := true) && x'.stale == x.stale
    && x'.t.sndUna == x'.t.iss && x'.t.wl1 == x.t.wl1 && x'.t.wl2 == x.t.wl2
  }

  lemma BeginKeepsLink(x: Node, y: Node, x': Node)
    requires NodeOk(x) && NodeOk(y) && LinkOk(x, y) && Begins(x, x')
    ensures LinkOk(x', y)
  {
    StrangersKnowNothing(x, y);
  }

  /** `x` takes the SYN of `y`. */
  ghost predicate Syncs(x: Node, y: Node, x': Node) {
    && !x.rx.synced && x'.rx == x.rx.(synced := true) && x'.out == x.out
    && y.tx.began && x'.t.irs == y.t.iss && x'.t.rcvNxt == y.t.iss + 1
    && (x.tx.began ==> x'.t.iss == x.t.iss && x'.tx == x.tx)
  }

  lemma SyncKeepsReverse(x: Node, y: Node, x': Node)
    requires NodeOk(x) && NodeOk(y) && LinkOk(x, y) && LinkOk(y, x) && Syncs(x, y, x')
    ensures LinkOk(y, x')
  {
    StrangersKnowNothing(x, y);
    StrangersKnowNothing(y, x);
    assert Whole(y.tx.pieces, y.t.iss + 1);
  }

  // ---- whole steps

  function Quiet(x: Node, ev: Event): Node
    requires Enabled(x.t, ev)
  {
    StepNode(x, ev).(out := x.out)
  }

  function Said(x: Node, ev: Event): set<Segment>
    requires Enabled(x.t, ev)
  {
    set s | s in Apply(x.t, ev).out
  }

  /** A step is its quiet part followed by what it says. */
  lemma QuietThenSay(x: Node, ev: Event)
    requires Enabled(x.t, ev)
    ensures StepNode(x, ev) == Say(Quiet(x, ev), Said(x, ev))
  {
  }

  /** Nothing `y` knows changes when `x` begins without synchronising. */
  lemma BeginKeepsReverse(x: Node, y: Node, x': Node)
    requires NodeOk(x) && NodeOk(y) && LinkOk(y, x) && Begins(x, x') && x'.rx == x.rx && x'.out == x.out
    ensures LinkOk(y, x')
  {
    StrangersKnowNothing(y, x);
  }

  lemma ConnectKeepsNode(x: Node, x': Node, e: Entry)
    requires NodeOk(x) && Begins(x, x') && x'.rx == x.rx && x'.out == x.out && LoneSyn(e) && !e.flg.ack && !e.flg.rst
    requires x'.t.queue == [e] && e.seqNo == x'.t.iss < TWO_31 && e.data == [] && x'.t.sndNxt == x'.t.iss + 1
    requires x'.t.state == SynSent && x'.t.buf == [] && x'.t.rcvWnd == BUF_SIZE
    ensures NodeOk(x')
  {
    AppendCovers([], e.seqNo, e.seqNo, e);
    assert [e] == [] + [e];
  }

  lemma ConnectShape(x: Node, ev: Event) returns (x': Node, e: Entry, said: set<Segment>)
    requires Enabled(x.t, ev) && ev.Connect? && ev.ok && !x.tx.began
    ensures StepNode(x, ev) == Say(x', said) && forall s :: s in said ==> MaySay(x', s)
    ensures Begins(x, x') && x'.rx == x.rx && x'.out == x.out && LoneSyn(e) && !e.flg.ack && !e.flg.rst
    ensures x'.t.queue == [e] && e.seqNo == x'.t.iss < TWO_31 && e.data == [] && x'.t.sndNxt == x'.t.iss + 1
    ensures x'.t.state == SynSent && x'.t.buf == [] && x'.t.rcvWnd == BUF_SIZE
  {
    x', said := Quiet(x, ev), Said(x, ev);
    e := Entry(ev.now, ev.now, DEFAULT_RTO, ev.random, SYN, []);
    assert x'.t.queue == [] + [e];
  }

  lemma ConnectKeepsInv(x: Node, y: Node, ev: Event)
    requires PairInv(x, y) && CanStep(x, y, ev) && ev.Connect?
    ensures PairInv(StepNode(x, ev), y)
  {
    if ev.ok {
      var x', e, said := ConnectShape(x, ev);
      ConnectKeepsNode(x, x', e);
      BeginKeepsLink(x, y, x');
      BeginKeepsReverse(x, y, x');
      SayKeepsInv(x', y, said);
    } else {
      ConnectFailsShape(x, ev);
      GoneKeepsInv(x, y, Free);
    }
  }

  lemma ConnectFailsShape(x: Node, ev: Event)
    requires Enabled(x.t, ev) && ev.Connect? && !ev.ok && !x.tx.began
    ensures StepNode(x, ev) == x.(t := x.t.(state := Free))
  {
  }

  // ---- sending and closing

  /** Sending appends a piece; what was issued before still is. */
  function TxSend(iss: int, tx: Tx, data: seq<Byte>): Tx {
    tx.(stream := tx.stream + data, pieces := tx.pieces + {Piece(Top(iss, tx), data)})
  }

  lemma SliceOfPrefix(xs: seq<Byte>, ys: seq<Byte>, i: nat, j: nat)
    requires i <= j <= |xs|
    ensures (xs + ys)[i..j] == xs[i..j]
  {
  }

  lemma SendKeepsPieces(iss: int, tx: Tx, data: seq<Byte>)
    requires PiecesOk(iss, tx) && !tx.fin && 0 < |data| <= MAX_TEXT
    ensures PiecesOk(iss, TxSend(iss, tx, data))
  {
    var tx' := TxSend(iss, tx, data);
    forall p | p in tx'.pieces
      ensures 0 < |p.data| <= MAX_TEXT && iss < p.seqNo && End(p) <= Top(iss, tx')
      ensures p.data == tx'.stream[p.seqNo - iss - 1..End(p) - iss - 1]
    {
      if p in tx.pieces {
        SliceOfPrefix(tx.stream, data, p.seqNo - iss - 1, End(p) - iss - 1);
      }
    }
  }

  lemma SendKeepsIssued(iss: int, tx: Tx, data: seq<Byte>, q: seq<Entry>, out: set<Segment>)
    requires QueueIssued(iss, tx, q) && OutOk(iss, tx, out) && !tx.fin
    ensures QueueIssued(iss, TxSend(iss, tx, data), q) && OutOk(iss, TxSend(iss, tx, data), out)
  {
  }

  /** The sequence space is extended by one entry. */
  ghost predicate Extends(x: Node, x': Node, e: Entry) {
    && x' == x.(t := x'.t, tx := x'.tx)
    && x'.t == x.t.(queue := x.t.queue + [e], sndNxt := x'.t.sndNxt, state := x'.t.state)
    && x.tx.began && x'.tx.began && e.seqNo == x.t.sndNxt && EntryLen(e) > 0
    && x'.t.sndNxt == x.t.sndNxt + EntryLen(e) == Nxt(x'.t.iss, x'.tx)
  }

  lemma ExtendKeepsNode(x: Node, x': Node, e: Entry)
    requires NodeOk(x) && Extends(x, x', e) && x.rx.synced && Synchronised(x'.t.state)
    requires PiecesOk(x.t.iss, x'.tx) && QueueIssued(x.t.iss, x'.tx, x.t.queue) && OutOk(x.t.iss, x'.tx, x.out)
    requires Issued(x.t.iss, x'.tx, e.seqNo, e.flg, e.data)
    requires SendStateOk(x'.t, x'.tx) && (x'.tx.stream != [] ==> x.t.sndUna > x.t.iss)
    ensures NodeOk(x')
  {
    AppendCoversTwiceSyn(x.t.queue, x.t.iss, x.t.sndUna, x.t.sndNxt, e);
  }

  lemma SendKeepsNode(x: Node, x': Node, e: Entry)
    requires NodeOk(x) && Extends(x, x', e) && x'.t.state == x.t.state && MaySend(x.t.state)
    requires e.flg == PSH_ACK && 0 < |e.data| <= MAX_TEXT && x'.tx == TxSend(x.t.iss, x.tx, e.data)
    ensures NodeOk(x')
  {
    SendKeepsPieces(x.t.iss, x.tx, e.data);
    SendKeepsIssued(x.t.iss, x.tx, e.data, x.t.queue, x.out);
    ExtendKeepsNode(x, x', e);
  }

  lemma WholeBelowTop(iss: int, tx: Tx, data: seq<Byte>, n: int)
    requires Whole(tx.pieces, n) && n <= Top(iss, tx)
    ensures Whole(TxSend(iss, tx, data).pieces, n)
  {
  }

  lemma SendKeepsAcks(x: Node, y: Node, data: seq<Byte>)
    requires LinkOk(x, y) && x.tx.began && !x.tx.fin
    ensures var pieces := TxSend(x.t.iss, x.tx, data).pieces;
            && AcksOk(x.t.iss, pieces, y.rx.synced, y.t.rcvNxt, y.out)
            && (x.t.sndUna != x.t.iss ==> Reached(x.t.iss, pieces, y.rx.synced, y.t.rcvNxt, x.t.sndUna))
            && (y.rx.synced ==> Whole(pieces, y.t.rcvNxt))
  {
    forall n | Reached(x.t.iss, x.tx.pieces, y.rx.synced, y.t.rcvNxt, n)
      ensures Reached(x.t.iss, TxSend(x.t.iss, x.tx, data).pieces, y.rx.synced, y.t.rcvNxt, n)
    {
      WholeBelowTop(x.t.iss, x.tx, data, n);
    }
    if y.rx.synced {
      WholeBelowTop(x.t.iss, x.tx, data, y.t.rcvNxt);
    }
  }

  lemma SendKeepsStream(iss: int, stream: seq<Byte>, rcvNxt: int, rx: Rx, data: seq<Byte>)
    requires StreamOk(iss, stream, rcvNxt, rx)
    ensures StreamOk(iss, stream + data, rcvNxt, rx)
  {
    if rx.synced {
      var n := Passed(iss, rcvNxt, rx);
      assert (stream + data)[..n] == stream[..n];
    }
  }

  lemma SendKeepsLinks(x: Node, y: Node, x': Node, e: Entry)
    requires LinkOk(x, y) && LinkOk(y, x) && Extends(x, x', e) && x'.tx == TxSend(x.t.iss, x.tx, e.data)
    requires x.tx.began && !x.tx.fin && x.t.sndUna > x.t.iss
    requires x.t.sndNxt == Nxt(x.t.iss, x.tx) && x.t.sndUna <= x.t.sndNxt && |e.data| <= Cap(x.t)
    ensures LinkOk(x', y) && LinkOk(y, x')
  {
    SendKeepsAcks(x, y, e.data);
    SendKeepsStream(x.t.iss, x.tx.stream, y.t.rcvNxt, y.rx, e.data);
  }

  lemma SendShape(x: Node, ev: Event) returns (x': Node, e: Entry, said: set<Segment>)
    requires Enabled(x.t, ev) && ev.Send? && Budget(StepNode(x, ev))
    requires x.tx.began && !x.tx.fin && x.rx.synced && x.t.sndNxt == Nxt(x.t.iss, x.tx)
    ensures StepNode(x, ev) == Say(x', said) && forall s :: s in said ==> MaySay(x', s)
    ensures Extends(x, x', e) && x'.tx == TxSend(x.t.iss, x.tx, e.data)
    ensures e.flg == PSH_ACK && e.data == ev.data && x'.t.state == x.t.state
  {
    x', said := Quiet(x, ev), Said(x, ev);
    e := Entry(ev.now, ev.now, DEFAULT_RTO, x.t.sndNxt, PSH_ACK, ev.data);
  }

  lemma SendQuietly(x: Node, y: Node, x': Node, e: Entry)
    requires PairInv(x, y) && Extends(x, x', e) && x'.tx == TxSend(x.t.iss, x.tx, e.data)
    requires e.flg == PSH_ACK && 0 < |e.data| <= MAX_TEXT && |e.data| <= Cap(x.t)
    requires x'.t.state == x.t.state && MaySend(x.t.state)
    ensures PairInv(x', y)
  {
    SenderFacts(x);
    SendKeepsNode(x, x', e);
    SendKeepsLinks(x, y, x', e);
  }

  lemma SendCore(x: Node, y: Node, x': Node, e: Entry, said: set<Segment>)
    requires PairInv(x, y) && Extends(x, x', e) && x'.tx == TxSend(x.t.iss, x.tx, e.data)
    requires e.flg == PSH_ACK && 0 < |e.data| <= MAX_TEXT && |e.data| <= Cap(x.t)
    requires x'.t.state == x.t.state && MaySend(x.t.state)
    requires forall s :: s in said ==> MaySay(x', s)
    ensures PairInv(Say(x', said), y)
  {
    SendQuietly(x, y, x', e);
    SayKeepsInv(x', y, said);
  }

  lemma SendKeepsInv(x: Node, y: Node, ev: Event)
    requires PairInv(x, y) && CanStep(x, y, ev) && ev.Send? && Budget(StepNode(x, ev))
    ensures PairInv(StepNode(x, ev), y)
  {
    SenderFacts(x);
    var x', e, said := SendShape(x, ev);
    SendCore(x, y, x', e, said);
  }

  lemma SenderFacts(x: Node)
    requires NodeOk(x) && MaySend(x.t.state)
    ensures x.tx.began && !x.tx.fin && x.rx.synced
    ensures x.t.iss < x.t.sndUna <= x.t.sndNxt == Nxt(x.t.iss, x.tx)
  {
  }

  lemma FinKeepsIssued(iss: int, tx: Tx, q: seq<Entry>, out: set<Segment>)
    requires PiecesOk(iss, tx) && QueueIssued(iss, tx, q) && OutOk(iss, tx, out) && !tx.fin
    ensures var tx' := tx.(fin := true); PiecesOk(iss, tx') && QueueIssued(iss, tx', q) && OutOk(iss, tx', out)
  {
  }

  lemma CloseKeepsLinks(x: Node, y: Node, x': Node, e: Entry)
    requires LinkOk(x, y) && LinkOk(y, x) && Extends(x, x', e) && x'.tx == x.tx.(fin := true) && !x.tx.fin
    ensures LinkOk(x', y) && LinkOk(y, x')
  {
  }

  lemma CloseShape(x: Node, ev: Event) returns (x': Node, e: Entry, said: set<Segment>)
    requires Enabled(x.t, ev) && ev.Close? && ClosesWithFin(x.t.state) && Budget(StepNode(x, ev))
    requires x.tx.began && !x.tx.fin && x.rx.synced && x.t.sndNxt == Nxt(x.t.iss, x.tx)
    ensures StepNode(x, ev) == Say(x', said) && forall s :: s in said ==> MaySay(x', s)
    ensures Extends(x, x', e) && x'.tx == x.tx.(fin := true)
    ensures e.flg == FIN_ACK && e.data == [] && (x'.t.state == FinWait1 || x'.t.state == LastAck)
  {
    x', said := Quiet(x, ev), Said(x, ev);
    e := Entry(ev.now, ev.now, DEFAULT_RTO, x.t.sndNxt, FIN_ACK, []);
  }

  lemma CloseKeepsNode(x: Node, x': Node, e: Entry)
    requires NodeOk(x) && Extends(x, x', e) && x'.tx == x.tx.(fin := true) && !x.tx.fin && x.rx.synced
    requires e.flg == FIN_ACK && e.data == [] && (x'.t.state == FinWait1 || x'.t.state == LastAck)
    ensures NodeOk(x')
  {
    FinKeepsIssued(x.t.iss, x.tx, x.t.queue, x.out);
    ExtendKeepsNode(x, x', e);
  }

  lemma CloseCore(x: Node, y: Node, x': Node, e: Entry, said: set<Segment>)
    requires PairInv(x, y) && Extends(x, x', e) && x'.tx == x.tx.(fin := true) && !x.tx.fin && x.rx.synced
    requires e.flg == FIN_ACK && e.data == [] && (x'.t.state == FinWait1 || x'.t.state == LastAck)
    requires forall s :: s in said ==> MaySay(x', s)
    ensures PairInv(Say(x', said), y)
  {
    CloseKeepsNode(x, x', e);
    CloseKeepsLinks(x, y, x', e);
    SayKeepsInv(x', y, said);
  }

  lemma CloseDropShape(x: Node, ev: Event)
    requires Enabled(x.t, ev) && ev.Close? && !ClosesWithFin(x.t.state)
    ensures StepNode(x, ev) ==
            if x.t.state == Listen || x.t.state == SynSent
            then x.(t := x.t.(state := if ev.waiters then Closed else Free))
            else x
  {
  }

  lemma CloseKeepsInv(x: Node, y: Node, ev: Event)
    requires PairInv(x, y) && CanStep(x, y, ev) && ev.Close? && Budget(StepNode(x, ev))
    ensures PairInv(StepNode(x, ev), y)
  {
    if ClosesWithFin(x.t.state) {
      CloseWithFinKeepsInv(x, y, ev);
    } else {
      CloseDropKeepsInv(x, y, ev);
    }
  }

  lemma CloseWithFinKeepsInv(x: Node, y: Node, ev: Event)
    requires PairInv(x, y) && Enabled(x.t, ev) && ev.Close? && Budget(StepNode(x, ev)) && ClosesWithFin(x.t.state)
    ensures PairInv(StepNode(x, ev), y)
  {
    CloserFacts(x);
    var x', e, said := CloseShape(x, ev);
    CloseCore(x, y, x', e, said);
  }

  lemma CloserFacts(x: Node)
    requires NodeOk(x) && ClosesWithFin(x.t.state)
    ensures x.tx.began && !x.tx.fin && x.rx.synced && x.t.sndNxt == Nxt(x.t.iss, x.tx)
  {
  }

  lemma CloseDropKeepsInv(x: Node, y: Node, ev: Event)
    requires PairInv(x, y) && Enabled(x.t, ev) && ev.Close? && !ClosesWithFin(x.t.state)
    ensures PairInv(StepNode(x, ev), y)
  {
    CloseDropShape(x, ev);
    GoneKeepsInv(x, y, if ev.waiters then Closed else Free);
  }

  // ---- timer and receive

  lemma TimersKeepNode(x: Node, t': Tcb)
    requires NodeOk(x) && TimersOnly(x.t, t')
    ensures NodeOk(x.(t := t'))
  {
    var q, q' := x.t.queue, t'.queue;
    forall e | e in q'
      ensures exists d :: d in q && SameSlot(d, e)
    {
      var k :| 0 <= k < |q'| && q'[k] == e;
      assert q[k] in q && SameSlot(q[k], e);
    }
    if x.tx.began {
      SameSlotsCoverTwiceSyn(q, q', x.t.iss, x.t.sndUna, x.t.sndNxt);
    }
  }

  lemma TimersKeepLinks(x: Node, y: Node, t': Tcb)
    requires LinkOk(x, y) && LinkOk(y, x) && TimersOnly(x.t, t')
    ensures LinkOk(x.(t := t'), y) && LinkOk(y, x.(t := t'))
  {
  }

  lemma TimersCore(x: Node, y: Node, t': Tcb, said: set<Segment>)
    requires PairInv(x, y) && TimersOnly(x.t, t')
    requires forall s :: s in said ==> exists e :: e in x.t.queue && s == Resend(x.t, e)
    ensures PairInv(Say(x.(t := t'), said), y)
  {
    TimersKeepNode(x, t');
    TimersKeepLinks(x, y, t');
    SayKeepsInv(x.(t := t'), y, said);
  }

  lemma TickShape(x: Node, ev: Event)
    requires Enabled(x.t, ev) && ev.TimerTick?
    ensures var expired := x.t.state == TimeWait && Later(ev.now, x.t.twTimer);
            if x.t.state == Free || (expired && ev.waiters) then StepNode(x, ev) == x
            else if expired then StepNode(x, ev) == x.(t := x.t.(state := Free))
            else
              && var r := EmitFrom(x.t, 0, ev.clock);
              && TimersOnly(x.t, r.t) && StepNode(x, ev) == Say(x.(t := r.t), set s | s in r.out)
              && forall s :: s in r.out ==> exists e :: e in x.t.queue && s == Resend(x.t, e)
  {
    EmitTouchesTimersOnly(x.t, 0, ev.clock);
  }

  lemma TickKeepsInv(x: Node, y: Node, ev: Event)
    requires PairInv(x, y) && CanStep(x, y, ev) && ev.TimerTick?
    ensures PairInv(StepNode(x, ev), y)
  {
    TickShape(x, ev);
    if x.t.state == Free {
    } else if x.t.state == TimeWait && Later(ev.now, x.t.twTimer) {
      GoneKeepsInv(x, y, Free);
    } else {
      var r := EmitFrom(x.t, 0, ev.clock);
      TimersCore(x, y, r.t, set s | s in r.out);
    }
  }

  lemma ReceiveKeepsNode(x: Node, n: nat, x': Node)
    requires NodeOk(x) && MayReceive(x.t.state) && n <= |x.t.buf|
    requires x' == x.(t := x'.t, rx := x.rx.(delivered := x.rx.delivered + x.t.buf[..n]))
    requires x'.t == x.t.(buf := x.t.buf[n..], rcvWnd := x'.t.rcvWnd) && x'.t.rcvWnd == x.t.rcvWnd + n
    ensures NodeOk(x')
  {
    ReceiveKeepsStates(x.t, x.tx, x.rx.synced, x'.t);
    assert RightEdge(x.t) <= RightEdge(x'.t);
  }

  lemma ReceiveKeepsStates(t: Tcb, tx: Tx, synced: bool, t': Tcb)
    requires SendVarsOk(t, tx) && SendStateOk(t, tx) && RcvStateOk(t, synced) && MayReceive(t.state)
    requires t' == t.(buf := t'.buf, rcvWnd := t'.rcvWnd)
    ensures SendVarsOk(t', tx) && SendStateOk(t', tx) && RcvStateOk(t', synced)
  {
  }

  lemma ReceiveKeepsLinks(x: Node, y: Node, n: nat, x': Node)
    requires LinkOk(x, y) && LinkOk(y, x)
    requires x' == x.(t := x'.t, rx := x.rx.(delivered := x'.rx.delivered))
    requires x'.t == x.t.(buf := x'.t.buf, rcvWnd := x'.t.rcvWnd) && x'.t.rcvWnd == x.t.rcvWnd + n
    ensures LinkOk(x', y) && LinkOk(y, x')
  {
    assert StreamOk(y.t.iss, y.tx.stream, x'.t.rcvNxt, x'.rx);
    ForwardKeepsReverse(y, x, x');
  }

  lemma ReceiveShape(x: Node, ev: Event) returns (x': Node, n: nat)
    requires ev.Receive? && MayReceive(x.t.state) && |x.t.buf| + x.t.rcvWnd == BUF_SIZE
    ensures StepNode(x, ev) == x' && n <= |x.t.buf|
    ensures x' == x.(t := x'.t, rx := x.rx.(delivered := x.rx.delivered + x.t.buf[..n]))
    ensures x'.t == x.t.(buf := x.t.buf[n..], rcvWnd := x'.t.rcvWnd) && x'.t.rcvWnd == x.t.rcvWnd + n
  {
    x', n := StepNode(x, ev), Min(ev.size, |x.t.buf|);
  }

  lemma ReceiveCore(x: Node, y: Node, n: nat, x': Node)
    requires PairInv(x, y) && MayReceive(x.t.state) && n <= |x.t.buf|
    requires x' == x.(t := x'.t, rx := x.rx.(delivered := x.rx.delivered + x.t.buf[..n]))
    requires x'.t == x.t.(buf := x.t.buf[n..], rcvWnd := x'.t.rcvWnd) && x'.t.rcvWnd == x.t.rcvWnd + n
    ensures PairInv(x', y)
  {
    ReceiveKeepsNode(x, n, x');
    ReceiveKeepsLinks(x, y, n, x');
  }

  lemma ReceiveKeepsInv(x: Node, y: Node, ev: Event)
    requires PairInv(x, y) && CanStep(x, y, ev) && ev.Receive?
    ensures PairInv(StepNode(x, ev), y)
  {
    if MayReceive(x.t.state) {
      ReceiveTakes(x, y, ev);
    } else {
      ReceiveIgnored(x, ev);
    }
  }

  lemma ReceiveTakes(x: Node, y: Node, ev: Event)
    requires PairInv(x, y) && ev.Receive? && MayReceive(x.t.state)
    ensures PairInv(StepNode(x, ev), y)
  {
    var x', n := ReceiveShape(x, ev);
    ReceiveCore(x, y, n, x');
  }

  lemma ReceiveIgnored(x: Node, ev: Event)
    requires ev.Receive? && !MayReceive(x.t.state)
    ensures StepNode(x, ev) == x
  {
    assert x.rx.delivered + [] == x.rx.delivered;
  }
}
