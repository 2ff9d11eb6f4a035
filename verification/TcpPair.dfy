/**
Two connection blocks joined by a network that may lose, duplicate and reorder. Each
node remembers every segment it ever sent; a delivery picks any of the peer's segments,
any number of times. History variables record what went into and came out of the
sequence space, so that the two sides can be compared.
 */
module TcpPair {
  import opened Words
  import opened Clock
  import opened TcpSpec
  import opened TcpQueue
  import opened TcpLocal

  /** A non-empty slice handed to the network by one iteration of tcp_send. */
  datatype Piece = Piece(seqNo: int, data: seq<Byte>)

  function End(p: Piece): int {
    p.seqNo + |p.data|
  }

  /** Sending history: the bytes sent, how they were cut, whether the FIN went out. */
  datatype Tx = Tx(began: bool, stream: seq<Byte>, pieces: set<Piece>, fin: bool)

  /** Receiving history: accepted text, what tcp_receive returned, whether sequence numbers were skipped. */
  datatype Rx = Rx(synced: bool, texts: seq<Piece>, accepted: seq<Byte>, delivered: seq<Byte>, fin: bool, gap: bool)

  /**
  A released block is zeroed by the code and answers every segment with a reset; the node
  keeps the values it had when it was released, so that they can still be spoken about.
  `stale` records that some acknowledgement advanced SND.UNA, offered less than SND.WND and
  did not refresh it. `held` is a slice that IP refused while a thread waited on the block:
  the block closes but stays, and the slice stays in its queue, though it was never sent.
   */
  datatype Node = Node(t: Tcb, tx: Tx, rx: Rx, out: set<Segment>, stale: bool, held: seq<Byte>)

  function Start(): Node {
    Node(Fresh(), Tx(false, [], {}, false), Rx(false, [], [], [], false, false), {}, false, [])
  }

  /** One past the last byte sent. */
  function Top(iss: int, tx: Tx): int {
    iss + 1 + |tx.stream|
  }

  /** SND.NXT in unbounded arithmetic. */
  function Nxt(iss: int, tx: Tx): int {
    Top(iss, tx) + Bit(tx.fin)
  }

  // ---- steps

  function Settle(t: Tcb, t': Tcb): Tcb {
    if t'.state == Free then t.(state := Free) else t'
  }

  predicate OpensPassively(t: Tcb, s: Segment) {
    t.state == Listen && !s.flg.rst && !s.flg.ack && s.flg.syn
  }

  predicate SynAccepted(t: Tcb, s: Segment) {
    || OpensPassively(t, s)
    || (t.state == SynSent && !s.flg.rst && s.flg.syn && (s.flg.ack ==> t.iss < s.ackNo <= t.sndNxt))
  }

  predicate TakesFin(t: Tcb, s: Segment, env: Env) {
    Reaches(t, s, env) && s.flg.fin
  }

  predicate KeepsWiderWindow(t: Tcb, s: Segment) {
    !WindowGuard(t, s) && s.wnd < t.sndWnd
  }

  /** The acknowledgement advances SND.UNA, but a window wider than the one it offers is kept. */
  predicate OverstatesWindow(t: Tcb, s: Segment) {
    && Synchronised(t.state) && t.state != LastAck && t.state != TimeWait
    && Acceptable(t, s) && !s.flg.rst && !s.flg.syn && s.flg.ack
    && t.sndUna < s.ackNo <= t.sndNxt && KeepsWiderWindow(t, s)
  }

  function TxAfter(x: Node, ev: Event): Tx {
    match ev
    case Arrive(s, _) => x.tx.(began := x.tx.began || OpensPassively(x.t, s))
    case Connect(_, _, ok) => x.tx.(began := ok)
    case Send(data, _) => x.tx.(stream := x.tx.stream + data, pieces := x.tx.pieces + {Piece(x.t.sndNxt, data)})
    case Close(_, _) => x.tx.(fin := x.tx.fin || ClosesWithFin(x.t.state))
    case _ => x.tx
  }

  function RxTakes(rx: Rx, t: Tcb, s: Segment, text: bool, fin: bool): Rx {
    rx.(texts := if text then rx.texts + [Piece(s.seqNo, s.data)] else rx.texts,
        accepted := if text then rx.accepted + s.data else rx.accepted,
        fin := rx.fin || fin,
        gap := rx.gap || ((text || fin) && s.seqNo != t.rcvNxt))
  }

  function RxAfter(x: Node, ev: Event): Rx {
    match ev
    case Arrive(s, env) =>
      if SynAccepted(x.t, s) then x.rx.(synced := true)
      else RxTakes(x.rx, x.t, s, TakesText(x.t, s, env), TakesFin(x.t, s, env))
    case Receive(size) => x.rx.(delivered := x.rx.delivered + Received(x.t, size))
    case _ => x.rx
  }

  /** A segment comes from the peer, and opening happens once. */
  predicate CanStep(x: Node, y: Node, ev: Event) {
    && Enabled(x.t, ev)
    && (ev.Arrive? ==> ev.seg in y.out)
    && (ev.Connect? || ev.ListenCmd? ==> !x.tx.began)
  }

  /** IP refuses a slice while a thread waits on the block, which therefore stays, closed, with the slice queued. */
  predicate HeldRefusal(ev: Event) {
    ev.SendFails? && ev.waiters
  }

  /** The segment's text is copied past the end of the receive buffer. */
  predicate Overruns(t: Tcb, ev: Event) {
    ev.Arrive? && !TextFits(t, ev.seg, ev.env)
  }

  function StepNode(x: Node, ev: Event): Node
    requires Enabled(x.t, ev)
  {
    var r := Apply(x.t, ev);
    Node(Settle(x.t, r.t), TxAfter(x, ev), RxAfter(x, ev), x.out + (set s | s in r.out),
         x.stale || (ev.Arrive? && OverstatesWindow(x.t, ev.seg)),
         if HeldRefusal(ev) then ev.data else x.held)
  }

  /** The node as if its held slice had been sent and lost. */
  function Wide(x: Node): Node {
    if x.held == [] then x
    else x.(t := x.t.(sndNxt := Add32(x.t.sndNxt, |x.held| % TWO_32)),
            tx := x.tx.(stream := x.tx.stream + x.held, pieces := x.tx.pieces + {Piece(x.t.sndNxt, x.held)}),
            held := [])
  }

  /** A slice is held only by a block that is gone, and once opened; all that was sent lies before it. */
  ghost predicate HeldOk(x: Node) {
    x.held != [] ==>
      && Gone(x.t.state) && x.tx.began && !x.tx.fin
      && (forall p :: p in x.tx.pieces ==> End(p) <= x.t.sndNxt)
  }

  // ---- the invariant of one node

  /** The pieces are disjoint slices of the stream. */
  ghost predicate PiecesOk(iss: int, tx: Tx) {
    && (forall p :: p in tx.pieces ==>
          && 0 < |p.data| <= MAX_TEXT
          && iss < p.seqNo && End(p) <= Top(iss, tx)
          && p.data == tx.stream[p.seqNo - iss - 1..End(p) - iss - 1])
    && (forall p, q :: p in tx.pieces && q in tx.pieces ==> p == q || End(p) <= q.seqNo || End(q) <= p.seqNo)
  }

  /** No piece is cut in two at `n`. */
  ghost predicate Whole(pieces: set<Piece>, n: int) {
    forall p :: p in pieces ==> n <= p.seqNo || End(p) <= n
  }

  /** What may be on the wire or in the retransmit queue: a SYN, the FIN, a piece, or a bare ACK. */
  predicate Issued(iss: int, tx: Tx, seqNo: int, flg: Flags, data: seq<Byte>) {
    && tx.began && !flg.rst && (flg.syn || flg.ack)
    && (if flg.syn then seqNo == iss && data == [] && !flg.fin
        else if flg.fin then tx.fin && seqNo == Top(iss, tx) && data == []
        else if data != [] then Piece(seqNo, data) in tx.pieces
        else iss < seqNo <= Nxt(iss, tx))
  }

  ghost predicate QueueIssued(iss: int, tx: Tx, q: seq<Entry>) {
    forall e :: e in q ==> Issued(iss, tx, e.seqNo, e.flg, e.data)
  }

  ghost predicate OutOk(iss: int, tx: Tx, out: set<Segment>) {
    forall s :: s in out && !s.flg.rst ==> Issued(iss, tx, s.seqNo, s.flg, s.data)
  }

  ghost predicate SendVarsOk(t: Tcb, tx: Tx) {
    tx.began ==>
      t.iss < TWO_31 && t.sndNxt == Nxt(t.iss, tx) && t.iss <= t.sndUna <= t.sndNxt
  }

  /** Nothing sent yet. */
  ghost predicate NotBegun(q: seq<Entry>, tx: Tx) {
    q == [] && tx.stream == [] && tx.pieces == {} && !tx.fin
  }

  ghost predicate OnlySyn(q: seq<Entry>, tx: Tx) {
    |q| == 1 && LoneSyn(q[0]) && tx.stream == [] && !tx.fin
  }

  ghost predicate SendStateOk(t: Tcb, tx: Tx) {
    && (Active(t.state) ==> tx.began)
    && (t.state == Listen ==> !tx.began)
    && (t.state == SynSent ==> t.sndUna == t.iss && OnlySyn(t.queue, tx))
    && (t.state == SynReceived ==> tx.stream == [] && !tx.fin)
    && (MaySend(t.state) ==> !tx.fin && t.sndUna > t.iss)
  }

  /** Nothing received yet. */
  ghost predicate NotSynced(rx: Rx) {
    rx.texts == [] && rx.accepted == [] && rx.delivered == [] && !rx.fin && !rx.gap
  }

  /** No entry acknowledges anything. */
  ghost predicate QueueSilent(q: seq<Entry>) {
    forall e :: e in q ==> !e.flg.ack
  }

  /** The window is the part of the buffer that does not count as filled. */
  ghost predicate BufferOk(buf: seq<Byte>, wnd: int) {
    |buf| + wnd == BUF_SIZE
  }

  /** Accepted bytes are either delivered or pending. */
  ghost predicate Accounted(x: Node) {
    x.rx.synced ==> x.rx.accepted == x.rx.delivered + x.t.buf
  }

  ghost predicate RcvStateOk(t: Tcb, synced: bool) {
    && (Synchronised(t.state) ==> synced)
    && (t.state == SynSent || t.state == Listen ==> !synced)
    && (t.state == SynSent ==> t.buf == [] && t.rcvWnd == BUF_SIZE)
  }

  predicate CarriesAck(s: Segment) {
    s.flg.ack && !s.flg.rst
  }

  /** The right edge of the receive window. */
  function RightEdge(t: Tcb): int {
    t.rcvNxt + t.rcvWnd
  }

  /** The right edge a segment offers. */
  function Offer(s: Segment): int {
    s.ackNo + s.wnd
  }

  /** Offered right edges grow with the acknowledgement and never exceed the current one. */
  ghost predicate OffersOk(out: set<Segment>, edge: int) {
    && (forall s :: s in out && CarriesAck(s) ==> Offer(s) <= edge)
    && (forall s, u :: s in out && u in out && CarriesAck(s) && CarriesAck(u) && s.ackNo < u.ackNo ==>
          Offer(s) <= Offer(u))
  }

  ghost predicate NodeOk(x: Node) {
    && PiecesOk(x.t.iss, x.tx) && QueueIssued(x.t.iss, x.tx, x.t.queue) && OutOk(x.t.iss, x.tx, x.out)
    && SendVarsOk(x.t, x.tx) && SendStateOk(x.t, x.tx) && RcvStateOk(x.t, x.rx.synced)
    && (!x.tx.began ==> NotBegun(x.t.queue, x.tx))
    && (x.tx.stream != [] ==> x.t.sndUna > x.t.iss)
    && (if x.rx.synced then x.tx.began && BufferOk(x.t.buf, x.t.rcvWnd)
        else NotSynced(x.rx) && QueueSilent(x.t.queue))
    && (x.tx.began ==> CoversTwiceSyn(x.t.queue, x.t.iss, x.t.sndUna, x.t.sndNxt))
    && OffersOk(x.out, RightEdge(x.t))
  }

  // ---- the invariant of a sender against its receiver

  /** `n` is a point of the sender's sequence space that the receiver has reached. */
  ghost predicate Reached(iss: int, pieces: set<Piece>, synced: bool, rcvNxt: int, n: int) {
    synced && iss < n <= rcvNxt && Whole(pieces, n)
  }

  /** Every acknowledgement on the wire is a point the receiver has reached. */
  ghost predicate AcksOk(iss: int, pieces: set<Piece>, synced: bool, rcvNxt: int, out: set<Segment>) {
    forall s :: s in out && CarriesAck(s) ==> Reached(iss, pieces, synced, rcvNxt, s.ackNo)
  }

  ghost predicate RcvNxtOk(iss: int, tx: Tx, irs: int, rcvNxt: int, rx: Rx) {
    rx.synced ==>
      && tx.began && irs == iss
      && iss < rcvNxt && Whole(tx.pieces, rcvNxt)
      && (if rx.fin then tx.fin && rcvNxt == Nxt(iss, tx) else rcvNxt <= Top(iss, tx))
  }

  /** Accepted text is a strictly increasing choice of the sender's pieces. */
  ghost predicate TextsOk(pieces: set<Piece>, rcvNxt: int, texts: seq<Piece>) {
    && (forall i :: 0 <= i < |texts| ==> texts[i] in pieces && End(texts[i]) <= rcvNxt)
    && (forall i, j :: 0 <= i < j < |texts| ==> End(texts[i]) <= texts[j].seqNo)
  }

  function Concat(ps: seq<Piece>): seq<Byte> {
    if ps == [] then [] else Concat(ps[..|ps| - 1]) + ps[|ps| - 1].data
  }

  /** How far the receiver has advanced through the stream, skipped bytes included. */
  function Passed(iss: int, rcvNxt: int, rx: Rx): int {
    rcvNxt - iss - 1 - Bit(rx.fin)
  }

  ghost predicate StreamOk(iss: int, stream: seq<Byte>, rcvNxt: int, rx: Rx) {
    && rx.accepted == Concat(rx.texts)
    && (rx.synced ==>
          && 0 <= Passed(iss, rcvNxt, rx) <= |stream|
          && (rx.gap ==> |rx.accepted| < Passed(iss, rcvNxt, rx))
          && (!rx.gap ==> rx.accepted == stream[..Passed(iss, rcvNxt, rx)]))
  }

  ghost predicate OffersReach(out: set<Segment>, una: int, edge: int) {
    forall s :: s in out && CarriesAck(s) && s.ackNo > una ==> edge <= Offer(s)
  }

  ghost predicate WindowOk(t: Tcb, tx: Tx, stale: bool, out: set<Segment>, edge: int) {
    tx.began && !stale && t.sndUna > t.iss ==>
      && Top(t.iss, tx) <= t.sndUna + t.sndWnd <= edge
      && OffersReach(out, t.sndUna, t.sndUna + t.sndWnd)
  }

  /** The window bookkeeping can go stale only if the peer has sent data or its FIN. */
  ghost predicate StaleOk(t: Tcb, tx: Tx, stale: bool, peerIss: int, peerTx: Tx) {
    && (stale ==> peerTx.began && Nxt(peerIss, peerTx) > peerIss + 1)
    && (if tx.began then t.wl2 <= t.sndUna else t.wl1 == 0 && t.wl2 == 0)
    && (t.wl1 != 0 ==> peerTx.began && t.wl1 <= Nxt(peerIss, peerTx))
  }

  ghost predicate LinkOk(x: Node, y: Node) {
    && AcksOk(x.t.iss, x.tx.pieces, y.rx.synced, y.t.rcvNxt, y.out)
    && (x.tx.began && x.t.sndUna != x.t.iss ==> Reached(x.t.iss, x.tx.pieces, y.rx.synced, y.t.rcvNxt, x.t.sndUna))
    && RcvNxtOk(x.t.iss, x.tx, y.t.irs, y.t.rcvNxt, y.rx)
    && TextsOk(x.tx.pieces, y.t.rcvNxt, y.rx.texts)
    && StreamOk(x.t.iss, x.tx.stream, y.t.rcvNxt, y.rx)
    && WindowOk(x.t, x.tx, x.stale, y.out, RightEdge(y.t))
    && StaleOk(x.t, x.tx, x.stale, y.t.iss, y.tx)
  }

  ghost predicate PairInv(x: Node, y: Node) {
    NodeOk(x) && NodeOk(y) && LinkOk(x, y) && LinkOk(y, x)
  }

  /** The connection's sequence numbers, and the window above them, stay below 2^32. */
  predicate Budget(x: Node) {
    Nxt(x.t.iss, x.tx) + |x.held| + TWO_16 < TWO_32
  }

  // ---- runs

  datatype Pair = Pair(a: Node, b: Node)

  datatype Move = ByA(ev: Event) | ByB(ev: Event)

  ghost predicate Moves(p: Pair, m: Move, p': Pair) {
    match m
    case ByA(ev) => CanStep(p.a, p.b, ev) && p' == p.(a := StepNode(p.a, ev))
    case ByB(ev) => CanStep(p.b, p.a, ev) && p' == p.(b := StepNode(p.b, ev))
  }

  ghost predicate MoveAt(ps: seq<Pair>, ms: seq<Move>, i: nat)
    requires |ps| == |ms| + 1 && i < |ms|
  {
    Moves(ps[i], ms[i], ps[i + 1])
  }

  /** The hypothesis on the run: neither side uses up its sequence space. */
  ghost predicate IsPairRun(ps: seq<Pair>, ms: seq<Move>) {
    && |ps| == |ms| + 1
    && ps[0] == Pair(Start(), Start())
    && (forall i :: 0 <= i < |ms| ==> MoveAt(ps, ms, i))
    && (forall i :: 0 <= i < |ps| ==> Budget(ps[i].a) && Budget(ps[i].b))
  }

  /** The invariant of one node, with its held slice counted as sent. */
  ghost predicate Sound(x: Node) {
    NodeOk(Wide(x)) && HeldOk(x)
  }

  /** The invariant of two nodes, with their held slices counted as sent. */
  ghost predicate WideInv(x: Node, y: Node) {
    PairInv(Wide(x), Wide(y)) && HeldOk(x) && HeldOk(y)
  }

  ghost predicate InvAt(ps: seq<Pair>, j: nat)
    requires j < |ps|
  {
    WideInv(ps[j].a, ps[j].b)
  }

  ghost predicate SoundAt(ps: seq<Pair>, j: nat)
    requires j < |ps|
  {
    Sound(ps[j].a) && Sound(ps[j].b)
  }

  ghost predicate SoundUpTo(ps: seq<Pair>, k: nat)
    requires k < |ps|
  {
    forall j :: 0 <= j <= k ==> SoundAt(ps, j)
  }

  ghost predicate InvUpTo(ps: seq<Pair>, k: nat)
    requires k < |ps|
  {
    forall j :: 0 <= j <= k ==> InvAt(ps, j)
  }

  ghost predicate NoHeldRefusals(ms: seq<Move>, k: nat)
    requires k <= |ms|
  {
    forall i {:trigger ms[i]} :: 0 <= i < k ==> !HeldRefusal(ms[i].ev)
  }

  predicate OverrunMove(p: Pair, m: Move) {
    match m
    case ByA(ev) => Overruns(p.a.t, ev)
    case ByB(ev) => Overruns(p.b.t, ev)
  }

  predicate OverrunAt(ps: seq<Pair>, ms: seq<Move>, i: nat)
    requires |ps| == |ms| + 1 && i < |ms|
  {
    OverrunMove(ps[i], ms[i])
  }

  ghost predicate NoOverruns(ps: seq<Pair>, ms: seq<Move>, k: nat)
    requires |ps| == |ms| + 1 && k < |ps|
  {
    forall i :: 0 <= i < k ==> !OverrunAt(ps, ms, i)
  }

  ghost predicate AccountedAt(ps: seq<Pair>, j: nat)
    requires j < |ps|
  {
    Accounted(ps[j].a) && Accounted(ps[j].b)
  }

  ghost predicate AccountedUpTo(ps: seq<Pair>, k: nat)
    requires k < |ps|
  {
    forall j :: 0 <= j <= k ==> AccountedAt(ps, j)
  }

  ghost predicate LeakMove(p: Pair, m: Move) {
    match m
    case ByA(ev) => Enabled(p.a.t, ev) && Leaks(p.a.t, ev)
    case ByB(ev) => Enabled(p.b.t, ev) && Leaks(p.b.t, ev)
  }

  ghost predicate LeakAt(ps: seq<Pair>, ms: seq<Move>, i: nat)
    requires |ps| == |ms| + 1 && i < |ms|
  {
    LeakMove(ps[i], ms[i])
  }

  /** No held slice is put on the wire. */
  ghost predicate NoLeaks(ps: seq<Pair>, ms: seq<Move>, k: nat)
    requires |ps| == |ms| + 1 && k < |ps|
  {
    forall i :: 0 <= i < k ==> !LeakAt(ps, ms, i)
  }

  // ---- what the theorems say of a state

  ghost predicate AckSafe(x: Node, y: Node) {
    y.rx.synced ==> x.t.iss <= x.t.sndUna <= y.t.rcvNxt <= x.t.sndNxt
  }

  /** Every payload ever put on the wire is the slice of the stream at SEQ - ISS - 1. */
  ghost predicate WireCarriesStream(x: Node) {
    forall s :: s in x.out && !s.flg.rst && s.data != [] ==>
      var at := s.seqNo - x.t.iss - 1;
      0 <= at && at + |s.data| <= |x.tx.stream| && s.data == x.tx.stream[at..at + |s.data|]
  }

  ghost predicate QueueExact(x: Node) {
    x.tx.began ==> CoversTwiceSyn(x.t.queue, x.t.iss, x.t.sndUna, x.t.sndNxt)
  }

  /** The accepted text is some of the sender's pieces, in strictly increasing order. */
  ghost predicate TextsArePieces(x: Node, y: Node) {
    var texts := y.rx.texts;
    && (forall i :: 0 <= i < |texts| ==> texts[i] in x.tx.pieces)
    && (forall i, j :: 0 <= i < j < |texts| ==> texts[i].seqNo < texts[j].seqNo)
  }

  /** What `y` has of the stream of `x`. */
  ghost predicate Follows(x: Node, y: Node, bytes: seq<Byte>) {
    y.rx.synced ==>
      && TextsArePieces(x, y) && bytes == Concat(y.rx.texts)
      && (!y.rx.gap ==> bytes <= x.tx.stream)
      && (!y.rx.gap && y.rx.fin ==> bytes == x.tx.stream)
      && (y.rx.gap <==> |bytes| < Passed(x.t.iss, y.t.rcvNxt, y.rx))
  }

  ghost predicate WindowSafe(x: Node, y: Node) {
    && (x.tx.began && x.t.sndUna > x.t.iss ==>
          && x.t.sndUna + x.t.sndWnd <= RightEdge(y.t)
          && Top(x.t.iss, x.tx) - x.t.sndUna <= x.t.sndWnd)
    && (MaySend(x.t.state) ==> Cap(x.t) == x.t.sndWnd - (x.t.sndNxt - x.t.sndUna))
    && (forall s, env :: s in x.out ==> TextFits(y.t, s, env))
  }

  ghost predicate Grows(x: Node, x': Node) {
    x.rx.synced ==> x'.rx.synced && x.t.rcvNxt <= x'.t.rcvNxt && RightEdge(x.t) <= RightEdge(x'.t)
  }

  /** A held slice of `x` has been on the wire. */
  ghost predicate Leaked(x: Node) {
    exists s :: s in x.out && !s.flg.rst && s.data != [] && s.seqNo >= x.t.sndNxt
  }

  /** `y` has accepted the held slice of `x`. */
  predicate TookHeld(x: Node, y: Node) {
    x.held != [] && Piece(x.t.sndNxt, x.held) in y.rx.texts
  }

  /** Neither data nor the FIN has been on the wire. */
  ghost predicate Silent(x: Node) {
    x.tx.stream == [] && !x.tx.fin && !Leaked(x)
  }

  // ---- further facts about every state

  /** Before the FIN, RCV.NXT is where the last accepted text ended. */
  predicate EndOk(x: Node) {
    x.rx.synced && !x.rx.fin ==>
      x.t.rcvNxt == if x.rx.texts == [] then x.t.irs + 1 else End(x.rx.texts[|x.rx.texts| - 1])
  }

  ghost predicate Sent(out: set<Segment>, p: Piece) {
    exists s :: s in out && !s.flg.rst && s.data != [] && Piece(s.seqNo, s.data) == p
  }

  /** What `y` accepted, `x` had put on the wire. */
  ghost predicate TextsSent(x: Node, y: Node) {
    forall i :: 0 <= i < |y.rx.texts| ==> Sent(x.out, y.rx.texts[i])
  }

  /** Segments without text lie at or below SND.NXT. */
  ghost predicate BareBelow(x: Node) {
    forall s :: s in x.out && !s.flg.rst && s.data == [] ==> s.seqNo <= x.t.sndNxt
  }

  /** While the peer is silent, so are its sequence numbers. */
  ghost predicate SilentOk(x: Node, y: Node) {
    Silent(y) ==> !x.stale && (x.t.wl1 != 0 ==> y.tx.began && x.t.wl1 <= y.t.iss + 1)
  }

  ghost predicate HistoryOk(x: Node, y: Node) {
    EndOk(x) && TextsSent(x, y) && BareBelow(x) && SilentOk(x, y)
  }

  ghost predicate HistoryAt(ps: seq<Pair>, j: nat)
    requires j < |ps|
  {
    HistoryOk(ps[j].a, ps[j].b) && HistoryOk(ps[j].b, ps[j].a)
  }

  /** The node on one side, and the node it talks to. */
  function Me(p: Pair, byA: bool): Node {
    if byA then p.a else p.b
  }

  function Peer(p: Pair, byA: bool): Node {
    if byA then p.b else p.a
  }

  /** The side reads from its buffer, with room for at least one byte. */
  predicate ReadsAt(ms: seq<Move>, byA: bool, i: nat)
    requires i < |ms|
  {
    (if byA then ms[i].ByA? else ms[i].ByB?) && ms[i].ev.Receive? && ms[i].ev.size > 0
  }

  /** From state `k` to state `n` the side does nothing but read, and the other side nothing. */
  ghost predicate ReadsFrom(ms: seq<Move>, byA: bool, k: nat, n: nat)
    requires k <= n <= |ms|
  {
    forall i :: k <= i < n ==> ReadsAt(ms, byA, i)
  }

  ghost predicate HistoryUpTo(ps: seq<Pair>, k: nat)
    requires k < |ps|
  {
    forall j :: 0 <= j <= k ==> HistoryAt(ps, j)
  }

  /** Neither node holds a slice. */
  predicate NothingHeldAt(ps: seq<Pair>, j: nat)
    requires j < |ps|
  {
    ps[j].a.held == [] && ps[j].b.held == []
  }

  ghost predicate LeakedAt(ps: seq<Pair>, j: nat)
    requires j < |ps|
  {
    Leaked(ps[j].a) || Leaked(ps[j].b)
  }
}
