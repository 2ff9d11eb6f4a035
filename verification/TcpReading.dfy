/**
Reading to the end: over every run of two nodes, a side that keeps reading is handed all the
text it accepted, and after the peer's FIN that is the peer's whole stream.
 */
module TcpReading {
  import opened Words
  import opened Clock
  import opened TcpSpec
  import opened TcpLocal
  import opened TcpPair
  import opened TcpPairWide
  import opened TcpHistory
  import opened TcpConnection
  import opened TcpCommands

  /** `y` is `x` after some of its pending bytes were handed out, at least `least` of them if there were so many. */
  ghost predicate HandedOut(x: Node, y: Node, least: nat) {
    && y == x.(t := x.t.(buf := y.t.buf, rcvWnd := y.t.rcvWnd), rx := x.rx.(delivered := y.rx.delivered))
    && y.rx.delivered + y.t.buf == x.rx.delivered + x.t.buf
    && |y.t.buf| <= if |x.t.buf| <= least then 0 else |x.t.buf| - least
  }

  lemma OneRead(x: Node, size: nat)
    requires Readable(x.t.state) && |x.t.buf| + x.t.rcvWnd == BUF_SIZE && size > 0
    ensures HandedOut(x, StepNode(x, Receive(size)), 1)
  {
    ReceiveTakesFront(x.t, size);
    var y, got := StepNode(x, Receive(size)), Received(x.t, size);
    assert (set s | s in Apply(x.t, Receive(size)).out) == {};
    assert (x.rx.delivered + got) + y.t.buf == x.rx.delivered + (got + y.t.buf);
  }

  lemma ReadsCompose(x: Node, y: Node, z: Node, n: nat)
    requires HandedOut(x, y, n) && HandedOut(y, z, 1)
    ensures HandedOut(x, z, n + 1)
  {
  }

  lemma SoundBuffer(x: Node)
    requires Sound(x) && Readable(x.t.state)
    ensures |x.t.buf| + x.t.rcvWnd == BUF_SIZE && x.rx.synced
  {
  }

  lemma ReadMove(p: Pair, m: Move, p': Pair, byA: bool)
    requires Moves(p, m, p') && (if byA then m.ByA? else m.ByB?) && m.ev.Receive? && m.ev.size > 0
    requires Sound(Me(p, byA)) && Readable(Me(p, byA).t.state)
    ensures HandedOut(Me(p, byA), Me(p', byA), 1) && Peer(p', byA) == Peer(p, byA)
  {
    SoundBuffer(Me(p, byA));
    OneRead(Me(p, byA), m.ev.size);
  }

  lemma ReadStepAt(ps: seq<Pair>, ms: seq<Move>, byA: bool, n: nat)
    requires IsPairRun(ps, ms) && 0 < n < |ps| && ReadsAt(ms, byA, n - 1) && Readable(Me(ps[n - 1], byA).t.state)
    ensures HandedOut(Me(ps[n - 1], byA), Me(ps[n], byA), 1) && Peer(ps[n], byA) == Peer(ps[n - 1], byA)
  {
    StepIsSound(ps, ms, n);
    RunMoves(ps, ms, n);
    ReadMove(ps[n - 1], ms[n - 1], ps[n], byA);
  }

  /** Reading moves bytes from the buffer to the reader, in order, and touches nothing else. */
  lemma {:induction false} ReadsHandOut(ps: seq<Pair>, ms: seq<Move>, byA: bool, k: nat, n: nat)
    requires IsPairRun(ps, ms) && k <= n < |ps| && ReadsFrom(ms, byA, k, n) && Readable(Me(ps[k], byA).t.state)
    ensures HandedOut(Me(ps[k], byA), Me(ps[n], byA), n - k) && Peer(ps[n], byA) == Peer(ps[k], byA)
    decreases n
  {
    if k < n {
      ReadsHandOut(ps, ms, byA, k, n - 1);
      assert ReadsAt(ms, byA, n - 1);
      ReadStepAt(ps, ms, byA, n);
      ReadsCompose(Me(ps[k], byA), Me(ps[n - 1], byA), Me(ps[n], byA), n - 1 - k);
    }
  }

  lemma SideAccounts(ps: seq<Pair>, ms: seq<Move>, byA: bool, k: nat)
    requires IsPairRun(ps, ms) && k < |ps| && NoOverruns(ps, ms, k) && Readable(Me(ps[k], byA).t.state)
    ensures var x := Me(ps[k], byA); x.rx.synced && x.rx.accepted == x.rx.delivered + x.t.buf
  {
    RunIsSound(ps, ms, k);
    SoundBuffer(Me(ps[k], byA));
    RunAccounts(ps, ms, k);
  }

  lemma RunAccounts(ps: seq<Pair>, ms: seq<Move>, k: nat)
    requires IsPairRun(ps, ms) && k < |ps| && NoOverruns(ps, ms, k)
    ensures Accounted(ps[k].a) && Accounted(ps[k].b)
  {
    AccountedIff(ps, ms, k);
    assert AccountedAt(ps, k);
  }

  lemma SideFollows(ps: seq<Pair>, ms: seq<Move>, byA: bool, k: nat)
    requires IsPairRun(ps, ms) && k < |ps| && !TookHeld(Peer(ps[k], byA), Me(ps[k], byA))
    ensures Follows(Peer(ps[k], byA), Me(ps[k], byA), Me(ps[k], byA).rx.accepted)
  {
    StreamDelivery(ps, ms, k);
  }

  /**
  In every run: a side that, in one of the four states that read, makes as many calls of
  tcp_receive as bytes are pending, each with room for a byte or more, has been handed all
  the text it accepted, no copy having overrun its buffer. If the peer's FIN is in, every
  accepted segment began at RCV.NXT and no held slice was accepted, that is the whole stream
  of the peer.
   */
  lemma ReadToTheEnd(ps: seq<Pair>, ms: seq<Move>, byA: bool, k: nat, n: nat)
    requires IsPairRun(ps, ms) && k <= n < |ps| && ReadsFrom(ms, byA, k, n)
    requires Me(ps[k], byA).t.state in {Established, FinWait1, FinWait2, CloseWait} && NoOverruns(ps, ms, k)
    requires n - k >= |Me(ps[k], byA).t.buf|
    ensures var x, y := Me(ps[n], byA), Peer(ps[n], byA);
            && x.t.buf == [] && x.rx.delivered == x.rx.accepted == Me(ps[k], byA).rx.accepted
            && (x.rx.fin && !x.rx.gap && !TookHeld(y, x) ==> x.rx.delivered == y.tx.stream)
  {
    ReadsHandOut(ps, ms, byA, k, n);
    SideAccounts(ps, ms, byA, k);
    if !TookHeld(Peer(ps[n], byA), Me(ps[n], byA)) {
      SideFollows(ps, ms, byA, n);
    }
  }
}
