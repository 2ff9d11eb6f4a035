/**
What two nodes have said and heard, held slices included: where RCV.NXT stands, that text
is accepted only after it was sent, and when a held slice has been on the wire.
 */
module TcpHistory {
  import opened Words
  import opened Clock
  import opened TcpSpec
  import opened TcpQueue
  import opened TcpLocal
  import opened TcpPair
  import opened TcpPairSteps
  import opened TcpPairArrive
  import opened TcpPairWide

  // ---- a block that is gone

  ghost predicate Resent(t: Tcb, ev: Event, s: Segment) {
    ev.TimerTick? && exists e :: e in t.queue && s == Resend(t, e)
  }

  /** Only the timers of a node that is gone move, and it says nothing but resets and resends. */
  lemma GoneFrame(x: Node, ev: Event)
    requires Gone(x.t.state) && Enabled(x.t, ev) && !ev.Connect? && !ev.ListenCmd?
    ensures var x' := StepNode(x, ev);
            && x' == x.(t := x'.t, out := x'.out)
            && x'.t == x.t.(state := x'.t.state, queue := x'.t.queue)
            && (forall s :: s in x'.out ==> s in x.out || s.flg.rst || Resent(x.t, ev, s))
  {
    GoneKeepsHistory(x, ev);
    if ev.TimerTick? {
      TickShape(x, ev);
    }
  }

  // ---- held slices

  lemma HeldFacts(x: Node)
    requires Sound(x) && x.held != []
    ensures x.t.sndNxt == Top(x.t.iss, x.tx) == Nxt(x.t.iss, x.tx)
    ensures Wide(x).t.sndNxt == x.t.sndNxt + |x.held| == Top(x.t.iss, Wide(x).tx)
  {
  }

  /** Any other piece lies below SND.NXT. */
  lemma OtherPieces(x: Node, p: Piece)
    requires Sound(x) && p in Wide(x).tx.pieces && (x.held != [] ==> p != Piece(x.t.sndNxt, x.held))
    ensures p in x.tx.pieces && End(p) <= x.t.sndNxt
  {
    if x.held != [] {
      HeldFacts(x);
      assert Piece(x.t.sndNxt, x.held) in Wide(x).tx.pieces;
    }
  }

  lemma HeldIsNew(x: Node)
    requires Sound(x) && x.held != []
    ensures Piece(x.t.sndNxt, x.held) !in x.tx.pieces
  {
  }

  lemma WireSegment(x: Node, s: Segment)
    requires NodeOk(x) && s in x.out && !s.flg.rst
    ensures x.tx.began && x.t.iss <= s.seqNo <= x.t.sndNxt && (!s.flg.syn ==> x.t.iss < s.seqNo)
    ensures s.data != [] ==> Piece(s.seqNo, s.data) in x.tx.pieces && s.seqNo < x.t.sndNxt
    ensures s.flg.syn || s.flg.fin ==> s.data == []
  {
    assert Issued(x.t.iss, x.tx, s.seqNo, s.flg, s.data);
    IssuedBounds(x.t.iss, x.tx, s);
    if s.data != [] {
      assert Piece(s.seqNo, s.data) in x.tx.pieces;
    }
  }

  lemma NothingHeld(x: Node)
    requires NodeOk(x)
    ensures !Leaked(x) && BareBelow(x)
  {
    forall s | s in x.out && !s.flg.rst
      ensures s.seqNo <= x.t.sndNxt && (s.data != [] ==> s.seqNo < x.t.sndNxt)
    {
      WireSegment(x, s);
    }
  }

  lemma SliceAt(x: Node, p: Piece)
    requires Sound(x) && p in x.tx.pieces && End(p) <= x.t.sndNxt
    ensures var at := p.seqNo - x.t.iss - 1;
            0 <= at && at + |p.data| <= |x.tx.stream| && p.data == x.tx.stream[at..at + |p.data|]
  {
    var at := p.seqNo - x.t.iss - 1;
    assert p in Wide(x).tx.pieces;
    if x.held != [] {
      HeldFacts(x);
      SliceOfPrefix(x.tx.stream, x.held, at, at + |p.data|);
    }
  }

  lemma UnleakedIsSlice(x: Node, s: Segment)
    requires Sound(x) && s in x.out && !s.flg.rst && s.data != [] && s.seqNo < x.t.sndNxt
    ensures var at := s.seqNo - x.t.iss - 1;
            0 <= at && at + |s.data| <= |x.tx.stream| && s.data == x.tx.stream[at..at + |s.data|]
  {
    WireSegment(Wide(x), s);
    OtherPieces(x, Piece(s.seqNo, s.data));
    SliceAt(x, Piece(s.seqNo, s.data));
  }

  lemma LeakedIsNoSlice(x: Node, s: Segment)
    requires Sound(x) && s in x.out && !s.flg.rst && s.data != [] && s.seqNo >= x.t.sndNxt
    ensures s.seqNo - x.t.iss - 1 >= |x.tx.stream|
  {
    WireSegment(Wide(x), s);
    if x.held != [] {
      HeldFacts(x);
    }
  }

  /** Every payload ever sent is a slice of the stream exactly if no held slice has been on the wire. */
  lemma CarriesStreamIff(x: Node)
    requires Sound(x)
    ensures WireCarriesStream(x) <==> !Leaked(x)
  {
    if Leaked(x) {
      var s :| s in x.out && !s.flg.rst && s.data != [] && s.seqNo >= x.t.sndNxt;
      LeakedIsNoSlice(x, s);
    } else {
      forall s | s in x.out && !s.flg.rst && s.data != []
        ensures var at := s.seqNo - x.t.iss - 1;
                0 <= at && at + |s.data| <= |x.tx.stream| && s.data == x.tx.stream[at..at + |s.data|]
      {
        UnleakedIsSlice(x, s);
      }
    }
  }

  // ---- what a step adds to the wire

  lemma ResentIsIssued(x: Node, ev: Event, s: Segment)
    requires Sound(x) && Resent(x.t, ev, s)
    ensures !s.flg.rst && (s.data == [] ==> s.seqNo <= x.t.sndNxt)
  {
    var e :| e in x.t.queue && s == Resend(x.t, e);
    assert Issued(x.t.iss, Wide(x).tx, e.seqNo, e.flg, e.data);
    EntriesAreLong(Wide(x).t.queue, x.t.iss, x.t.sndUna, Wide(x).t.sndNxt, e);
  }

  lemma EntriesAreLong(q: seq<Entry>, iss: int, a: int, b: int, e: Entry)
    requires CoversTwiceSyn(q, iss, a, b) && e in q
    ensures EntryLen(e) > 0
  {
    if Covers(q, a, b) {
      CoversBounds(q, a, b);
    } else {
      CoversBounds(q[1..], a, b);
    }
  }

  lemma HeldGrows(x: Node, ev: Event)
    requires HeldOk(x) && Enabled(x.t, ev)
    ensures StepNode(x, ev).held == [] <==> x.held == [] && !HeldRefusal(ev)
  {
  }

  lemma RefusalSaysNothing(x: Node, ev: Event)
    requires Enabled(x.t, ev) && HeldRefusal(ev)
    ensures StepNode(x, ev).out == x.out && StepNode(x, ev).t.sndNxt == x.t.sndNxt
  {
  }

  lemma StepKeepsBare(x: Node, y: Node, ev: Event)
    requires CanStep(x, y, ev) && Sound(x) && Sound(StepNode(x, ev)) && BareBelow(x)
    ensures BareBelow(StepNode(x, ev))
  {
    var x' := StepNode(x, ev);
    HeldGrows(x, ev);
    if x'.held == [] {
      NothingHeld(x');
    } else if HeldRefusal(ev) {
      RefusalSaysNothing(x, ev);
    } else {
      GoneFrame(x, ev);
      forall s | s in x'.out && !s.flg.rst && s.data == []
        ensures s.seqNo <= x'.t.sndNxt
      {
        if s !in x.out {
          ResentIsIssued(x, ev, s);
        }
      }
    }
  }

  lemma TickSays(x: Node, ev: Event, s: Segment)
    requires Enabled(x.t, ev) && ev.TimerTick? && s in Apply(x.t, ev).out
    ensures s in StepNode(x, ev).out && StepNode(x, ev).t.sndNxt == x.t.sndNxt && Resent(x.t, ev, s)
  {
    TickShape(x, ev);
  }

  lemma LeaksMeansLeaked(x: Node, ev: Event)
    requires Sound(x) && Enabled(x.t, ev) && Leaks(x.t, ev)
    ensures Leaked(StepNode(x, ev))
  {
    var s :| s in Apply(x.t, ev).out && s.data != [] && s.seqNo >= x.t.sndNxt;
    TickSays(x, ev, s);
    ResentIsIssued(x, ev, s);
  }

  lemma GoneLeaks(x: Node, ev: Event)
    requires Gone(x.t.state) && Enabled(x.t, ev) && !ev.Connect? && !ev.ListenCmd?
    ensures Leaked(StepNode(x, ev)) ==> Leaked(x) || Leaks(x.t, ev)
    ensures Leaked(x) ==> Leaked(StepNode(x, ev))
  {
    var x' := StepNode(x, ev);
    GoneFrame(x, ev);
    if Leaked(x') && !Leaked(x) {
      var s :| s in x'.out && !s.flg.rst && s.data != [] && s.seqNo >= x'.t.sndNxt;
      assert s in Apply(x.t, ev).out;
    }
  }

  /** A held slice has been on the wire exactly once some timer pass has put it there. */
  lemma LeakedIff(x: Node, y: Node, ev: Event)
    requires CanStep(x, y, ev) && Sound(x) && Sound(StepNode(x, ev))
    ensures Leaked(StepNode(x, ev)) <==> Leaked(x) || Leaks(x.t, ev)
  {
    if Leaks(x.t, ev) {
      LeaksMeansLeaked(x, ev);
    } else {
      HeldGrows(x, ev);
      if x.held == [] {
        NothingHeld(x);
        if HeldRefusal(ev) {
          RefusalSaysNothing(x, ev);
        } else {
          NothingHeld(StepNode(x, ev));
        }
      } else {
        GoneLeaks(x, ev);
      }
    }
  }

  // ---- text is accepted only after it was sent

  lemma TextsGrow(x: Node, ev: Event)
    requires Enabled(x.t, ev)
    ensures var texts := StepNode(x, ev).rx.texts;
            || texts == x.rx.texts
            || (&& ev.Arrive? && !ev.seg.flg.rst && ev.seg.data != []
                && texts == x.rx.texts + [Piece(ev.seg.seqNo, ev.seg.data)])
  {
  }

  lemma StepKeepsSent(x: Node, y: Node, ev: Event)
    requires CanStep(x, y, ev) && TextsSent(x, y) && TextsSent(y, x)
    ensures TextsSent(StepNode(x, ev), y) && TextsSent(y, StepNode(x, ev))
  {
    var x' := StepNode(x, ev);
    forall i | 0 <= i < |y.rx.texts|
      ensures Sent(x'.out, y.rx.texts[i])
    {
      assert Sent(x.out, y.rx.texts[i]);
    }
    TextsGrow(x, ev);
    forall i | 0 <= i < |x'.rx.texts|
      ensures Sent(y.out, x'.rx.texts[i])
    {
      if i < |x.rx.texts| {
        assert Sent(y.out, x.rx.texts[i]);
      } else {
        assert ev.seg in y.out;
      }
    }
  }

  /** An accepted held slice has been on the wire. */
  lemma TookHeldMeansLeaked(x: Node, y: Node)
    requires TextsSent(x, y) && TookHeld(x, y)
    ensures Leaked(x)
  {
    var i :| 0 <= i < |y.rx.texts| && y.rx.texts[i] == Piece(x.t.sndNxt, x.held);
    assert Sent(x.out, y.rx.texts[i]);
  }

  // ---- deliveries

  /** An accepted FIN or text starts at or after RCV.NXT. */
  ghost predicate AheadOrBare(x: Node, s: Segment, env: Env)
    requires Reaches(x.t, s, env)
  {
    && Synchronised(AfterAck(x, s, env).t.state) && AfterAck(x, s, env).t.state != SynReceived
    && (s.flg.fin ==> s.data == [] && x.t.rcvNxt <= s.seqNo && Add32(s.seqNo, 1) == s.seqNo + 1)
    && (TakesText(x.t, s, env) ==>
          !s.flg.fin && x.t.rcvNxt <= s.seqNo && Add32(s.seqNo, SegLen(s)) == s.seqNo + |s.data|)
  }

  lemma DeliveriesAreAhead(x: Node, y: Node, s: Segment, env: Env)
    requires PairInv(x, y) && Budget(y) && s in y.out && Reaches(x.t, s, env)
    ensures AheadOrBare(x, s, env)
  {
    AckInRange(x, y, s);
    AckShape(x, s, env);
    if s.flg.fin {
      AcceptedFinIsNew(x, y, s);
    } else if TakesText(x.t, s, env) {
      AcceptedTextIsAhead(x, y, s);
    }
  }

  lemma DeliveryGrows(x: Node, ev: Event)
    requires Enabled(x.t, ev) && ev.Arrive? && Reaches(x.t, ev.seg, ev.env) && AheadOrBare(x, ev.seg, ev.env)
    ensures Grows(x, StepNode(x, ev))
  {
    AfterAckFrame(x, ev.seg, ev.env);
    if ev.seg.flg.fin {
      FinShape(x, ev);
    } else if TakesText(x.t, ev.seg, ev.env) {
      TextShape(x, ev);
    } else {
      PlainShape(x, ev);
    }
  }

  lemma CommandGrows(x: Node, ev: Event)
    requires Enabled(x.t, ev) && !ev.Arrive? && !ev.TimerTick? && !ev.Connect?
    requires x.rx.synced && |x.t.buf| + x.t.rcvWnd == BUF_SIZE
    ensures Grows(x, StepNode(x, ev))
  {
  }

  lemma BystanderGrows(x: Node, ev: Event)
    requires Enabled(x.t, ev) && ev.Arrive? && !Reaches(x.t, ev.seg, ev.env) && x.rx.synced
    requires x.t.state != SynSent && x.t.state != Listen
    ensures Grows(x, StepNode(x, ev))
  {
  }

  lemma StepGrows(x: Node, y: Node, ev: Event)
    requires PairInv(x, y) && CanStep(x, y, ev) && Budget(y)
    ensures Grows(x, StepNode(x, ev))
  {
    if x.rx.synced {
      if ev.Arrive? {
        if Reaches(x.t, ev.seg, ev.env) {
          DeliveriesAreAhead(x, y, ev.seg, ev.env);
          DeliveryGrows(x, ev);
        } else {
          BystanderGrows(x, ev);
        }
      } else if ev.TimerTick? {
        TickShape(x, ev);
      } else {
        CommandGrows(x, ev);
      }
    }
  }

  // ---- RCV.NXT is where the last accepted text ended

  lemma DeliveryEnds(x: Node, ev: Event)
    requires Enabled(x.t, ev) && ev.Arrive? && Reaches(x.t, ev.seg, ev.env) && AheadOrBare(x, ev.seg, ev.env)
    requires EndOk(x)
    ensures EndOk(StepNode(x, ev))
  {
    AfterAckFrame(x, ev.seg, ev.env);
    if ev.seg.flg.fin {
      FinShape(x, ev);
    } else if TakesText(x.t, ev.seg, ev.env) {
      TextShape(x, ev);
    } else {
      PlainShape(x, ev);
    }
  }

  lemma SyncEnds(x: Node, y: Node, ev: Event)
    requires Enabled(x.t, ev) && ev.Arrive? && ev.seg in y.out && SynAccepted(x.t, ev.seg) && NotSynced(x.rx)
    requires OutOk(y.t.iss, y.tx, y.out) && SendVarsOk(y.t, y.tx)
    ensures EndOk(StepNode(x, ev))
  {
    assert Issued(y.t.iss, y.tx, ev.seg.seqNo, ev.seg.flg, ev.seg.data);
  }

  lemma BystanderEnds(x: Node, ev: Event)
    requires Enabled(x.t, ev) && ev.Arrive? && !Reaches(x.t, ev.seg, ev.env) && !SynAccepted(x.t, ev.seg) && EndOk(x)
    ensures EndOk(StepNode(x, ev))
  {
  }

  lemma CommandEnds(x: Node, ev: Event)
    requires Enabled(x.t, ev) && !ev.Arrive? && EndOk(x)
    requires ev.Connect? ==> !x.rx.synced
    ensures EndOk(StepNode(x, ev))
  {
    if ev.TimerTick? {
      TickShape(x, ev);
    }
  }

  lemma OpenStepEnds(x: Node, y: Node, ev: Event)
    requires PairInv(x, y) && CanStep(x, y, ev) && Budget(y) && EndOk(x)
    ensures EndOk(StepNode(x, ev))
  {
    if !ev.Arrive? {
      CommandEnds(x, ev);
    } else if Reaches(x.t, ev.seg, ev.env) {
      DeliveriesAreAhead(x, y, ev.seg, ev.env);
      DeliveryEnds(x, ev);
    } else if SynAccepted(x.t, ev.seg) {
      SyncEnds(x, y, ev);
    } else {
      BystanderEnds(x, ev);
    }
  }

  /** A node that holds nothing is its own wide form. */
  lemma HoldsNothing(x: Node, y: Node, ev: Event)
    requires WideInv(x, y) && CanStep(x, y, ev) && Budget(y) && x.held == []
    ensures PairInv(x, Wide(y)) && CanStep(x, Wide(y), ev) && Budget(Wide(y))
  {
    WideBudget(y);
  }

  lemma HolderFrame(x: Node, y: Node, ev: Event)
    requires HeldOk(x) && CanStep(x, y, ev) && x.held != []
    ensures StepNode(x, ev).rx == x.rx && StepNode(x, ev).t.rcvNxt == x.t.rcvNxt
    ensures StepNode(x, ev).t.rcvWnd == x.t.rcvWnd && StepNode(x, ev).t.irs == x.t.irs
  {
    GoneFrame(x, ev);
  }

  lemma StepKeepsEnd(x: Node, y: Node, ev: Event)
    requires WideInv(x, y) && CanStep(x, y, ev) && Budget(y) && EndOk(x)
    ensures EndOk(StepNode(x, ev))
  {
    if x.held == [] {
      HoldsNothing(x, y, ev);
      OpenStepEnds(x, Wide(y), ev);
    } else {
      HolderFrame(x, y, ev);
    }
  }

  // ---- a silent peer

  lemma SilentSegment(y: Node, s: Segment)
    requires Sound(y) && BareBelow(y) && Silent(y) && s in y.out && !s.flg.rst
    ensures y.tx.began && s.data == [] && !s.flg.fin && s.seqNo <= y.t.iss + 1
    ensures !s.flg.syn ==> s.seqNo == y.t.iss + 1
  {
    WireSegment(Wide(y), s);
    if y.held != [] {
      HeldFacts(y);
    }
    if s.data != [] {
      OtherPieces(y, Piece(s.seqNo, s.data));
      assert false;
    }
    assert Issued(y.t.iss, Wide(y).tx, s.seqNo, s.flg, s.data);
  }

  lemma TextAndFinKeepWindow(t: Tcb, s: Segment, env: Env)
    ensures var t' := ProcessTextAndFin(t, s, env).t; t'.iss == t.iss && t'.wl1 == t.wl1
  {
    var t1 := ProcessText(t, s).t;
    assert t1.iss == t.iss && t1.wl1 == t.wl1;
  }

  /** SND.WL1 is the sequence number of a segment that arrived, and ISS stays. */
  predicate Remembers(t: Tcb, s: Segment, t': Tcb) {
    t'.state == Free || (t'.iss == t.iss && (t'.wl1 == t.wl1 || (!s.flg.rst && t'.wl1 == s.seqNo)))
  }

  lemma ArrivalRemembers(t: Tcb, s: Segment, env: Env)
    ensures t.state != Listen ==> Remembers(t, s, Arrives(t, s, env).t)
    ensures t.state == Listen ==> Arrives(t, s, env).t.wl1 == t.wl1
  {
    if Reaches(t, s, env) {
      AckRemembers(t, s, env);
      TextAndFinKeepWindow(ProcessAck(t, s, env).t, s, env);
    } else if Synchronised(t.state) {
      StoppedRemembers(t, s, env);
    }
  }

  lemma AckRemembers(t: Tcb, s: Segment, env: Env)
    requires Reaches(t, s, env)
    ensures Remembers(t, s, ProcessAck(t, s, env).t) && ProcessAck(t, s, env).t.state != Free
  {
  }

  lemma StoppedRemembers(t: Tcb, s: Segment, env: Env)
    requires Synchronised(t.state) && !Reaches(t, s, env)
    ensures Remembers(t, s, ArrivesSynchronised(t, s, env).t)
  {
  }

  lemma WindowMemory(x: Node, ev: Event)
    requires Enabled(x.t, ev)
    ensures StepNode(x, ev).t.wl1 == x.t.wl1 ||
            (ev.Arrive? && !ev.seg.flg.rst && StepNode(x, ev).t.wl1 == ev.seg.seqNo)
  {
    if ev.Arrive? {
      ArrivalRemembers(x.t, ev.seg, ev.env);
    } else if ev.TimerTick? {
      TickShape(x, ev);
    }
  }

  lemma SilentKeepsFresh(x: Node, y: Node, s: Segment)
    requires !s.flg.fin && s.data == [] && (!s.flg.syn ==> s.seqNo == y.t.iss + 1)
    requires x.t.wl1 != 0 ==> x.t.wl1 <= y.t.iss + 1
    requires x.t.wl2 <= x.t.sndUna
    ensures !OverstatesWindow(x.t, s)
  {
  }

  lemma ForgottenWindow(x: Node, y: Node)
    requires NodeOk(x) && LinkOk(x, y)
    ensures x.t.wl2 <= x.t.sndUna
  {
  }

  lemma StepKeepsSilent(x: Node, y: Node, ev: Event)
    requires WideInv(x, y) && CanStep(x, y, ev) && BareBelow(y) && SilentOk(x, y)
    ensures SilentOk(StepNode(x, ev), y)
  {
    WindowMemory(x, ev);
    ForgottenWindow(Wide(x), Wide(y));
    if Silent(y) && ev.Arrive? && !ev.seg.flg.rst {
      SilentSegment(y, ev.seg);
      SilentKeepsFresh(x, y, ev.seg);
    }
  }

  lemma SilenceBreaksOnce(x: Node, y: Node, ev: Event)
    requires CanStep(x, y, ev) && Sound(x) && Sound(StepNode(x, ev))
    ensures Silent(StepNode(x, ev)) ==> Silent(x)
    ensures x.tx.began ==> StepNode(x, ev).tx.began && StepNode(x, ev).t.iss == x.t.iss
  {
    LeakedIff(x, y, ev);
    BegunStaysBegun(x, ev);
  }

  lemma BegunStaysBegun(x: Node, ev: Event)
    requires Enabled(x.t, ev) && (ev.Connect? ==> !x.tx.began) && (x.t.state == Listen ==> !x.tx.began)
    ensures x.tx.began ==> StepNode(x, ev).tx.began && StepNode(x, ev).t.iss == x.t.iss
    ensures x.tx.stream <= StepNode(x, ev).tx.stream && (x.tx.fin ==> StepNode(x, ev).tx.fin)
  {
    if ev.Arrive? {
      ArrivalRemembers(x.t, ev.seg, ev.env);
    } else if ev.TimerTick? {
      TickShape(x, ev);
    }
  }

  // ---- all of it

  /** Every step keeps the history of both nodes. */
  lemma StepKeepsHistory(x: Node, y: Node, ev: Event)
    requires CanStep(x, y, ev) && WideInv(x, y) && WideInv(StepNode(x, ev), y) && Budget(y)
    requires HistoryOk(x, y) && HistoryOk(y, x)
    ensures HistoryOk(StepNode(x, ev), y) && HistoryOk(y, StepNode(x, ev))
  {
    StepKeepsEnd(x, y, ev);
    StepKeepsSent(x, y, ev);
    StepKeepsBare(x, y, ev);
    StepKeepsSilent(x, y, ev);
    SilenceBreaksOnce(x, y, ev);
  }
}
