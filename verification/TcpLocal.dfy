/**
What one connection block keeps over every run, whatever segments arrive: the shape of
its retransmit queue, its closing states, and the order in which it visits its states.
The only hypothesis is that SND.NXT does not pass 2^32.
 */
module TcpLocal {
  import opened Words
  import opened Clock
  import opened TcpSpec
  import opened TcpQueue

  // ---- timer passes

  /** A timer pass touches only the entries' timers, and may close the block. */
  ghost predicate TimersOnly(t: Tcb, t': Tcb) {
    && t' == t.(state := t'.state, queue := t'.queue)
    && (t'.state == t.state || t'.state == Closed)
    && |t'.queue| == |t.queue|
    && forall i :: 0 <= i < |t.queue| ==> SameSlot(t.queue[i], t'.queue[i])
  }

  predicate SameSlot(e: Entry, e': Entry) {
    e'.seqNo == e.seqNo && e'.flg == e.flg && e'.data == e.data
  }

  /** The segment a timer pass sends for an entry. */
  function Resend(t: Tcb, e: Entry): Segment {
    Segment(e.seqNo, t.rcvNxt, e.flg, t.rcvWnd, e.data)
  }

  lemma {:induction false} EmitTouchesTimersOnly(t: Tcb, i: nat, clock: seq<Time>)
    requires i <= |t.queue| == |clock|
    ensures TimersOnly(t, EmitFrom(t, i, clock).t)
    ensures forall s :: s in EmitFrom(t, i, clock).out ==> exists e :: e in t.queue && s == Resend(t, e)
    decreases |t.queue| - i
  {
    if i < |t.queue| {
      var r := EmitOne(t, i, clock[i]);
      EmitTouchesTimersOnly(r.t, i + 1, clock);
      var rest := EmitFrom(r.t, i + 1, clock).out;
      forall s | s in rest
        ensures exists e :: e in t.queue && s == Resend(t, e)
      {
        var e :| e in r.t.queue && s == Resend(r.t, e);
        var k :| 0 <= k < |r.t.queue| && r.t.queue[k] == e;
        assert t.queue[k] in t.queue && s == Resend(t, t.queue[k]);
      }
      assert t.queue[i] in t.queue;
    }
  }

  lemma {:induction false} SameSlotsCover(q: seq<Entry>, q': seq<Entry>, a: int, b: int)
    requires |q| == |q'| && forall i :: 0 <= i < |q| ==> SameSlot(q[i], q'[i])
    requires Covers(q, a, b)
    ensures Covers(q', a, b)
  {
    if q != [] {
      assert SameSlot(q[0], q'[0]);
      forall i | 0 <= i < |q[1..]| ensures SameSlot(q[1..][i], q'[1..][i]) {
        assert SameSlot(q[i + 1], q'[i + 1]);
      }
      SameSlotsCover(q[1..], q'[1..], a + EntryLen(q[0]), b);
    }
  }

  lemma SameSlotsCoverTwiceSyn(q: seq<Entry>, q': seq<Entry>, iss: int, a: int, b: int)
    requires |q| == |q'| && forall i :: 0 <= i < |q| ==> SameSlot(q[i], q'[i])
    requires CoversTwiceSyn(q, iss, a, b)
    ensures CoversTwiceSyn(q', iss, a, b)
  {
    if Covers(q, a, b) {
      SameSlotsCover(q, q', a, b);
    } else {
      assert SameSlot(q[0], q'[0]) && SameSlot(q[1], q'[1]);
      forall i | 0 <= i < |q[1..]| ensures SameSlot(q[1..][i], q'[1..][i]) {
        assert SameSlot(q[i + 1], q'[i + 1]);
      }
      SameSlotsCover(q[1..], q'[1..], a, b);
    }
  }

  // ---- the invariant

  predicate Active(st: State) {
    !(st == Free || st == Closed || st == Listen)
  }

  /** Entries lie in [SND.UNA, SND.NXT), in order and without gaps up to SND.NXT. */
  ghost predicate QueueOk(t: Tcb) {
    t.queue != [] ==>
      t.sndUna <= t.queue[0].seqNo && CoversTwiceSyn(t.queue, t.iss, t.queue[0].seqNo, t.sndNxt)
  }

  ghost predicate ClosingOk(t: Tcb) {
    && (t.state == FinWait1 || t.state == Closing || t.state == LastAck ==> t.sndUna < t.sndNxt)
    && (t.state == FinWait2 || t.state == TimeWait ==> t.sndUna == t.sndNxt && t.queue == [])
  }

  ghost predicate LocalInv(t: Tcb) {
    && |t.buf| + t.rcvWnd == BUF_SIZE
    && (t.state == Listen ==> t.queue == [])
    && (Active(t.state) ==>
          && t.iss <= t.sndUna <= t.sndNxt && t.iss < t.sndNxt
          && (t.state == SynSent ==>
                t.sndUna == t.iss && t.sndNxt == t.iss + 1 && |t.queue| == 1 && LoneSyn(t.queue[0]))
          && QueueOk(t) && ClosingOk(t))
  }

  /** SND.NXT stays below 2^32. */
  predicate NoWrap(t: Tcb, ev: Event) {
    match ev
    case Send(data, _) => t.sndNxt + |data| < TWO_32
    case Close(_, _) => t.sndNxt + 1 < TWO_32
    case _ => true
  }

  lemma CleanupKeepsQueueOk(t: Tcb, u: U32)
    requires QueueOk(t) && t.sndUna <= u <= t.sndNxt
    ensures QueueOk(t.(sndUna := u, queue := Cleanup(t.queue, u)))
    ensures u == t.sndNxt ==> Cleanup(t.queue, u) == []
  {
    if t.queue != [] {
      var a := t.queue[0].seqNo;
      if a <= u {
        CleanupCoversTwiceSyn(t.queue, t.iss, a, t.sndNxt, u);
      }
      var r := Cleanup(t.queue, u);
      if r != [] {
        CoversProgress(r, t.iss, r[0].seqNo, t.sndNxt);
      }
    }
  }

  lemma AppendKeepsQueueOk(t: Tcb, e: Entry)
    requires QueueOk(t) && t.sndUna <= t.sndNxt == e.seqNo && EntryLen(e) > 0
    requires e.seqNo + EntryLen(e) < TWO_32
    ensures QueueOk(t.(queue := t.queue + [e], sndNxt := e.seqNo + EntryLen(e)))
  {
    if t.queue != [] {
      AppendCoversTwiceSyn(t.queue, t.iss, t.queue[0].seqNo, t.sndNxt, e);
    } else {
      AppendCovers([], t.sndNxt, t.sndNxt, e);
    }
  }

  /** The part of the invariant that acknowledging preserves before the state moves on. */
  ghost predicate SendOk(t: Tcb) {
    t.iss <= t.sndUna <= t.sndNxt && t.iss < t.sndNxt && QueueOk(t)
  }

  lemma AdvanceKeepsSendOk(t: Tcb, s: Segment)
    requires SendOk(t) && t.sndUna < s.ackNo <= t.sndNxt
    ensures var t' := AdvanceUna(t, s);
            && SendOk(t') && t'.sndUna == s.ackNo && t'.sndNxt == t.sndNxt && t'.iss == t.iss
            && t'.state == t.state && t'.buf == t.buf && t'.rcvWnd == t.rcvWnd
            && (s.ackNo == t.sndNxt ==> t'.queue == [])
  {
    CleanupKeepsQueueOk(t, s.ackNo);
  }

  lemma AckKeepsLocalInv(t: Tcb, s: Segment, env: Env)
    requires LocalInv(t) && Synchronised(t.state)
    ensures match ProcessAck(t, s, env)
            case Stop(r) => LocalInv(r.t)
            case Continue(t1) =>
              && LocalInv(t1) && Synchronised(t1.state)
              && (t1.state == FinWait1 ==> s.ackNo != t1.sndNxt)
              && t1.rcvWnd == t.rcvWnd
  {
    if t.sndUna < s.ackNo <= t.sndNxt {
      AdvanceKeepsSendOk(if t.state == SynReceived then t.(state := Established) else t, s);
    }
  }

  lemma TextKeepsLocalInv(t: Tcb, s: Segment)
    requires LocalInv(t)
    ensures var t1 := ProcessText(t, s).t; LocalInv(t1) && t1.state == t.state && t1.sndNxt == t.sndNxt
  {
    var t1 := ProcessText(t, s).t;
    assert t1 == t.(buf := t1.buf, rcvNxt := t1.rcvNxt, rcvWnd := t1.rcvWnd);
    assert |t1.buf| + t1.rcvWnd == BUF_SIZE;
  }

  lemma FinStepKeepsLocalInv(t: Tcb, s: Segment, env: Env)
    requires LocalInv(t) && Synchronised(t.state) && (t.state == FinWait1 ==> s.ackNo != t.sndNxt)
    ensures LocalInv(ProcessFin(t, s, env).t)
  {
  }

  lemma TextAndFinKeepLocalInv(t: Tcb, s: Segment, env: Env)
    requires LocalInv(t) && Synchronised(t.state)
    requires t.state == FinWait1 ==> s.ackNo != t.sndNxt
    ensures LocalInv(ProcessTextAndFin(t, s, env).t)
  {
    TextKeepsLocalInv(t, s);
    FinStepKeepsLocalInv(ProcessText(t, s).t, s, env);
  }

  lemma ArrivalKeepsLocalInv(t: Tcb, s: Segment, env: Env)
    requires LocalInv(t) && Synchronised(t.state)
    ensures LocalInv(ArrivesSynchronised(t, s, env).t)
  {
    if Reaches(t, s, env) {
      AckKeepsLocalInv(t, s, env);
      TextAndFinKeepLocalInv(ProcessAck(t, s, env).t, s, env);
    } else if Acceptable(t, s) && !s.flg.rst && !s.flg.syn && s.flg.ack {
      AckKeepsLocalInv(t, s, env);
    }
  }

  lemma ListenKeepsLocalInv(t: Tcb, s: Segment, env: Env)
    requires LocalInv(t) && t.state == Listen
    ensures LocalInv(ArrivesListen(t, s, env).t)
  {
    var e := Entry(env.now, env.now, DEFAULT_RTO, env.random, SYN_ACK, []);
    AppendCovers([], env.random, env.random, e);
    assert t.queue + [e] == [] + [e];
  }

  lemma SynQueuedAgain(t: Tcb, e: Entry)
    requires LocalInv(t) && t.state == SynSent && e.seqNo == t.iss && LoneSyn(e)
    ensures LocalInv(t.(state := SynReceived, queue := t.queue + [e]))
  {
    AppendCovers([], t.iss, t.iss, e);
    assert t.queue[1..] == [];
    assert Covers(t.queue[1..], t.queue[0].seqNo + 1, t.sndNxt);
    assert (t.queue + [e])[1..] == [] + [e];
  }

  lemma SynSentKeepsLocalInv(t: Tcb, s: Segment, env: Env)
    requires LocalInv(t) && t.state == SynSent
    ensures LocalInv(ArrivesSynSent(t, s, env).t)
  {
    if t.sndUna < s.ackNo <= t.sndNxt {
      CleanupKeepsQueueOk(t, s.ackNo);
    }
    var e := Entry(env.now, env.now, DEFAULT_RTO, t.iss, SYN_ACK, []);
    SynQueuedAgain(t, e);
    assert !s.flg.ack ==>
      AnswerSyn(t, s, env, false).t ==
      t.(state := SynReceived, queue := t.queue + [e], rcvNxt := Add32(s.seqNo, 1), irs := s.seqNo);
  }

  lemma TickKeepsLocalInv(t: Tcb, now: Time, clock: seq<Time>, waiters: bool)
    requires LocalInv(t) && |clock| == |t.queue|
    ensures LocalInv(Tick(t, now, clock, waiters).t)
  {
    EmitTouchesTimersOnly(t, 0, clock);
    var t' := EmitFrom(t, 0, clock).t;
    if Active(t.state) && t.queue != [] {
      assert SameSlot(t.queue[0], t'.queue[0]);
      SameSlotsCoverTwiceSyn(t.queue, t'.queue, t.iss, t.queue[0].seqNo, t.sndNxt);
    }
  }

  lemma ConnectKeepsLocalInv(t: Tcb, random: U31, now: Time, ok: bool)
    requires LocalInv(t) && t.queue == []
    ensures LocalInv(ConnectCall(t, random, now, ok).t)
  {
    var e := Entry(now, now, DEFAULT_RTO, random, SYN, []);
    AppendCovers([], random, random, e);
    assert t.queue + [e] == [] + [e];
  }

  lemma SendKeepsLocalInv(t: Tcb, data: seq<Byte>, now: Time)
    requires LocalInv(t) && MaySend(t.state) && 0 < |data| <= MAX_TEXT && t.sndNxt + |data| < TWO_32
    ensures LocalInv(SendSlice(t, data, now).t)
  {
    AppendKeepsQueueOk(t, Entry(now, now, DEFAULT_RTO, t.sndNxt, PSH_ACK, data));
  }

  lemma FinKeepsLocalInv(t: Tcb, e: Entry, st: State)
    requires LocalInv(t) && ClosesWithFin(t.state) && (st == FinWait1 || st == LastAck)
    requires e.seqNo == t.sndNxt && e.seqNo + 1 < TWO_32 && EntryLen(e) == 1
    ensures LocalInv(t.(queue := t.queue + [e], sndNxt := t.sndNxt + 1, state := st))
  {
    AppendKeepsQueueOk(t, e);
  }

  lemma CloseKeepsLocalInv(t: Tcb, now: Time, waiters: bool)
    requires LocalInv(t) && t.sndNxt + 1 < TWO_32
    ensures LocalInv(CloseCall(t, now, waiters).t)
  {
    if ClosesWithFin(t.state) {
      var e := Entry(now, now, DEFAULT_RTO, t.sndNxt, FIN_ACK, []);
      var st := if t.state == CloseWait then LastAck else FinWait1;
      FinKeepsLocalInv(t, e, st);
      assert CloseCall(t, now, waiters).t == t.(queue := t.queue + [e], sndNxt := t.sndNxt + 1, state := st);
    }
  }

  /** Every critical section keeps the invariant. */
  lemma StepKeepsLocalInv(t: Tcb, ev: Event)
    requires LocalInv(t) && Enabled(t, ev) && NoWrap(t, ev)
    ensures LocalInv(Apply(t, ev).t)
  {
    match ev
    case Arrive(s, env) =>
      if t.state == Listen {
        ListenKeepsLocalInv(t, s, env);
      } else if t.state == SynSent {
        SynSentKeepsLocalInv(t, s, env);
      } else if Synchronised(t.state) {
        ArrivalKeepsLocalInv(t, s, env);
      }
    case TimerTick(now, clock, waiters) => TickKeepsLocalInv(t, now, clock, waiters);
    case Connect(random, now, ok) => ConnectKeepsLocalInv(t, random, now, ok);
    case Send(data, now) => SendKeepsLocalInv(t, data, now);
    case Close(now, waiters) => CloseKeepsLocalInv(t, now, waiters);
    case _ =>
  }

  /** A timer pass sends text at or beyond SND.NXT, which tcp_send has not counted as sent. */
  ghost predicate Leaks(t: Tcb, ev: Event)
    requires Enabled(t, ev)
  {
    ev.TimerTick? && exists s :: s in Apply(t, ev).out && s.data != [] && s.seqNo >= t.sndNxt
  }

  // ---- runs

  ghost predicate StepAt(ts: seq<Tcb>, evs: seq<Event>, i: nat)
    requires |ts| == |evs| + 1 && i < |evs|
  {
    Enabled(ts[i], evs[i]) && NoWrap(ts[i], evs[i]) && ts[i + 1] == Apply(ts[i], evs[i]).t
  }

  /** `ts[0], ts[1], ...` are the values a block takes from its allocation on. */
  ghost predicate IsRun(ts: seq<Tcb>, evs: seq<Event>) {
    && |ts| == |evs| + 1
    && ts[0] == Fresh()
    && forall i :: 0 <= i < |evs| ==> StepAt(ts, evs, i)
  }

  /**
  In every state of every run the queue lies in order between SND.UNA and SND.NXT, a FIN
  that is not yet acknowledged keeps SND.UNA below SND.NXT, and FIN-WAIT-2 and TIME-WAIT
  have nothing left to send.
   */
  lemma {:induction false} RunKeepsLocalInv(ts: seq<Tcb>, evs: seq<Event>, k: nat)
    requires IsRun(ts, evs) && k < |ts|
    ensures LocalInv(ts[k])
    decreases k
  {
    if k > 0 {
      RunKeepsLocalInv(ts, evs, k - 1);
      assert StepAt(ts, evs, k - 1);
      StepKeepsLocalInv(ts[k - 1], evs[k - 1]);
    }
  }

  /**
  The "our FIN is acknowledged" branch of FIN processing in FIN-WAIT-1 is never taken: an
  acknowledgement of SND.NXT has moved the block to FIN-WAIT-2 before the FIN is looked at.
   */
  lemma FinWait1AckBranchIsDead(t: Tcb, s: Segment, env: Env)
    requires Reaches(t, s, env) && ProcessText(ProcessAck(t, s, env).t, s).t.state == FinWait1
    ensures s.ackNo != ProcessText(ProcessAck(t, s, env).t, s).t.sndNxt
  {
    AckMoves(t, s, env);
  }

  // ---- lifecycle

  /** The edges of the connection state diagram, figure 6 in section 3.2 of RFC 793. */
  predicate Edge(a: State, b: State) {
    match a
    case Closed => b == Listen || b == SynSent
    case Listen => b == SynReceived || b == SynSent || b == Closed
    case SynSent => b == SynReceived || b == Established || b == Closed
    case SynReceived => b == Established || b == FinWait1
    case Established => b == FinWait1 || b == CloseWait
    case FinWait1 => b == FinWait2 || b == Closing
    case FinWait2 => b == TimeWait
    case Closing => b == TimeWait
    case CloseWait => b == LastAck
    case LastAck => b == Closed
    case TimeWait => b == Closed
    case Free => false
  }

  ghost predicate TwoEdges(a: State, b: State) {
    exists m :: Edge(a, m) && Edge(m, b)
  }

  /** Closed by a reset, a timeout, a failure or the user; Free is Closed and released. */
  predicate Gone(st: State) {
    st == Closed || st == Free
  }

  /** The state changes a single segment can cause, other than closing the block. */
  predicate SegmentMove(a: State, b: State) {
    match a
    case Listen => b == SynReceived
    case SynSent => b == SynReceived || b == Established
    case SynReceived => b == Established || b == CloseWait
    case Established => b == CloseWait
    case FinWait1 => b == FinWait2 || b == Closing || b == TimeWait
    case FinWait2 => b == TimeWait
    case Closing => b == TimeWait
    case _ => false
  }

  lemma AckMoves(t: Tcb, s: Segment, env: Env)
    requires Synchronised(t.state)
    ensures match ProcessAck(t, s, env)
            case Stop(r) => r.t.state == t.state || Gone(r.t.state) || SegmentMove(t.state, r.t.state)
            case Continue(t1) =>
              || (t1.state == t.state != SynReceived)
              || (t.state == SynReceived && t1.state == Established)
              || (t.state == FinWait1 && t1.state == FinWait2)
              || (t.state == Closing && t1.state == TimeWait)
  {
  }

  lemma ArrivalMoves(t: Tcb, s: Segment, env: Env)
    ensures var st' := Arrives(t, s, env).t.state;
            st' == t.state || Gone(st') || SegmentMove(t.state, st')
  {
    if Reaches(t, s, env) {
      AckMoves(t, s, env);
      var t1 := ProcessAck(t, s, env).t;
      assert ProcessText(t1, s).t.state == t1.state;
    } else if Synchronised(t.state) {
      AckMoves(t, s, env);
    }
  }

  /** No step leaves the diagram: one edge, two edges within one segment, or an abort. */
  lemma StepFollowsDiagram(t: Tcb, ev: Event)
    requires Enabled(t, ev)
    ensures var st' := Apply(t, ev).t.state;
            || st' == t.state || Gone(st') || Edge(t.state, st')
            || (ev.Arrive? && TwoEdges(t.state, st'))
  {
    match ev
    case Arrive(s, env) =>
      ArrivalMoves(t, s, env);
      assert Edge(SynReceived, Established) && Edge(Established, CloseWait);
      assert Edge(FinWait1, FinWait2) && Edge(FinWait2, TimeWait);
    case TimerTick(_, clock, _) => EmitTouchesTimersOnly(t, 0, clock);
    case _ =>
  }

  /** A block together with whether it has ever been opened. */
  datatype Life = Life(t: Tcb, used: bool)

  /** Opening commands are issued on blocks that were never opened before. */
  ghost predicate LifeStep(l: Life, ev: Event, l': Life) {
    && Enabled(l.t, ev)
    && (ev.Connect? || ev.ListenCmd? ==> !l.used)
    && l'.t == Apply(l.t, ev).t
    && l'.used == (l.used || l'.t.state != Closed)
  }

  function Rank(l: Life): nat {
    match l.t.state
    case Closed => if l.used then 8 else 0
    case Listen => 1
    case SynSent => 2
    case SynReceived => 3
    case Established => 4
    case FinWait1 => 5
    case CloseWait => 5
    case FinWait2 => 6
    case Closing => 6
    case LastAck => 6
    case TimeWait => 7
    case Free => 9
  }

  ghost predicate LifeOk(l: Life) {
    l.t.state != Closed ==> l.used
  }

  lemma StepRaisesRank(l: Life, ev: Event, l': Life)
    requires LifeOk(l) && LifeStep(l, ev, l')
    ensures LifeOk(l')
    ensures l'.t.state != l.t.state ==> Rank(l) < Rank(l')
    ensures l'.t.state == l.t.state ==> Rank(l) == Rank(l')
  {
    match ev
    case Arrive(s, env) => ArrivalMoves(l.t, s, env);
    case TimerTick(_, clock, _) => EmitTouchesTimersOnly(l.t, 0, clock);
    case _ =>
  }

  ghost predicate IsLife(ls: seq<Life>, evs: seq<Event>) {
    && |ls| == |evs| + 1
    && ls[0] == Life(Fresh(), false)
    && forall i {:trigger evs[i]} :: 0 <= i < |evs| ==> LifeStep(ls[i], evs[i], ls[i + 1])
  }

  function Changes(ls: seq<Life>): nat {
    if |ls| < 2 then 0
    else Changes(ls[..|ls| - 1]) + if ls[|ls| - 1].t.state != ls[|ls| - 2].t.state then 1 else 0
  }

  lemma {:induction false} RankGrows(ls: seq<Life>, evs: seq<Event>, i: nat, j: nat)
    requires IsLife(ls, evs) && i <= j < |ls|
    ensures LifeOk(ls[j]) && Rank(ls[i]) <= Rank(ls[j])
    ensures Rank(ls[i]) == Rank(ls[j]) ==> ls[i].t.state == ls[j].t.state
    ensures Changes(ls[..j + 1]) <= Rank(ls[j])
    decreases j
  {
    if j == 0 {
    } else {
      RankGrows(ls, evs, if i < j then i else j - 1, j - 1);
      assert LifeStep(ls[j - 1], evs[j - 1], ls[j]);
      StepRaisesRank(ls[j - 1], evs[j - 1], ls[j]);
      assert ls[..j + 1][..j] == ls[..j];
    }
  }

  /** One incarnation changes state at most nine times. */
  lemma LifecycleIsBounded(ls: seq<Life>, evs: seq<Event>)
    requires IsLife(ls, evs)
    ensures Changes(ls) <= 9
  {
    RankGrows(ls, evs, 0, |ls| - 1);
    assert ls[..|ls|] == ls;
  }

  /** Once opened, a block never returns to a state it has left: ESTABLISHED is entered at most once. */
  lemma NeverReturns(ls: seq<Life>, evs: seq<Event>, i: nat, j: nat, k: nat)
    requires IsLife(ls, evs) && i < j < k < |ls|
    requires ls[i].used && ls[i].t.state == ls[k].t.state
    ensures ls[j].t.state == ls[i].t.state
  {
    UsedGrows(ls, evs, i, k);
    RankGrows(ls, evs, i, j);
    RankGrows(ls, evs, j, k);
  }

  lemma {:induction false} UsedGrows(ls: seq<Life>, evs: seq<Event>, i: nat, k: nat)
    requires IsLife(ls, evs) && i <= k < |ls| && ls[i].used
    ensures ls[k].used
    decreases k
  {
    if i < k {
      UsedGrows(ls, evs, i, k - 1);
      assert LifeStep(ls[k - 1], evs[k - 1], ls[k]);
    }
  }
}
