/**
What becomes of a segment, read off the state, the flags and the numbers alone: which state
an arrival leads to, which numbers it moves and how it is answered. The table speaks of
acceptability as section 3.9 of RFC 793 does, modulo 2^32.
 */
module TcpArrivals {
  import opened Words
  import opened Clock
  import opened TcpSpec
  import opened TcpQueue
  import opened TcpLocal
  import opened TcpLimits

  /** The segment touches the receive window, which does not reach across 2^32. */
  predicate Inside(t: Tcb, s: Segment) {
    (t.rcvWnd == 0 || t.rcvNxt + t.rcvWnd < TWO_32) && AcceptableModular(t, s)
  }

  /** The segment gets as far as the check of its acknowledgement. */
  predicate Heard(t: Tcb, s: Segment) {
    Inside(t, s) && !s.flg.rst && !s.flg.syn && s.flg.ack
  }

  lemma AcceptableIffInside(t: Tcb, s: Segment)
    ensures Acceptable(t, s) <==> Inside(t, s)
  {
    AcceptanceIsModularIff(t);
  }

  /** In the table's states. */
  predicate Connected(t: Tcb) {
    && t.state in {SynReceived, Established, FinWait1, FinWait2, CloseWait, Closing, LastAck, TimeWait}
    && t.sndUna <= t.sndNxt
  }

  /** The block after its connection has ended: closed while a thread waits on it, cleared otherwise. */
  predicate Ended(t: Tcb, waiters: bool, t': Tcb) {
    if waiters then t' == t.(state := Closed) else t' == Zeroed()
  }

  // ---- segments that are not heard

  /** A segment outside the window changes nothing; it is answered with an ACK of RCV.NXT unless it is a reset. */
  lemma OutsideIsAnswered(t: Tcb, s: Segment, env: Env)
    requires Connected(t) && !Inside(t, s)
    ensures Arrives(t, s, env) ==
            Result(t, if s.flg.rst then [] else [Segment(t.sndNxt, t.rcvNxt, ACK, t.rcvWnd, [])])
  {
    AcceptableIffInside(t, s);
  }

  /** Inside the window a reset or a SYN ends the connection, and only the SYN is answered, with a reset. */
  lemma ResetOrSynEnds(t: Tcb, s: Segment, env: Env)
    requires Connected(t) && Inside(t, s) && (s.flg.rst || s.flg.syn)
    ensures Ended(t, env.waiters, Arrives(t, s, env).t)
    ensures Arrives(t, s, env).out == if s.flg.rst then [] else [Segment(t.sndNxt, t.rcvNxt, RST, t.rcvWnd, [])]
  {
    AcceptableIffInside(t, s);
  }

  lemma WithoutAckIsDropped(t: Tcb, s: Segment, env: Env)
    requires Connected(t) && Inside(t, s) && !s.flg.rst && !s.flg.syn && !s.flg.ack
    ensures Arrives(t, s, env) == Result(t, [])
  {
    AcceptableIffInside(t, s);
  }

  // ---- the state

  /** The acknowledgement is one that SYN_RECEIVED takes, or is not beyond SND.NXT in the other states. */
  predicate Passes(t: Tcb, s: Segment) {
    match t.state
    case SynReceived => t.sndUna <= s.ackNo <= t.sndNxt
    case LastAck => false
    case TimeWait => true
    case _ => s.ackNo <= t.sndNxt
  }

  /** The segment's FIN is taken. */
  predicate TakesIn(t: Tcb, s: Segment) {
    s.flg.fin && Passes(t, s)
  }

  /** The acknowledgement moves SND.UNA. */
  predicate Advances(t: Tcb, s: Segment) {
    t.state != LastAck && t.state != TimeWait && t.sndUna < s.ackNo <= t.sndNxt
  }

  /** The text is read: before the peer's FIN, and while we have not sent ours or still may receive. */
  predicate ReadsIn(t: Tcb, s: Segment) {
    t.state in {SynReceived, Established, FinWait1, FinWait2} && Passes(t, s) && s.data != []
  }

  lemma HeardShape(t: Tcb, s: Segment, env: Env)
    requires Connected(t) && Heard(t, s)
    ensures Passes(t, s) <==> ProcessAck(t, s, env).Continue?
    ensures Arrives(t, s, env) ==
            match ProcessAck(t, s, env)
            case Stop(r) => r
            case Continue(t1) => ProcessTextAndFin(t1, s, env)
  {
    AcceptableIffInside(t, s);
  }

  /** The segment stops at the check of its acknowledgement. */
  ghost predicate StopsWith(t: Tcb, s: Segment, env: Env, r: Result) {
    if t.state == LastAck then
      r.out == [] && if s.ackNo == t.sndNxt then Ended(t, env.waiters, r.t) else r.t == t
    else
      && r.t == t
      && r.out == [if t.state == SynReceived then Segment(s.ackNo, 0, RST, 0, [])
                   else Segment(t.sndNxt, t.rcvNxt, ACK, t.rcvWnd, [])]
  }

  /** The block between the check of the acknowledgement and the text. */
  ghost predicate AckedAs(t: Tcb, s: Segment, t1: Tcb) {
    && t1 == t.(state := t1.state, twTimer := t1.twTimer, sndUna := t1.sndUna, queue := t1.queue,
                sndWnd := t1.sndWnd, wl1 := t1.wl1, wl2 := t1.wl2)
    && t1.sndUna == (if Advances(t, s) then s.ackNo else t.sndUna)
    && t1.queue == (if Advances(t, s) then Cleanup(t.queue, s.ackNo) else t.queue)
    && (if Advances(t, s) && (t.wl1 < s.seqNo || (t.wl1 == s.seqNo && t.wl2 <= s.ackNo))
        then t1.sndWnd == s.wnd && t1.wl1 == s.seqNo && t1.wl2 == s.ackNo
        else t1.sndWnd == t.sndWnd && t1.wl1 == t.wl1 && t1.wl2 == t.wl2)
    && t1.state == (match t.state
                    case SynReceived => Established
                    case FinWait1 => if s.ackNo == t.sndNxt then FinWait2 else FinWait1
                    case Closing => if s.ackNo == t.sndNxt then TimeWait else Closing
                    case _ => t.state)
  }

  /** Text and FIN, which leave the sending half alone. */
  ghost predicate TakenAs(t: Tcb, s: Segment, r: Result) {
    var read := t.state in {Established, FinWait1, FinWait2} && s.data != [];
    var wnd: U16 := if read then (t.rcvWnd - |s.data|) % TWO_16 else t.rcvWnd;
    && r.t == t.(state := r.t.state, twTimer := r.t.twTimer, buf := r.t.buf, rcvNxt := r.t.rcvNxt, rcvWnd := wnd)
    && r.t.rcvNxt == (if s.flg.fin then Add32(s.seqNo, 1)
                      else if read then Add32(s.seqNo, |s.data| % TWO_16) else t.rcvNxt)
    && r.t.buf == (if read then (t.buf + s.data)[..Min(|t.buf| + |s.data|, BUF_SIZE - wnd)] else t.buf)
    && r.t.state == (if !s.flg.fin then t.state
                     else match t.state
                       case Established => CloseWait
                       case FinWait1 => Closing
                       case FinWait2 => TimeWait
                       case _ => t.state)
    && r.out == (if read then [Segment(t.sndNxt, Add32(s.seqNo, Occupied(s)), ACK, wnd, [])] else [])
                + (if s.flg.fin then [Segment(t.sndNxt, Add32(s.seqNo, 1), ACK, wnd, [])] else [])
  }

  lemma StoppedShape(t: Tcb, s: Segment, env: Env)
    requires Connected(t) && !Passes(t, s)
    ensures ProcessAck(t, s, env).Stop? && StopsWith(t, s, env, ProcessAck(t, s, env).r)
  {
  }

  lemma AckedShape(t: Tcb, s: Segment, env: Env)
    requires Connected(t) && Passes(t, s)
    ensures ProcessAck(t, s, env).Continue? && AckedAs(t, s, ProcessAck(t, s, env).t)
  {
  }

  lemma TextAndFinShape(t: Tcb, s: Segment, env: Env)
    requires t.state in {Established, FinWait1, FinWait2, CloseWait, Closing, TimeWait}
    requires !s.flg.syn && (t.state == FinWait1 ==> s.ackNo != t.sndNxt)
    ensures TakenAs(t, s, ProcessTextAndFin(t, s, env))
  {
  }

  ghost predicate Steps(t: Tcb, s: Segment, env: Env, t1: Tcb, r: Result) {
    if Passes(t, s) then AckedAs(t, s, t1) && TakenAs(t1, s, r) else StopsWith(t, s, env, r)
  }

  /** A segment that is heard stops at its acknowledgement, or goes on to its text and FIN. */
  lemma HeardInSteps(t: Tcb, s: Segment, env: Env) returns (r: Result, t1: Tcb)
    requires Connected(t) && Heard(t, s)
    ensures r == Arrives(t, s, env)
    ensures Steps(t, s, env, t1, r)
  {
    r, t1 := Arrives(t, s, env), t;
    HeardShape(t, s, env);
    if Passes(t, s) {
      AckedShape(t, s, env);
      t1 := ProcessAck(t, s, env).t;
      TextAndFinShape(t1, s, env);
    } else {
      StoppedShape(t, s, env);
    }
  }

  /** Which state a segment that is heard leads to, state by state. */
  lemma StateAfterArrival(t: Tcb, s: Segment, env: Env)
    requires Connected(t) && Heard(t, s)
    ensures var after := Arrives(t, s, env).t.state;
            && (after == SynReceived <==> t.state == SynReceived && !(t.sndUna <= s.ackNo <= t.sndNxt))
            && (after == Established <==>
                && (t.state == Established || (t.state == SynReceived && t.sndUna <= s.ackNo <= t.sndNxt))
                && (!s.flg.fin || s.ackNo > t.sndNxt))
            && (after == CloseWait <==>
                || t.state == CloseWait
                || (t.state == Established && s.flg.fin && s.ackNo <= t.sndNxt)
                || (t.state == SynReceived && s.flg.fin && t.sndUna <= s.ackNo <= t.sndNxt))
            && (after == FinWait1 <==>
                t.state == FinWait1 && (s.ackNo > t.sndNxt || (s.ackNo < t.sndNxt && !s.flg.fin)))
            && (after == FinWait2 <==>
                || (t.state == FinWait1 && s.ackNo == t.sndNxt && !s.flg.fin)
                || (t.state == FinWait2 && (s.ackNo > t.sndNxt || !s.flg.fin)))
            && (after == Closing <==>
                || (t.state == FinWait1 && s.ackNo < t.sndNxt && s.flg.fin)
                || (t.state == Closing && s.ackNo != t.sndNxt))
            && (after == TimeWait <==>
                || (t.state == FinWait1 && s.ackNo == t.sndNxt && s.flg.fin)
                || (t.state == FinWait2 && s.ackNo <= t.sndNxt && s.flg.fin)
                || (t.state == Closing && s.ackNo == t.sndNxt)
                || t.state == TimeWait)
            && (after == LastAck <==> t.state == LastAck && s.ackNo != t.sndNxt)
            && (after == Closed <==> t.state == LastAck && s.ackNo == t.sndNxt && env.waiters)
            && (after == Free <==> t.state == LastAck && s.ackNo == t.sndNxt && !env.waiters)
  {
    var r, t1 := HeardInSteps(t, s, env);
  }

  // ---- the numbers

  /** `rest` is the queue without the entries at its front that start before `n`. */
  ghost predicate DropsBelow(queue: seq<Entry>, n: int, rest: seq<Entry>) {
    exists k :: && 0 <= k <= |queue| && rest == queue[k..]
                && (forall i :: 0 <= i < k ==> queue[i].seqNo < n) && (k < |queue| ==> queue[k].seqNo >= n)
  }

  lemma {:induction false} CleanupDropsBelow(queue: seq<Entry>, n: U32)
    ensures DropsBelow(queue, n, Cleanup(queue, n))
  {
    if queue != [] && queue[0].seqNo < n {
      CleanupDropsBelow(queue[1..], n);
      var k :| && 0 <= k <= |queue[1..]| && Cleanup(queue[1..], n) == queue[1..][k..]
               && (forall i :: 0 <= i < k ==> queue[1..][i].seqNo < n)
               && (k < |queue[1..]| ==> queue[1..][k].seqNo >= n);
      forall i | 0 <= i < k + 1
        ensures queue[i].seqNo < n
      {
        if i > 0 {
          assert queue[i] == queue[1..][i - 1];
        }
      }
      assert queue[1..][k..] == queue[k + 1..];
    } else {
      assert queue == queue[0..];
    }
  }

  /** What a segment that is heard does to the sending half, unless it ends the connection. */
  lemma SendHalfAfterArrival(t: Tcb, s: Segment, env: Env)
    requires Connected(t) && Heard(t, s) && !(t.state == LastAck && s.ackNo == t.sndNxt)
    ensures var t' := Arrives(t, s, env).t;
            && t'.iss == t.iss && t'.irs == t.irs && t'.sndNxt == t.sndNxt
            && t'.sndUna == (if Advances(t, s) then s.ackNo else t.sndUna)
            && (if Advances(t, s) then DropsBelow(t.queue, s.ackNo, t'.queue) else t'.queue == t.queue)
            && (if Advances(t, s) && (t.wl1 < s.seqNo || (t.wl1 == s.seqNo && t.wl2 <= s.ackNo))
                then t'.sndWnd == s.wnd && t'.wl1 == s.seqNo && t'.wl2 == s.ackNo
                else t'.sndWnd == t.sndWnd && t'.wl1 == t.wl1 && t'.wl2 == t.wl2)
  {
    CleanupDropsBelow(t.queue, s.ackNo);
    var r, t1 := HeardInSteps(t, s, env);
  }

  /** The receiving half after it: text goes behind what is pending, the FIN counts one. */
  predicate ReceivesAs(t: Tcb, s: Segment, t': Tcb) {
    && t'.rcvNxt == (if TakesIn(t, s) then Add32(s.seqNo, 1)
                     else if ReadsIn(t, s) then Add32(s.seqNo, |s.data| % TWO_16) else t.rcvNxt)
    && t'.rcvWnd == (if ReadsIn(t, s) then (t.rcvWnd - |s.data|) % TWO_16 else t.rcvWnd)
    && t'.buf == (if ReadsIn(t, s) then (t.buf + s.data)[..Min(|t.buf| + |s.data|, BUF_SIZE - t'.rcvWnd)] else t.buf)
  }

  lemma ReceiveHalfInSteps(t: Tcb, s: Segment, env: Env, t1: Tcb, r: Result)
    requires Connected(t) && Heard(t, s) && Steps(t, s, env, t1, r) && !(t.state == LastAck && s.ackNo == t.sndNxt)
    ensures ReceivesAs(t, s, r.t)
  {
  }

  lemma ReceiveHalfAfterArrival(t: Tcb, s: Segment, env: Env)
    requires Connected(t) && Heard(t, s) && !(t.state == LastAck && s.ackNo == t.sndNxt)
    ensures ReceivesAs(t, s, Arrives(t, s, env).t)
  {
    var r, t1 := HeardInSteps(t, s, env);
    ReceiveHalfInSteps(t, s, env, t1, r);
  }

  /** Text that fits the window is appended whole. */
  lemma FittingTextIsAppended(t: Tcb, s: Segment, env: Env)
    requires Connected(t) && Heard(t, s) && ReadsIn(t, s) && |t.buf| + t.rcvWnd == BUF_SIZE && |s.data| <= t.rcvWnd
    ensures Arrives(t, s, env).t.buf == t.buf + s.data && Arrives(t, s, env).t.rcvWnd == t.rcvWnd - |s.data|
  {
    ReceiveHalfAfterArrival(t, s, env);
    NothingIsCut(t, s, Arrives(t, s, env).t);
  }

  lemma NothingIsCut(t: Tcb, s: Segment, t': Tcb)
    requires ReceivesAs(t, s, t') && ReadsIn(t, s) && |t.buf| + t.rcvWnd == BUF_SIZE && |s.data| <= t.rcvWnd
    ensures t'.buf == t.buf + s.data && t'.rcvWnd == t.rcvWnd - |s.data|
  {
    assert (t.buf + s.data)[..|t.buf| + |s.data|] == t.buf + s.data;
  }

  /** How a segment that is heard is answered: text and FIN with an ACK each, a wrong acknowledgement otherwise. */
  function Answers(t: Tcb, s: Segment): seq<Segment> {
    var wnd: U16 := if ReadsIn(t, s) then (t.rcvWnd - |s.data|) % TWO_16 else t.rcvWnd;
    if t.state == LastAck then []
    else if t.state == SynReceived && !Passes(t, s) then [Segment(s.ackNo, 0, RST, 0, [])]
    else if !Passes(t, s) then [Segment(t.sndNxt, t.rcvNxt, ACK, t.rcvWnd, [])]
    else (if ReadsIn(t, s) then [Segment(t.sndNxt, Add32(s.seqNo, Occupied(s)), ACK, wnd, [])] else [])
         + (if s.flg.fin then [Segment(t.sndNxt, Add32(s.seqNo, 1), ACK, wnd, [])] else [])
  }

  lemma AnswersInSteps(t: Tcb, s: Segment, env: Env, t1: Tcb, r: Result)
    requires Connected(t) && Heard(t, s) && Steps(t, s, env, t1, r)
    ensures r.out == Answers(t, s)
  {
  }

  lemma ReplyToArrival(t: Tcb, s: Segment, env: Env)
    requires Connected(t) && Heard(t, s)
    ensures Arrives(t, s, env).out == Answers(t, s)
  {
    var r, t1 := HeardInSteps(t, s, env);
    AnswersInSteps(t, s, env, t1, r);
  }

  // ---- before the connection

  /** Without a connection nothing changes; a reset answers everything but a reset. */
  lemma ClosedAnswersWithReset(t: Tcb, s: Segment, env: Env)
    requires t.state == Free || t.state == Closed
    ensures Arrives(t, s, env).t == t
    ensures s.flg.rst ==> Arrives(t, s, env).out == []
    ensures !s.flg.rst && s.flg.ack ==> Arrives(t, s, env).out == [Segment(s.ackNo, 0, RST, 0, [])]
    ensures !s.flg.rst && !s.flg.ack ==>
              Arrives(t, s, env).out == [Segment(0, Add32(s.seqNo, Occupied(s)), RST_ACK, 0, [])]
  {
  }

  lemma ListenTable(t: Tcb, s: Segment, env: Env)
    requires t.state == Listen
    ensures !(s.flg.syn && !s.flg.ack && !s.flg.rst) ==>
              Arrives(t, s, env) ==
              Result(t, if s.flg.ack && !s.flg.rst then [Segment(s.ackNo, 0, RST, 0, [])] else [])
    ensures s.flg.syn && !s.flg.ack && !s.flg.rst ==>
              && var t', next := Arrives(t, s, env).t, Add32(s.seqNo, 1);
              && t'.state == SynReceived && t'.iss == t'.sndUna == env.random && t'.sndNxt == env.random + 1
              && t'.irs == s.seqNo && t'.rcvNxt == next && t'.rcvWnd == BUF_SIZE && t'.buf == []
              && t'.sndWnd == t.sndWnd && t'.wl1 == t.wl1 && t'.wl2 == t.wl2
              && t'.queue == t.queue + [Entry(env.now, env.now, 200_000, env.random, SYN_ACK, [])]
              && Arrives(t, s, env).out == [Segment(env.random, next, SYN_ACK, BUF_SIZE, [])]
  {
  }

  /** The state an active open reaches, and what it takes. */
  lemma SynSentStates(t: Tcb, s: Segment, env: Env)
    requires t.state == SynSent && t.sndUna == t.iss < t.sndNxt
    ensures var after := Arrives(t, s, env).t.state;
            var ours := t.iss < s.ackNo <= t.sndNxt;
            && (after == Established <==> s.flg.syn && !s.flg.rst && s.flg.ack && ours)
            && (after == SynReceived <==> s.flg.syn && !s.flg.rst && !s.flg.ack)
            && (after == Closed <==> s.flg.rst && s.flg.ack && ours && env.waiters)
            && (after == Free <==> s.flg.rst && s.flg.ack && ours && !env.waiters)
            && (after in {SynSent, Established, SynReceived, Closed, Free})
            && (after == SynSent ==> Arrives(t, s, env).t == t)
            && (after == Closed ==> Arrives(t, s, env).t == t.(state := Closed))
            && (after == SynSent || after == Closed || after == Free ==>
                  Arrives(t, s, env).out == if s.flg.ack && !ours then [Segment(s.ackNo, 0, RST, 0, [])] else [])
  {
  }

  /** The numbers of an answered SYN, with and without an acknowledgement of ours. */
  lemma SynSentNumbers(t: Tcb, s: Segment, env: Env)
    requires t.state == SynSent && t.sndUna == t.iss < t.sndNxt && s.flg.syn && !s.flg.rst
    requires s.flg.ack ==> t.iss < s.ackNo <= t.sndNxt
    ensures var t', next := Arrives(t, s, env).t, Add32(s.seqNo, 1);
            && t'.iss == t.iss && t'.sndNxt == t.sndNxt && t'.rcvNxt == next && t'.irs == s.seqNo
            && t'.rcvWnd == t.rcvWnd && t'.buf == t.buf
            && (s.flg.ack ==>
                  && t'.sndUna == s.ackNo && DropsBelow(t.queue, s.ackNo, t'.queue)
                  && t'.sndWnd == s.wnd && t'.wl1 == s.seqNo && t'.wl2 == s.ackNo
                  && Arrives(t, s, env).out == [Segment(t.sndNxt, next, ACK, t.rcvWnd, [])])
            && (!s.flg.ack ==>
                  && t'.sndUna == t.iss && t'.sndWnd == t.sndWnd && t'.wl1 == t.wl1 && t'.wl2 == t.wl2
                  && t'.queue == t.queue + [Entry(env.now, env.now, 200_000, t.iss, SYN_ACK, [])]
                  && Arrives(t, s, env).out == [Segment(t.iss, next, SYN_ACK, t.rcvWnd, [])])
  {
    CleanupDropsBelow(t.queue, s.ackNo);
  }

  // ---- resets reach whom they are for

  /** The reset with which a closed end answers our SYN ends the attempt to connect. */
  lemma RefusedSynEndsConnect(t: Tcb, closed: Tcb, s: Segment, env: Env, env': Env)
    requires t.state == SynSent && t.sndUna == t.iss && t.sndNxt == t.iss + 1 && closed.state in {Free, Closed}
    requires s == Segment(t.iss, s.ackNo, SYN, s.wnd, [])
    ensures var out := Arrives(closed, s, env).out;
            |out| == 1 && Ended(t, env'.waiters, Arrives(t, out[0], env').t) && Arrives(t, out[0], env').out == []
  {
  }

  /** The reset with which a closed end answers a segment of ours ends the connection. */
  lemma RefusedSegmentEndsConnection(t: Tcb, closed: Tcb, s: Segment, env: Env, env': Env)
    requires Connected(t) && t.rcvNxt + t.rcvWnd < TWO_32 && closed.state in {Free, Closed}
    requires s.flg.ack && !s.flg.rst && s.ackNo == t.rcvNxt
    ensures var out := Arrives(closed, s, env).out;
            |out| == 1 && Ended(t, env'.waiters, Arrives(t, out[0], env').t) && Arrives(t, out[0], env').out == []
  {
    var r := Segment(s.ackNo, 0, RST, 0, []);
    ClosedAnswersWithReset(closed, s, env);
    assert Occupied(r) == 0 && Inside(t, r);
    ResetOrSynEnds(t, r, env');
  }
}
