/**
With an arbitrary peer: the bytes in flight fit the send window, so that `cap` in tcp_send
is the room left, exactly until an acknowledgement shrinks the window to below them.
 */
module TcpRoom {
  import opened Words
  import opened Clock
  import opened TcpSpec
  import opened TcpQueue
  import opened TcpLocal

  /** While data may be sent, what is in flight fits the send window. */
  predicate Room(t: Tcb) {
    MaySend(t.state) ==> t.sndUna <= t.sndNxt <= t.sndUna + t.sndWnd
  }

  /** The window after an acknowledgement from SND.UNA to SND.NXT. */
  function WindowAfter(t: Tcb, s: Segment): U16 {
    if t.sndUna < s.ackNo && WindowGuard(t, s) then s.wnd else t.sndWnd
  }

  /** The acknowledgement leaves a window that ends before SND.NXT. */
  predicate EndsBelow(t: Tcb, s: Segment) {
    && (MaySend(t.state) || t.state == SynReceived)
    && t.sndUna <= s.ackNo <= t.sndNxt && s.ackNo + WindowAfter(t, s) < t.sndNxt
  }

  /** Such an acknowledgement is accepted. */
  predicate Overdraws(t: Tcb, ev: Event) {
    && ev.Arrive? && Acceptable(t, ev.seg) && !ev.seg.flg.rst && !ev.seg.flg.syn && ev.seg.flg.ack
    && EndsBelow(t, ev.seg)
  }

  /** `cap` is the room left in the window exactly if what is in flight fits; otherwise it has wrapped round. */
  lemma CapIsRoomIff(t: Tcb)
    requires MaySend(t.state) && t.sndUna <= t.sndNxt
    ensures Room(t) <==> Cap(t) == t.sndWnd - (t.sndNxt - t.sndUna)
    ensures Room(t) <==> Cap(t) <= t.sndWnd
  {
  }

  // ---- steps

  /** In ESTABLISHED and CLOSE_WAIT only an advancing acknowledgement that refreshes the window can do it. */
  lemma OverdrawsByRefreshing(t: Tcb, ev: Event)
    requires MaySend(t.state) && Room(t)
    ensures Overdraws(t, ev) <==>
            && ev.Arrive? && Acceptable(t, ev.seg) && !ev.seg.flg.rst && !ev.seg.flg.syn && ev.seg.flg.ack
            && t.sndUna < ev.seg.ackNo <= t.sndNxt && WindowGuard(t, ev.seg) && ev.seg.ackNo + ev.seg.wnd < t.sndNxt
  {
  }

  lemma TextAndFinKeepRoom(t: Tcb, s: Segment, env: Env)
    ensures var t' := ProcessTextAndFin(t, s, env).t;
            && t'.sndUna == t.sndUna && t'.sndNxt == t.sndNxt && t'.sndWnd == t.sndWnd
            && (MaySend(t'.state) <==> MaySend(t.state))
  {
    var t1 := ProcessText(t, s).t;
    assert t1.state == t.state && t1.sndUna == t.sndUna && t1.sndNxt == t.sndNxt && t1.sndWnd == t.sndWnd;
  }

  /** What the acknowledgement check leaves of the send window. */
  lemma AckLeavesRoomIff(t: Tcb, s: Segment, env: Env)
    requires Synchronised(t.state) && ProcessAck(t, s, env).Continue? && Room(t) && t.sndUna <= t.sndNxt
    ensures Room(ProcessAck(t, s, env).t) <==> !EndsBelow(t, s)
  {
  }

  /**
  SYN_RECEIVED takes an acknowledgement of the initial sequence number itself, which
  leaves the SYN in flight against a zero window: the room computed by tcp_send then
  wraps round. Every other acknowledgement that establishes leaves it within the window.
   */
  lemma HandshakeLeavesRoomIff(t: Tcb, s: Segment, env: Env)
    requires t.state == SynReceived && t.sndUna == t.iss && t.sndNxt == Add32(t.iss, 1)
    requires t.iss < TWO_31 && t.sndWnd == 0
    requires t.sndUna <= s.ackNo <= t.sndNxt
    ensures ProcessAck(t, s, env).Continue? && ProcessAck(t, s, env).t.state == Established
    ensures Cap(ProcessAck(t, s, env).t) <= ProcessAck(t, s, env).t.sndWnd <==> s.ackNo != t.iss
  {
    AckLeavesRoomIff(t, s, env);
    CapIsRoomIff(ProcessAck(t, s, env).t);
  }

  lemma StoppedKeepsRoom(t: Tcb, s: Segment, env: Env)
    requires Synchronised(t.state) && !Reaches(t, s, env) && Room(t) && t.sndUna <= t.sndNxt
    ensures Room(ArrivesSynchronised(t, s, env).t) && !Overdraws(t, Arrive(s, env))
  {
  }

  lemma ArrivalLeavesRoomIff(t: Tcb, s: Segment, env: Env)
    requires Synchronised(t.state) && Room(t) && t.sndUna <= t.sndNxt
    ensures Room(ArrivesSynchronised(t, s, env).t) <==> !Overdraws(t, Arrive(s, env))
  {
    if Reaches(t, s, env) {
      AckLeavesRoomIff(t, s, env);
      TextAndFinKeepRoom(ProcessAck(t, s, env).t, s, env);
    } else {
      StoppedKeepsRoom(t, s, env);
    }
  }

  lemma SynSentLeavesRoom(t: Tcb, s: Segment, env: Env)
    requires LocalInv(t) && t.state == SynSent
    ensures Room(ArrivesSynSent(t, s, env).t)
  {
  }

  lemma TickKeepsRoom(t: Tcb, now: Time, clock: seq<Time>, waiters: bool)
    requires Room(t) && |clock| == |t.queue|
    ensures Room(Tick(t, now, clock, waiters).t)
  {
    EmitTouchesTimersOnly(t, 0, clock);
  }

  lemma CommandKeepsRoom(t: Tcb, ev: Event)
    requires Room(t) && Enabled(t, ev) && NoWrap(t, ev) && !ev.Arrive? && !ev.TimerTick?
    ensures Room(Apply(t, ev).t)
  {
  }

  /** One step keeps the flight inside the window unless it accepts such an acknowledgement. */
  lemma StepLeavesRoomIff(t: Tcb, ev: Event)
    requires LocalInv(t) && Room(t) && Enabled(t, ev) && NoWrap(t, ev)
    ensures Room(Apply(t, ev).t) <==> !Overdraws(t, ev)
  {
    match ev
    case Arrive(s, env) =>
      if t.state == SynSent {
        SynSentLeavesRoom(t, s, env);
      } else if Synchronised(t.state) {
        ArrivalLeavesRoomIff(t, s, env);
      }
    case TimerTick(now, clock, waiters) => TickKeepsRoom(t, now, clock, waiters);
    case _ => CommandKeepsRoom(t, ev);
  }

  // ---- runs

  predicate RoomAt(ts: seq<Tcb>, j: nat)
    requires j < |ts|
  {
    Room(ts[j])
  }

  predicate OverdrawsAt(ts: seq<Tcb>, evs: seq<Event>, i: nat)
    requires |ts| == |evs| + 1 && i < |evs|
  {
    Overdraws(ts[i], evs[i])
  }

  ghost predicate RoomUpTo(ts: seq<Tcb>, k: nat)
    requires k < |ts|
  {
    forall j :: 0 <= j <= k ==> RoomAt(ts, j)
  }

  ghost predicate NeverOverdraws(ts: seq<Tcb>, evs: seq<Event>, k: nat)
    requires |ts| == |evs| + 1 && k <= |evs|
  {
    forall i :: 0 <= i < k ==> !OverdrawsAt(ts, evs, i)
  }

  lemma RunStepLeavesRoomIff(ts: seq<Tcb>, evs: seq<Event>, k: nat)
    requires IsRun(ts, evs) && 0 < k < |ts| && RoomAt(ts, k - 1)
    ensures RoomAt(ts, k) <==> !OverdrawsAt(ts, evs, k - 1)
  {
    RunKeepsLocalInv(ts, evs, k - 1);
    assert StepAt(ts, evs, k - 1);
    StepLeavesRoomIff(ts[k - 1], evs[k - 1]);
  }

  /**
  Over every run with an arbitrary peer: what is in flight fits the send window in every
  state so far in which data may be sent, if and only if no acknowledgement so far left a
  window that ends before SND.NXT.
   */
  lemma {:induction false} RoomIff(ts: seq<Tcb>, evs: seq<Event>, k: nat)
    requires IsRun(ts, evs) && k < |ts|
    ensures RoomUpTo(ts, k) <==> NeverOverdraws(ts, evs, k)
    decreases k
  {
    if k == 0 {
      assert RoomAt(ts, 0);
    } else {
      RoomIff(ts, evs, k - 1);
      assert RoomUpTo(ts, k) <==> RoomUpTo(ts, k - 1) && RoomAt(ts, k);
      assert NeverOverdraws(ts, evs, k) <==> NeverOverdraws(ts, evs, k - 1) && !OverdrawsAt(ts, evs, k - 1);
      if RoomUpTo(ts, k - 1) {
        assert RoomAt(ts, k - 1);
        RunStepLeavesRoomIff(ts, evs, k);
      }
    }
  }
}
