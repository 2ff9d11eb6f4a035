/**
The state of a connection as a record of its two FINs: over every run, whatever the peer
sends, which closing state a block is in says which FINs were sent, taken and acknowledged.
 */
module TcpClosing {
  import opened Words
  import opened Clock
  import opened TcpSpec
  import opened TcpQueue
  import opened TcpLocal
  import opened TcpArrivals

  /** The event sends our FIN. */
  predicate SendsFin(t: Tcb, ev: Event) {
    ev.Close? && t.state in {SynReceived, Established, CloseWait}
  }

  /** The event is an arrival whose FIN is taken. */
  predicate TakesFin(t: Tcb, ev: Event) {
    ev.Arrive? && Connected(t) && Heard(t, ev.seg) && TakesIn(t, ev.seg)
  }

  ghost predicate SentAt(ts: seq<Tcb>, evs: seq<Event>, i: nat)
    requires |ts| == |evs| + 1 && i < |evs|
  {
    SendsFin(ts[i], evs[i])
  }

  ghost predicate TakenAt(ts: seq<Tcb>, evs: seq<Event>, i: nat)
    requires |ts| == |evs| + 1 && i < |evs|
  {
    TakesFin(ts[i], evs[i])
  }

  /** One of the first `k` events sent our FIN. */
  ghost predicate FinSent(ts: seq<Tcb>, evs: seq<Event>, k: nat)
    requires |ts| == |evs| + 1 && k <= |evs|
  {
    exists i :: 0 <= i < k && SentAt(ts, evs, i)
  }

  /** One of the first `k` events took the peer's FIN. */
  ghost predicate FinTaken(ts: seq<Tcb>, evs: seq<Event>, k: nat)
    requires |ts| == |evs| + 1 && k <= |evs|
  {
    exists i :: 0 <= i < k && TakenAt(ts, evs, i)
  }

  /** Our FIN was sent, by one of the first `k` events, after the peer's was taken. */
  ghost predicate AnsweredFin(ts: seq<Tcb>, evs: seq<Event>, k: nat)
    requires |ts| == |evs| + 1 && k <= |evs|
  {
    exists i :: 0 <= i < k && SentAt(ts, evs, i) && FinTaken(ts, evs, i)
  }

  predicate IsConnected(st: State) {
    st in {SynReceived, Established, FinWait1, FinWait2, CloseWait, Closing, LastAck, TimeWait}
  }

  /** What the state says of the two FINs. */
  predicate FinsOk(t: Tcb, sent: bool, taken: bool, answered: bool) {
    && (IsConnected(t.state) ==>
          && (sent <==> t.state in {FinWait1, FinWait2, Closing, LastAck, TimeWait})
          && (taken <==> t.state in {CloseWait, Closing, LastAck, TimeWait})
          && (answered <==> t.state == LastAck))
    && (t.state in {Listen, SynSent} || (t.state != Free && t.sndNxt == 0) ==> !sent && !taken && !answered)
  }

  lemma HeardKeepsFins(t: Tcb, s: Segment, env: Env, sent: bool, taken: bool, answered: bool)
    requires FinsOk(t, sent, taken, answered) && LocalInv(t) && Connected(t) && Heard(t, s)
    ensures FinsOk(Arrives(t, s, env).t, sent, taken || TakesIn(t, s), answered)
  {
    StateAfterArrival(t, s, env);
    if !(t.state == LastAck && s.ackNo == t.sndNxt) {
      SendHalfAfterArrival(t, s, env);
    } else if env.waiters {
      LastAckEnds(t, s, env);
    }
  }

  lemma LastAckEnds(t: Tcb, s: Segment, env: Env)
    requires Connected(t) && Heard(t, s) && t.state == LastAck && s.ackNo == t.sndNxt
    ensures Ended(t, env.waiters, Arrives(t, s, env).t)
  {
    var r, t1 := HeardInSteps(t, s, env);
  }

  lemma ConnectedKeepsFins(t: Tcb, s: Segment, env: Env, sent: bool, taken: bool, answered: bool)
    requires FinsOk(t, sent, taken, answered) && LocalInv(t) && Connected(t)
    ensures FinsOk(Arrives(t, s, env).t, sent, taken || TakesFin(t, Arrive(s, env)), answered)
  {
    if !Inside(t, s) {
      OutsideIsAnswered(t, s, env);
    } else if s.flg.rst || s.flg.syn {
      ResetOrSynEnds(t, s, env);
    } else if !s.flg.ack {
      WithoutAckIsDropped(t, s, env);
    } else {
      HeardKeepsFins(t, s, env, sent, taken, answered);
    }
  }

  lemma OpeningKeepsFins(t: Tcb, s: Segment, env: Env, sent: bool, taken: bool, answered: bool)
    requires FinsOk(t, sent, taken, answered) && LocalInv(t) && !IsConnected(t.state)
    ensures FinsOk(Arrives(t, s, env).t, sent, taken, answered)
  {
    if t.state == Listen {
      ListenTable(t, s, env);
    } else if t.state == SynSent {
      SynSentStates(t, s, env);
    }
  }

  lemma OtherKeepsFins(t: Tcb, ev: Event, sent: bool, taken: bool, answered: bool)
    requires FinsOk(t, sent, taken, answered) && LocalInv(t) && Enabled(t, ev) && NoWrap(t, ev) && !ev.Arrive?
    ensures FinsOk(Apply(t, ev).t, sent || SendsFin(t, ev), taken, answered || (SendsFin(t, ev) && taken))
  {
    if ev.TimerTick? {
      TickKeepsFins(t, ev, sent, taken, answered);
    }
  }

  lemma TickKeepsFins(t: Tcb, ev: Event, sent: bool, taken: bool, answered: bool)
    requires FinsOk(t, sent, taken, answered) && Enabled(t, ev) && ev.TimerTick?
    ensures FinsOk(Apply(t, ev).t, sent, taken, answered)
  {
    EmitTouchesTimersOnly(t, 0, ev.clock);
  }

  lemma StepKeepsFins(t: Tcb, ev: Event, sent: bool, taken: bool, answered: bool)
    requires FinsOk(t, sent, taken, answered) && LocalInv(t) && Enabled(t, ev) && NoWrap(t, ev)
    ensures FinsOk(Apply(t, ev).t, sent || SendsFin(t, ev), taken || TakesFin(t, ev),
                   answered || (SendsFin(t, ev) && taken))
  {
    if !ev.Arrive? {
      OtherKeepsFins(t, ev, sent, taken, answered);
    } else if IsConnected(t.state) {
      ConnectedKeepsFins(t, ev.seg, ev.env, sent, taken, answered);
    } else {
      OpeningKeepsFins(t, ev.seg, ev.env, sent, taken, answered);
    }
  }

  lemma RunStepKeepsFins(ts: seq<Tcb>, evs: seq<Event>, k: nat)
    requires IsRun(ts, evs) && 0 < k < |ts|
    requires FinsOk(ts[k - 1], FinSent(ts, evs, k - 1), FinTaken(ts, evs, k - 1), AnsweredFin(ts, evs, k - 1))
    ensures FinsOk(ts[k], FinSent(ts, evs, k), FinTaken(ts, evs, k), AnsweredFin(ts, evs, k))
  {
    RunKeepsLocalInv(ts, evs, k - 1);
    assert StepAt(ts, evs, k - 1);
    FinsGrow(ts, evs, k);
    StepKeepsFins(ts[k - 1], evs[k - 1], FinSent(ts, evs, k - 1), FinTaken(ts, evs, k - 1),
                  AnsweredFin(ts, evs, k - 1));
  }

  lemma FinsGrow(ts: seq<Tcb>, evs: seq<Event>, k: nat)
    requires |ts| == |evs| + 1 && 0 < k <= |evs|
    ensures FinSent(ts, evs, k) <==> FinSent(ts, evs, k - 1) || SendsFin(ts[k - 1], evs[k - 1])
    ensures FinTaken(ts, evs, k) <==> FinTaken(ts, evs, k - 1) || TakesFin(ts[k - 1], evs[k - 1])
    ensures AnsweredFin(ts, evs, k) <==>
            AnsweredFin(ts, evs, k - 1) || (SendsFin(ts[k - 1], evs[k - 1]) && FinTaken(ts, evs, k - 1))
  {
    assert SentAt(ts, evs, k - 1) <==> SendsFin(ts[k - 1], evs[k - 1]);
    assert TakenAt(ts, evs, k - 1) <==> TakesFin(ts[k - 1], evs[k - 1]);
  }

  lemma {:induction false} RunKeepsFins(ts: seq<Tcb>, evs: seq<Event>, k: nat)
    requires IsRun(ts, evs) && k < |ts|
    ensures FinsOk(ts[k], FinSent(ts, evs, k), FinTaken(ts, evs, k), AnsweredFin(ts, evs, k))
    decreases k
  {
    if k > 0 {
      RunKeepsFins(ts, evs, k - 1);
      RunStepKeepsFins(ts, evs, k);
    }
  }

  /**
  In every state of every run with an arbitrary peer, of a block that is connected: its
  state is the one that fits whether our FIN was sent, whether all we sent was
  acknowledged, whether the peer's FIN was taken, and which of the two came first.
   */
  lemma StateTellsFins(ts: seq<Tcb>, evs: seq<Event>, k: nat)
    requires IsRun(ts, evs) && k < |ts| && IsConnected(ts[k].state)
    ensures var sent, taken := FinSent(ts, evs, k), FinTaken(ts, evs, k);
            var acked := ts[k].sndUna == ts[k].sndNxt;
            && (ts[k].state in {SynReceived, Established} <==> !sent && !taken)
            && (ts[k].state == CloseWait <==> !sent && taken)
            && (ts[k].state == FinWait1 <==> sent && !acked && !taken)
            && (ts[k].state == FinWait2 <==> sent && acked && !taken)
            && (ts[k].state == Closing <==> sent && !acked && taken && !AnsweredFin(ts, evs, k))
            && (ts[k].state == LastAck <==> sent && !acked && taken && AnsweredFin(ts, evs, k))
            && (ts[k].state == TimeWait <==> sent && acked && taken)
  {
    RunKeepsFins(ts, evs, k);
    RunKeepsLocalInv(ts, evs, k);
  }
}
