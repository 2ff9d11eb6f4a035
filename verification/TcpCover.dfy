/**
With an arbitrary peer: the retransmit queue covers exactly what is sent and not
acknowledged, as long as no acknowledgement falls inside a queued segment, and no longer.
 */
module TcpCover {
  import opened Words
  import opened Clock
  import opened TcpSpec
  import opened TcpQueue
  import opened TcpLocal

  ghost predicate Covered(t: Tcb) {
    Active(t.state) ==> CoversTwiceSyn(t.queue, t.iss, t.sndUna, t.sndNxt)
  }

  /** The segment gets as far as moving SND.UNA. */
  predicate Acknowledges(t: Tcb, s: Segment) {
    && Synchronised(t.state) && t.state != LastAck && t.state != TimeWait
    && Acceptable(t, s) && !s.flg.rst && !s.flg.syn && s.flg.ack
    && t.sndUna < s.ackNo <= t.sndNxt
  }

  /** The acknowledgement falls strictly inside a queued segment. */
  ghost predicate AckSplits(t: Tcb, ev: Event) {
    ev.Arrive? && Acknowledges(t, ev.seg) && Splits(t.queue, ev.seg.ackNo)
  }

  // ---- arrivals

  /** The sending half of the block is as it was, or has advanced. */
  ghost predicate SendHalf(t: Tcb, s: Segment, t': Tcb) {
    && t'.iss == t.iss && t'.sndNxt == t.sndNxt
    && (if Acknowledges(t, s) then t'.sndUna == s.ackNo && t'.queue == Cleanup(t.queue, s.ackNo)
        else t'.sndUna == t.sndUna && t'.queue == t.queue)
  }

  lemma AckSendHalf(t: Tcb, s: Segment, env: Env)
    requires Synchronised(t.state) && Acceptable(t, s) && !s.flg.rst && !s.flg.syn && s.flg.ack
    ensures match ProcessAck(t, s, env)
            case Stop(r) => r.t.state == t.state || Gone(r.t.state) || r.t == t.(state := Established)
            case Continue(t1) => SendHalf(t, s, t1) && Active(t1.state)
    ensures Acknowledges(t, s) ==> ProcessAck(t, s, env).Continue?
    ensures ProcessAck(t, s, env).Stop? && !Gone(ProcessAck(t, s, env).r.t.state) ==>
              SendHalf(t, s, ProcessAck(t, s, env).r.t)
  {
  }

  lemma TextAndFinKeepSendHalf(t: Tcb, s: Segment, env: Env)
    requires Active(t.state)
    ensures var t' := ProcessTextAndFin(t, s, env).t;
            t'.iss == t.iss && t'.sndNxt == t.sndNxt && t'.sndUna == t.sndUna && t'.queue == t.queue && Active(t'.state)
  {
    var t1 := ProcessText(t, s).t;
    assert t1.state == t.state && t1.queue == t.queue;
  }

  lemma ArrivalSendHalf(t: Tcb, s: Segment, env: Env)
    requires Synchronised(t.state)
    ensures var t' := ArrivesSynchronised(t, s, env).t;
            if Gone(t'.state) then !Acknowledges(t, s) else Active(t'.state) && SendHalf(t, s, t')
  {
    if Acceptable(t, s) && !s.flg.rst && !s.flg.syn && s.flg.ack {
      AckSendHalf(t, s, env);
      if Reaches(t, s, env) {
        TextAndFinKeepSendHalf(ProcessAck(t, s, env).t, s, env);
      } else {
        AckMoves(t, s, env);
      }
    }
  }

  lemma ArrivalCoversIff(t: Tcb, s: Segment, env: Env)
    requires LocalInv(t) && Covered(t) && Synchronised(t.state)
    ensures Covered(ArrivesSynchronised(t, s, env).t) <==> !(Acknowledges(t, s) && Splits(t.queue, s.ackNo))
  {
    ArrivalSendHalf(t, s, env);
    if Acknowledges(t, s) {
      CleanupCoversTwiceSyn(t.queue, t.iss, t.sndUna, t.sndNxt, s.ackNo);
    }
  }

  lemma ListenCovers(t: Tcb, s: Segment, env: Env)
    requires LocalInv(t) && t.state == Listen
    ensures Covered(ArrivesListen(t, s, env).t)
  {
    var e := Entry(env.now, env.now, DEFAULT_RTO, env.random, SYN_ACK, []);
    AppendCovers([], env.random, env.random, e);
    assert t.queue + [e] == [] + [e];
  }

  lemma SynSentCovers(t: Tcb, s: Segment, env: Env)
    requires LocalInv(t) && Covered(t) && t.state == SynSent
    ensures Covered(ArrivesSynSent(t, s, env).t)
  {
    var e := Entry(env.now, env.now, DEFAULT_RTO, t.iss, SYN_ACK, []);
    SynQueuedAgain(t, e);
    assert t.queue[1..] == [];
    if s.flg.ack && t.iss < s.ackNo <= t.sndNxt {
      assert Cleanup(t.queue, s.ackNo) == [];
    }
    assert t.queue[0].seqNo == t.iss;
    assert (t.queue + [e])[0].seqNo == t.iss;
  }

  // ---- steps

  lemma TickCovers(t: Tcb, now: Time, clock: seq<Time>, waiters: bool)
    requires Covered(t) && |clock| == |t.queue|
    ensures Covered(Tick(t, now, clock, waiters).t)
  {
    EmitTouchesTimersOnly(t, 0, clock);
    var t' := EmitFrom(t, 0, clock).t;
    if Active(t.state) {
      SameSlotsCoverTwiceSyn(t.queue, t'.queue, t.iss, t.sndUna, t.sndNxt);
    }
  }

  lemma AppendedIsCovered(t: Tcb, e: Entry, t': Tcb)
    requires Active(t.state) && Covered(t) && e.seqNo == t.sndNxt && EntryLen(e) > 0
    requires t'.queue == t.queue + [e] && t'.sndNxt == t.sndNxt + EntryLen(e)
    requires t'.iss == t.iss && t'.sndUna == t.sndUna
    ensures Covered(t')
  {
    AppendCoversTwiceSyn(t.queue, t.iss, t.sndUna, t.sndNxt, e);
  }

  lemma CommandCovers(t: Tcb, ev: Event)
    requires LocalInv(t) && Covered(t) && Enabled(t, ev) && NoWrap(t, ev) && !ev.Arrive? && !ev.TimerTick?
    ensures Covered(Apply(t, ev).t)
  {
    match ev
    case Connect(random, now, _) =>
      var e := Entry(now, now, DEFAULT_RTO, random, SYN, []);
      AppendCovers([], random, random, e);
      assert t.queue + [e] == [] + [e];
    case Send(data, now) =>
      AppendedIsCovered(t, Entry(now, now, DEFAULT_RTO, t.sndNxt, PSH_ACK, data), Apply(t, ev).t);
    case Close(now, _) =>
      if ClosesWithFin(t.state) {
        AppendedIsCovered(t, Entry(now, now, DEFAULT_RTO, t.sndNxt, FIN_ACK, []), Apply(t, ev).t);
      }
    case _ =>
  }

  /** One step keeps the cover exact unless it is an acknowledgement inside a queued segment. */
  lemma StepCoversIff(t: Tcb, ev: Event)
    requires LocalInv(t) && Covered(t) && Enabled(t, ev) && NoWrap(t, ev)
    ensures Covered(Apply(t, ev).t) <==> !AckSplits(t, ev)
  {
    match ev
    case Arrive(s, env) =>
      if t.state == Listen {
        ListenCovers(t, s, env);
      } else if t.state == SynSent {
        SynSentCovers(t, s, env);
      } else if Synchronised(t.state) {
        ArrivalCoversIff(t, s, env);
      }
    case TimerTick(now, clock, waiters) => TickCovers(t, now, clock, waiters);
    case _ => CommandCovers(t, ev);
  }

  // ---- runs

  ghost predicate CoveredAt(ts: seq<Tcb>, j: nat)
    requires j < |ts|
  {
    Covered(ts[j])
  }

  ghost predicate SplitsAt(ts: seq<Tcb>, evs: seq<Event>, i: nat)
    requires |ts| == |evs| + 1 && i < |evs|
  {
    AckSplits(ts[i], evs[i])
  }

  ghost predicate CoveredUpTo(ts: seq<Tcb>, k: nat)
    requires k < |ts|
  {
    forall j :: 0 <= j <= k ==> CoveredAt(ts, j)
  }

  ghost predicate NeverSplits(ts: seq<Tcb>, evs: seq<Event>, k: nat)
    requires |ts| == |evs| + 1 && k <= |evs|
  {
    forall i :: 0 <= i < k ==> !SplitsAt(ts, evs, i)
  }

  lemma RunStepCoversIff(ts: seq<Tcb>, evs: seq<Event>, k: nat)
    requires IsRun(ts, evs) && 0 < k < |ts| && CoveredAt(ts, k - 1)
    ensures CoveredAt(ts, k) <==> !SplitsAt(ts, evs, k - 1)
  {
    RunKeepsLocalInv(ts, evs, k - 1);
    assert StepAt(ts, evs, k - 1);
    StepCoversIff(ts[k - 1], evs[k - 1]);
  }

  /**
  Over every run with an arbitrary peer: the queue of an open block covers exactly
  [SND.UNA, SND.NXT) in every state so far, only a SYN possibly twice, if and only if no
  acknowledgement so far fell inside a queued segment.
   */
  lemma {:induction false} QueueCoversIff(ts: seq<Tcb>, evs: seq<Event>, k: nat)
    requires IsRun(ts, evs) && k < |ts|
    ensures CoveredUpTo(ts, k) <==> NeverSplits(ts, evs, k)
    decreases k
  {
    if k == 0 {
      assert CoveredAt(ts, 0);
    } else {
      QueueCoversIff(ts, evs, k - 1);
      assert CoveredUpTo(ts, k) <==> CoveredUpTo(ts, k - 1) && CoveredAt(ts, k);
      assert NeverSplits(ts, evs, k) <==> NeverSplits(ts, evs, k - 1) && !SplitsAt(ts, evs, k - 1);
      if CoveredUpTo(ts, k - 1) {
        assert CoveredAt(ts, k - 1);
        RunStepCoversIff(ts, evs, k);
      }
    }
  }
}
