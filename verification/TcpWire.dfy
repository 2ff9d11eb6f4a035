/**
With an arbitrary peer: every payload a block puts on the wire is the slice of what tcp_send
has taken that belongs at its sequence number, exactly until a timer pass sends text that
tcp_send has not counted as sent.
 */
module TcpWire {
  import opened Words
  import opened Clock
  import opened TcpSpec
  import opened TcpQueue
  import opened TcpLocal
  import opened TcpCover

  /** The bytes at `seqNo` of a stream whose first byte has number ISS + 1. */
  predicate SliceAt(iss: int, stream: seq<Byte>, seqNo: int, data: seq<Byte>) {
    var at := seqNo - iss - 1;
    0 <= at && at + |data| <= |stream| && data == stream[at..at + |data|]
  }

  ghost predicate OutSliced(iss: int, stream: seq<Byte>, out: seq<Segment>) {
    forall s :: s in out && s.data != [] ==> SliceAt(iss, stream, s.seqNo, s.data)
  }

  /** Queued text is a slice of the stream, or, in a closed block, lies at or beyond SND.NXT. */
  predicate EntrySliced(t: Tcb, stream: seq<Byte>, e: Entry) {
    e.data != [] ==> SliceAt(t.iss, stream, e.seqNo, e.data) || (!Active(t.state) && e.seqNo >= t.sndNxt)
  }

  ghost predicate QueueSliced(t: Tcb, stream: seq<Byte>) {
    forall e :: e in t.queue ==> EntrySliced(t, stream, e)
  }

  /** Where the stream ends. */
  predicate StreamEnds(t: Tcb, stream: seq<Byte>) {
    && (stream != [] && t.state != Free ==> t.iss + 1 + |stream| <= t.sndNxt)
    && (MaySend(t.state) ==> t.sndNxt == t.iss + 1 + |stream|)
    && (t.state == SynReceived ==> t.sndNxt == t.iss + 1)
    && (t.state == SynSent || t.state == SynReceived || t.state == Listen ==> stream == [])
  }

  ghost predicate WireInv(t: Tcb, stream: seq<Byte>) {
    QueueSliced(t, stream) && StreamEnds(t, stream)
  }

  function StreamAfter(stream: seq<Byte>, ev: Event): seq<Byte> {
    if ev.Send? then stream + ev.data else stream
  }

  // ---- arrivals

  lemma ArrivalSaysNoText(t: Tcb, s: Segment, env: Env)
    ensures forall u :: u in Arrives(t, s, env).out ==> u.data == []
  {
  }

  lemma ArrivalMovesOn(t: Tcb, s: Segment, env: Env)
    requires Synchronised(t.state)
    ensures var st := ArrivesSynchronised(t, s, env).t.state;
            && (MaySend(st) ==> MaySend(t.state) || t.state == SynReceived)
            && (st == SynReceived ==> t.state == SynReceived)
            && st != SynSent && st != Listen
  {
    ArrivalMoves(t, s, env);
  }

  lemma AbandonedByArrival(t: Tcb, s: Segment, env: Env)
    requires Synchronised(t.state) && ArrivesSynchronised(t, s, env).t.state == Closed
    ensures ArrivesSynchronised(t, s, env).t == t.(state := Closed)
  {
    if Reaches(t, s, env) {
      ArrivalSendHalf(t, s, env);
      AckSendHalf(t, s, env);
      TextAndFinKeepSendHalf(ProcessAck(t, s, env).t, s, env);
    }
  }

  lemma FreedByArrival(t: Tcb, s: Segment, env: Env)
    requires Synchronised(t.state) && ArrivesSynchronised(t, s, env).t.state == Free
    ensures ArrivesSynchronised(t, s, env).t == Zeroed()
  {
    if Reaches(t, s, env) {
      AckMoves(t, s, env);
      TextAndFinKeepSendHalf(ProcessAck(t, s, env).t, s, env);
    }
  }

  lemma ArrivalQueue(t: Tcb, s: Segment, env: Env)
    requires Synchronised(t.state)
    ensures var t' := ArrivesSynchronised(t, s, env).t;
            t'.state != Free ==>
              && t'.iss == t.iss && t'.sndNxt == t.sndNxt
              && (forall e :: e in t'.queue ==> e in t.queue)
              && (t'.state == Closed || Active(t'.state))
  {
    ArrivalSendHalf(t, s, env);
    if ArrivesSynchronised(t, s, env).t.state == Closed {
      AbandonedByArrival(t, s, env);
    }
    CleanupIsSuffix(t.queue, s.ackNo);
  }

  lemma AdvancedKeepsWireInv(t: Tcb, t': Tcb, stream: seq<Byte>)
    requires QueueSliced(t, stream) && StreamEnds(t, stream) && Synchronised(t.state)
    requires t'.iss == t.iss && t'.sndNxt == t.sndNxt && (forall e :: e in t'.queue ==> e in t.queue)
    requires t'.state == Closed || Synchronised(t'.state)
    requires MaySend(t'.state) ==> MaySend(t.state) || t.state == SynReceived
    requires t'.state == SynReceived ==> t.state == SynReceived
    ensures QueueSliced(t', stream) && StreamEnds(t', stream)
  {
    forall e | e in t'.queue
      ensures EntrySliced(t', stream, e)
    {
      assert EntrySliced(t, stream, e);
    }
  }

  lemma SynchronisedKeepsWireInv(t: Tcb, stream: seq<Byte>, s: Segment, env: Env)
    requires WireInv(t, stream) && Synchronised(t.state)
    ensures WireInv(ArrivesSynchronised(t, s, env).t, stream)
  {
    var t' := ArrivesSynchronised(t, s, env).t;
    if t'.state == Free {
      FreedByArrival(t, s, env);
    } else {
      ArrivalQueue(t, s, env);
      ArrivalMovesOn(t, s, env);
      AdvancedKeepsWireInv(t, t', stream);
    }
  }

  lemma OpeningKeepsWireInv(t: Tcb, stream: seq<Byte>, s: Segment, env: Env)
    requires WireInv(t, stream) && LocalInv(t) && (t.state == Listen || t.state == SynSent)
    ensures WireInv(Arrives(t, s, env).t, stream)
  {
    CleanupIsSuffix(t.queue, s.ackNo);
  }

  lemma ArriveKeepsWireInv(t: Tcb, stream: seq<Byte>, s: Segment, env: Env)
    requires WireInv(t, stream) && LocalInv(t)
    ensures WireInv(Arrives(t, s, env).t, stream)
  {
    if Synchronised(t.state) {
      SynchronisedKeepsWireInv(t, stream, s, env);
    } else if t.state == Listen || t.state == SynSent {
      OpeningKeepsWireInv(t, stream, s, env);
    }
  }

  // ---- the timer

  lemma TickKeepsWireInv(t: Tcb, stream: seq<Byte>, ev: Event)
    requires WireInv(t, stream) && ev.TimerTick? && Enabled(t, ev)
    ensures WireInv(Apply(t, ev).t, stream)
  {
    EmitTouchesTimersOnly(t, 0, ev.clock);
    var t' := EmitFrom(t, 0, ev.clock).t;
    forall e | e in t'.queue
      ensures EntrySliced(t', stream, e)
    {
      var k :| 0 <= k < |t'.queue| && t'.queue[k] == e;
      assert SameSlot(t.queue[k], e) && EntrySliced(t, stream, t.queue[k]);
    }
  }

  lemma TickSaysSlicesIff(t: Tcb, stream: seq<Byte>, ev: Event)
    requires WireInv(t, stream) && ev.TimerTick? && Enabled(t, ev)
    ensures OutSliced(t.iss, stream, Apply(t, ev).out) <==> !Leaks(t, ev)
  {
    EmitTouchesTimersOnly(t, 0, ev.clock);
    forall s | s in Apply(t, ev).out && s.data != []
      ensures SliceAt(t.iss, stream, s.seqNo, s.data) <==> s.seqNo < t.sndNxt
    {
      var e :| e in t.queue && s == Resend(t, e);
      ResentTextIsSliceIff(t, stream, e);
    }
  }

  lemma ResentTextIsSliceIff(t: Tcb, stream: seq<Byte>, e: Entry)
    requires WireInv(t, stream) && t.state != Free && e in t.queue && e.data != []
    ensures SliceAt(t.iss, stream, e.seqNo, e.data) <==> e.seqNo < t.sndNxt
  {
    assert EntrySliced(t, stream, e);
  }

  // ---- commands

  lemma SliceGrows(iss: int, stream: seq<Byte>, more: seq<Byte>, seqNo: int, data: seq<Byte>)
    requires SliceAt(iss, stream, seqNo, data)
    ensures SliceAt(iss, stream + more, seqNo, data)
  {
  }

  lemma SendKeepsWireInv(t: Tcb, stream: seq<Byte>, ev: Event)
    requires WireInv(t, stream) && ev.Send? && Enabled(t, ev) && NoWrap(t, ev)
    ensures WireInv(Apply(t, ev).t, stream + ev.data)
    ensures OutSliced(t.iss, stream + ev.data, Apply(t, ev).out)
  {
    var t', stream' := Apply(t, ev).t, stream + ev.data;
    forall e | e in t'.queue
      ensures EntrySliced(t', stream', e)
    {
      if e in t.queue {
        assert EntrySliced(t, stream, e);
        if e.data != [] {
          SliceGrows(t.iss, stream, ev.data, e.seqNo, e.data);
        }
      }
    }
  }

  lemma CommandKeepsWireInv(t: Tcb, stream: seq<Byte>, ev: Event)
    requires WireInv(t, stream) && LocalInv(t) && Enabled(t, ev) && NoWrap(t, ev)
    requires !ev.Arrive? && !ev.TimerTick? && !ev.Send?
    ensures WireInv(Apply(t, ev).t, stream)
    ensures forall s :: s in Apply(t, ev).out ==> s.data == []
  {
    var t' := Apply(t, ev).t;
    forall e | e in t'.queue
      ensures EntrySliced(t', stream, e)
    {
      if e in t.queue {
        assert EntrySliced(t, stream, e);
      }
    }
  }

  // ---- steps and runs

  /** One step: what it says is sliced from the stream unless it is such a timer pass. */
  lemma StepSaysSlicesIff(t: Tcb, stream: seq<Byte>, ev: Event)
    requires WireInv(t, stream) && LocalInv(t) && Enabled(t, ev) && NoWrap(t, ev)
    ensures WireInv(Apply(t, ev).t, StreamAfter(stream, ev))
    ensures OutSliced(t.iss, StreamAfter(stream, ev), Apply(t, ev).out) <==> !Leaks(t, ev)
  {
    if ev.Arrive? {
      ArriveKeepsWireInv(t, stream, ev.seg, ev.env);
      ArrivalSaysNoText(t, ev.seg, ev.env);
    } else if ev.TimerTick? {
      TickKeepsWireInv(t, stream, ev);
      TickSaysSlicesIff(t, stream, ev);
    } else if ev.Send? {
      SendKeepsWireInv(t, stream, ev);
    } else {
      CommandKeepsWireInv(t, stream, ev);
    }
  }

  /** What tcp_send has taken in the first `k` steps. */
  function Written(evs: seq<Event>, k: nat): seq<Byte>
    requires k <= |evs|
  {
    if k == 0 then [] else StreamAfter(Written(evs, k - 1), evs[k - 1])
  }

  ghost predicate SlicedAt(ts: seq<Tcb>, evs: seq<Event>, i: nat)
    requires |ts| == |evs| + 1 && i < |evs|
  {
    Enabled(ts[i], evs[i]) && OutSliced(ts[i].iss, Written(evs, i + 1), Apply(ts[i], evs[i]).out)
  }

  ghost predicate LeaksAt(ts: seq<Tcb>, evs: seq<Event>, i: nat)
    requires |ts| == |evs| + 1 && i < |evs|
  {
    Enabled(ts[i], evs[i]) && Leaks(ts[i], evs[i])
  }

  lemma {:induction false} RunKeepsWireInv(ts: seq<Tcb>, evs: seq<Event>, k: nat)
    requires IsRun(ts, evs) && k < |ts|
    ensures WireInv(ts[k], Written(evs, k))
    decreases k
  {
    if k > 0 {
      RunKeepsWireInv(ts, evs, k - 1);
      RunKeepsLocalInv(ts, evs, k - 1);
      assert StepAt(ts, evs, k - 1);
      StepSaysSlicesIff(ts[k - 1], Written(evs, k - 1), evs[k - 1]);
    }
  }

  /**
  In every step of every run with an arbitrary peer: the payloads sent are the slices of
  the stream at SEQ - ISS - 1 if and only if the step is not a timer pass that sends text
  at or beyond SND.NXT.
   */
  lemma PayloadsAreSlicesIff(ts: seq<Tcb>, evs: seq<Event>, i: nat)
    requires IsRun(ts, evs) && i < |evs|
    ensures SlicedAt(ts, evs, i) <==> !LeaksAt(ts, evs, i)
  {
    RunKeepsWireInv(ts, evs, i);
    RunKeepsLocalInv(ts, evs, i);
    assert StepAt(ts, evs, i);
    StepSaysSlicesIff(ts[i], Written(evs, i), evs[i]);
  }
}
