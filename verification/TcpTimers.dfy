/**
What a timer pass does, read off the clock: which entries it resends, in which order, and
that it closes the block exactly when some segment has waited twelve seconds.
 */
module TcpTimers {
  import opened Words
  import opened Clock
  import opened TcpSpec
  import opened TcpQueue
  import opened TcpLocal
  import opened TcpBackoff

  /** Twelve seconds since the segment was first sent. */
  predicate Overdue(e: Entry, now: Time) {
    Micros(now) - Micros(e.first) >= 12 * MILLION
  }

  /** Not overdue, and later than the timer set when it was last sent. */
  predicate Again(e: Entry, now: Time) {
    !Overdue(e, now) && Micros(now) > Micros(e.last) + e.rto
  }

  function Restarted(e: Entry, now: Time): Entry {
    e.(last := now, rto := 2 * e.rto % TWO_32)
  }

  lemma OneEntry(t: Tcb, i: nat, now: Time)
    requires i < |t.queue|
    ensures var e := t.queue[i];
            EmitOne(t, i, now) ==
            if Overdue(e, now) then Result(t.(state := Closed), [])
            else if Again(e, now) then
              Result(t.(queue := t.queue[i := Restarted(e, now)]),
                     [Segment(e.seqNo, t.rcvNxt, e.flg, t.rcvWnd, e.data)])
            else Result(t, [])
  {
    FateByInstant(t.queue[i], now);
  }

  ghost predicate OverdueFrom(q: seq<Entry>, clock: seq<Time>, i: nat)
    requires |q| == |clock|
  {
    exists j :: i <= j < |q| && Overdue(q[j], clock[j])
  }

  lemma {:induction false} PassCloses(t: Tcb, i: nat, clock: seq<Time>)
    requires i <= |t.queue| == |clock|
    ensures EmitFrom(t, i, clock).t.state == if OverdueFrom(t.queue, clock, i) then Closed else t.state
    decreases |t.queue| - i
  {
    if i < |t.queue| {
      OneEntry(t, i, clock[i]);
      var t1 := EmitOne(t, i, clock[i]).t;
      PassCloses(t1, i + 1, clock);
      assert OverdueFrom(t.queue, clock, i) <==> Overdue(t.queue[i], clock[i]) || OverdueFrom(t.queue, clock, i + 1);
      assert OverdueFrom(t1.queue, clock, i + 1) <==> OverdueFrom(t.queue, clock, i + 1);
    }
  }

  lemma {:induction false} PassRestarts(t: Tcb, i: nat, clock: seq<Time>, j: nat)
    requires i <= |t.queue| == |clock| && j < |t.queue|
    ensures |EmitFrom(t, i, clock).t.queue| == |t.queue|
    ensures EmitFrom(t, i, clock).t.queue[j] ==
            if i <= j && Again(t.queue[j], clock[j]) then Restarted(t.queue[j], clock[j]) else t.queue[j]
    decreases |t.queue| - i
  {
    if i < |t.queue| {
      OneEntry(t, i, clock[i]);
      PassRestarts(EmitOne(t, i, clock[i]).t, i + 1, clock, j);
    }
  }

  /** `js` lists the entries from `i` on that are due, in order. */
  ghost predicate Due(q: seq<Entry>, clock: seq<Time>, i: nat, js: seq<nat>)
    requires |q| == |clock|
  {
    && (forall n :: 0 <= n < |js| ==> i <= js[n] < |q| && Again(q[js[n]], clock[js[n]]))
    && (forall m, n :: 0 <= m < n < |js| ==> js[m] < js[n])
    && (forall j :: i <= j < |q| && Again(q[j], clock[j]) ==> j in js)
  }

  /** The segments are those of the listed entries, with the current RCV.NXT and RCV.WND. */
  ghost predicate SentFor(t: Tcb, js: seq<nat>, out: seq<Segment>) {
    && |out| == |js|
    && forall n :: 0 <= n < |js| ==>
         && js[n] < |t.queue|
         && var e := t.queue[js[n]]; out[n] == Segment(e.seqNo, t.rcvNxt, e.flg, t.rcvWnd, e.data)
  }

  lemma DueElsewhere(q: seq<Entry>, q': seq<Entry>, clock: seq<Time>, i: nat, js: seq<nat>)
    requires i < |q| == |q'| == |clock| && Due(q', clock, i + 1, js)
    requires forall j :: i < j < |q| ==> q'[j] == q[j]
    ensures Again(q[i], clock[i]) ==> Due(q, clock, i, [i] + js)
    ensures !Again(q[i], clock[i]) ==> Due(q, clock, i, js)
  {
    if Again(q[i], clock[i]) {
      var js' := [i] + js;
      forall j | i <= j < |q| && Again(q[j], clock[j])
        ensures j in js'
      {
        assert j == i || j in js;
      }
    }
  }

  lemma {:induction false} PassSends(t: Tcb, i: nat, clock: seq<Time>) returns (js: seq<nat>)
    requires i <= |t.queue| == |clock|
    ensures Due(t.queue, clock, i, js) && SentFor(t, js, EmitFrom(t, i, clock).out)
    decreases |t.queue| - i
  {
    js := [];
    if i < |t.queue| {
      OneEntry(t, i, clock[i]);
      var one := EmitOne(t, i, clock[i]);
      var rest := PassSends(one.t, i + 1, clock);
      js := PassPrepends(t, i, clock, one, rest, EmitFrom(one.t, i + 1, clock).out);
    }
  }

  lemma PassPrepends(t: Tcb, i: nat, clock: seq<Time>, one: Result, rest: seq<nat>, out: seq<Segment>)
    returns (js: seq<nat>)
    requires i < |t.queue| == |clock| && one == EmitOne(t, i, clock[i]) && |one.t.queue| == |clock|
    requires Due(one.t.queue, clock, i + 1, rest) && SentFor(one.t, rest, out)
    ensures Due(t.queue, clock, i, js) && SentFor(t, js, one.out + out)
  {
    OneEntry(t, i, clock[i]);
    DueElsewhere(t.queue, one.t.queue, clock, i, rest);
    SentElsewhere(t, one.t, clock, i, rest, out);
    if Again(t.queue[i], clock[i]) {
      js := [i] + rest;
    } else {
      js := rest;
      assert one.out + out == out;
    }
  }

  lemma SentElsewhere(t: Tcb, t1: Tcb, clock: seq<Time>, i: nat, js: seq<nat>, out: seq<Segment>)
    requires i < |t.queue| == |t1.queue| == |clock| && Due(t1.queue, clock, i + 1, js) && SentFor(t1, js, out)
    requires t1.rcvNxt == t.rcvNxt && t1.rcvWnd == t.rcvWnd
    requires forall j :: i < j < |t.queue| ==> t1.queue[j] == t.queue[j]
    ensures SentFor(t, js, out)
    ensures var e := t.queue[i]; SentFor(t, [i] + js, [Segment(e.seqNo, t.rcvNxt, e.flg, t.rcvWnd, e.data)] + out)
  {
  }

  /** The block is in use, and its time to wait is not over. */
  predicate InUse(t: Tcb, now: Time) {
    t.state != Free && t.state != Closed && !(t.state == TimeWait && Micros(now) > Micros(t.twTimer))
  }

  lemma PassIsEmission(t: Tcb, ev: Event)
    requires ev.TimerTick? && Enabled(t, ev) && InUse(t, ev.now)
    ensures Apply(t, ev) == EmitFrom(t, 0, ev.clock)
  {
    FieldwiseIsInstant(ev.now, t.twTimer);
  }

  /**
  A timer pass closes a block in use exactly if some queued segment was first sent twelve
  seconds ago or more; otherwise the state stays. It changes nothing else but the timers of
  the entries that are due, and sends exactly those, in order.
   */
  lemma TimerPassTable(t: Tcb, ev: Event) returns (js: seq<nat>)
    requires ev.TimerTick? && Enabled(t, ev) && InUse(t, ev.now)
    ensures var t' := Apply(t, ev).t;
            && (t'.state == Closed <==> exists i :: 0 <= i < |t.queue| && Overdue(t.queue[i], ev.clock[i]))
            && (t'.state != Closed ==> t'.state == t.state)
            && t' == t.(state := t'.state, queue := t'.queue) && |t'.queue| == |t.queue|
            && (forall j :: 0 <= j < |t.queue| ==>
                  t'.queue[j] ==
                  if Again(t.queue[j], ev.clock[j]) then Restarted(t.queue[j], ev.clock[j]) else t.queue[j])
    ensures Due(t.queue, ev.clock, 0, js) && SentFor(t, js, Apply(t, ev).out)
  {
    PassIsEmission(t, ev);
    PassCloses(t, 0, ev.clock);
    EmitTouchesTimersOnly(t, 0, ev.clock);
    forall j | 0 <= j < |t.queue|
      ensures Apply(t, ev).t.queue[j] ==
              if Again(t.queue[j], ev.clock[j]) then Restarted(t.queue[j], ev.clock[j]) else t.queue[j]
    {
      PassRestarts(t, 0, ev.clock, j);
    }
    js := PassSends(t, 0, ev.clock);
  }

  // ---- over runs

  /** The event carries a clock reading with which it may queue a segment. */
  predicate Stamps(ev: Event, at: Time) {
    match ev
    case Arrive(_, env) => env.now == at
    case Connect(_, now, _) => now == at
    case Send(_, now) => now == at
    case SendFails(_, now, _) => now == at
    case Close(now, _) => now == at
    case _ => false
  }

  /** The event sends the segment, or tries to, at the time the entry gives as its first. */
  ghost predicate FirstSends(t: Tcb, ev: Event, e: Entry) {
    && Enabled(t, ev) && Stamps(ev, e.first)
    && (ev.SendFails? || exists s :: s in Apply(t, ev).out && s.seqNo == e.seqNo && s.flg == e.flg && s.data == e.data)
  }

  /** The same entry, but for its timer. */
  predicate SameSegment(d: Entry, e: Entry) {
    e == d.(last := e.last, rto := e.rto)
  }

  lemma TickKeepsFirst(t: Tcb, ev: Event, e: Entry)
    requires ev.TimerTick? && Enabled(t, ev) && e in Apply(t, ev).t.queue && e !in t.queue
    ensures exists d :: d in t.queue && SameSegment(d, e)
  {
    var q' := EmitFrom(t, 0, ev.clock).t.queue;
    EmitTouchesTimersOnly(t, 0, ev.clock);
    var j :| 0 <= j < |q'| && q'[j] == e;
    PassRestarts(t, 0, ev.clock, j);
    assert t.queue[j] in t.queue && SameSegment(t.queue[j], e);
  }

  lemma ArrivalQueuesNow(t: Tcb, s: Segment, env: Env, e: Entry)
    requires e in Arrives(t, s, env).t.queue && e !in t.queue
    ensures FirstSends(t, Arrive(s, env), e)
  {
    CleanupIsSuffix(t.queue, s.ackNo);
    if Synchronised(t.state) {
      ArrivalDropsOnly(t, s, env);
    }
  }

  lemma ArrivalDropsOnly(t: Tcb, s: Segment, env: Env)
    requires Synchronised(t.state)
    ensures var q' := ArrivesSynchronised(t, s, env).t.queue;
            q' == t.queue || q' == [] || q' == Cleanup(t.queue, s.ackNo)
  {
    if Reaches(t, s, env) {
      TextAndFinKeepQueue(ProcessAck(t, s, env).t, s, env);
    }
  }

  lemma StepQueuesNow(t: Tcb, ev: Event, e: Entry)
    requires Enabled(t, ev) && e in Apply(t, ev).t.queue
    ensures FirstSends(t, ev, e) || exists d :: d in t.queue && SameSegment(d, e)
  {
    if e in t.queue {
      assert SameSegment(e, e);
    } else if ev.TimerTick? {
      TickKeepsFirst(t, ev, e);
    } else if ev.Arrive? {
      ArrivalQueuesNow(t, ev.seg, ev.env, e);
    }
  }

  ghost predicate FirstSentAt(ts: seq<Tcb>, evs: seq<Event>, i: nat, e: Entry)
    requires |ts| == |evs| + 1 && i < |evs|
  {
    FirstSends(ts[i], evs[i], e)
  }

  ghost predicate FirstSentBefore(ts: seq<Tcb>, evs: seq<Event>, k: nat, e: Entry)
    requires |ts| == |evs| + 1 && k <= |evs|
  {
    exists i :: 0 <= i < k && FirstSentAt(ts, evs, i, e)
  }

  lemma FirstSendsAgree(t: Tcb, ev: Event, d: Entry, e: Entry)
    requires FirstSends(t, ev, d) && SameSegment(d, e)
    ensures FirstSends(t, ev, e)
  {
  }

  /** Over every run the time an entry counts its deadline from is the time of the event that first sent it. */
  lemma {:induction false} FirstIsSendTime(ts: seq<Tcb>, evs: seq<Event>, k: nat, e: Entry)
    requires IsRun(ts, evs) && k < |ts| && e in ts[k].queue
    ensures FirstSentBefore(ts, evs, k, e)
    decreases k
  {
    if k > 0 {
      assert StepAt(ts, evs, k - 1);
      StepQueuesNow(ts[k - 1], evs[k - 1], e);
      if FirstSends(ts[k - 1], evs[k - 1], e) {
        assert FirstSentAt(ts, evs, k - 1, e);
      } else {
        var d :| d in ts[k - 1].queue && SameSegment(d, e);
        FirstIsSendTime(ts, evs, k - 1, d);
        var i :| 0 <= i < k - 1 && FirstSentAt(ts, evs, i, d);
        FirstSendsAgree(ts[i], evs[i], d, e);
        assert FirstSentAt(ts, evs, i, e);
      }
    }
  }

  /**
  Over every run with an arbitrary peer: a timer pass closes a block in use if and only if
  some queued segment was first sent, by an earlier event of the run, twelve seconds or
  more before the reading the pass takes for it.
   */
  lemma DeadlineOverRuns(ts: seq<Tcb>, evs: seq<Event>, k: nat)
    requires IsRun(ts, evs) && k < |evs| && evs[k].TimerTick? && InUse(ts[k], evs[k].now)
    ensures |evs[k].clock| == |ts[k].queue|
    ensures ts[k + 1].state == Closed <==>
            exists j :: && 0 <= j < |ts[k].queue| && Overdue(ts[k].queue[j], evs[k].clock[j])
                        && FirstSentBefore(ts, evs, k, ts[k].queue[j])
    ensures ts[k + 1].state != Closed ==> ts[k + 1].state == ts[k].state
  {
    assert StepAt(ts, evs, k);
    var js := TimerPassTable(ts[k], evs[k]);
    forall j | 0 <= j < |ts[k].queue|
      ensures FirstSentBefore(ts, evs, k, ts[k].queue[j])
    {
      FirstIsSendTime(ts, evs, k, ts[k].queue[j]);
    }
  }
}
