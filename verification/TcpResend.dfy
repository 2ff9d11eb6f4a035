/**
Retransmissions counted on the wire: over every run of a block, whatever its peer sends and
whatever the clock shows, the timer puts no segment on the wire more than five times.
 */
module TcpResend {
  import opened Words
  import opened Clock
  import opened TcpSpec
  import opened TcpQueue
  import opened TcpLocal
  import opened TcpBackoff
  import opened TcpCover
  import opened TcpWire

  // ---- one timer pass

  lemma CopiesAfter(a: seq<Segment>, b: seq<Segment>, key: Key)
    requires |a| <= 1
    ensures Copies(a + b, key) == Copies(a, key) + Copies(b, key)
  {
    if a == [] {
      assert a + b == b;
    } else {
      assert (a + b)[1..] == b && a[1..] == [];
    }
  }

  lemma EmitKeepsKeys(t: Tcb, i: nat, clock: seq<Time>)
    requires i <= |t.queue| == |clock|
    ensures SameKeys(t.queue, EmitFrom(t, i, clock).t.queue)
  {
    EmitTouchesTimersOnly(t, i, clock);
  }

  /** The pass does not come back to entries before `i`. */
  lemma {:induction false} EmitKeepsFront(t: Tcb, i: nat, clock: seq<Time>, j: nat)
    requires j < i <= |t.queue| == |clock|
    ensures |EmitFrom(t, i, clock).t.queue| == |t.queue| && EmitFrom(t, i, clock).t.queue[j] == t.queue[j]
    decreases |t.queue| - i
  {
    if i < |t.queue| {
      EmitKeepsFront(EmitOne(t, i, clock[i]).t, i + 1, clock, j);
    }
  }

  /** What the pass does with one entry that is not resent, or has another key. */
  lemma OneSaysNothing(t: Tcb, i: nat, now: Time, key: Key)
    requires i < |t.queue| && KeyOf(t.queue[i]) != key
    ensures var one := EmitOne(t, i, now); |one.out| <= 1 && Copies(one.out, key) == 0 && SameKeys(t.queue, one.t.queue)
  {
  }

  lemma {:induction false} EmitNone(t: Tcb, i: nat, clock: seq<Time>, key: Key)
    requires i <= |t.queue| == |clock| && AbsentFrom(t.queue, i, key)
    ensures Copies(EmitFrom(t, i, clock).out, key) == 0
    decreases |t.queue| - i
  {
    if i < |t.queue| {
      var one := EmitOne(t, i, clock[i]);
      OneSaysNothing(t, i, clock[i], key);
      EmitNone(one.t, i + 1, clock, key);
      CopiesAfter(one.out, EmitFrom(one.t, i + 1, clock).out, key);
    }
  }

  lemma CountedAt(q: seq<Entry>, q': seq<Entry>, i: nat, key: Key, n: nat, n': nat)
    requires i < |q| && SameKeys(q, q') && Counted(q, key, n) && KeyOf(q[i]) == key && ResentTimes(q'[i], n')
    ensures Counted(q', key, n')
  {
  }

  lemma OneResent(t: Tcb, i: nat, now: Time, key: Key, n: nat)
    requires i < |t.queue| && KeyOf(t.queue[i]) == key && ResentTimes(t.queue[i], n)
    ensures var one := EmitOne(t, i, now);
            var n' := n + Copies(one.out, key);
            && |one.out| <= 1 && n' <= MAX_RESENDS && SameKeys(t.queue, one.t.queue) && ResentTimes(one.t.queue[i], n')
  {
    if FateOf(t.queue[i], now) == Due {
      ResendStep(t.queue[i], n, now);
      assert EmitOne(t, i, now).out[1..] == [];
    }
  }

  /** The pass reaches the entry: it is resent, or left alone, and the rest of the pass does not meet it again. */
  lemma EmitReached(t: Tcb, i: nat, clock: seq<Time>, key: Key, n: nat)
    requires i < |t.queue| == |clock| && Counted(t.queue, key, n) && KeyOf(t.queue[i]) == key
    ensures var r := EmitFrom(t, i, clock);
            n + Copies(r.out, key) <= MAX_RESENDS && Counted(r.t.queue, key, n + Copies(r.out, key))
  {
    var one := EmitOne(t, i, clock[i]);
    OneResent(t, i, clock[i], key, n);
    assert AbsentFrom(one.t.queue, i + 1, key);
    EmitNone(one.t, i + 1, clock, key);
    var r := EmitFrom(one.t, i + 1, clock);
    CopiesAfter(one.out, r.out, key);
    EmitKeepsFront(one.t, i + 1, clock, i);
    EmitKeepsKeys(t, i, clock);
    CountedAt(t.queue, r.t.queue, i, key, n, n + Copies(one.out, key));
  }

  lemma SkippedStaysCounted(t: Tcb, i: nat, now: Time, key: Key, n: nat)
    requires i < |t.queue| && Counted(t.queue, key, n) && KeyOf(t.queue[i]) != key
    ensures Counted(EmitOne(t, i, now).t.queue, key, n) && |EmitOne(t, i, now).t.queue| == |t.queue|
  {
  }

  lemma {:induction false} EmitCounts(t: Tcb, i: nat, clock: seq<Time>, key: Key, n: nat)
    requires i <= |t.queue| == |clock| && n <= MAX_RESENDS && Counted(t.queue, key, n)
    ensures var r := EmitFrom(t, i, clock);
            n + Copies(r.out, key) <= MAX_RESENDS && Counted(r.t.queue, key, n + Copies(r.out, key))
    decreases |t.queue| - i
  {
    if i < |t.queue| {
      if KeyOf(t.queue[i]) == key {
        EmitReached(t, i, clock, key, n);
      } else {
        var one := EmitOne(t, i, clock[i]);
        OneSaysNothing(t, i, clock[i], key);
        SkippedStaysCounted(t, i, clock[i], key, n);
        EmitCounts(one.t, i + 1, clock, key, n);
        CopiesAfter(one.out, EmitFrom(one.t, i + 1, clock).out, key);
      }
    }
  }

  // ---- steps

  lemma {:induction false} CleanupCounts(q: seq<Entry>, u: U32, key: Key, n: nat)
    requires Counted(q, key, n)
    ensures Counted(Cleanup(q, u), key, n) && (Absent(q, key) ==> Absent(Cleanup(q, u), key))
  {
    if q != [] && q[0].seqNo < u {
      CleanupCounts(q[1..], u, key, n);
    }
  }

  /** Queueing a key that was never queued. */
  lemma AppendCounts(q: seq<Entry>, e: Entry, key: Key, n: nat)
    requires Counted(q, key, n) && Brandnew(e) && (KeyOf(e) == key ==> n == 0 && Absent(q, key))
    ensures Counted(q + [e], key, n) && (KeyOf(e) != key && Absent(q, key) ==> Absent(q + [e], key))
  {
    NewEntryOk(e);
  }

  lemma PassCounts(t: Tcb, clock: seq<Time>, key: Key, n: nat) returns (t': Tcb, n': nat)
    requires |t.queue| == |clock| && n <= MAX_RESENDS && Counted(t.queue, key, n)
    ensures t' == EmitFrom(t, 0, clock).t && n' == n + Copies(EmitFrom(t, 0, clock).out, key)
    ensures TimersOnly(t, t') && n' <= MAX_RESENDS && Counted(t'.queue, key, n')
    ensures Absent(t.queue, key) ==> Absent(t'.queue, key) && n' == n
  {
    t', n' := EmitFrom(t, 0, clock).t, n + Copies(EmitFrom(t, 0, clock).out, key);
    EmitCounts(t, 0, clock, key, n);
    EmitTouchesTimersOnly(t, 0, clock);
    AbsentStaysAbsent(t, clock, key);
  }

  lemma PassKeepsResendInv(t: Tcb, clock: seq<Time>, key: Key, n: nat)
    requires ResendInv(t, key, n) && t.state != Free && |t.queue| == |clock|
    ensures ResendInv(EmitFrom(t, 0, clock).t, key, n + Copies(EmitFrom(t, 0, clock).out, key))
  {
    var t', n' := PassCounts(t, clock, key, n);
    TimersKeepResendInv(t, t', key, n, n');
  }

  lemma TickKeepsResendInv(t: Tcb, ev: Event, key: Key, n: nat)
    requires ResendInv(t, key, n) && ev.TimerTick? && Enabled(t, ev)
    ensures ResendInv(Apply(t, ev).t, key, n + Copies(Apply(t, ev).out, key))
  {
    if t.state != Free && !(t.state == TimeWait && Later(ev.now, t.twTimer)) {
      PassKeepsResendInv(t, ev.clock, key, n);
    }
  }

  lemma AbsentStaysAbsent(t: Tcb, clock: seq<Time>, key: Key)
    requires |t.queue| == |clock|
    ensures var r := EmitFrom(t, 0, clock); Absent(t.queue, key) ==> Absent(r.t.queue, key) && Copies(r.out, key) == 0
  {
    if Absent(t.queue, key) {
      EmitNone(t, 0, clock, key);
      EmitKeepsKeys(t, 0, clock);
    }
  }

  lemma TimersKeepResendInv(t: Tcb, t': Tcb, key: Key, n: nat, n': nat)
    requires ResendInv(t, key, n) && TimersOnly(t, t') && t.state != Free
    requires n' <= MAX_RESENDS && Counted(t'.queue, key, n')
    requires Absent(t.queue, key) ==> Absent(t'.queue, key) && n' == n
    ensures ResendInv(t', key, n')
  {
  }

  lemma AdvancedKeepsResendInv(t: Tcb, t': Tcb, key: Key, n: nat)
    requires ResendInv(t, key, n) && Active(t.state) && t'.sndNxt == t.sndNxt > 0 && t'.state != Listen
    requires Active(t'.state) ==> t'.state != SynSent
    requires Counted(t'.queue, key, n) && (Absent(t.queue, key) ==> Absent(t'.queue, key))
    ensures ResendInv(t', key, n)
  {
  }

  lemma SynchronisedKeepsResendInv(t: Tcb, s: Segment, env: Env, key: Key, n: nat)
    requires ResendInv(t, key, n) && LocalInv(t) && Synchronised(t.state)
    ensures ResendInv(ArrivesSynchronised(t, s, env).t, key, n)
  {
    var t' := ArrivesSynchronised(t, s, env).t;
    ArrivalSendHalf(t, s, env);
    ArrivalMovesOn(t, s, env);
    CleanupCounts(t.queue, s.ackNo, key, n);
    if t'.state == Closed {
      AbandonedByArrival(t, s, env);
    }
    if t'.state != Free {
      AdvancedKeepsResendInv(t, t', key, n);
    } else {
      FreedByArrival(t, s, env);
    }
  }

  lemma ListenKeepsResendInv(t: Tcb, s: Segment, env: Env, key: Key, n: nat)
    requires ResendInv(t, key, n) && t.state == Listen
    ensures ResendInv(ArrivesListen(t, s, env).t, key, n)
  {
    var e := Entry(env.now, env.now, DEFAULT_RTO, env.random, SYN_ACK, []);
    AppendCounts(t.queue, e, key, n);
  }

  lemma SynSentKeepsResendInv(t: Tcb, s: Segment, env: Env, key: Key, n: nat)
    requires ResendInv(t, key, n) && LocalInv(t) && t.state == SynSent
    ensures ResendInv(ArrivesSynSent(t, s, env).t, key, n)
  {
    var e := Entry(env.now, env.now, DEFAULT_RTO, t.iss, SYN_ACK, []);
    AppendCounts(t.queue, e, key, n);
    CleanupCounts(t.queue, s.ackNo, key, n);
  }

  lemma CommandKeepsResendInv(t: Tcb, ev: Event, key: Key, n: nat)
    requires ResendInv(t, key, n) && LocalInv(t) && Enabled(t, ev) && NoWrap(t, ev) && !ev.Arrive? && !ev.TimerTick?
    ensures ResendInv(Apply(t, ev).t, key, n)
  {
    match ev
    case Connect(random, now, _) =>
      AppendCounts(t.queue, Entry(now, now, DEFAULT_RTO, random, SYN, []), key, n);
    case Send(data, now) =>
      AppendCounts(t.queue, Entry(now, now, DEFAULT_RTO, t.sndNxt, PSH_ACK, data), key, n);
    case SendFails(data, now, _) =>
      AppendCounts(t.queue, Entry(now, now, DEFAULT_RTO, t.sndNxt, PSH_ACK, data), key, n);
    case Close(now, _) =>
      if ClosesWithFin(t.state) {
        AppendCounts(t.queue, Entry(now, now, DEFAULT_RTO, t.sndNxt, FIN_ACK, []), key, n);
      }
    case _ =>
  }

  lemma StepKeepsResendInv(t: Tcb, ev: Event, key: Key, n: nat)
    requires ResendInv(t, key, n) && LocalInv(t) && Enabled(t, ev) && NoWrap(t, ev)
    ensures ResendInv(Apply(t, ev).t, key, n + ResentBy(t, ev, key))
  {
    match ev
    case Arrive(s, env) =>
      if t.state == Listen {
        ListenKeepsResendInv(t, s, env, key, n);
      } else if t.state == SynSent {
        SynSentKeepsResendInv(t, s, env, key, n);
      } else if Synchronised(t.state) {
        SynchronisedKeepsResendInv(t, s, env, key, n);
      }
    case TimerTick(_, _, _) => TickKeepsResendInv(t, ev, key, n);
    case _ => CommandKeepsResendInv(t, ev, key, n);
  }

  // ---- runs

  lemma OnTheWireStep(ts: seq<Tcb>, evs: seq<Event>, key: Key, k: nat)
    requires |ts| == |evs| + 1 && 0 < k < |ts| && Enabled(ts[k - 1], evs[k - 1])
    ensures OnTheWire(ts, evs, key, k) == OnTheWire(ts, evs, key, k - 1) + ResentBy(ts[k - 1], evs[k - 1], key)
  {
  }

  lemma StepTo(t: Tcb, ev: Event, t': Tcb, key: Key, n: nat, n': nat)
    requires ResendInv(t, key, n) && LocalInv(t) && Enabled(t, ev) && NoWrap(t, ev)
    requires t' == Apply(t, ev).t && n' == n + ResentBy(t, ev, key)
    ensures ResendInv(t', key, n')
  {
    StepKeepsResendInv(t, ev, key, n);
  }

  lemma ResendStepAt(ts: seq<Tcb>, evs: seq<Event>, key: Key, k: nat)
    requires |ts| == |evs| + 1 && 0 < k < |ts| && StepAt(ts, evs, k - 1)
    requires ResendUpTo(ts, evs, key, k - 1) && LocalInv(ts[k - 1])
    ensures ResendAt(ts, evs, key, k)
  {
    assert ResendAt(ts, evs, key, k - 1);
    OnTheWireStep(ts, evs, key, k);
    StepTo(ts[k - 1], evs[k - 1], ts[k], key, OnTheWire(ts, evs, key, k - 1), OnTheWire(ts, evs, key, k));
  }

  lemma StartIsCounted(ts: seq<Tcb>, evs: seq<Event>, key: Key)
    requires IsRun(ts, evs)
    ensures ResendAt(ts, evs, key, 0)
  {
  }

  lemma {:induction false} RunKeepsResendInv(ts: seq<Tcb>, evs: seq<Event>, key: Key, k: nat)
    requires IsRun(ts, evs) && k < |ts|
    ensures ResendUpTo(ts, evs, key, k)
    decreases k
  {
    if k == 0 {
      StartIsCounted(ts, evs, key);
    } else {
      RunKeepsResendInv(ts, evs, key, k - 1);
      RunKeepsLocalInv(ts, evs, k - 1);
      assert StepAt(ts, evs, k - 1);
      ResendStepAt(ts, evs, key, k);
    }
  }

  /**
  Over every run with an arbitrary peer and any clock: all timer passes together put a
  segment with given sequence number, flags and text on the wire at most five times.
   */
  lemma AtMostFiveOnTheWire(ts: seq<Tcb>, evs: seq<Event>, key: Key, k: nat)
    requires IsRun(ts, evs) && k < |ts|
    ensures OnTheWire(ts, evs, key, k) <= 5
  {
    RunKeepsResendInv(ts, evs, key, k);
    assert ResendAt(ts, evs, key, k);
  }
}
