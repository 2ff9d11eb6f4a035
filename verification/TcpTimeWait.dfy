/** TIME-WAIT ends thirty seconds after the last FIN that reached the block, and not before. */
module TcpTimeWait {
  import opened Clock
  import opened TcpSpec
  import opened TcpLocal

  /** The arrival enters TIME-WAIT, or repeats the FIN there: either starts the timer. */
  predicate Restarts(t: Tcb, s: Segment, env: Env) {
    Arrives(t, s, env).t.state == TimeWait && (t.state != TimeWait || (Reaches(t, s, env) && s.flg.fin))
  }

  /** The timer runs out thirty seconds after `start`. */
  predicate TimerSince(t: Tcb, start: Time) {
    Micros(t.twTimer) == Micros(start) + 30 * MILLION
  }

  lemma ArrivalSetsTimer(t: Tcb, s: Segment, env: Env)
    requires Arrives(t, s, env).t.state == TimeWait
    ensures var t' := Arrives(t, s, env).t;
            if Restarts(t, s, env) then TimerSince(t', env.now) else t'.twTimer == t.twTimer
  {
    if Reaches(t, s, env) {
      var t1 := ProcessAck(t, s, env).t;
      AckMoves(t, s, env);
      assert Arrives(t, s, env).t == ProcessFin(ProcessText(t1, s).t, s, env).t;
      assert ProcessText(t1, s).t.twTimer == t1.twTimer && ProcessText(t1, s).t.state == t1.state;
    } else {
      ArrivalMoves(t, s, env);
    }
  }

  lemma OthersKeepTimer(t: Tcb, ev: Event)
    requires Enabled(t, ev) && !ev.Arrive? && Apply(t, ev).t.state == TimeWait
    ensures Apply(t, ev).t.twTimer == t.twTimer
  {
    if ev.TimerTick? {
      EmitTouchesTimersOnly(t, 0, ev.clock);
    }
  }

  lemma TickEndsTimeWaitIff(t: Tcb, now: Time, clock: seq<Time>, waiters: bool)
    requires LocalInv(t) && t.state == TimeWait && |clock| == |t.queue|
    ensures Tick(t, now, clock, waiters).t.state != TimeWait <==> Micros(now) > Micros(t.twTimer) && !waiters
  {
    FieldwiseIsInstant(now, t.twTimer);
    assert EmitFrom(t, 0, clock) == Result(t, []);
  }

  /** The step stays in TIME-WAIT and does not start the timer again. */
  predicate Rests(t: Tcb, ev: Event, t': Tcb) {
    t'.state == TimeWait && (ev.Arrive? ==> !Restarts(t, ev.seg, ev.env))
  }

  lemma RestKeepsTimer(t: Tcb, ev: Event, start: Time)
    requires Enabled(t, ev) && TimerSince(t, start) && Rests(t, ev, Apply(t, ev).t)
    ensures TimerSince(Apply(t, ev).t, start)
  {
    if ev.Arrive? {
      ArrivalSetsTimer(t, ev.seg, ev.env);
    } else {
      OthersKeepTimer(t, ev);
    }
  }

  ghost predicate QuietBetween(ts: seq<Tcb>, evs: seq<Event>, i: nat, j: nat)
    requires |ts| == |evs| + 1 && j <= |evs|
  {
    forall k {:trigger evs[k]} :: i < k < j ==> Rests(ts[k], evs[k], ts[k + 1])
  }

  lemma RunStep(ts: seq<Tcb>, evs: seq<Event>, k: nat)
    requires IsRun(ts, evs) && k < |evs|
    ensures Enabled(ts[k], evs[k]) && ts[k + 1] == Apply(ts[k], evs[k]).t
  {
    assert StepAt(ts, evs, k);
  }

  lemma TimerStarts(ts: seq<Tcb>, evs: seq<Event>, i: nat)
    requires IsRun(ts, evs) && i < |evs| && evs[i].Arrive? && Restarts(ts[i], evs[i].seg, evs[i].env)
    ensures ts[i + 1].state == TimeWait && TimerSince(ts[i + 1], evs[i].env.now)
  {
    RunStep(ts, evs, i);
    ArrivalSetsTimer(ts[i], evs[i].seg, evs[i].env);
  }

  lemma TimerHolds(ts: seq<Tcb>, evs: seq<Event>, k: nat, start: Time)
    requires IsRun(ts, evs) && k < |evs| && TimerSince(ts[k], start) && Rests(ts[k], evs[k], ts[k + 1])
    ensures ts[k + 1].state == TimeWait && TimerSince(ts[k + 1], start)
  {
    RunStep(ts, evs, k);
    RestKeepsTimer(ts[k], evs[k], start);
  }

  lemma QuietPrefix(ts: seq<Tcb>, evs: seq<Event>, i: nat, j: nat)
    requires |ts| == |evs| + 1 && i < j < |evs| && QuietBetween(ts, evs, i, j + 1)
    ensures QuietBetween(ts, evs, i, j) && Rests(ts[j], evs[j], ts[j + 1])
  {
  }

  lemma {:induction false} TimerStands(ts: seq<Tcb>, evs: seq<Event>, i: nat, j: nat, start: Time)
    requires IsRun(ts, evs) && i < j < |evs| && QuietBetween(ts, evs, i, j + 1)
    requires ts[i + 1].state == TimeWait && TimerSince(ts[i + 1], start)
    ensures ts[j + 1].state == TimeWait && TimerSince(ts[j + 1], start)
    decreases j
  {
    QuietPrefix(ts, evs, i, j);
    if i + 1 < j {
      TimerStands(ts, evs, i, j - 1, start);
    }
    TimerHolds(ts, evs, j, start);
  }

  lemma TimerAt(ts: seq<Tcb>, evs: seq<Event>, i: nat, j: nat)
    requires IsRun(ts, evs) && i < j < |evs| && QuietBetween(ts, evs, i, j)
    requires evs[i].Arrive? && Restarts(ts[i], evs[i].seg, evs[i].env)
    ensures ts[j].state == TimeWait && TimerSince(ts[j], evs[i].env.now)
  {
    TimerStarts(ts, evs, i);
    if i + 1 < j {
      TimerStands(ts, evs, i, j - 1, evs[i].env.now);
    }
  }

  lemma TickAgainstTimer(t: Tcb, ev: Event, start: Time)
    requires LocalInv(t) && t.state == TimeWait && TimerSince(t, start) && ev.TimerTick? && Enabled(t, ev)
    ensures Apply(t, ev).t.state != TimeWait <==>
            Micros(ev.now) > Micros(start) + 30 * MILLION && !ev.waiters
  {
    TickEndsTimeWaitIff(t, ev.now, ev.clock, ev.waiters);
  }

  /**
  Over every run: after the last arrival that started the timer, a timer pass ends
  TIME-WAIT exactly when more than thirty seconds have gone by and no thread waits.
   */
  lemma TimeWaitLasts(ts: seq<Tcb>, evs: seq<Event>, i: nat, j: nat)
    requires IsRun(ts, evs) && i < j < |evs| && QuietBetween(ts, evs, i, j) && evs[j].TimerTick?
    requires evs[i].Arrive? && Restarts(ts[i], evs[i].seg, evs[i].env)
    ensures ts[j + 1].state != TimeWait <==>
            Micros(evs[j].now) > Micros(evs[i].env.now) + 30 * MILLION && !evs[j].waiters
  {
    TimerAt(ts, evs, i, j);
    RunKeepsLocalInv(ts, evs, j);
    RunStep(ts, evs, j);
    TickAgainstTimer(ts[j], evs[j], evs[i].env.now);
  }
}
