/**
The interruptible sleep of sched.c. A sleep is two critical sections with the condition
wait in between; a waiting thread may run its second section at any time, whether it was
woken, timed out or woke for no reason.
 */
module Sched {

  type Thread = nat

  /** What sched_sleep returns: its own result, or -1 with EINTR. */
  datatype Outcome = Ok(ret: int) | Interrupted

  /** The fields of sched_ctx; `wc` counts the threads between the two sections of a sleep. */
  datatype Ctx = Ctx(interrupted: bool, wc: int)

  function Entered(c: Ctx): Ctx {
    if c.interrupted then c else c.(wc := c.wc + 1)
  }

  function Left(c: Ctx): Ctx {
    Ctx(c.interrupted && c.wc != 1, c.wc - 1)
  }

  function Verdict(c: Ctx, ret: int): Outcome {
    if c.interrupted then Interrupted else Ok(ret)
  }

  class SchedCtx {
    var interrupted: bool
    var wc: int

    function View(): Ctx
      reads this
    {
      Ctx(interrupted, wc)
    }

    constructor ()
      ensures View() == Ctx(false, 0)
    {
      interrupted, wc := false, 0;
    }

    /** sched_sleep up to the wait; false is the return of -1 without waiting. */
    method Enter() returns (joined: bool)
      modifies this
      ensures View() == Entered(old(View())) && joined == !old(interrupted)
    {
      if interrupted {
        return false;
      }
      wc := wc + 1;
      return true;
    }

    /** sched_sleep after the wait, which returned `ret`. */
    method Leave(ret: int) returns (outcome: Outcome)
      modifies this
      ensures View() == Left(old(View())) && outcome == Verdict(old(View()), ret)
    {
      wc := wc - 1;
      if interrupted {
        if wc == 0 {
          interrupted := false;
        }
        return Interrupted;
      }
      return Ok(ret);
    }

    /** sched_interrupt; the broadcast lets every waiter run its second section. */
    method Interrupt()
      modifies this
      ensures View() == old(View()).(interrupted := true)
    {
      interrupted := true;
    }
  }

  // ---- all interleavings

  /** `caught` are the threads that were waiting at an interrupt and have not left yet. */
  datatype System = System(ctx: Ctx, waiting: set<Thread>, caught: set<Thread>)

  datatype Event =
    | Sleeps(t: Thread)
    | Leaves(t: Thread, ret: int)
    | Interrupts
    | Wakes

  /** A thread sleeps once at a time, and leaves only a wait it has entered. */
  predicate Enabled(s: System, ev: Event) {
    match ev
    case Sleeps(t) => t !in s.waiting
    case Leaves(t, _) => t in s.waiting
    case _ => true
  }

  function Apply(s: System, ev: Event): System {
    match ev
    case Sleeps(t) => System(Entered(s.ctx), if s.ctx.interrupted then s.waiting else s.waiting + {t}, s.caught)
    case Leaves(t, _) => System(Left(s.ctx), s.waiting - {t}, s.caught - {t})
    case Interrupts => s.(ctx := s.ctx.(interrupted := true), caught := s.waiting)
    case Wakes => s
  }

  /** What the event returns to the thread: nothing for a thread that starts to wait. */
  function Returns(s: System, ev: Event): seq<Outcome> {
    match ev
    case Sleeps(_) => if s.ctx.interrupted then [Interrupted] else []
    case Leaves(_, ret) => [Verdict(s.ctx, ret)]
    case _ => []
  }

  const START := System(Ctx(false, 0), {}, {})

  ghost predicate Inv(s: System) {
    s.ctx.wc == |s.waiting| && s.caught == if s.ctx.interrupted then s.waiting else {}
  }

  lemma StepKeepsInv(s: System, ev: Event)
    requires Inv(s) && Enabled(s, ev)
    ensures Inv(Apply(s, ev))
  {
    match ev
    case Leaves(t, _) =>
      assert s.waiting == (s.waiting - {t}) + {t};
      if |s.waiting - {t}| == 0 {
        assert s.waiting - {t} == {};
      }
    case _ =>
  }

  ghost predicate IsRun(ss: seq<System>, evs: seq<Event>) {
    && |ss| == |evs| + 1
    && ss[0] == START
    && forall i {:trigger evs[i]} :: 0 <= i < |evs| ==> Enabled(ss[i], evs[i]) && ss[i + 1] == Apply(ss[i], evs[i])
  }

  /** `wc` counts the waiting threads, and while `interrupted` is set exactly they are the caught ones. */
  lemma {:induction false} CountIsWaiters(ss: seq<System>, evs: seq<Event>, k: nat)
    requires IsRun(ss, evs) && k < |ss|
    ensures Inv(ss[k])
    decreases k
  {
    if k > 0 {
      CountIsWaiters(ss, evs, k - 1);
      StepKeepsInv(ss[k - 1], evs[k - 1]);
    }
  }

  /** A thread that is caught stays so, and waiting, until it leaves. */
  lemma {:induction false} CaughtUntilLeft(ss: seq<System>, evs: seq<Event>, i: nat, j: nat, t: Thread)
    requires IsRun(ss, evs) && i < j < |ss|
    requires evs[i] == Interrupts && t in ss[i].waiting
    requires forall k {:trigger evs[k]} :: i < k < j ==> !(evs[k].Leaves? && evs[k].t == t)
    ensures t in ss[j].waiting && t in ss[j].caught
    decreases j
  {
    if j == i + 1 {
      assert ss[i + 1] == Apply(ss[i], evs[i]);
    } else {
      CaughtUntilLeft(ss, evs, i, j - 1, t);
      assert !(evs[j - 1].Leaves? && evs[j - 1].t == t);
      CountIsWaiters(ss, evs, j - 1);
    }
  }

  /** Every thread waiting at the moment of an interrupt gets -1 when it next returns. */
  lemma InterruptReachesEveryWaiter(ss: seq<System>, evs: seq<Event>, i: nat, j: nat, t: Thread)
    requires IsRun(ss, evs) && i < j < |evs|
    requires evs[i] == Interrupts && t in ss[i].waiting && evs[j].Leaves? && evs[j].t == t
    requires forall k {:trigger evs[k]} :: i < k < j ==> !(evs[k].Leaves? && evs[k].t == t)
    ensures Returns(ss[j], evs[j]) == [Interrupted]
  {
    CaughtUntilLeft(ss, evs, i, j, t);
    CountIsWaiters(ss, evs, j);
  }

  /** Nobody else does: a thread leaves with -1 exactly when it was caught, otherwise with what the wait gave. */
  lemma OnlyCaughtAreInterrupted(ss: seq<System>, evs: seq<Event>, j: nat)
    requires IsRun(ss, evs) && j < |evs| && evs[j].Leaves?
    ensures Returns(ss[j], evs[j]) == [if evs[j].t in ss[j].caught then Interrupted else Ok(evs[j].ret)]
  {
    CountIsWaiters(ss, evs, j);
  }

  /** While the flag is set nobody joins, and exactly the last waiter to leave clears it. */
  lemma OnlyLastWaiterClears(ss: seq<System>, evs: seq<Event>, j: nat)
    requires IsRun(ss, evs) && j < |evs| && ss[j].ctx.interrupted
    ensures ss[j + 1].waiting <= ss[j].waiting
    ensures !ss[j + 1].ctx.interrupted <==> evs[j].Leaves? && ss[j].waiting == {evs[j].t}
  {
    CountIsWaiters(ss, evs, j);
    assert Enabled(ss[j], evs[j]);
    if evs[j].Leaves? && |ss[j].waiting| == 1 {
      var t := evs[j].t;
      assert ss[j].waiting == (ss[j].waiting - {t}) + {t};
      assert |ss[j].waiting - {t}| == 0;
    }
  }

  /**
  An interrupt that finds no waiter is never cleared: from then on every sleep fails at
  once, because only a leaving waiter clears the flag and no thread can become one.
   */
  lemma {:induction false} UnheardInterruptSticks(ss: seq<System>, evs: seq<Event>, i: nat, j: nat)
    requires IsRun(ss, evs) && i < j < |ss| && evs[i] == Interrupts && ss[i].waiting == {}
    ensures ss[j].ctx.interrupted && ss[j].waiting == {}
    ensures j < |evs| && evs[j].Sleeps? ==> Returns(ss[j], evs[j]) == [Interrupted]
    decreases j
  {
    if j == i + 1 {
      assert ss[i + 1] == Apply(ss[i], evs[i]);
    } else {
      UnheardInterruptSticks(ss, evs, i, j - 1);
      assert Enabled(ss[j - 1], evs[j - 1]);
    }
    assert j < |evs| ==> Enabled(ss[j], evs[j]);
  }
}
