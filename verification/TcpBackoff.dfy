/**
Exponential backoff: how often an entry is retransmitted before the twelve-second
deadline, and that the unsigned arithmetic on its timer never overflows.
 */
module TcpBackoff {
  import opened Words
  import opened Clock
  import opened TcpSpec
  import opened TcpQueue
  import opened TcpLocal

  const MAX_RESENDS := 5
  const MAX_RTO := 6_400_000            // microseconds

  /** As tcp_retransmit_queue_add makes it. */
  predicate Brandnew(e: Entry) {
    e.first == e.last && e.rto == DEFAULT_RTO
  }

  /** The entry has been resent `k` times, and has waited at least as long as its timer says. */
  ghost predicate ResentTimes(e: Entry, k: nat) {
    && k <= MAX_RESENDS
    && e.rto == DEFAULT_RTO * Pow2(k)
    && Micros(e.last) - Micros(e.first) >= e.rto - DEFAULT_RTO
  }

  lemma Powers()
    ensures Pow2(0) == 1 && Pow2(1) == 2 && Pow2(2) == 4 && Pow2(3) == 8 && Pow2(4) == 16 && Pow2(5) == 32
  {
  }

  /** The decision on timeval fields, read as a decision on instants. */
  lemma FateByInstant(e: Entry, now: Time)
    ensures FateOf(e, now) == TimedOut <==> Micros(now) - Micros(e.first) >= RETRANSMIT_DEADLINE * MILLION
    ensures FateOf(e, now) == Due <==>
              Micros(now) - Micros(e.first) < RETRANSMIT_DEADLINE * MILLION && Micros(now) > Micros(e.last) + e.rto
  {
    AddUsecIsAddition(e.last, e.rto);
    FieldwiseIsInstant(now, AddUsec(e.last, e.rto));
    FieldwiseIsInstant(now, e.first);
  }

  lemma LaterInstant(t: Time, us: U32) returns (now: Time)
    ensures Micros(now) == Micros(t) + us
  {
    now := AddUsec(t, us);
    AddUsecIsAddition(t, us);
  }

  /**
  A retransmission takes an entry from `k` to `k + 1` resends, which the deadline allows
  only while `k < 5`; doubling is then exact.
   */
  lemma ResendStep(e: Entry, k: nat, now: Time)
    requires ResentTimes(e, k) && FateOf(e, now) == Due
    ensures k < MAX_RESENDS
    ensures Backoff(e, now).rto == 2 * e.rto <= MAX_RTO
    ensures ResentTimes(Backoff(e, now), k + 1)
  {
    Powers();
    FateByInstant(e, now);
    assert Pow2(k + 1) == 2 * Pow2(k);
  }

  /** How often an entry is resent while the timer visits it at the given times. */
  function Resends(e: Entry, visits: seq<Time>): nat
    decreases |visits|
  {
    if visits == [] then 0
    else match FateOf(e, visits[0])
      case Due => 1 + Resends(Backoff(e, visits[0]), visits[1..])
      case _ => Resends(e, visits[1..])
  }

  lemma {:induction false} ResendsBounded(e: Entry, k: nat, visits: seq<Time>)
    requires ResentTimes(e, k)
    ensures k + Resends(e, visits) <= MAX_RESENDS
    decreases |visits|
  {
    if visits != [] {
      if FateOf(e, visits[0]) == Due {
        ResendStep(e, k, visits[0]);
        ResendsBounded(Backoff(e, visits[0]), k + 1, visits[1..]);
      } else {
        ResendsBounded(e, k, visits[1..]);
      }
    }
  }

  /** Whatever the clock shows at the timer's visits, no entry is retransmitted more than five times. */
  lemma AtMostFiveResends(e: Entry, visits: seq<Time>)
    requires Brandnew(e)
    ensures Resends(e, visits) <= 5
  {
    Powers();
    ResendsBounded(e, 0, visits);
  }

  /** Visits that come one microsecond after each timer runs out cause a resend every time. */
  lemma {:induction false} PromptVisits(e: Entry, k: nat) returns (visits: seq<Time>)
    requires k <= MAX_RESENDS && e.rto == DEFAULT_RTO * Pow2(k)
    requires Micros(e.last) - Micros(e.first) == e.rto - DEFAULT_RTO + k
    ensures Resends(e, visits) == MAX_RESENDS - k
    decreases MAX_RESENDS - k
  {
    Powers();
    visits := [];
    if k < MAX_RESENDS {
      var now := LaterInstant(e.last, e.rto + 1);
      FateByInstant(e, now);
      var rest := PromptVisits(Backoff(e, now), k + 1);
      visits := [now] + rest;
      assert visits[1..] == rest;
    }
  }

  /** The bound is attained: five retransmissions fit before the deadline. */
  lemma FiveResendsHappen(e: Entry) returns (visits: seq<Time>)
    requires Brandnew(e)
    ensures Resends(e, visits) == 5
  {
    Powers();
    visits := PromptVisits(e, 0);
  }

  // ---- over runs of a block

  ghost predicate BackoffOk(q: seq<Entry>) {
    forall e :: e in q ==> exists k :: ResentTimes(e, k)
  }

  lemma {:induction false} EmitKeepsBackoff(t: Tcb, i: nat, clock: seq<Time>)
    requires i <= |t.queue| == |clock| && BackoffOk(t.queue)
    ensures BackoffOk(EmitFrom(t, i, clock).t.queue)
    decreases |t.queue| - i
  {
    if i < |t.queue| {
      var e := t.queue[i];
      assert e in t.queue;
      if FateOf(e, clock[i]) == Due {
        var k :| ResentTimes(e, k);
        ResendStep(e, k, clock[i]);
      }
      var t' := EmitOne(t, i, clock[i]).t;
      forall x | x in t'.queue
        ensures exists k :: ResentTimes(x, k)
      {
        assert x in t.queue || (FateOf(e, clock[i]) == Due && x == Backoff(e, clock[i]));
      }
      EmitKeepsBackoff(t', i + 1, clock);
    }
  }

  lemma NewEntryOk(e: Entry)
    requires Brandnew(e)
    ensures ResentTimes(e, 0)
  {
    Powers();
  }

  lemma TextAndFinKeepQueue(t: Tcb, s: Segment, env: Env)
    ensures ProcessTextAndFin(t, s, env).t.queue == t.queue
  {
    assert ProcessText(t, s).t.queue == t.queue;
  }

  lemma ArrivalQueue(t: Tcb, s: Segment, env: Env)
    ensures var q' := Arrives(t, s, env).t.queue;
            || q' == t.queue || q' == [] || q' == Cleanup(t.queue, s.ackNo)
            || (exists e :: Brandnew(e) && q' == t.queue + [e])
  {
    if Reaches(t, s, env) {
      TextAndFinKeepQueue(ProcessAck(t, s, env).t, s, env);
    } else if t.state == Listen {
      var e := Entry(env.now, env.now, DEFAULT_RTO, env.random, SYN_ACK, []);
      assert Brandnew(e);
    } else if t.state == SynSent {
      var e := Entry(env.now, env.now, DEFAULT_RTO, t.iss, SYN_ACK, []);
      assert Brandnew(e);
    }
  }

  /** Where a step other than a timer pass can take queue entries from. */
  lemma StepQueue(t: Tcb, ev: Event)
    requires Enabled(t, ev) && !ev.TimerTick?
    ensures forall e :: e in Apply(t, ev).t.queue ==> e in t.queue || Brandnew(e)
  {
    match ev
    case Arrive(s, env) =>
      ArrivalQueue(t, s, env);
      CleanupIsSuffix(t.queue, s.ackNo);
    case _ =>
  }

  lemma StepKeepsBackoff(t: Tcb, ev: Event)
    requires Enabled(t, ev) && BackoffOk(t.queue)
    ensures BackoffOk(Apply(t, ev).t.queue)
  {
    if ev.TimerTick? {
      EmitKeepsBackoff(t, 0, ev.clock);
    } else {
      StepQueue(t, ev);
      forall e | e in Apply(t, ev).t.queue && e !in t.queue
        ensures exists k :: ResentTimes(e, k)
      {
        NewEntryOk(e);
      }
    }
  }

  lemma RtoIsBounded(e: Entry, k: nat)
    requires ResentTimes(e, k)
    ensures e.rto <= MAX_RTO
  {
    Powers();
  }

  lemma RunStepKeepsBackoff(ts: seq<Tcb>, evs: seq<Event>, k: nat)
    requires IsRun(ts, evs) && 0 < k < |ts| && BackoffOk(ts[k - 1].queue)
    ensures BackoffOk(ts[k].queue)
  {
    assert StepAt(ts, evs, k - 1);
    StepKeepsBackoff(ts[k - 1], evs[k - 1]);
  }

  /** In every state of every run each entry has been resent at most five times, as its timer says. */
  lemma {:induction false} RunKeepsBackoff(ts: seq<Tcb>, evs: seq<Event>, k: nat)
    requires IsRun(ts, evs) && k < |ts|
    ensures BackoffOk(ts[k].queue)
    decreases k
  {
    if k > 0 {
      RunKeepsBackoff(ts, evs, k - 1);
      RunStepKeepsBackoff(ts, evs, k);
    }
  }

  /** And so no timer ever exceeds 6.4 seconds. */
  lemma RtoNeverExceeds(ts: seq<Tcb>, evs: seq<Event>, k: nat, e: Entry)
    requires IsRun(ts, evs) && k < |ts| && e in ts[k].queue
    ensures e.rto <= MAX_RTO
  {
    RunKeepsBackoff(ts, evs, k);
    var n :| ResentTimes(e, n);
    RtoIsBounded(e, n);
  }

  // ---- counting on the wire

  /** What identifies a segment on the wire and its queue entry. */
  datatype Key = Key(seqNo: U32, flg: Flags, data: seq<Byte>)

  function KeyOf(e: Entry): Key {
    Key(e.seqNo, e.flg, e.data)
  }

  function SegmentKey(s: Segment): Key {
    Key(s.seqNo, s.flg, s.data)
  }

  function Copies(out: seq<Segment>, key: Key): nat {
    if out == [] then 0 else Copies(out[1..], key) + if SegmentKey(out[0]) == key then 1 else 0
  }

  ghost predicate Absent(q: seq<Entry>, key: Key) {
    forall i :: 0 <= i < |q| ==> KeyOf(q[i]) != key
  }

  /** The key is queued at most once, by an entry resent `n` times. */
  ghost predicate Counted(q: seq<Entry>, key: Key, n: nat) {
    && (forall i, j :: 0 <= i < j < |q| ==> KeyOf(q[i]) != key || KeyOf(q[j]) != key)
    && (forall i :: 0 <= i < |q| && KeyOf(q[i]) == key ==> ResentTimes(q[i], n))
  }

  /** The key is not queued from position `i` on. */
  ghost predicate AbsentFrom(q: seq<Entry>, i: nat, key: Key) {
    forall j :: i <= j < |q| ==> KeyOf(q[j]) != key
  }

  ghost predicate SameKeys(q: seq<Entry>, q': seq<Entry>) {
    |q| == |q'| && forall j :: 0 <= j < |q| ==> KeyOf(q'[j]) == KeyOf(q[j])
  }

  /** The key may still be queued. */
  predicate Coming(t: Tcb, key: Key) {
    (!key.flg.syn && key.seqNo >= t.sndNxt) || (t.state == SynSent && key.flg == SYN_ACK)
  }

  ghost predicate ResendInv(t: Tcb, key: Key, n: nat) {
    && n <= MAX_RESENDS && Counted(t.queue, key, n)
    && (t.state == Listen ==> t.sndNxt == 0)
    && (t.state != Free && t.sndNxt == 0 ==> n == 0 && t.queue == [])
    && (Active(t.state) && Coming(t, key) ==> n == 0 && Absent(t.queue, key))
  }

  /** How often a step resends the key. */
  function ResentBy(t: Tcb, ev: Event, key: Key): nat
    requires Enabled(t, ev)
  {
    if ev.TimerTick? then Copies(Apply(t, ev).out, key) else 0
  }

  /** How often timer passes have sent the key in the first `k` steps. */
  function OnTheWire(ts: seq<Tcb>, evs: seq<Event>, key: Key, k: nat): nat
    requires |ts| == |evs| + 1 && k < |ts|
  {
    if k == 0 then 0
    else OnTheWire(ts, evs, key, k - 1) +
         if Enabled(ts[k - 1], evs[k - 1]) then ResentBy(ts[k - 1], evs[k - 1], key) else 0
  }

  ghost predicate ResendAt(ts: seq<Tcb>, evs: seq<Event>, key: Key, j: nat)
    requires |ts| == |evs| + 1 && j < |ts|
  {
    ResendInv(ts[j], key, OnTheWire(ts, evs, key, j))
  }

  ghost predicate ResendUpTo(ts: seq<Tcb>, evs: seq<Event>, key: Key, k: nat)
    requires |ts| == |evs| + 1 && k < |ts|
  {
    forall j :: 0 <= j <= k ==> ResendAt(ts, evs, key, j)
  }
}
