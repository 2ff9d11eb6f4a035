/**
tcp_send: how the caller's bytes are cut into segments, over the loop's iterations and
over the sleeps in between.
 */
module TcpSend {
  import opened Words
  import opened Clock
  import opened TcpSpec
  import opened TcpLocal

  /** The block, the bytes handed out, and the segments that carry them. */
  datatype Burst = Burst(t: Tcb, sent: nat, out: seq<Segment>)

  /** The loop stops: everything is sent, or the window is closed and tcp_send sleeps. */
  predicate Stuck(b: Burst, data: seq<Byte>) {
    b.sent >= |data| || Cap(b.t) == 0
  }

  /** One iteration: a slice of at most the MSS, the rest of the data and the open window. */
  function Iterate(b: Burst, data: seq<Byte>, mss: nat, now: Time): Burst
    requires 0 < mss <= MAX_TEXT && !Stuck(b, data)
  {
    var n := Min(Min(mss, |data| - b.sent), Cap(b.t));
    var r := SendSlice(b.t, data[b.sent..b.sent + n], now);
    Burst(r.t, b.sent + n, b.out + r.out)
  }

  predicate Steps(b: Burst, b': Burst, data: seq<Byte>, mss: nat, now: Time)
    requires 0 < mss <= MAX_TEXT
  {
    !Stuck(b, data) && b' == Iterate(b, data, mss, now)
  }

  predicate StepsAt(bs: seq<Burst>, data: seq<Byte>, mss: nat, clock: seq<Time>, i: nat)
    requires 0 < mss <= MAX_TEXT && 0 < i < |bs| <= |clock| + 1
  {
    Steps(bs[i - 1], bs[i], data, mss, clock[i - 1])
  }

  /** The states of the loop up to now. */
  ghost predicate IsTrace(bs: seq<Burst>, t: Tcb, data: seq<Byte>, mss: nat, clock: seq<Time>)
    requires 0 < mss <= MAX_TEXT
  {
    && 0 < |bs| <= |clock| + 1 && bs[0] == Burst(t, 0, [])
    && forall i :: 0 < i < |bs| ==> StepsAt(bs, data, mss, clock, i)
  }

  lemma TraceAppend(bs: seq<Burst>, t: Tcb, data: seq<Byte>, mss: nat, clock: seq<Time>, b: Burst)
    requires 0 < mss <= MAX_TEXT && IsTrace(bs, t, data, mss, clock) && |bs| <= |clock|
    requires Steps(bs[|bs| - 1], b, data, mss, clock[|bs| - 1])
    ensures IsTrace(bs + [b], t, data, mss, clock)
  {
    forall i | 0 < i < |bs + [b]|
      ensures StepsAt(bs + [b], data, mss, clock, i)
    {
      if i < |bs| {
        assert StepsAt(bs, data, mss, clock, i);
      }
    }
  }

  /** tcp_send between two sleeps: the loop runs until it is stuck. */
  ghost predicate IsBurst(bs: seq<Burst>, t: Tcb, data: seq<Byte>, mss: nat, clock: seq<Time>)
    requires 0 < mss <= MAX_TEXT
  {
    IsTrace(bs, t, data, mss, clock) && Stuck(bs[|bs| - 1], data)
  }

  // ---- what a burst puts on the wire

  function Payload(out: seq<Segment>): seq<Byte> {
    if out == [] then [] else Payload(out[..|out| - 1]) + out[|out| - 1].data
  }

  /** Segment by segment: consecutive from `a`, non-empty, at most `mss` bytes each. */
  ghost predicate Consecutive(out: seq<Segment>, a: int, mss: nat) {
    forall i :: 0 <= i < |out| ==> out[i].seqNo == a + |Payload(out[..i])| && 0 < |out[i].data| <= mss
  }

  /** The queue entries made along with the segments. */
  ghost predicate Mirrors(q: seq<Entry>, out: seq<Segment>) {
    && |q| == |out|
    && forall i :: 0 <= i < |out| ==>
         q[i].seqNo == out[i].seqNo && q[i].flg == out[i].flg && q[i].data == out[i].data
  }

  lemma PayloadAppend(out: seq<Segment>, s: Segment)
    ensures Payload(out + [s]) == Payload(out) + s.data
  {
    assert (out + [s])[..|out|] == out;
  }

  lemma ConsecutiveAppend(out: seq<Segment>, s: Segment, a: int, mss: nat)
    requires Consecutive(out, a, mss) && s.seqNo == a + |Payload(out)| && 0 < |s.data| <= mss
    ensures Consecutive(out + [s], a, mss)
  {
    forall i | 0 <= i < |out + [s]|
      ensures (out + [s])[i].seqNo == a + |Payload((out + [s])[..i])| && 0 < |(out + [s])[i].data| <= mss
    {
      assert (out + [s])[..i] == out[..i];
      assert out[..|out|] == out;
    }
  }

  ghost predicate CutsWire(t: Tcb, data: seq<Byte>, mss: nat, b: Burst) {
    b.sent <= |data| && Payload(b.out) == data[..b.sent] && Consecutive(b.out, t.sndNxt, mss)
  }

  ghost predicate CutsBlock(t: Tcb, b: Burst) {
    && b.t == t.(sndNxt := b.t.sndNxt, queue := b.t.queue) && b.t.sndNxt == t.sndNxt + b.sent
    && |t.queue| <= |b.t.queue| && b.t.queue[..|t.queue|] == t.queue && Mirrors(b.t.queue[|t.queue|..], b.out)
    && (t.sndUna <= t.sndNxt <= t.sndUna + t.sndWnd ==> b.t.sndNxt <= t.sndUna + t.sndWnd)
  }

  ghost predicate Cuts(t: Tcb, data: seq<Byte>, mss: nat, b: Burst) {
    CutsWire(t, data, mss, b) && CutsBlock(t, b)
  }

  lemma SliceCutsWire(t: Tcb, data: seq<Byte>, mss: nat, b: Burst, n: nat, s: Segment)
    requires CutsWire(t, data, mss, b) && 0 < n <= mss && b.sent + n <= |data|
    requires s.seqNo == t.sndNxt + b.sent && s.data == data[b.sent..b.sent + n]
    ensures CutsWire(t, data, mss, Burst(b.t, b.sent + n, b.out + [s]))
  {
    PayloadAppend(b.out, s);
    assert data[..b.sent] + data[b.sent..b.sent + n] == data[..b.sent + n];
    ConsecutiveAppend(b.out, s, t.sndNxt, mss);
  }

  lemma SliceCutsBlock(t: Tcb, b: Burst, n: nat, e: Entry, s: Segment)
    requires CutsBlock(t, b) && n <= Cap(b.t) && b.t.sndNxt + n < TWO_32
    requires e.seqNo == s.seqNo && e.flg == s.flg && e.data == s.data
    ensures CutsBlock(t, Burst(b.t.(sndNxt := b.t.sndNxt + n, queue := b.t.queue + [e]), b.sent + n, b.out + [s]))
  {
    assert (b.t.queue + [e])[..|t.queue|] == t.queue;
    assert (b.t.queue + [e])[|t.queue|..] == b.t.queue[|t.queue|..] + [e];
  }

  lemma IterateShape(b: Burst, data: seq<Byte>, mss: nat, now: Time, n: nat)
    requires 0 < mss <= MAX_TEXT && !Stuck(b, data)
    requires n == Min(Min(mss, |data| - b.sent), Cap(b.t)) && b.t.sndNxt + n < TWO_32
    ensures var slice := data[b.sent..b.sent + n];
            Iterate(b, data, mss, now) ==
            Burst(b.t.(sndNxt := b.t.sndNxt + n,
                       queue := b.t.queue + [Entry(now, now, DEFAULT_RTO, b.t.sndNxt, PSH_ACK, slice)]),
                  b.sent + n, b.out + [OutputSegment(b.t, PSH_ACK, slice)])
  {
  }

  lemma IterateCuts(t: Tcb, data: seq<Byte>, mss: nat, b: Burst, now: Time)
    requires 0 < mss <= MAX_TEXT && t.sndNxt + |data| < TWO_32
    requires !Stuck(b, data) && Cuts(t, data, mss, b)
    ensures Cuts(t, data, mss, Iterate(b, data, mss, now))
  {
    var n := Min(Min(mss, |data| - b.sent), Cap(b.t));
    var slice := data[b.sent..b.sent + n];
    var s := OutputSegment(b.t, PSH_ACK, slice);
    var e := Entry(now, now, DEFAULT_RTO, b.t.sndNxt, PSH_ACK, slice);
    IterateShape(b, data, mss, now, n);
    SliceCutsWire(t, data, mss, b, n, s);
    SliceCutsBlock(t, b, n, e, s);
  }

  lemma NothingCutsYet(t: Tcb, data: seq<Byte>, mss: nat)
    ensures Cuts(t, data, mss, Burst(t, 0, []))
  {
    assert t.queue[..|t.queue|] == t.queue && t.queue[|t.queue|..] == [];
  }

  lemma {:induction false} TraceCuts(bs: seq<Burst>, t: Tcb, data: seq<Byte>, mss: nat, clock: seq<Time>, k: nat)
    requires 0 < mss <= MAX_TEXT && IsTrace(bs, t, data, mss, clock) && k < |bs| && t.sndNxt + |data| < TWO_32
    ensures Cuts(t, data, mss, bs[k])
    decreases k
  {
    if k == 0 {
      NothingCutsYet(t, data, mss);
    } else {
      TraceCuts(bs, t, data, mss, clock, k - 1);
      assert StepsAt(bs, data, mss, clock, k);
      IterateCuts(t, data, mss, bs[k - 1], clock[k - 1]);
    }
  }

  /** Every iteration sends something, so the loop ends within |data| iterations. */
  lemma {:induction false} TraceProgress(bs: seq<Burst>, t: Tcb, data: seq<Byte>, mss: nat, clock: seq<Time>, k: nat)
    requires 0 < mss <= MAX_TEXT && IsTrace(bs, t, data, mss, clock) && k < |bs|
    ensures k <= bs[k].sent <= |data|
    decreases k
  {
    if k > 0 {
      TraceProgress(bs, t, data, mss, clock, k - 1);
      assert StepsAt(bs, data, mss, clock, k);
    }
  }

  /**
  Between two sleeps: the payloads concatenate to what was sent, are consecutive from
  SND.NXT, fit the MSS and the window, and are queued for retransmission one by one; the
  loop takes at most |data| iterations and ends only when all is sent or the window is closed.
   */
  lemma BurstCuts(bs: seq<Burst>, t: Tcb, data: seq<Byte>, mss: nat, clock: seq<Time>)
    requires 0 < mss <= MAX_TEXT && IsBurst(bs, t, data, mss, clock) && t.sndNxt + |data| < TWO_32
    ensures var b := bs[|bs| - 1]; Cuts(t, data, mss, b) && |bs| - 1 <= b.sent && (b.sent == |data| || Cap(b.t) == 0)
  {
    TraceCuts(bs, t, data, mss, clock, |bs| - 1);
    TraceProgress(bs, t, data, mss, clock, |bs| - 1);
  }

  // ---- segments are full

  /** What one iteration sends. */
  lemma IterationSends(b: Burst, b': Burst, data: seq<Byte>, mss: nat, now: Time)
    requires 0 < mss <= MAX_TEXT && Steps(b, b', data, mss, now) && b.sent <= |data|
    ensures |b'.out| == |b.out| + 1 && b'.out[..|b.out|] == b.out && |b'.out[|b.out|].data| == b'.sent - b.sent
    ensures b'.sent - b.sent == mss || Stuck(b', data)
  {
    var n := Min(Min(mss, |data| - b.sent), Cap(b.t));
    assert Cap(b'.t) == Sub32(Cap(b.t), n);
  }

  lemma TraceOne(bs: seq<Burst>, t: Tcb, data: seq<Byte>, mss: nat, clock: seq<Time>, k: nat)
    requires 0 < mss <= MAX_TEXT && IsTrace(bs, t, data, mss, clock) && 0 < k < |bs|
    ensures !Stuck(bs[k - 1], data) && (bs[k].sent - bs[k - 1].sent == mss || Stuck(bs[k], data))
    ensures var out, out' := bs[k - 1].out, bs[k].out;
            |out'| == |out| + 1 && out'[..|out|] == out && |out'[|out|].data| == bs[k].sent - bs[k - 1].sent
  {
    TraceProgress(bs, t, data, mss, clock, k - 1);
    assert StepsAt(bs, data, mss, clock, k);
    IterationSends(bs[k - 1], bs[k], data, mss, clock[k - 1]);
  }

  lemma {:induction false} OneSegmentEach(bs: seq<Burst>, t: Tcb, data: seq<Byte>, mss: nat, clock: seq<Time>, k: nat)
    requires 0 < mss <= MAX_TEXT && IsTrace(bs, t, data, mss, clock) && k < |bs|
    ensures |bs[k].out| == k
    decreases k
  {
    if k > 0 {
      OneSegmentEach(bs, t, data, mss, clock, k - 1);
      TraceOne(bs, t, data, mss, clock, k);
    }
  }

  lemma {:induction false} SegmentsStay(bs: seq<Burst>, t: Tcb, data: seq<Byte>, mss: nat, clock: seq<Time>,
                                        i: nat, k: nat)
    requires 0 < mss <= MAX_TEXT && IsTrace(bs, t, data, mss, clock) && i < k < |bs|
    ensures |bs[k].out| == k && |bs[i + 1].out| == i + 1 && bs[k].out[i] == bs[i + 1].out[i]
    decreases k
  {
    OneSegmentEach(bs, t, data, mss, clock, k);
    OneSegmentEach(bs, t, data, mss, clock, i + 1);
    if i + 1 < k {
      SegmentsStay(bs, t, data, mss, clock, i, k - 1);
      TraceOne(bs, t, data, mss, clock, k);
      assert bs[k].out[i] == bs[k].out[..k - 1][i];
    }
  }

  lemma EarlierIsFull(bs: seq<Burst>, t: Tcb, data: seq<Byte>, mss: nat, clock: seq<Time>, i: nat)
    requires 0 < mss <= MAX_TEXT && IsTrace(bs, t, data, mss, clock) && i + 2 < |bs|
    ensures |bs[i + 1].out| == i + 1 && |bs[i + 1].out[i].data| == mss
  {
    OneSegmentEach(bs, t, data, mss, clock, i);
    TraceOne(bs, t, data, mss, clock, i + 1);
    TraceOne(bs, t, data, mss, clock, i + 2);
  }

  /** Between two sleeps every segment but the last carries a full MSS. */
  lemma SegmentsAreFull(bs: seq<Burst>, t: Tcb, data: seq<Byte>, mss: nat, clock: seq<Time>)
    requires 0 < mss <= MAX_TEXT && IsBurst(bs, t, data, mss, clock)
    ensures var out := bs[|bs| - 1].out; |out| == |bs| - 1 && forall i :: 0 <= i < |out| - 1 ==> |out[i].data| == mss
  {
    var out := bs[|bs| - 1].out;
    OneSegmentEach(bs, t, data, mss, clock, |bs| - 1);
    forall i | 0 <= i < |out| - 1
      ensures |out[i].data| == mss
    {
      SegmentsStay(bs, t, data, mss, clock, i, |bs| - 1);
      EarlierIsFull(bs, t, data, mss, clock, i);
    }
  }

  // ---- what happens while the call sleeps

  /** The critical sections of others between two rounds; the block stays open for sending. */
  datatype Gap = Gap(ts: seq<Tcb>, evs: seq<Event>)

  ghost predicate IsGap(g: Gap, from: Tcb, to: Tcb) {
    && |g.ts| == |g.evs| + 1 && g.ts[0] == from && g.ts[|g.evs|] == to
    && (forall i :: 0 <= i < |g.evs| ==> GapAt(g, i))
  }

  predicate GapAt(g: Gap, i: nat)
    requires |g.ts| == |g.evs| + 1 && i < |g.evs|
  {
    GapStep(g.ts[i], g.evs[i], g.ts[i + 1])
  }

  predicate GapStep(t: Tcb, ev: Event, t': Tcb) {
    Enabled(t, ev) && MaySend(t.state) && MaySend(t'.state) && NoWrap(t, ev) && t' == Apply(t, ev).t
  }

  /** How many bytes other calls of tcp_send put out meanwhile. */
  function SentMeanwhile(evs: seq<Event>): nat {
    if evs == [] then 0
    else
      var last := evs[|evs| - 1];
      SentMeanwhile(evs[..|evs| - 1]) + if last.Send? then |last.data| else 0
  }

  ghost predicate NobodyElseSends(evs: seq<Event>) {
    forall i :: 0 <= i < |evs| ==> !evs[i].Send?
  }

  // ---- a whole call, over its sleeps

  /** A stretch of the loop: the sleep before it, the block it finds, and what it then does. */
  datatype Round = Round(gap: Gap, t: Tcb, bs: seq<Burst>, clock: seq<Time>)

  datatype Progress = Progress(sent: nat, out: seq<Segment>)

  function Call(rounds: seq<Round>): Progress {
    if rounds == [] || rounds[|rounds| - 1].bs == [] then Progress(0, [])
    else
      var p, bs := Call(rounds[..|rounds| - 1]), rounds[|rounds| - 1].bs;
      Progress(p.sent + bs[|bs| - 1].sent, p.out + bs[|bs| - 1].out)
  }

  /** The sleep leads from the end of one round to the next, and no other thread sends during it. */
  ghost predicate Sleeps(r: Round, r': Round) {
    r.bs != [] && IsGap(r'.gap, r.bs[|r.bs| - 1].t, r'.t) && NobodyElseSends(r'.gap.evs)
  }

  /** The round sends on from where the call had got to. */
  ghost predicate RoundAt(rounds: seq<Round>, data: seq<Byte>, mss: nat, i: nat)
    requires 0 < mss <= MAX_TEXT && i < |rounds|
  {
    var sent := Call(rounds[..i]).sent;
    && sent <= |data|
    && IsBurst(rounds[i].bs, rounds[i].t, data[sent..], mss, rounds[i].clock)
    && (i > 0 ==> Sleeps(rounds[i - 1], rounds[i]))
  }

  ghost predicate IsCall(rounds: seq<Round>, data: seq<Byte>, mss: nat)
    requires 0 < mss <= MAX_TEXT
  {
    forall i :: 0 <= i < |rounds| ==> RoundAt(rounds, data, mss, i)
  }

  /** Where a call stands after its rounds. */
  ghost predicate Stands(p: Progress, t: Tcb, data: seq<Byte>, mss: nat, start: int) {
    && p.sent <= |data| && Payload(p.out) == data[..p.sent] && Consecutive(p.out, start, mss)
    && t.sndNxt == start + p.sent
  }
}
