/**
A whole call of tcp_send, over its sleeps: what happens to the block meanwhile does not
disturb the order of the segments, unless another thread sends on it too.
 */
module TcpSendCall {
  import opened Words
  import opened TcpSpec
  import opened TcpLocal
  import opened TcpSend

  // ---- sleeps

  /** Only tcp_send and tcp_close move SND.NXT of a block that stays open for sending. */
  lemma OthersKeepSndNxt(t: Tcb, ev: Event)
    requires Enabled(t, ev) && MaySend(t.state) && MaySend(Apply(t, ev).t.state) && !ev.Send?
    ensures Apply(t, ev).t.sndNxt == t.sndNxt
  {
    if ev.TimerTick? {
      EmitTouchesTimersOnly(t, 0, ev.clock);
    }
  }

  lemma GapStepShifts(t: Tcb, ev: Event, t': Tcb)
    requires GapStep(t, ev, t')
    ensures t'.sndNxt == t.sndNxt + if ev.Send? then |ev.data| else 0
  {
    if !ev.Send? {
      OthersKeepSndNxt(t, ev);
    }
  }

  lemma {:induction false} GapShifts(g: Gap, from: Tcb, to: Tcb, k: nat)
    requires IsGap(g, from, to) && k <= |g.evs|
    ensures g.ts[k].sndNxt == from.sndNxt + SentMeanwhile(g.evs[..k])
    decreases k
  {
    if k > 0 {
      GapShifts(g, from, to, k - 1);
      assert GapAt(g, k - 1);
      GapStepShifts(g.ts[k - 1], g.evs[k - 1], g.ts[k]);
      assert g.evs[..k][..k - 1] == g.evs[..k - 1];
    }
  }

  lemma SendsAreNotEmpty(g: Gap, from: Tcb, to: Tcb)
    requires IsGap(g, from, to)
    ensures forall i :: 0 <= i < |g.evs| && g.evs[i].Send? ==> |g.evs[i].data| > 0
  {
    forall i | 0 <= i < |g.evs| && g.evs[i].Send?
      ensures |g.evs[i].data| > 0
    {
      assert GapAt(g, i);
    }
  }

  lemma {:induction false} NothingSentIff(evs: seq<Event>)
    requires forall i :: 0 <= i < |evs| && evs[i].Send? ==> |evs[i].data| > 0
    ensures SentMeanwhile(evs) == 0 <==> NobodyElseSends(evs)
  {
    if evs != [] {
      var n := |evs| - 1;
      NothingSentIff(evs[..n]);
      assert NobodyElseSends(evs) <==> NobodyElseSends(evs[..n]) && !evs[n].Send?;
    }
  }

  /**
  Over a sleep, whatever arrives and whichever timers run: SND.NXT stands still exactly
  when no other thread sends on the block meanwhile.
   */
  lemma GapKeepsSndNxtIff(g: Gap, from: Tcb, to: Tcb)
    requires IsGap(g, from, to)
    ensures to.sndNxt == from.sndNxt <==> NobodyElseSends(g.evs)
  {
    GapShifts(g, from, to, |g.evs|);
    SendsAreNotEmpty(g, from, to);
    NothingSentIff(g.evs);
    assert g.evs[..|g.evs|] == g.evs;
  }

  // ---- rounds

  lemma {:induction false} PayloadConcat(a: seq<Segment>, b: seq<Segment>)
    ensures Payload(a + b) == Payload(a) + Payload(b)
  {
    if b == [] {
      assert a + b == a;
    } else {
      var n := |b| - 1;
      PayloadConcat(a, b[..n]);
      assert (a + b)[..|a + b| - 1] == a + b[..n] && (a + b)[|a + b| - 1] == b[n];
      assert Payload(a) + (Payload(b[..n]) + b[n].data) == (Payload(a) + Payload(b[..n])) + b[n].data;
    }
  }

  lemma ConsecutiveConcat(a: seq<Segment>, b: seq<Segment>, start: int, mss: nat)
    requires Consecutive(a, start, mss) && Consecutive(b, start + |Payload(a)|, mss)
    ensures Consecutive(a + b, start, mss)
  {
    forall i | 0 <= i < |a + b|
      ensures (a + b)[i].seqNo == start + |Payload((a + b)[..i])| && 0 < |(a + b)[i].data| <= mss
    {
      if i < |a| {
        assert (a + b)[..i] == a[..i];
      } else {
        assert (a + b)[..i] == a + b[..i - |a|];
        PayloadConcat(a, b[..i - |a|]);
      }
    }
  }

  lemma RoundSegmentation(p: Progress, t: Tcb, b: Burst, data: seq<Byte>, mss: nat, start: int)
    requires p.sent <= |data| && t.sndNxt == start + p.sent && CutsWire(t, data[p.sent..], mss, b)
    requires Payload(p.out) == data[..p.sent] && Consecutive(p.out, start, mss)
    ensures Payload(p.out + b.out) == data[..p.sent + b.sent] && Consecutive(p.out + b.out, start, mss)
  {
    PayloadConcat(p.out, b.out);
    assert data[..p.sent] + data[p.sent..][..b.sent] == data[..p.sent + b.sent];
    ConsecutiveConcat(p.out, b.out, start, mss);
  }

  lemma CallPrefix(rounds: seq<Round>, data: seq<Byte>, mss: nat, n: nat)
    requires 0 < mss <= MAX_TEXT && IsCall(rounds, data, mss) && n <= |rounds|
    ensures IsCall(rounds[..n], data, mss)
  {
    forall i | 0 <= i < n
      ensures RoundAt(rounds[..n], data, mss, i)
    {
      assert RoundAt(rounds, data, mss, i);
      assert rounds[..n][..i] == rounds[..i];
    }
  }

  lemma NothingStands(t: Tcb, data: seq<Byte>, mss: nat)
    ensures Stands(Progress(0, []), t, data, mss, t.sndNxt)
  {
  }

  /** A round that starts where the call stands leaves it standing at its own end. */
  lemma RoundStands(p: Progress, r: Round, data: seq<Byte>, mss: nat, start: nat)
    requires 0 < mss <= MAX_TEXT && start + |data| < TWO_32 && Stands(p, r.t, data, mss, start)
    requires IsBurst(r.bs, r.t, data[p.sent..], mss, r.clock)
    ensures var b := r.bs[|r.bs| - 1]; Stands(Progress(p.sent + b.sent, p.out + b.out), b.t, data, mss, start)
  {
    BurstCuts(r.bs, r.t, data[p.sent..], mss, r.clock);
    RoundSegmentation(p, r.t, r.bs[|r.bs| - 1], data, mss, start);
  }

  lemma SleepStands(p: Progress, r: Round, r': Round, data: seq<Byte>, mss: nat, start: nat)
    requires Sleeps(r, r') && Stands(p, r.bs[|r.bs| - 1].t, data, mss, start)
    ensures Stands(p, r'.t, data, mss, start)
  {
    GapKeepsSndNxtIff(r'.gap, r.bs[|r.bs| - 1].t, r'.t);
  }

  lemma LastBurst(rounds: seq<Round>, data: seq<Byte>, mss: nat, n: nat)
    requires 0 < mss <= MAX_TEXT && IsCall(rounds, data, mss) && n < |rounds|
    ensures Call(rounds[..n]).sent <= |data| && rounds[n].bs != []
    ensures IsBurst(rounds[n].bs, rounds[n].t, data[Call(rounds[..n]).sent..], mss, rounds[n].clock)
  {
    assert RoundAt(rounds, data, mss, n);
  }

  lemma CallAppends(rounds: seq<Round>, n: nat)
    requires |rounds| == n + 1 && rounds[n].bs != []
    ensures var p, bs := Call(rounds[..n]), rounds[n].bs;
            Call(rounds) == Progress(p.sent + bs[|bs| - 1].sent, p.out + bs[|bs| - 1].out)
  {
  }

  /** The last round of a call, from where the call stands when it starts. */
  lemma LastRoundStands(rounds: seq<Round>, data: seq<Byte>, mss: nat, n: nat, start: nat)
    requires 0 < mss <= MAX_TEXT && IsCall(rounds, data, mss) && |rounds| == n + 1 && start + |data| < TWO_32
    requires Stands(Call(rounds[..n]), rounds[n].t, data, mss, start)
    ensures rounds[n].bs != [] && Stands(Call(rounds), rounds[n].bs[|rounds[n].bs| - 1].t, data, mss, start)
  {
    LastBurst(rounds, data, mss, n);
    CallAppends(rounds, n);
    RoundStands(Call(rounds[..n]), rounds[n], data, mss, start);
  }

  lemma RoundSleeps(rounds: seq<Round>, data: seq<Byte>, mss: nat, n: nat)
    requires 0 < mss <= MAX_TEXT && IsCall(rounds, data, mss) && 0 < n < |rounds|
    ensures Sleeps(rounds[n - 1], rounds[n])
  {
    assert RoundAt(rounds, data, mss, n);
  }

  lemma {:induction false} CallStands(rounds: seq<Round>, data: seq<Byte>, mss: nat, n: nat, start: nat)
    requires 0 < mss <= MAX_TEXT && IsCall(rounds, data, mss) && |rounds| == n + 1
    requires rounds[0].t.sndNxt == start && start + |data| < TWO_32
    ensures rounds[n].bs != [] && Stands(Call(rounds), rounds[n].bs[|rounds[n].bs| - 1].t, data, mss, start)
    decreases n
  {
    if n == 0 {
      assert rounds[..0] == [];
      NothingStands(rounds[0].t, data, mss);
    } else {
      CallPrefix(rounds, data, mss, n);
      CallStands(rounds[..n], data, mss, n - 1, start);
      RoundSleeps(rounds, data, mss, n);
      SleepStands(Call(rounds[..n]), rounds[n - 1], rounds[n], data, mss, start);
    }
    LastRoundStands(rounds, data, mss, n, start);
  }

  /**
  Over all of its sleeps, whatever happens to the block meanwhile short of another thread
  sending on it, a tcp_send call hands out consecutive segments whose payloads concatenate
  to data[..sent], each of at most the MSS.
   */
  lemma CallSegmentation(rounds: seq<Round>, data: seq<Byte>, mss: nat)
    requires 0 < mss <= MAX_TEXT && rounds != [] && IsCall(rounds, data, mss)
    requires rounds[0].t.sndNxt + |data| < TWO_32
    ensures var p := Call(rounds);
            p.sent <= |data| && Payload(p.out) == data[..p.sent] && Consecutive(p.out, rounds[0].t.sndNxt, mss)
  {
    CallStands(rounds, data, mss, |rounds| - 1, rounds[0].t.sndNxt);
  }

  lemma AtMostMss(out: seq<Segment>, start: int, mss: nat, i: nat)
    requires Consecutive(out, start, mss) && i < |out|
    ensures |out[i].data| <= mss
  {
  }
}
