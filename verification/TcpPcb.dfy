/**
The protocol control block as the program holds it: fields updated in place, a receive
buffer of 65535 bytes that text is copied into and shifted out of, and loops over the
retransmit queue. Each method is proved against its specification function.
 */
module TcpPcb {
  import opened Words
  import opened Clock
  import opened TcpSpec
  import opened TcpSend

  /** One step of a timer pass, with what was sent before it. */
  lemma EmitStep(t: Tcb, i: nat, clock: seq<Time>, out: seq<Segment>)
    requires i < |t.queue| == |clock|
    ensures var r := EmitOne(t, i, clock[i]);
            && EmitFrom(t, i, clock).t == EmitFrom(r.t, i + 1, clock).t
            && out + EmitFrom(t, i, clock).out == (out + r.out) + EmitFrom(r.t, i + 1, clock).out
  {
    var r := EmitOne(t, i, clock[i]);
    var rest := EmitFrom(r.t, i + 1, clock);
    assert EmitFrom(t, i, clock) == Result(rest.t, r.out + rest.out);
  }

  lemma ReceiveShape(t: Tcb, size: nat)
    requires |t.buf| + t.rcvWnd == BUF_SIZE
    ensures var n := Min(size, |t.buf|);
            ReceiveCall(t, size) ==
            if MayReceive(t.state) && t.buf != [] then t.(buf := t.buf[n..], rcvWnd := t.rcvWnd + n) else t
  {
  }

  class Pcb {
    var state: State
    var iss: U32
    var sndNxt: U32
    var sndUna: U32
    var sndWnd: U16
    var wl1: U32
    var wl2: U32
    var irs: U32
    var rcvNxt: U32
    var rcvWnd: U16
    var queue: seq<Entry>
    var twTimer: Time
    const buf: array<Byte>

    ghost predicate Valid() {
      buf.Length == BUF_SIZE
    }

    ghost function View(): Tcb
      reads this, buf
      requires Valid()
    {
      Tcb(state, iss, sndNxt, sndUna, sndWnd, wl1, wl2, irs, rcvNxt, rcvWnd, buf[..BUF_SIZE - rcvWnd], queue, twTimer)
    }

    constructor ()
      ensures Valid() && fresh(buf) && View() == Zeroed()
    {
      state, queue, twTimer := Free, [], Timeval(0, 0);
      iss, sndNxt, sndUna, sndWnd, wl1, wl2, irs, rcvNxt, rcvWnd := 0, 0, 0, 0, 0, 0, 0, 0, 0;
      buf := new Byte[BUF_SIZE](_ => 0);
    }

    /** memset(pcb, 0, sizeof(*pcb)). */
    method Clear()
      requires Valid()
      modifies this, buf
      ensures Valid() && View() == Zeroed()
    {
      state, queue, twTimer := Free, [], Timeval(0, 0);
      iss, sndNxt, sndUna, sndWnd, wl1, wl2, irs, rcvNxt, rcvWnd := 0, 0, 0, 0, 0, 0, 0, 0, 0;
      forall i | 0 <= i < buf.Length {
        buf[i] := 0;
      }
    }

    method ReleaseBlock(waiters: bool)
      requires Valid()
      modifies this, buf
      ensures Valid() && View() == Release(old(View()), waiters)
    {
      if !waiters {
        Clear();
      }
    }

    // ---- output and the retransmit queue

    method Output(flg: Flags, data: seq<Byte>, now: Time) returns (s: Segment)
      requires Valid()
      modifies `queue
      ensures Valid() && View() == Enqueue(old(View()), flg, data, now)
      ensures s == OutputSegment(old(View()), flg, data)
    {
      var seqNo := sndNxt;
      if flg.syn {
        seqNo := iss;
      }
      if flg.syn || flg.fin || data != [] {
        queue := queue + [Entry(now, now, DEFAULT_RTO, seqNo, flg, data)];
      }
      s := Segment(seqNo, rcvNxt, flg, rcvWnd, data);
    }

    method CleanupQueue()
      requires Valid()
      modifies `queue
      ensures Valid() && View() == old(View()).(queue := Cleanup(old(queue), sndUna))
    {
      while queue != [] && queue[0].seqNo < sndUna
        invariant Cleanup(queue, sndUna) == Cleanup(old(queue), sndUna)
        decreases |queue|
      {
        queue := queue[1..];
      }
    }

    method Emit(i: nat, now: Time) returns (out: seq<Segment>)
      requires Valid() && i < |queue|
      modifies `queue, `state
      ensures Valid() && Result(View(), out) == EmitOne(old(View()), i, now)
    {
      var e := queue[i];
      out := [];
      if TimerSub(now, e.first).sec >= RETRANSMIT_DEADLINE {
        state := Closed;
        return;
      }
      if Later(now, AddUsec(e.last, e.rto)) {
        out := [Segment(e.seqNo, rcvNxt, e.flg, rcvWnd, e.data)];
        queue := queue[i := e.(last := now, rto := 2 * e.rto % TWO_32)];
      }
    }

    /** The body of tcp_timer's loop for this block. */
    method TimerPass(now: Time, clock: seq<Time>, waiters: bool) returns (out: seq<Segment>)
      requires Valid() && |clock| == |queue|
      modifies this, buf
      ensures Valid() && Result(View(), out) == Tick(old(View()), now, clock, waiters)
    {
      out := [];
      if state == Free {
        return;
      }
      if state == TimeWait && Later(now, twTimer) {
        ReleaseBlock(waiters);
        return;
      }
      var i := 0;
      while i < |queue|
        invariant 0 <= i <= |queue| == |clock|
        invariant EmitFrom(old(View()), 0, clock) ==
                  Result(EmitFrom(View(), i, clock).t, out + EmitFrom(View(), i, clock).out)
      {
        EmitStep(View(), i, clock, out);
        var sent := Emit(i, clock[i]);
        out := out + sent;
        i := i + 1;
      }
    }

    // ---- segment arrival

    method OpenPassively(s: Segment, env: Env) returns (out: seq<Segment>)
      requires Valid()
      modifies this
      ensures Valid() && Result(View(), out) == PassiveOpen(old(View()), s, env)
    {
      rcvWnd := BUF_SIZE;
      rcvNxt := Add32(s.seqNo, 1);
      irs := s.seqNo;
      iss := env.random;
      assert buf[..0] == [];
      assert View() == old(View()).(rcvWnd := BUF_SIZE, buf := [], rcvNxt := rcvNxt, irs := irs, iss := iss);
      var reply := Output(SYN_ACK, [], env.now);
      out := [reply];
      sndNxt := Add32(iss, 1);
      sndUna := iss;
      state := SynReceived;
    }

    method OnListen(s: Segment, env: Env) returns (out: seq<Segment>)
      requires Valid()
      modifies this
      ensures Valid() && Result(View(), out) == ArrivesListen(old(View()), s, env)
    {
      out := [];
      if s.flg.rst {
        return;
      }
      if s.flg.ack {
        out := [Segment(s.ackNo, 0, RST, 0, [])];
        return;
      }
      if s.flg.syn {
        out := OpenPassively(s, env);
      }
    }

    method NoteSyn(s: Segment, acked: bool)
      requires Valid()
      modifies this
      ensures Valid() && View() == old(View()).(rcvNxt := Add32(s.seqNo, 1), irs := s.seqNo,
                                                sndUna := if acked then s.ackNo else old(sndUna),
                                                queue := if acked then Cleanup(old(queue), s.ackNo) else old(queue))
    {
      rcvNxt := Add32(s.seqNo, 1);
      irs := s.seqNo;
      if acked {
        sndUna := s.ackNo;
        CleanupQueue();
      }
    }

    method Establish(s: Segment, now: Time) returns (out: seq<Segment>)
      requires Valid()
      modifies this
      ensures Valid() && out == [AckNow(old(View()))]
      ensures View() == old(View()).(state := Established, sndWnd := s.wnd, wl1 := s.seqNo, wl2 := s.ackNo)
    {
      state := Established;
      var reply := Output(ACK, [], now);
      out := [reply];
      sndWnd := s.wnd;
      wl1 := s.seqNo;
      wl2 := s.ackNo;
    }

    method TakeSyn(s: Segment, env: Env, acked: bool) returns (out: seq<Segment>)
      requires Valid()
      modifies this
      ensures Valid() && Result(View(), out) == AnswerSyn(old(View()), s, env, acked)
    {
      NoteSyn(s, acked);
      if sndUna > iss {
        out := Establish(s, env.now);
      } else {
        state := SynReceived;
        var reply := Output(SYN_ACK, [], env.now);
        out := [reply];
      }
    }

    method OnSynSent(s: Segment, env: Env) returns (out: seq<Segment>)
      requires Valid()
      modifies this, buf
      ensures Valid() && Result(View(), out) == ArrivesSynSent(old(View()), s, env)
    {
      out := [];
      var acceptable := false;
      if s.flg.ack {
        if s.ackNo <= iss || s.ackNo > sndNxt {
          out := [Segment(s.ackNo, 0, RST, 0, [])];
          return;
        }
        if sndUna <= s.ackNo <= sndNxt {
          acceptable := true;
        }
      }
      if s.flg.rst {
        if acceptable {
          state := Closed;
          ReleaseBlock(env.waiters);
        }
        return;
      }
      if s.flg.syn {
        out := TakeSyn(s, env, acceptable);
      }
    }

    method SetTimeWait(now: Time)
      requires Valid()
      modifies `state, `twTimer
      ensures Valid() && View() == TimeWaitFrom(old(View()), now)
    {
      state := TimeWait;
      twTimer := Timeval(now.sec + TIMEWAIT_SEC, now.usec);
    }

    method TakeAck(s: Segment)
      requires Valid()
      modifies this
      ensures Valid() && View() == AdvanceUna(old(View()), s)
    {
      sndUna := s.ackNo;
      CleanupQueue();
      if wl1 < s.seqNo || (wl1 == s.seqNo && wl2 <= s.ackNo) {
        sndWnd := s.wnd;
        wl1 := s.seqNo;
        wl2 := s.ackNo;
      }
    }

    /** The fifth check; `stop` is the source's early return. */
    method OnAck(s: Segment, env: Env) returns (stop: bool, out: seq<Segment>)
      requires Valid() && Synchronised(state)
      modifies this, buf
      ensures Valid() && ProcessAck(old(View()), s, env) == if stop then Stop(Result(View(), out)) else Continue(View())
      ensures !stop ==> out == [] && buf[..] == old(buf[..])
    {
      stop, out := false, [];
      if state == LastAck {
        stop := true;
        if s.ackNo == sndNxt {
          state := Closed;
          ReleaseBlock(env.waiters);
        }
        return;
      }
      if state == TimeWait {
        if s.flg.fin {
          SetTimeWait(env.now);
        }
        return;
      }
      if state == SynReceived {
        if sndUna <= s.ackNo <= sndNxt {
          state := Established;
        } else {
          return true, [Segment(s.ackNo, 0, RST, 0, [])];
        }
      }
      if sndUna < s.ackNo <= sndNxt {
        TakeAck(s);
      } else if s.ackNo < sndUna {
      } else if s.ackNo > sndNxt {
        var reply := Output(ACK, [], env.now);
        return true, [reply];
      }
      if state == FinWait1 && s.ackNo == sndNxt {
        state := FinWait2;
      } else if state == Closing && s.ackNo == sndNxt {
        SetTimeWait(env.now);
      }
    }

    method CopyIn(off: nat, data: seq<Byte>)
      requires Valid() && off <= BUF_SIZE
      modifies buf
      ensures forall n: nat :: n <= BUF_SIZE && n <= off + |data| ==> buf[..n] == (old(buf[..off]) + data)[..n]
    {
      forall i | 0 <= i < |data| && off + i < BUF_SIZE {
        buf[off + i] := data[i];
      }
    }

    /**
    Copies the text behind what is already pending: memcpy to buf + (sizeof(buf) - rcv.wnd).
    What a copy writes past the end of the buffer is not part of the model.
     */
    method OnText(s: Segment, now: Time) returns (out: seq<Segment>)
      requires Valid()
      modifies this, buf
      ensures Valid() && Result(View(), out) == ProcessText(old(View()), s)
    {
      out := [];
      if ReadsText(state) && s.data != [] {
        var off := BUF_SIZE - rcvWnd;
        CopyIn(off, s.data);
        rcvNxt := Add32(s.seqNo, SegLen(s));
        rcvWnd := (rcvWnd - |s.data|) % TWO_16;
        var reply := Output(ACK, [], now);
        out := [reply];
      }
    }

    method OnFin(s: Segment, env: Env) returns (out: seq<Segment>)
      requires Valid()
      modifies this
      ensures Valid() && Result(View(), out) == ProcessFin(old(View()), s, env)
    {
      out := [];
      if s.flg.fin {
        rcvNxt := Add32(s.seqNo, 1);
        var reply := Output(ACK, [], env.now);
        out := [reply];
        match state
        case Established => state := CloseWait;
        case FinWait1 =>
          if s.ackNo == sndNxt {
            SetTimeWait(env.now);
          } else {
            state := Closing;
          }
        case FinWait2 => SetTimeWait(env.now);
        case TimeWait => SetTimeWait(env.now);
        case _ =>
      }
    }

    method IsAcceptable(s: Segment) returns (acceptable: bool)
      requires Valid()
      ensures acceptable == Acceptable(View(), s)
    {
      var right := Add32(rcvNxt, rcvWnd);
      acceptable := false;
      if SegLen(s) == 0 {
        if rcvWnd == 0 {
          acceptable := s.seqNo == rcvNxt;
        } else {
          acceptable := rcvNxt <= s.seqNo < right;
        }
      } else if rcvWnd != 0 {
        var last := Sub32(Add32(s.seqNo, SegLen(s)), 1);
        acceptable := rcvNxt <= s.seqNo < right || rcvNxt <= last < right;
      }
    }

    method OnSynchronised(s: Segment, env: Env) returns (out: seq<Segment>)
      requires Valid() && Synchronised(state)
      modifies this, buf
      ensures Valid() && Result(View(), out) == ArrivesSynchronised(old(View()), s, env)
    {
      out := [];
      var acceptable := IsAcceptable(s);
      if !acceptable {
        if !s.flg.rst {
          var reply := Output(ACK, [], env.now);
          out := [reply];
        }
        return;
      }
      if s.flg.rst {
        state := Closed;
        ReleaseBlock(env.waiters);
        return;
      }
      if s.flg.syn {
        out := [Segment(sndNxt, rcvNxt, RST, rcvWnd, [])];
        state := Closed;
        ReleaseBlock(env.waiters);
        return;
      }
      if !s.flg.ack {
        return;
      }
      var stop;
      stop, out := OnAck(s, env);
      if stop {
        return;
      }
      var text := OnText(s, env.now);
      var fin := OnFin(s, env);
      out := text + fin;
    }

    /** tcp_segment_arrives for the selected block. */
    method SegmentArrives(s: Segment, env: Env) returns (out: seq<Segment>)
      requires Valid()
      modifies this, buf
      ensures Valid() && Result(View(), out) == Arrives(old(View()), s, env)
    {
      if state == Free || state == Closed {
        out := ResetFor(s);
      } else if state == Listen {
        out := OnListen(s, env);
      } else if state == SynSent {
        out := OnSynSent(s, env);
      } else {
        out := OnSynchronised(s, env);
      }
    }

    // ---- user commands

    method ConnectCommand(random: U31, now: Time, ok: bool) returns (out: seq<Segment>)
      requires Valid()
      modifies this, buf
      ensures Valid() && Result(View(), out) == ConnectCall(old(View()), random, now, ok)
    {
      out := [];
      rcvWnd := BUF_SIZE;
      iss := random;
      var syn := Output(SYN, [], now);
      if !ok {
        state := Closed;
        ReleaseBlock(false);
        return;
      }
      out := [syn];
      sndUna := iss;
      sndNxt := Add32(iss, 1);
      state := SynSent;
    }

    /** One iteration of tcp_send's loop with an open window. */
    method SendNext(data: seq<Byte>, sent: nat, out: seq<Segment>, mss: nat, now: Time)
      returns (sent': nat, out': seq<Segment>)
      requires Valid() && 0 < mss <= MAX_TEXT && sent < |data| && Cap(View()) != 0
      modifies `queue, `sndNxt
      ensures Valid() && Burst(View(), sent', out') == Iterate(Burst(old(View()), sent, out), data, mss, now)
      ensures sent < sent' <= |data|
    {
      var cap := Sub32(sndWnd, Sub32(sndNxt, sndUna));
      var slen := Min(Min(mss, |data| - sent), cap);
      var s := Output(PSH_ACK, data[sent..sent + slen], now);
      sndNxt := Add32(sndNxt, slen);
      sent', out' := sent + slen, out + [s];
    }

    /**
    tcp_send between two sleeps: hands out slices until the data or the window is used up.
    The test of the state is the caller's; `clock[k]` is the reading for the k-th slice.
     */
    method SendUntilBlocked(data: seq<Byte>, mss: nat, clock: seq<Time>)
      returns (sent: nat, out: seq<Segment>, ghost bs: seq<Burst>)
      requires Valid() && MaySend(state) && 0 < mss <= MAX_TEXT && |clock| == |data|
      modifies `queue, `sndNxt
      ensures Valid() && IsBurst(bs, old(View()), data, mss, clock) && bs[|bs| - 1] == Burst(View(), sent, out)
    {
      sent, out := 0, [];
      var k := 0;
      ghost var t := View();
      bs := [Burst(t, 0, [])];
      while sent < |data|
        invariant 0 <= k <= sent <= |data| && |bs| == k + 1
        invariant IsTrace(bs, t, data, mss, clock) && bs[k] == Burst(View(), sent, out)
        decreases |data| - sent
      {
        var cap := Sub32(sndWnd, Sub32(sndNxt, sndUna));
        if cap == 0 {
          break;
        }
        sent, out := SendNext(data, sent, out, mss, clock[k]);
        TraceAppend(bs, t, data, mss, clock, Burst(View(), sent, out));
        bs := bs + [Burst(View(), sent, out)];
        k := k + 1;
      }
    }

    /** memmove of what is left to the front of the buffer. */
    method ShiftDown(len: nat, remain: nat)
      requires Valid() && len <= remain <= BUF_SIZE
      modifies buf
      ensures buf[..remain - len] == old(buf[..remain])[len..]
    {
      forall i | 0 <= i < remain - len {
        buf[i] := buf[i + len];
      }
    }

    method Consume(len: nat)
      requires Valid() && len <= BUF_SIZE - rcvWnd
      modifies `rcvWnd, buf
      ensures Valid()
      ensures View() == old(View()).(buf := old(View()).buf[len..], rcvWnd := old(rcvWnd) + len)
    {
      ShiftDown(len, BUF_SIZE - rcvWnd);
      rcvWnd := rcvWnd + len;
    }

    /** The end of tcp_receive: copies out and shifts the rest of the buffer down. */
    method CopyOut(size: nat) returns (got: seq<Byte>)
      requires Valid()
      modifies `rcvWnd, buf
      ensures Valid() && got == old(View()).buf[..Min(size, |old(View()).buf|)]
      ensures View() == old(View()).(buf := old(View()).buf[|got|..], rcvWnd := old(rcvWnd) + |got|)
    {
      var remain := BUF_SIZE - rcvWnd;
      var len := Min(size, remain);
      got := buf[..len];
      Consume(len);
    }

    /** One turn of tcp_receive: bytes, or the caller sleeps, or is told that there will be none. */
    method ReceiveCommand(size: nat) returns (reply: Reply)
      requires Valid()
      modifies this, buf
      ensures Valid() && View() == ReceiveCall(old(View()), size) && reply == ReceiveReply(old(View()), size)
    {
      ReceiveShape(View(), size);
      var remain := BUF_SIZE - rcvWnd;
      match state {
        case Established | FinWait1 | FinWait2 =>
          if remain == 0 {
            return Asleep;
          }
        case CloseWait =>
          if remain == 0 {
            return EndOfStream;
          }
        case Closing | LastAck | TimeWait =>
          return EndOfStream;
        case _ =>
          return Refused;
      }
      var got := CopyOut(size);
      reply := Bytes(got);
    }

    method SendFin(now: Time, next: State) returns (out: seq<Segment>)
      requires Valid()
      modifies `queue, `sndNxt, `state
      ensures Valid() && out == [OutputSegment(old(View()), FIN_ACK, [])]
      ensures View() == Enqueue(old(View()), FIN_ACK, [], now).(sndNxt := Add32(old(sndNxt), 1), state := next)
    {
      var s := Output(FIN_ACK, [], now);
      out := [s];
      sndNxt := Add32(sndNxt, 1);
      state := next;
    }

    method CloseCommand(now: Time, waiters: bool) returns (out: seq<Segment>)
      requires Valid()
      modifies this, buf
      ensures Valid() && Result(View(), out) == CloseCall(old(View()), now, waiters)
    {
      out := [];
      match state
      case Listen =>
        state := Closed;
        ReleaseBlock(waiters);
      case SynSent =>
        state := Closed;
        ReleaseBlock(waiters);
      case SynReceived =>
        out := SendFin(now, FinWait1);
      case Established =>
        out := SendFin(now, FinWait1);
      case CloseWait =>
        out := SendFin(now, LastAck);
      case _ =>
    }
  }
}
