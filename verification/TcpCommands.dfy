/**
What the user commands do, read off the state alone: which bytes tcp_receive hands out,
what tcp_close and tcp_connect put on the wire, and where each leaves the block.
 */
module TcpCommands {
  import opened Words
  import opened Clock
  import opened TcpSpec
  import opened TcpLocal
  import opened TcpArrivals

  /** The states in which pending bytes can be read. */
  predicate Readable(st: State) {
    st in {Established, FinWait1, FinWait2, CloseWait}
  }

  /**
  tcp_receive hands out as many pending bytes as fit, from the front; what is left is the
  rest of them, and the window opens by what was read. In all other states nothing moves.
   */
  lemma ReceiveTakesFront(t: Tcb, size: nat)
    requires |t.buf| + t.rcvWnd == BUF_SIZE
    ensures var got, t' := Received(t, size), Apply(t, Receive(size)).t;
            && got + t'.buf == t.buf && |got| == (if Readable(t.state) then Min(size, |t.buf|) else 0)
            && t' == t.(buf := t'.buf, rcvWnd := t.rcvWnd + |got|)
            && Apply(t, Receive(size)).out == []
  {
  }

  /** What the caller is told. */
  lemma ReceiveReplies(t: Tcb, size: nat)
    ensures var r := ReceiveReply(t, size);
            && (r == Refused <==> t.state in {Free, Closed, Listen, SynSent, SynReceived})
            && (r == EndOfStream <==> t.state in {Closing, LastAck, TimeWait} || (t.state == CloseWait && t.buf == []))
            && (r == Asleep <==> t.state in {Established, FinWait1, FinWait2} && t.buf == [])
            && (r.Bytes? <==> Readable(t.state) && t.buf != [])
            && (r.Bytes? ==> r.data == t.buf[..Min(size, |t.buf|)] && (size > 0 ==> r.data != []))
  {
  }

  /** The block after its FIN has gone out: one number used, one entry queued. */
  predicate FinGone(t: Tcb, now: Time, st: State, t': Tcb) {
    t' == t.(state := st, sndNxt := Add32(t.sndNxt, 1),
             queue := t.queue + [Entry(now, now, 200_000, t.sndNxt, Flags(true, false, false, false, true), [])])
  }

  /** tcp_close, state by state. */
  lemma CloseTable(t: Tcb, now: Time, waiters: bool)
    ensures var t', out := Apply(t, Close(now, waiters)).t, Apply(t, Close(now, waiters)).out;
            var fin := [Segment(t.sndNxt, t.rcvNxt, Flags(true, false, false, false, true), t.rcvWnd, [])];
            && (t.state in {Listen, SynSent} ==> Ended(t, waiters, t') && out == [])
            && (t.state in {SynReceived, Established} ==> FinGone(t, now, FinWait1, t') && out == fin)
            && (t.state == CloseWait ==> FinGone(t, now, LastAck, t') && out == fin)
            && (t.state !in {Listen, SynSent, SynReceived, Established, CloseWait} ==> t' == t && out == [])
  {
  }

  /** tcp_connect up to its sleep: a SYN at a random number, or a cleared block when IP refuses it. */
  lemma ConnectTable(random: U31, now: Time, ok: bool)
    ensures var t', out := Apply(Fresh(), Connect(random, now, ok)).t, Apply(Fresh(), Connect(random, now, ok)).out;
            var syn := Flags(false, true, false, false, false);
            if ok then
              && t' == Fresh().(state := SynSent, iss := random, sndUna := random, sndNxt := random + 1,
                                rcvWnd := 65535, buf := [],
                                queue := [Entry(now, now, 200_000, random, syn, [])])
              && out == [Segment(random, 0, syn, 65535, [])]
            else t' == Zeroed() && out == []
  {
  }

  /** A slice that IP refuses is queued all the same, and the connection ends. */
  lemma RefusedSliceEnds(t: Tcb, data: seq<Byte>, now: Time, waiters: bool)
    requires Enabled(t, SendFails(data, now, waiters))
    ensures var queued := Entry(now, now, 200_000, t.sndNxt, Flags(false, false, false, true, true), data);
            Ended(t.(queue := t.queue + [queued]), waiters, Apply(t, SendFails(data, now, waiters)).t)
    ensures Apply(t, SendFails(data, now, waiters)).out == []
  {
  }

  /** Listening and giving up only move the state. */
  lemma ListenAndGiveUpTable(t: Tcb, waiters: bool)
    ensures Enabled(t, ListenCmd) ==> Apply(t, ListenCmd) == Result(t.(state := Listen), [])
    ensures t.state != Free ==> Ended(t, waiters, Apply(t, GiveUp(waiters)).t) && Apply(t, GiveUp(waiters)).out == []
  {
  }

  /** One slice of tcp_send: ESTABLISHED and CLOSE_WAIT take it, as the next text behind all that was sent. */
  lemma SendTable(t: Tcb, data: seq<Byte>, now: Time)
    ensures Enabled(t, Send(data, now)) <==>
            && t.state in {Established, CloseWait} && 0 < |data| <= 65495
            && |data| <= Sub32(t.sndWnd, Sub32(t.sndNxt, t.sndUna))
    ensures Enabled(t, Send(data, now)) ==>
              && var push := Flags(false, false, false, true, true);
              && Apply(t, Send(data, now)).t ==
                 t.(sndNxt := Add32(t.sndNxt, |data|),
                    queue := t.queue + [Entry(now, now, 200_000, t.sndNxt, push, data)])
              && Apply(t, Send(data, now)).out == [Segment(t.sndNxt, t.rcvNxt, push, t.rcvWnd, data)]
  {
  }
}
