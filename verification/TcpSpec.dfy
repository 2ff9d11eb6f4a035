/**
One TCP connection block as a value, and every critical section of tcp.c that touches
it as a function from the old block to the new block and the segments handed to IP.

The clock, random() and whether some thread sleeps on the block's scheduler context
are parameters. Sequence numbers are compared as plain 32-bit integers, as in the source.
 */
module TcpSpec {
  import opened Words
  import opened Clock

  const BUF_SIZE: U16 := 65535
  const MAX_TEXT := 65495               // what fits an IP datagram after both headers
  const DEFAULT_RTO: U32 := 200_000     // microseconds
  const RETRANSMIT_DEADLINE := 12       // seconds
  const TIMEWAIT_SEC := 30

  datatype State =
    | Free | Closed | Listen | SynSent | SynReceived | Established
    | FinWait1 | FinWait2 | Closing | TimeWait | CloseWait | LastAck

  datatype Flags = Flags(fin: bool, syn: bool, rst: bool, psh: bool, ack: bool)

  const SYN := Flags(false, true, false, false, false)
  const SYN_ACK := Flags(false, true, false, false, true)
  const ACK := Flags(false, false, false, false, true)
  const PSH_ACK := Flags(false, false, false, true, true)
  const FIN_ACK := Flags(true, false, false, false, true)
  const RST := Flags(false, false, true, false, false)
  const RST_ACK := Flags(false, false, true, false, true)

  datatype Segment = Segment(seqNo: U32, ackNo: U32, flg: Flags, wnd: U16, data: seq<Byte>)

  function Bit(b: bool): U16 {
    if b then 1 else 0
  }

  /** SEG.LEN as tcp_input computes it: a uint16_t that counts SYN and FIN. */
  function SegLen(s: Segment): U16 {
    (|s.data| + Bit(s.flg.syn) + Bit(s.flg.fin)) % TWO_16
  }

  /** A retransmit queue entry. */
  datatype Entry = Entry(first: Time, last: Time, rto: U32, seqNo: U32, flg: Flags, data: seq<Byte>)

  /** Sequence numbers an entry occupies. */
  function EntryLen(e: Entry): nat {
    |e.data| + Bit(e.flg.syn) + Bit(e.flg.fin)
  }

  /** `buf` is the filled part of the 65535-byte receive buffer. */
  datatype Tcb = Tcb(
    state: State,
    iss: U32, sndNxt: U32, sndUna: U32, sndWnd: U16, wl1: U32, wl2: U32,
    irs: U32, rcvNxt: U32, rcvWnd: U16, buf: seq<Byte>,
    queue: seq<Entry>, twTimer: Time)

  /** A zeroed block; its zero window makes the whole (zeroed) buffer count as filled. */
  function Zeroed(): Tcb {
    Tcb(Free, 0, 0, 0, 0, 0, 0, 0, 0, 0, ZeroBuffer(), [], Timeval(0, 0))
  }

  function ZeroBuffer(): seq<Byte> {
    seq(BUF_SIZE, _ => 0)
  }

  /** What tcp_pcb_alloc hands out. */
  function Fresh(): Tcb {
    Zeroed().(state := Closed)
  }

  datatype Result = Result(t: Tcb, out: seq<Segment>)

  datatype Env = Env(random: U31, now: Time, waiters: bool)

  /** tcp_pcb_release: refused while a thread waits on the block. */
  function Release(t: Tcb, waiters: bool): Tcb {
    if waiters then t else Zeroed()
  }

  function Abandon(t: Tcb, waiters: bool): Tcb {
    Release(t.(state := Closed), waiters)
  }

  // ---- output and the retransmit queue

  function OutputSeq(t: Tcb, flg: Flags): U32 {
    if flg.syn then t.iss else t.sndNxt
  }

  function OutputSegment(t: Tcb, flg: Flags, data: seq<Byte>): Segment {
    Segment(OutputSeq(t, flg), t.rcvNxt, flg, t.rcvWnd, data)
  }

  function Enqueue(t: Tcb, flg: Flags, data: seq<Byte>, now: Time): Tcb {
    if flg.syn || flg.fin || data != []
    then t.(queue := t.queue + [Entry(now, now, DEFAULT_RTO, OutputSeq(t, flg), flg, data)])
    else t
  }

  function AckNow(t: Tcb): Segment {
    OutputSegment(t, ACK, [])
  }

  /** tcp_retransmit_queue_cleanup: drops entries from the front while they start before `una`. */
  function Cleanup(q: seq<Entry>, una: U32): seq<Entry> {
    if q != [] && q[0].seqNo < una then Cleanup(q[1..], una) else q
  }

  // ---- segment arrival

  /** The answer to a segment for which there is no connection. */
  function ResetFor(s: Segment): seq<Segment> {
    if s.flg.rst then []
    else if !s.flg.ack then [Segment(0, Add32(s.seqNo, SegLen(s)), RST_ACK, 0, [])]
    else [Segment(s.ackNo, 0, RST, 0, [])]
  }

  /** LISTEN takes a SYN: the passive open. */
  function PassiveOpen(t: Tcb, s: Segment, env: Env): Result {
    var t1 := t.(rcvWnd := BUF_SIZE, buf := [], rcvNxt := Add32(s.seqNo, 1), irs := s.seqNo, iss := env.random);
    Result(Enqueue(t1, SYN_ACK, [], env.now).(sndNxt := Add32(t1.iss, 1), sndUna := t1.iss, state := SynReceived),
           [OutputSegment(t1, SYN_ACK, [])])
  }

  function ArrivesListen(t: Tcb, s: Segment, env: Env): Result {
    if s.flg.rst then Result(t, [])
    else if s.flg.ack then Result(t, [Segment(s.ackNo, 0, RST, 0, [])])
    else if s.flg.syn then PassiveOpen(t, s, env)
    else Result(t, [])
  }

  /** SYN-SENT takes the peer's SYN; `acked` says that it acknowledges ours. */
  function AnswerSyn(t: Tcb, s: Segment, env: Env, acked: bool): Result {
    var t1 := t.(rcvNxt := Add32(s.seqNo, 1), irs := s.seqNo);
    var t2 := if acked then t1.(sndUna := s.ackNo, queue := Cleanup(t1.queue, s.ackNo)) else t1;
    if t2.sndUna > t2.iss then
      Result(t2.(state := Established, sndWnd := s.wnd, wl1 := s.seqNo, wl2 := s.ackNo), [AckNow(t2)])
    else
      var t3 := t2.(state := SynReceived);
      Result(Enqueue(t3, SYN_ACK, [], env.now), [OutputSegment(t3, SYN_ACK, [])])
  }

  function ArrivesSynSent(t: Tcb, s: Segment, env: Env): Result {
    if s.flg.ack && (s.ackNo <= t.iss || s.ackNo > t.sndNxt) then
      Result(t, [Segment(s.ackNo, 0, RST, 0, [])])
    else
      var acceptable := s.flg.ack && t.sndUna <= s.ackNo <= t.sndNxt;
      if s.flg.rst then Result(if acceptable then Abandon(t, env.waiters) else t, [])
      else if s.flg.syn then AnswerSyn(t, s, env, acceptable)
      else Result(t, [])
  }

  /** First check: does the segment touch the receive window? */
  predicate Acceptable(t: Tcb, s: Segment) {
    var right := Add32(t.rcvNxt, t.rcvWnd);
    if SegLen(s) == 0 then
      if t.rcvWnd == 0 then s.seqNo == t.rcvNxt else t.rcvNxt <= s.seqNo < right
    else
      t.rcvWnd != 0 &&
      var last := Sub32(Add32(s.seqNo, SegLen(s)), 1);
      t.rcvNxt <= s.seqNo < right || t.rcvNxt <= last < right
  }

  /** Outcome of the ACK check: stop here, or go on to text and FIN. */
  datatype AckOutcome = Stop(r: Result) | Continue(t: Tcb)

  predicate WindowGuard(t: Tcb, s: Segment) {
    t.wl1 < s.seqNo || (t.wl1 == s.seqNo && t.wl2 <= s.ackNo)
  }

  function AdvanceUna(t: Tcb, s: Segment): Tcb {
    var t1 := t.(sndUna := s.ackNo, queue := Cleanup(t.queue, s.ackNo));
    if WindowGuard(t, s) then t1.(sndWnd := s.wnd, wl1 := s.seqNo, wl2 := s.ackNo) else t1
  }

  function TimeWaitFrom(t: Tcb, now: Time): Tcb {
    t.(state := TimeWait, twTimer := Timeval(now.sec + TIMEWAIT_SEC, now.usec))
  }

  function ProcessAck(t: Tcb, s: Segment, env: Env): AckOutcome {
    if t.state == LastAck then
      Stop(Result(if s.ackNo == t.sndNxt then Abandon(t, env.waiters) else t, []))
    else if t.state == TimeWait then
      Continue(if s.flg.fin then TimeWaitFrom(t, env.now) else t)
    else if t.state == SynReceived && !(t.sndUna <= s.ackNo <= t.sndNxt) then
      Stop(Result(t, [Segment(s.ackNo, 0, RST, 0, [])]))
    else
      var t1 := if t.state == SynReceived then t.(state := Established) else t;
      var advances := t1.sndUna < s.ackNo <= t1.sndNxt;
      if !advances && s.ackNo >= t1.sndUna && s.ackNo > t1.sndNxt then Stop(Result(t1, [AckNow(t1)]))
      else
        var t2 := if advances then AdvanceUna(t1, s) else t1;
        if t2.state == FinWait1 && s.ackNo == t2.sndNxt then Continue(t2.(state := FinWait2))
        else if t2.state == Closing && s.ackNo == t2.sndNxt then Continue(TimeWaitFrom(t2, env.now))
        else Continue(t2)
  }

  predicate ReadsText(st: State) {
    st == Established || st == FinWait1 || st == FinWait2
  }

  /** The bytes that count as pending when the window is `wnd`. */
  function Filled(written: seq<Byte>, wnd: U16): seq<Byte> {
    written[..Min(|written|, BUF_SIZE - wnd)]
  }

  /**
  The text goes behind what is pending. A copy that runs past the buffer also makes the
  16-bit window wrap round, after which only part of the buffer counts as filled; what the
  excess overwrites is not part of the model.
   */
  function ProcessText(t: Tcb, s: Segment): Result {
    if ReadsText(t.state) && s.data != [] then
      var wnd: U16 := (t.rcvWnd - |s.data|) % TWO_16;
      var t1 := t.(buf := Filled(t.buf + s.data, wnd), rcvNxt := Add32(s.seqNo, SegLen(s)), rcvWnd := wnd);
      Result(t1, [AckNow(t1)])
    else Result(t, [])
  }

  function ProcessFin(t: Tcb, s: Segment, env: Env): Result {
    if s.flg.fin then
      var t1 := t.(rcvNxt := Add32(s.seqNo, 1));
      var t2 := match t1.state
        case Established => t1.(state := CloseWait)
        case FinWait1 => if s.ackNo == t1.sndNxt then TimeWaitFrom(t1, env.now) else t1.(state := Closing)
        case FinWait2 => TimeWaitFrom(t1, env.now)
        case TimeWait => TimeWaitFrom(t1, env.now)
        case _ => t1;
      Result(t2, [AckNow(t1)])
    else Result(t, [])
  }

  function ProcessTextAndFin(t: Tcb, s: Segment, env: Env): Result {
    var text := ProcessText(t, s);
    var fin := ProcessFin(text.t, s, env);
    Result(fin.t, text.out + fin.out)
  }

  /** The states of the "Otherwise" part of SEGMENT ARRIVES. */
  predicate Synchronised(st: State) {
    !(st == Free || st == Closed || st == Listen || st == SynSent)
  }

  function ArrivesSynchronised(t: Tcb, s: Segment, env: Env): Result {
    if !Acceptable(t, s) then Result(t, if s.flg.rst then [] else [AckNow(t)])
    else if s.flg.rst then Result(Abandon(t, env.waiters), [])
    else if s.flg.syn then Result(Abandon(t, env.waiters), [OutputSegment(t, RST, [])])
    else if !s.flg.ack then Result(t, [])
    else match ProcessAck(t, s, env)
      case Stop(r) => r
      case Continue(t1) => ProcessTextAndFin(t1, s, env)
  }

  function Arrives(t: Tcb, s: Segment, env: Env): Result {
    match t.state
    case Free => Result(t, ResetFor(s))
    case Closed => Result(t, ResetFor(s))
    case Listen => ArrivesListen(t, s, env)
    case SynSent => ArrivesSynSent(t, s, env)
    case _ => ArrivesSynchronised(t, s, env)
  }

  /** The segment reaches the text and FIN steps. */
  predicate Reaches(t: Tcb, s: Segment, env: Env) {
    && Synchronised(t.state) && Acceptable(t, s)
    && !s.flg.rst && !s.flg.syn && s.flg.ack
    && ProcessAck(t, s, env).Continue?
  }

  /** The segment's text is copied into the receive buffer. */
  predicate TakesText(t: Tcb, s: Segment, env: Env) {
    Reaches(t, s, env) && ReadsText(ProcessAck(t, s, env).t.state) && s.data != []
  }

  /** The copy stays inside the buffer. */
  predicate TextFits(t: Tcb, s: Segment, env: Env) {
    TakesText(t, s, env) ==> |s.data| <= t.rcvWnd
  }

  // ---- timer

  /** What tcp_retransmit_queue_emit decides for an entry at time `now`. */
  datatype Fate = TimedOut | Due | NotYet

  function FateOf(e: Entry, now: Time): Fate {
    if TimerSub(now, e.first).sec >= RETRANSMIT_DEADLINE then TimedOut
    else if Later(now, AddUsec(e.last, e.rto)) then Due
    else NotYet
  }

  /** A retransmission restarts the entry's timer and doubles it, in unsigned 32-bit arithmetic. */
  function Backoff(e: Entry, now: Time): Entry {
    e.(last := now, rto := 2 * e.rto % TWO_32)
  }

  /** tcp_retransmit_queue_emit on entry `i`. */
  function EmitOne(t: Tcb, i: nat, now: Time): Result
    requires i < |t.queue|
  {
    var e := t.queue[i];
    match FateOf(e, now)
    case TimedOut => Result(t.(state := Closed), [])
    case Due =>
      Result(t.(queue := t.queue[i := Backoff(e, now)]), [Segment(e.seqNo, t.rcvNxt, e.flg, t.rcvWnd, e.data)])
    case NotYet => Result(t, [])
  }

  function EmitFrom(t: Tcb, i: nat, clock: seq<Time>): Result
    requires i <= |t.queue| == |clock|
    decreases |t.queue| - i
  {
    if i == |t.queue| then Result(t, [])
    else
      var r := EmitOne(t, i, clock[i]);
      var rest := EmitFrom(r.t, i + 1, clock);
      Result(rest.t, r.out + rest.out)
  }

  /** tcp_timer for one block: `clock[i]` is the reading taken for queue entry `i`. */
  function Tick(t: Tcb, now: Time, clock: seq<Time>, waiters: bool): Result
    requires |t.queue| == |clock|
  {
    if t.state == Free then Result(t, [])
    else if t.state == TimeWait && Later(now, t.twTimer) then Result(Release(t, waiters), [])
    else EmitFrom(t, 0, clock)
  }

  // ---- user commands

  /** tcp_connect up to its sleep; `ok` is whether IP accepted the SYN. */
  function ConnectCall(t: Tcb, random: U31, now: Time, ok: bool): Result {
    var t1 := t.(rcvWnd := BUF_SIZE, buf := [], iss := random);
    if ok then
      Result(Enqueue(t1, SYN, [], now).(sndUna := random, sndNxt := Add32(random, 1), state := SynSent),
             [OutputSegment(t1, SYN, [])])
    else Result(Zeroed(), [])
  }

  predicate MaySend(st: State) {
    st == Established || st == CloseWait
  }

  /** What tcp_send may still put on the wire, computed in uint32_t. */
  function Cap(t: Tcb): U32 {
    Sub32(t.sndWnd, Sub32(t.sndNxt, t.sndUna))
  }

  /** One iteration of tcp_send's loop with a non-empty slice. */
  function SendSlice(t: Tcb, data: seq<Byte>, now: Time): Result
    requires |data| <= MAX_TEXT
  {
    Result(Enqueue(t, PSH_ACK, data, now).(sndNxt := Add32(t.sndNxt, |data|)), [OutputSegment(t, PSH_ACK, data)])
  }

  predicate MayReceive(st: State) {
    st == Established || st == FinWait1 || st == FinWait2 || st == CloseWait
  }

  /** Bytes tcp_receive copies out: MIN(size, remain). */
  function Received(t: Tcb, size: nat): seq<Byte> {
    if MayReceive(t.state) then t.buf[..Min(size, |t.buf|)] else []
  }

  /** What tcp_receive returns: an error, nothing because the peer has closed, bytes, or not yet. */
  datatype Reply = Refused | EndOfStream | Bytes(data: seq<Byte>) | Asleep

  function ReceiveReply(t: Tcb, size: nat): Reply {
    match t.state
    case Established | FinWait1 | FinWait2 => if t.buf == [] then Asleep else Bytes(Received(t, size))
    case CloseWait => if t.buf == [] then EndOfStream else Bytes(Received(t, size))
    case Closing | LastAck | TimeWait => EndOfStream
    case _ => Refused
  }

  function ReceiveCall(t: Tcb, size: nat): Tcb {
    if MayReceive(t.state) then
      var n := Min(size, |t.buf|);
      t.(buf := t.buf[n..], rcvWnd := (t.rcvWnd + n) % TWO_16)
    else t
  }

  predicate ClosesWithFin(st: State) {
    st == SynReceived || st == Established || st == CloseWait
  }

  function CloseCall(t: Tcb, now: Time, waiters: bool): Result {
    if t.state == Listen || t.state == SynSent then Result(Abandon(t, waiters), [])
    else if ClosesWithFin(t.state) then
      Result(Enqueue(t, FIN_ACK, [], now).(sndNxt := Add32(t.sndNxt, 1),
                                           state := if t.state == CloseWait then LastAck else FinWait1),
             [OutputSegment(t, FIN_ACK, [])])
    else Result(t, [])
  }

  // ---- all critical sections together

  datatype Event =
    | Arrive(seg: Segment, env: Env)
    | TimerTick(now: Time, clock: seq<Time>, waiters: bool)
    | Connect(random: U31, now: Time, ok: bool)
    | ListenCmd
    | Send(data: seq<Byte>, now: Time)
    | SendFails(data: seq<Byte>, now: Time, waiters: bool)
    | Receive(size: nat)
    | Close(now: Time, waiters: bool)
    | GiveUp(waiters: bool)

  /**
  When an event can happen. Connect and listen need a block fresh from tcp_pcb_alloc;
  GiveUp stands for the paths on which a sleeping command closes and releases the block.
   */
  predicate Enabled(t: Tcb, ev: Event) {
    match ev
    case Arrive(_, _) => true
    case TimerTick(_, clock, _) => |clock| == |t.queue|
    case Connect(_, _, _) => t == Fresh()
    case ListenCmd => t == Fresh()
    case Send(data, _) => MaySend(t.state) && 0 < |data| <= Cap(t) && |data| <= MAX_TEXT
    case SendFails(data, _, _) => MaySend(t.state) && 0 < |data| <= Cap(t) && |data| <= MAX_TEXT
    case Receive(_) => true
    case Close(_, _) => true
    case GiveUp(_) => t.state != Free
  }

  function Apply(t: Tcb, ev: Event): Result
    requires Enabled(t, ev)
  {
    match ev
    case Arrive(s, env) => Arrives(t, s, env)
    case TimerTick(now, clock, waiters) => Tick(t, now, clock, waiters)
    case Connect(random, now, ok) => ConnectCall(t, random, now, ok)
    case ListenCmd => Result(t.(state := Listen), [])
    case Send(data, now) => SendSlice(t, data, now)
    case SendFails(data, now, waiters) => Result(Abandon(Enqueue(t, PSH_ACK, data, now), waiters), [])
    case Receive(size) => Result(ReceiveCall(t, size), [])
    case Close(now, waiters) => CloseCall(t, now, waiters)
    case GiveUp(waiters) => Result(Abandon(t, waiters), [])
  }
}
