/**
Where plain uint32_t comparisons stop being the comparisons modulo 2^32 that section 3.3
of RFC 793 asks for: exactly when a window or the data in flight reaches across 2^32.
 */
module TcpLimits {
  import opened Words
  import opened TcpSpec

  /** The sequence numbers a segment occupies, in the 16 bits the program counts them in. */
  function Occupied(s: Segment): U16 {
    (|s.data| + (if s.flg.syn then 1 else 0) + (if s.flg.fin then 1 else 0)) % 0x1_0000
  }

  /** `x` lies in the receive window, counted modulo 2^32. */
  predicate InWindow(t: Tcb, x: U32) {
    Sub32(x, t.rcvNxt) < t.rcvWnd
  }

  /** The acceptability test of section 3.9 of RFC 793 in modular arithmetic. */
  predicate AcceptableModular(t: Tcb, s: Segment) {
    if Occupied(s) == 0 then
      if t.rcvWnd == 0 then s.seqNo == t.rcvNxt else InWindow(t, s.seqNo)
    else
      t.rcvWnd != 0 && (InWindow(t, s.seqNo) || InWindow(t, Sub32(Add32(s.seqNo, Occupied(s)), 1)))
  }

  /** A window that reaches across 2^32 accepts nothing at all; any other accepts what it should. */
  lemma AcceptanceIsModularIff(t: Tcb)
    ensures (forall s :: Acceptable(t, s) == AcceptableModular(t, s)) <==> t.rcvWnd == 0 || t.rcvNxt + t.rcvWnd < TWO_32
    ensures t.rcvWnd != 0 && t.rcvNxt + t.rcvWnd >= TWO_32 ==> forall s :: !Acceptable(t, s)
  {
    if t.rcvWnd != 0 && t.rcvNxt + t.rcvWnd >= TWO_32 {
      var s := Segment(t.rcvNxt, 0, ACK, 0, []);
      assert !Acceptable(t, s) && AcceptableModular(t, s);
    }
  }

  /** `a` acknowledges something in flight, counted modulo 2^32. */
  predicate AcksInFlight(t: Tcb, a: U32) {
    0 < Sub32(a, t.sndUna) <= Sub32(t.sndNxt, t.sndUna)
  }

  /** With data in flight across 2^32 no acknowledgement advances SND.UNA; otherwise the right ones do. */
  lemma AcknowledgementIsModularIff(t: Tcb)
    ensures (forall a: U32 :: t.sndUna < a <= t.sndNxt <==> AcksInFlight(t, a)) <==> t.sndUna <= t.sndNxt
  {
    if t.sndNxt < t.sndUna {
      assert AcksInFlight(t, Add32(t.sndUna, 1));
    }
  }
}
