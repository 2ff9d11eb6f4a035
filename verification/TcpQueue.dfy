/**
The retransmit queue: what it means for its entries to cover a range of sequence
numbers, and what appending, cleaning up and timer passes do to that.
 */
module TcpQueue {
  import opened Words
  import opened Clock
  import opened TcpSpec

  /** The entries are consecutive, starting at `a` and ending at `b`. */
  ghost predicate Covers(q: seq<Entry>, a: int, b: int) {
    if q == [] then a == b
    else q[0].seqNo == a && EntryLen(q[0]) > 0 && Covers(q[1..], a + EntryLen(q[0]), b)
  }

  /** As Covers, except that the SYN of a simultaneous open may be queued twice. */
  ghost predicate CoversTwiceSyn(q: seq<Entry>, iss: int, a: int, b: int) {
    || Covers(q, a, b)
    || (a == iss && |q| >= 2 && LoneSyn(q[0]) && LoneSyn(q[1]) && q[0].seqNo == a && Covers(q[1..], a, b))
  }

  predicate LoneSyn(e: Entry) {
    e.flg.syn && EntryLen(e) == 1
  }

  /** `u` falls strictly inside an entry. */
  ghost predicate Splits(q: seq<Entry>, u: int) {
    exists e :: e in q && e.seqNo < u < e.seqNo + EntryLen(e)
  }

  lemma {:induction false} CoversBounds(q: seq<Entry>, a: int, b: int)
    requires Covers(q, a, b)
    ensures a <= b
    ensures forall e :: e in q ==> a <= e.seqNo && e.seqNo + EntryLen(e) <= b && EntryLen(e) > 0
    ensures forall i, j :: 0 <= i < j < |q| ==> q[i].seqNo + EntryLen(q[i]) <= q[j].seqNo
  {
    if q != [] {
      CoversBounds(q[1..], a + EntryLen(q[0]), b);
      forall i, j | 0 <= i < j < |q|
        ensures q[i].seqNo + EntryLen(q[i]) <= q[j].seqNo
      {
        assert q[j] == q[1..][j - 1];
        if i > 0 { assert q[i] == q[1..][i - 1]; }
      }
    }
  }

  /** A queue that is not empty covers a non-empty range. */
  lemma CoversProgress(q: seq<Entry>, iss: int, a: int, b: int)
    requires CoversTwiceSyn(q, iss, a, b) && q != []
    ensures a < b
  {
    if Covers(q, a, b) {
      CoversBounds(q[1..], a + EntryLen(q[0]), b);
    } else {
      CoversBounds(q[2..], a + EntryLen(q[1]), b);
    }
  }

  lemma {:induction false} AppendCovers(q: seq<Entry>, a: int, b: int, e: Entry)
    requires Covers(q, a, b) && e.seqNo == b && EntryLen(e) > 0
    ensures Covers(q + [e], a, b + EntryLen(e))
  {
    if q != [] {
      AppendCovers(q[1..], a + EntryLen(q[0]), b, e);
      assert (q + [e])[1..] == q[1..] + [e];
    }
  }

  lemma AppendCoversTwiceSyn(q: seq<Entry>, iss: int, a: int, b: int, e: Entry)
    requires CoversTwiceSyn(q, iss, a, b) && e.seqNo == b && EntryLen(e) > 0
    ensures CoversTwiceSyn(q + [e], iss, a, b + EntryLen(e))
  {
    if Covers(q, a, b) {
      AppendCovers(q, a, b, e);
    } else {
      AppendCovers(q[1..], a, b, e);
      assert (q + [e])[1..] == q[1..] + [e];
    }
  }

  /**
  Cleanup keeps a suffix that still runs up to the end of the range and starts at or
  after the new SND.UNA; it starts exactly there if and only if the acknowledgement
  does not fall inside an entry.
   */
  lemma {:induction false} CleanupCovers(q: seq<Entry>, a: int, b: int, u: U32)
    requires Covers(q, a, b) && a <= u <= b
    ensures var r := Cleanup(q, u);
            && (r != [] ==> u <= r[0].seqNo && Covers(r, r[0].seqNo, b))
            && (Covers(r, u, b) <==> !Splits(q, u))
  {
    CoversBounds(q, a, b);
    if q != [] && q[0].seqNo < u {
      var mid := a + EntryLen(q[0]);
      if mid <= u {
        CleanupCovers(q[1..], mid, b, u);
        assert Splits(q, u) ==> Splits(q[1..], u) by {
          if Splits(q, u) {
            var e :| e in q && e.seqNo < u < e.seqNo + EntryLen(e);
            assert e != q[0];
          }
        }
      } else {
        assert q[0] in q && Splits(q, u);
        CoversBounds(q[1..], mid, b);
        assert Cleanup(q[1..], u) == q[1..];
        if q[1..] != [] {
          assert q[1..][0].seqNo == mid;
        }
      }
    } else if q != [] {
      forall e | e in q
        ensures !(e.seqNo < u < e.seqNo + EntryLen(e))
      {
      }
    }
  }

  lemma CleanupCoversTwiceSyn(q: seq<Entry>, iss: int, a: int, b: int, u: U32)
    requires CoversTwiceSyn(q, iss, a, b) && a <= u <= b
    ensures var r := Cleanup(q, u);
            && (r != [] ==> u <= r[0].seqNo && CoversTwiceSyn(r, iss, r[0].seqNo, b))
            && (CoversTwiceSyn(r, iss, u, b) <==> !Splits(q, u))
  {
    if Covers(q, a, b) {
      CleanupCovers(q, a, b, u);
    } else {
      CleanupCovers(q[1..], a, b, u);
      CoversBounds(q[1..], a, b);
      assert Splits(q, u) ==> Splits(q[1..], u) by {
        if Splits(q, u) {
          var e :| e in q && e.seqNo < u < e.seqNo + EntryLen(e);
          assert e in q[1..];
        }
      }
    }
  }

  lemma {:induction false} CleanupIsSuffix(q: seq<Entry>, una: U32)
    ensures forall e :: e in Cleanup(q, una) ==> e in q
  {
    if q != [] && q[0].seqNo < una {
      CleanupIsSuffix(q[1..], una);
    }
  }
}
