/**
The ARP cache: a table of 32 slots that agrees with a map from protocol addresses to
bindings, and what a resolution may return after any history of messages, requests,
evictions and timer passes.
 */
module Arp {
  import opened Options
  import opened Counting
  import opened Words
  import opened Clock
  import opened Headers

  const CACHE_SIZE := 32
  const CACHE_TIMEOUT := 30             // seconds

  datatype CacheState = FreeSlot | Incomplete | Resolved | Static

  datatype Slot = Slot(state: CacheState, pa: U32, ha: Mac, timestamp: Time)

  datatype Binding = Binding(state: CacheState, ha: Mac, timestamp: Time)

  function BindingOf(s: Slot): Binding {
    Binding(s.state, s.ha, s.timestamp)
  }

  predicate Used(s: Slot) {
    s.state != FreeSlot
  }

  /** At most one used slot per protocol address, and together they are the map. */
  ghost predicate Represents(slots: seq<Slot>, m: map<U32, Binding>) {
    && (forall i, j :: 0 <= i < j < |slots| && Used(slots[i]) && Used(slots[j]) ==> slots[i].pa != slots[j].pa)
    && (forall i :: 0 <= i < |slots| && Used(slots[i]) ==> slots[i].pa in m && m[slots[i].pa] == BindingOf(slots[i]))
    && (forall pa :: pa in m ==> exists i :: 0 <= i < |slots| && Used(slots[i]) && slots[i].pa == pa)
  }

  ghost predicate Full(slots: seq<Slot>) {
    forall i :: 0 <= i < |slots| ==> Used(slots[i])
  }

  /** Nothing in the map is older than `pa`. */
  ghost predicate Oldest(m: map<U32, Binding>, pa: U32) {
    pa in m && forall other :: other in m ==> !Later(m[pa].timestamp, m[other].timestamp)
  }

  /** A new binding goes in; only a full table gives one up, and then a least recent one. */
  ghost predicate Inserts(m: map<U32, Binding>, pa: U32, b: Binding, m': map<U32, Binding>) {
    if |m| < CACHE_SIZE then m' == m[pa := b]
    else exists victim: U32 :: Oldest(m, victim) && m' == (m - {victim})[pa := b]
  }

  function CountUsed(slots: seq<Slot>): nat {
    if slots == [] then 0 else CountUsed(slots[..|slots| - 1]) + if Used(slots[|slots| - 1]) then 1 else 0
  }

  lemma RemoveSize(m: map<U32, Binding>, pa: U32)
    requires pa in m
    ensures |m - {pa}| == |m| - 1
  {
    assert m.Keys == (m - {pa}).Keys + {pa};
  }

  lemma AddSize(m: map<U32, Binding>, pa: U32, b: Binding)
    requires pa !in m
    ensures |m[pa := b]| == |m| + 1
  {
    assert m[pa := b].Keys == m.Keys + {pa};
  }

  /** The slots without the last one represent the map without its entry. */
  lemma DropLast(slots: seq<Slot>, m: map<U32, Binding>)
    requires Represents(slots, m) && slots != []
    ensures var s := slots[|slots| - 1];
            Represents(slots[..|slots| - 1], if Used(s) then m - {s.pa} else m)
  {
    var n := |slots| - 1;
    var s, rest := slots[n], slots[..n];
    var m' := if Used(s) then m - {s.pa} else m;
    forall pa | pa in m'
      ensures exists i :: 0 <= i < |rest| && Used(rest[i]) && rest[i].pa == pa
    {
      var i :| 0 <= i < |slots| && Used(slots[i]) && slots[i].pa == pa;
      assert rest[i] == slots[i];
    }
  }

  lemma {:induction false} UsedSlotsAreEntries(slots: seq<Slot>, m: map<U32, Binding>)
    requires Represents(slots, m)
    ensures |m| == CountUsed(slots)
  {
    if slots == [] {
      assert m.Keys == {};
    } else {
      var s := slots[|slots| - 1];
      DropLast(slots, m);
      if Used(s) {
        UsedSlotsAreEntries(slots[..|slots| - 1], m - {s.pa});
        RemoveSize(m, s.pa);
      } else {
        UsedSlotsAreEntries(slots[..|slots| - 1], m);
      }
    }
  }

  lemma {:induction false} FullIffCount(slots: seq<Slot>)
    ensures CountUsed(slots) <= |slots| && (CountUsed(slots) == |slots| <==> Full(slots))
  {
    if slots != [] {
      var n := |slots| - 1;
      FullIffCount(slots[..n]);
      assert Full(slots) <==> Full(slots[..n]) && Used(slots[n]);
    }
  }

  /** Overwriting a slot replaces what it held by the new binding. */
  lemma OverwriteRepresents(slots: seq<Slot>, m: map<U32, Binding>, k: nat, s: Slot)
    requires Represents(slots, m) && k < |slots| && Used(s)
    requires s.pa !in m || (Used(slots[k]) && slots[k].pa == s.pa)
    ensures Represents(slots[k := s], (if Used(slots[k]) then m - {slots[k].pa} else m)[s.pa := BindingOf(s)])
  {
    var m' := (if Used(slots[k]) then m - {slots[k].pa} else m)[s.pa := BindingOf(s)];
    var slots' := slots[k := s];
    forall pa | pa in m'
      ensures exists i :: 0 <= i < |slots'| && Used(slots'[i]) && slots'[i].pa == pa
    {
      if pa == s.pa {
        assert slots'[k] == s;
      } else {
        var i :| 0 <= i < |slots| && Used(slots[i]) && slots[i].pa == pa;
        assert slots'[i] == slots[i];
      }
    }
  }

  lemma FreeRepresents(slots: seq<Slot>, m: map<U32, Binding>, k: nat, s: Slot)
    requires Represents(slots, m) && k < |slots| && Used(slots[k]) && !Used(s)
    ensures Represents(slots[k := s], m - {slots[k].pa})
  {
    var slots' := slots[k := s];
    forall pa | pa in m - {slots[k].pa}
      ensures exists i :: 0 <= i < |slots'| && Used(slots'[i]) && slots'[i].pa == pa
    {
      var i :| 0 <= i < |slots| && Used(slots[i]) && slots[i].pa == pa;
      assert slots'[i] == slots[i];
    }
  }

  /** Older than the timeout in whole seconds. */
  predicate Expired(b: Binding, now: Time) {
    b.state != Static && TimerSub(now, b.timestamp).sec > CACHE_TIMEOUT
  }

  /** Only expired bindings are missing. */
  ghost predicate Purged(m: map<U32, Binding>, m': map<U32, Binding>, now: Time) {
    && (forall pa :: pa in m' ==> pa in m && m'[pa] == m[pa])
    && (forall pa :: pa in m && pa !in m' ==> Expired(m[pa], now))
  }

  lemma PurgeOne(m: map<U32, Binding>, m': map<U32, Binding>, pa: U32, now: Time)
    requires Purged(m, m', now) && pa in m' && Expired(m'[pa], now)
    ensures Purged(m, m' - {pa}, now)
  {
  }

  datatype Answer = Pending | Found(ha: Mac)

  class ArpCache {
    const slots: array<Slot>
    ghost var entries: map<U32, Binding>

    ghost predicate Valid()
      reads this, slots
    {
      slots.Length == CACHE_SIZE && Represents(slots[..], entries)
    }

    constructor ()
      ensures Valid() && fresh(slots) && entries == map[]
    {
      var zero: Mac := [0, 0, 0, 0, 0, 0];
      slots := new Slot[CACHE_SIZE](_ => Slot(FreeSlot, 0, zero, Timeval(0, 0)));
      entries := map[];
    }

    /** arp_cache_alloc: the first free slot, else one with the least timestamp. */
    method Alloc() returns (k: nat)
      requires Valid()
      ensures k < CACHE_SIZE
      ensures !Used(slots[k]) || (Full(slots[..]) && Oldest(entries, slots[k].pa))
    {
      k := 0;
      var i := 0;
      while i < slots.Length
        invariant 0 <= i <= slots.Length && k < slots.Length
        invariant forall j :: 0 <= j < i ==> Used(slots[j]) && !Later(slots[k].timestamp, slots[j].timestamp)
        invariant i > 0 ==> k < i
      {
        if slots[i].state == FreeSlot {
          return i;
        }
        if i == 0 || Later(slots[k].timestamp, slots[i].timestamp) {
          k := i;
        }
        i := i + 1;
      }
      forall pa | pa in entries
        ensures !Later(slots[k].timestamp, entries[pa].timestamp)
      {
        var j :| 0 <= j < |slots[..]| && Used(slots[..][j]) && slots[..][j].pa == pa;
      }
    }

    /** arp_cache_select. */
    method Select(pa: U32) returns (k: Option<nat>)
      requires Valid()
      ensures match k
              case None => pa !in entries
              case Some(i) => i < CACHE_SIZE && Used(slots[i]) && slots[i].pa == pa && pa in entries &&
                              entries[pa] == BindingOf(slots[i])
    {
      var i := 0;
      while i < slots.Length
        invariant 0 <= i <= slots.Length
        invariant forall j :: 0 <= j < i ==> !(Used(slots[j]) && slots[j].pa == pa)
      {
        if slots[i].state != FreeSlot && slots[i].pa == pa {
          assert Used(slots[..][i]);
          return Some(i);
        }
        i := i + 1;
      }
      return None;
    }

    /** Takes a slot for an address that is not in the table. */
    method Occupy(pa: U32, state: CacheState, ha: Option<Mac>, now: Time)
      requires Valid() && pa !in entries && state != FreeSlot
      modifies this, slots
      ensures Valid() && pa in entries && entries[pa].state == state && entries[pa].timestamp == now
      ensures ha.Some? ==> entries[pa].ha == ha.value
      ensures Inserts(old(entries), pa, entries[pa], entries)
    {
      var k := Alloc();
      ghost var was := slots[..];
      var s := Slot(state, pa, if ha.Some? then ha.value else slots[k].ha, now);
      UsedSlotsAreEntries(was, entries);
      FullIffCount(was);
      OverwriteRepresents(was, entries, k, s);
      entries := (if Used(was[k]) then entries - {was[k].pa} else entries)[pa := BindingOf(s)];
      slots[k] := s;
      assert slots[..] == was[k := s];
    }

    /** arp_cache_update. */
    method Update(pa: U32, ha: Mac, now: Time) returns (updated: bool)
      requires Valid()
      modifies this, slots
      ensures Valid() && updated == (pa in old(entries))
      ensures entries == if updated then old(entries)[pa := Binding(Resolved, ha, now)] else old(entries)
    {
      var k := Select(pa);
      if k.None? {
        return false;
      }
      ghost var was := slots[..];
      var s := slots[k.value].(state := Resolved, ha := ha, timestamp := now);
      OverwriteRepresents(was, entries, k.value, s);
      entries := (entries - {pa})[pa := BindingOf(s)];
      slots[k.value] := s;
      assert slots[..] == was[k.value := s];
      return true;
    }

    /** arp_input's effect on the table, both critical sections together; `forUs` says the target is our address. */
    method Input(spa: U32, sha: Mac, forUs: bool, now: Time)
      requires Valid()
      modifies this, slots
      ensures Valid() && Step(old(entries), Message(spa, sha, forUs, now), entries)
    {
      var merged := Update(spa, sha, now);
      if !merged && forUs {
        Occupy(spa, Resolved, Some(sha), now);
      }
    }

    /** arp_resolve. */
    method Resolve(pa: U32, now: Time) returns (answer: Answer)
      requires Valid()
      modifies this, slots
      ensures Valid() && Step(old(entries), Resolution(pa, now), entries)
      ensures answer == if pa in old(entries) && old(entries)[pa].state != Incomplete
                        then Found(old(entries)[pa].ha) else Pending
    {
      var k := Select(pa);
      if k.None? {
        Occupy(pa, Incomplete, None, now);
        return Pending;
      }
      if slots[k.value].state == Incomplete {
        return Pending;
      }
      return Found(slots[k.value].ha);
    }

    /** arp_cache_delete. */
    method Delete(i: nat)
      requires Valid() && i < CACHE_SIZE && Used(slots[i])
      modifies this, slots
      ensures Valid() && entries == old(entries) - {old(slots[i].pa)}
      ensures !Used(slots[i]) && forall j :: 0 <= j < CACHE_SIZE && j != i ==> slots[j] == old(slots[j])
    {
      ghost var was := slots[..];
      var zero: Mac := [0, 0, 0, 0, 0, 0];
      var freed := Slot(FreeSlot, 0, zero, Timeval(0, 0));
      FreeRepresents(was, entries, i, freed);
      entries := entries - {was[i].pa};
      slots[i] := freed;
      assert slots[..] == was[i := freed];
    }

    /** arp_timer: frees every slot past the timeout. */
    method TimerPass(now: Time)
      requires Valid()
      modifies this, slots
      ensures Valid() && Step(old(entries), Timer(now), entries)
    {
      var i := 0;
      while i < slots.Length
        invariant 0 <= i <= slots.Length && Valid()
        invariant Purged(old(entries), entries, now)
        invariant forall j :: 0 <= j < i && Used(slots[j]) ==> !Expired(BindingOf(slots[j]), now)
      {
        if slots[i].state != FreeSlot && slots[i].state != Static {
          if TimerSub(now, slots[i].timestamp).sec > CACHE_TIMEOUT {
            ghost var m, pa := entries, slots[i].pa;
            assert Used(slots[..][i]);
            Delete(i);
            PurgeOne(old(entries), m, pa, now);
          }
        }
        i := i + 1;
      }
      NoneExpired(slots[..], entries, now);
    }
  }

  lemma NoneExpired(slots: seq<Slot>, m: map<U32, Binding>, now: Time)
    requires Represents(slots, m)
    requires forall j :: 0 <= j < |slots| && Used(slots[j]) ==> !Expired(BindingOf(slots[j]), now)
    ensures forall pa :: pa in m ==> !Expired(m[pa], now)
  {
  }

  // ---- the cache as a map

  datatype Event = Message(spa: U32, sha: Mac, forUs: bool, at: Time) | Resolution(pa: U32, at: Time) | Timer(at: Time)

  /** An event merges its sender when the sender is already known or the message is for us. */
  predicate Merges(m: map<U32, Binding>, ev: Event) {
    ev.Message? && (ev.spa in m || ev.forUs)
  }

  ghost predicate Step(m: map<U32, Binding>, ev: Event, m': map<U32, Binding>) {
    match ev
    case Message(spa, sha, forUs, at) =>
      var b := Binding(Resolved, sha, at);
      if spa in m then m' == m[spa := b] else if forUs then Inserts(m, spa, b, m') else m' == m
    case Resolution(pa, at) =>
      if pa in m then m' == m
      else pa in m' && m'[pa].state == Incomplete && m'[pa].timestamp == at && Inserts(m, pa, m'[pa], m')
    case Timer(at) =>
      && (forall pa :: pa in m' ==> pa in m && m'[pa] == m[pa] && !Expired(m[pa], at))
      && (forall pa :: pa in m && pa !in m' ==> Expired(m[pa], at))
  }

  /** The whole seconds of the timer's test, as instants: more than thirty of them. */
  lemma ExpiredByInstant(b: Binding, now: Time)
    ensures Expired(b, now) <==> b.state != Static && Micros(now) - Micros(b.timestamp) >= 31 * MILLION
  {
    FieldwiseIsInstant(now, b.timestamp);
  }

  /**
  After a message that is for us, or from a sender already known, the sender resolves to
  the hardware address it gave; any other message leaves the cache as it was.
   */
  lemma MessageResolvesSenderIff(m: map<U32, Binding>, spa: U32, sha: Mac, forUs: bool, at: Time, m': map<U32, Binding>)
    requires Step(m, Message(spa, sha, forUs, at), m') && |m| <= CACHE_SIZE
    ensures if spa in m || forUs then spa in m' && m'[spa] == Binding(Resolved, sha, at) else m' == m && spa !in m'
    ensures forall pa :: pa in m' && pa != spa ==> pa in m && m'[pa] == m[pa]
    ensures spa in m || |m| < CACHE_SIZE ==> forall pa :: pa in m ==> pa in m'
  {
    if spa !in m && forUs {
      InsertKeepsSize(m, spa, Binding(Resolved, sha, at), m');
    }
  }

  /** A full cache gives up exactly one binding for a new one, and none is older. */
  lemma EvictionIsOldest(m: map<U32, Binding>, pa: U32, b: Binding, m': map<U32, Binding>) returns (victim: U32)
    requires |m| == CACHE_SIZE && pa !in m && Inserts(m, pa, b, m')
    ensures victim in m && victim !in m' && pa in m' && m'[pa] == b
    ensures forall other :: other in m && other != victim ==> other in m' && m'[other] == m[other]
    ensures forall other :: other in m ==> Micros(m[victim].timestamp) <= Micros(m[other].timestamp)
  {
    victim :| Oldest(m, victim) && m' == (m - {victim})[pa := b];
    forall other | other in m
      ensures Micros(m[victim].timestamp) <= Micros(m[other].timestamp)
    {
      FieldwiseIsInstant(m[victim].timestamp, m[other].timestamp);
    }
  }

  /** `ms[0], ms[1], ...` are the contents of the cache from its initialisation on. */
  ghost predicate IsRun(ms: seq<map<U32, Binding>>, evs: seq<Event>) {
    && |ms| == |evs| + 1
    && ms[0] == map[]
    && forall i {:trigger evs[i]} :: 0 <= i < |evs| ==> Step(ms[i], evs[i], ms[i + 1])
  }

  /** The hardware address of the latest of the first `k` events that merged `pa`. */
  function LastMerged(ms: seq<map<U32, Binding>>, evs: seq<Event>, k: nat, pa: U32): Option<Mac>
    requires |ms| == |evs| + 1 && k <= |evs|
  {
    if k == 0 then None
    else if Merges(ms[k - 1], evs[k - 1]) && evs[k - 1].spa == pa then Some(evs[k - 1].sha)
    else LastMerged(ms, evs, k - 1, pa)
  }

  /** A complete binding carries the hardware address most recently merged for it, and the cache holds 32 at most. */
  ghost predicate CacheOk(m: map<U32, Binding>, ms: seq<map<U32, Binding>>, evs: seq<Event>, k: nat)
    requires |ms| == |evs| + 1 && k <= |evs|
  {
    && |m| <= 32
    && forall pa :: pa in m && m[pa].state != Incomplete ==> LastMerged(ms, evs, k, pa) == Some(m[pa].ha)
  }

  lemma InsertKeepsSize(m: map<U32, Binding>, pa: U32, b: Binding, m': map<U32, Binding>)
    requires |m| <= CACHE_SIZE && pa !in m && Inserts(m, pa, b, m')
    ensures |m'| <= CACHE_SIZE && pa in m' && m'[pa] == b
    ensures forall other :: other in m' && other != pa ==> other in m && m'[other] == m[other]
  {
    if |m| < CACHE_SIZE {
      AddSize(m, pa, b);
    } else {
      var victim: U32 :| Oldest(m, victim) && m' == (m - {victim})[pa := b];
      RemoveSize(m, victim);
      AddSize(m - {victim}, pa, b);
    }
  }

  lemma TimerKeepsSize(m: map<U32, Binding>, at: Time, m': map<U32, Binding>)
    requires Step(m, Timer(at), m')
    ensures |m'| <= |m|
  {
    SubsetSize(m'.Keys, m.Keys);
  }

  lemma StepKeepsCacheOk(ms: seq<map<U32, Binding>>, evs: seq<Event>, k: nat)
    requires IsRun(ms, evs) && 0 < k < |ms| && CacheOk(ms[k - 1], ms, evs, k - 1)
    ensures CacheOk(ms[k], ms, evs, k)
  {
    var m, ev, m' := ms[k - 1], evs[k - 1], ms[k];
    match ev
    case Message(spa, sha, forUs, at) =>
      if spa in m {
        assert m'.Keys == m.Keys;
      } else if forUs {
        InsertKeepsSize(m, spa, Binding(Resolved, sha, at), m');
      }
    case Resolution(pa, at) =>
      if pa !in m {
        InsertKeepsSize(m, pa, m'[pa], m');
      }
    case Timer(at) => TimerKeepsSize(m, at, m');
  }

  /**
  After any history: a resolution that finds an address returns exactly the hardware
  address most recently merged for it, and the cache never holds more than 32 bindings.
   */
  lemma {:induction false} FoundIsLastMerged(ms: seq<map<U32, Binding>>, evs: seq<Event>, k: nat)
    requires IsRun(ms, evs) && k < |ms|
    ensures CacheOk(ms[k], ms, evs, k)
    decreases k
  {
    if k > 0 {
      FoundIsLastMerged(ms, evs, k - 1);
      StepKeepsCacheOk(ms, evs, k);
    }
  }
}
