/**
 Backpressure for one response: the room a worker must claim before it hands a
 piece over, given back as the pieces leave.
 */
module Budgets {

  const U64: nat := 0x1_0000_0000_0000_0000

  /** `progress` is a 64-bit counter that wraps. */
  datatype State = State(outstanding: nat, progress: nat, closed: bool)

  /** No room for `bytes`: something is queued and this would overshoot. */
  predicate Full(s: State, bytes: nat, limit: nat) {
    s.outstanding > 0 && s.outstanding + bytes > limit
  }

  function Released(s: State, bytes: nat): State {
    s.(outstanding := if s.outstanding >= bytes then s.outstanding - bytes else 0,
       progress := (s.progress + 1) % U64)
  }

  function Closed(s: State): State {
    s.(closed := true)
  }

  /** What the event loop did while the worker slept once, and whether the
      stall window ran out before it woke. */
  datatype Wake = Wake(releases: seq<nat>, closes: bool, timedOut: bool)

  function AllReleased(s: State, releases: seq<nat>): State
    decreases releases
  {
    if releases == [] then s else AllReleased(Released(s, releases[0]), releases[1..])
  }

  function During(s: State, w: Wake): State {
    var released := AllReleased(s, w.releases);
    if w.closes then Closed(released) else released
  }

  datatype Outcome = Granted | Refused | Waiting

  /** Claiming `bytes` when the worker is woken as `wakes` says; `Waiting` when
      the wakes run out first. */
  function Claim(s: State, bytes: nat, limit: nat, seen: nat, wakes: seq<Wake>): (State, Outcome)
    decreases wakes
  {
    if s.closed then (s, Refused)
    else if !Full(s, bytes, limit) then (s.(outstanding := s.outstanding + bytes), Granted)
    else if wakes == [] then (s, Waiting)
    else
      var woken := During(s, wakes[0]);
      if woken.progress != seen then Claim(woken, bytes, limit, woken.progress, wakes[1..])
      else if wakes[0].timedOut then (Closed(woken), Refused)
      else Claim(woken, bytes, limit, seen, wakes[1..])
  }

  class Budget {
    var outstanding: nat
    var progress: nat
    var closed: bool
    const limit: nat

    ghost function View(): State
      reads this
    {
      State(outstanding, progress, closed)
    }

    constructor (limit: nat)
      ensures View() == State(0, 0, false) && this.limit == limit
    {
      outstanding, progress, closed := 0, 0, false;
      this.limit := limit;
    }

    method ReleaseRoom(bytes: nat)
      modifies this
      ensures View() == Released(old(View()), bytes)
    {
      outstanding := if outstanding >= bytes then outstanding - bytes else 0;
      progress := (progress + 1) % U64;
    }

    method Close()
      modifies this
      ensures View() == Closed(old(View()))
    {
      closed := true;
    }

    /** One sleep on the condition variable, others holding the lock meanwhile. */
    method Wait(w: Wake)
      modifies this
      ensures View() == During(old(View()), w)
    {
      var i := 0;
      while i < |w.releases|
        invariant 0 <= i <= |w.releases|
        invariant AllReleased(old(View()), w.releases) == AllReleased(View(), w.releases[i..])
      {
        ReleaseRoom(w.releases[i]);
        assert w.releases[i..][1..] == w.releases[i + 1..];
        i := i + 1;
      }
      if w.closes {
        Close();
      }
    }

    method ClaimRoom(bytes: nat, wakes: seq<Wake>) returns (r: Outcome)
      modifies this
      ensures (View(), r) == Claim(old(View()), bytes, limit, old(progress), wakes)
    {
      var seen := progress;
      var slept := 0;
      while !closed && outstanding > 0 && outstanding + bytes > limit
        invariant 0 <= slept <= |wakes|
        invariant Claim(old(View()), bytes, limit, old(progress), wakes)
               == Claim(View(), bytes, limit, seen, wakes[slept..])
        decreases |wakes| - slept, !closed
      {
        if slept == |wakes| {
          return Waiting;
        }
        var w := wakes[slept];
        assert wakes[slept..][0] == w && wakes[slept..][1..] == wakes[slept + 1..];
        Wait(w);
        slept := slept + 1;
        if progress != seen {
          seen := progress;
        } else if w.timedOut {
          closed := true;
        }
      }
      if closed {
        return Refused;
      }
      outstanding := outstanding + bytes;
      return Granted;
    }
  }

  // ---- What a claim promises ----

  lemma {:induction false} ReleasesCount(s: State, releases: seq<nat>)
    requires s.progress < U64
    ensures AllReleased(s, releases).progress == (s.progress + |releases|) % U64
    ensures AllReleased(s, releases).closed == s.closed
    ensures AllReleased(s, releases).outstanding <= s.outstanding
    decreases releases
  {
    if releases != [] {
      ReleasesCount(Released(s, releases[0]), releases[1..]);
    }
  }

  /** Room is granted only on an open stream, and only to a chunk that fits or
      finds nothing queued before it. */
  lemma {:induction false} GrantedFits(s: State, bytes: nat, limit: nat, seen: nat, wakes: seq<Wake>)
    ensures var (after, outcome) := Claim(s, bytes, limit, seen, wakes);
            outcome == Granted ==>
              && !after.closed && !s.closed
              && after.outstanding >= bytes
              && (after.outstanding == bytes || after.outstanding <= limit)
    decreases wakes
  {
    if !s.closed && Full(s, bytes, limit) && wakes != [] {
      var woken := During(s, wakes[0]);
      GrantedFits(woken, bytes, limit, woken.progress, wakes[1..]);
    }
  }

  /** Room that is there is given, at once: to a chunk that finds nothing queued,
      whatever its size, and to one that fits beside what is. */
  lemma RoomIsGiven(s: State, bytes: nat, limit: nat, seen: nat, wakes: seq<Wake>)
    requires !s.closed && (s.outstanding == 0 || s.outstanding + bytes <= limit)
    ensures Claim(s, bytes, limit, seen, wakes) == (s.(outstanding := s.outstanding + bytes), Granted)
  {
  }

  /** So a claim only waits while something is queued and it would not fit. */
  lemma {:induction false} WaitsOnlyWithoutRoom(s: State, bytes: nat, limit: nat, seen: nat, wakes: seq<Wake>)
    ensures var (after, outcome) := Claim(s, bytes, limit, seen, wakes);
            outcome == Waiting ==>
              !after.closed && after.outstanding > 0 && after.outstanding + bytes > limit
    decreases wakes
  {
    if !s.closed && Full(s, bytes, limit) && wakes != [] {
      var woken := During(s, wakes[0]);
      WaitsOnlyWithoutRoom(woken, bytes, limit, woken.progress, wakes[1..]);
      WaitsOnlyWithoutRoom(woken, bytes, limit, seen, wakes[1..]);
    }
  }

  /** Closed stays closed, and every later claim is refused without waiting. */
  lemma {:induction false} ClosedStaysClosed(s: State, bytes: nat, limit: nat, seen: nat, wakes: seq<Wake>)
    ensures var (after, outcome) := Claim(s, bytes, limit, seen, wakes);
            && (outcome == Refused <==> after.closed)
            && (s.closed ==> outcome == Refused && after == s)
    decreases wakes
  {
    if !s.closed && Full(s, bytes, limit) && wakes != [] {
      var woken := During(s, wakes[0]);
      ReleasesKeepClosed(s, wakes[0].releases);
      ClosedStaysClosed(woken, bytes, limit, woken.progress, wakes[1..]);
    }
  }

  lemma {:induction false} ReleasesKeepClosed(s: State, releases: seq<nat>)
    ensures AllReleased(s, releases).closed == s.closed
    decreases releases
  {
    if releases != [] {
      ReleasesKeepClosed(Released(s, releases[0]), releases[1..]);
    }
  }

  /** The window ran out in this sleep with no net movement of the counter. */
  predicate Stalled(w: Wake) {
    w.timedOut && |w.releases| % U64 == 0
  }

  /** Nobody closing the stream, a claim is refused only after some sleep that
      lasted the whole window with the progress counter standing where it was. */
  lemma {:induction false} GivesUpOnlyWhenStalled(s: State, bytes: nat, limit: nat, seen: nat, wakes: seq<Wake>)
    requires s.progress < U64 && seen == s.progress && !s.closed
    requires forall i :: 0 <= i < |wakes| ==> !wakes[i].closes
    ensures Claim(s, bytes, limit, seen, wakes).1 == Refused ==>
              exists i :: 0 <= i < |wakes| && Stalled(wakes[i])
    decreases wakes
  {
    if Full(s, bytes, limit) && wakes != [] {
      var woken := During(s, wakes[0]);
      ReleasesCount(s, wakes[0].releases);
      SameResidue(s.progress, |wakes[0].releases|);
      if woken.progress == seen && wakes[0].timedOut {
        assert Stalled(wakes[0]);
      } else {
        GivesUpOnlyWhenStalled(woken, bytes, limit, woken.progress, wakes[1..]);
        if Claim(woken, bytes, limit, woken.progress, wakes[1..]).1 == Refused {
          var i :| 0 <= i < |wakes[1..]| && Stalled(wakes[1..][i]);
          assert Stalled(wakes[i + 1]);
        }
      }
    }
  }

  lemma SameResidue(progress: nat, more: nat)
    requires progress < U64
    ensures (progress + more) % U64 == progress <==> more % U64 == 0
  {
    var q, r := more / U64, more % U64;
    assert progress + more == q * U64 + (progress + r);
    if progress + r < U64 {
      Residue(q, progress + r);
    } else {
      Residue(q + 1, progress + r - U64);
    }
  }

  lemma Residue(q: nat, r: nat)
    requires r < U64
    ensures (q * U64 + r) % U64 == r
  {
  }

  /** So a client taking anything at all, fewer than 2^64 times a sleep, keeps
      its stream: refused means a whole window without one release. */
  lemma SlowIsNotStalled(s: State, bytes: nat, limit: nat, wakes: seq<Wake>)
    requires s.progress < U64 && !s.closed
    requires forall i :: 0 <= i < |wakes| ==> !wakes[i].closes && |wakes[i].releases| < U64
    ensures Claim(s, bytes, limit, s.progress, wakes).1 == Refused ==>
              exists i :: 0 <= i < |wakes| && wakes[i].timedOut && wakes[i].releases == []
  {
    GivesUpOnlyWhenStalled(s, bytes, limit, s.progress, wakes);
    if Claim(s, bytes, limit, s.progress, wakes).1 == Refused {
      var i :| 0 <= i < |wakes| && Stalled(wakes[i]);
      assert wakes[i].timedOut && wakes[i].releases == [];
    }
  }

  /** The budget after the first `n` sleeps. */
  function Through(s: State, wakes: seq<Wake>, n: nat): State
    requires n <= |wakes|
    decreases n
  {
    if n == 0 then s else Through(During(s, wakes[0]), wakes[1..], n - 1)
  }

  /** Sleep `i` is a stalled one, and at every check before it there was no
      room. */
  predicate StallsAt(s: State, bytes: nat, limit: nat, wakes: seq<Wake>, i: nat) {
    && i < |wakes| && Stalled(wakes[i])
    && forall k :: 0 <= k <= i ==>
         Through(s, wakes, k).outstanding > 0 && Through(s, wakes, k).outstanding + bytes > limit
  }

  /** Such a sleep does end the claim, whatever was given back before it. */
  lemma {:induction false} StallEndsTheClaim(s: State, bytes: nat, limit: nat, wakes: seq<Wake>, i: nat)
    requires s.progress < U64 && !s.closed
    requires forall k :: 0 <= k < |wakes| ==> !wakes[k].closes
    requires StallsAt(s, bytes, limit, wakes, i)
    ensures Claim(s, bytes, limit, s.progress, wakes).1 == Refused
    decreases i
  {
    var woken := During(s, wakes[0]);
    assert Through(s, wakes, 0) == s;
    ReleasesCount(s, wakes[0].releases);
    SameResidue(s.progress, |wakes[0].releases|);
    if !(woken.progress == s.progress && wakes[0].timedOut) {
      forall k | 0 <= k <= i - 1
        ensures Through(woken, wakes[1..], k).outstanding > 0
        ensures Through(woken, wakes[1..], k).outstanding + bytes > limit
      {
        assert Through(s, wakes, k + 1) == Through(woken, wakes[1..], k);
      }
      assert wakes[1..][i - 1] == wakes[i];
      StallEndsTheClaim(woken, bytes, limit, wakes[1..], i - 1);
    }
  }

  lemma {:induction false} RefusedMeansStalled(s: State, bytes: nat, limit: nat, wakes: seq<Wake>) returns (i: nat)
    requires s.progress < U64 && !s.closed
    requires forall k :: 0 <= k < |wakes| ==> !wakes[k].closes
    requires Claim(s, bytes, limit, s.progress, wakes).1 == Refused
    ensures StallsAt(s, bytes, limit, wakes, i)
    decreases wakes
  {
    var woken := During(s, wakes[0]);
    ReleasesCount(s, wakes[0].releases);
    SameResidue(s.progress, |wakes[0].releases|);
    if woken.progress == s.progress && wakes[0].timedOut {
      i := 0;
    } else {
      var later := RefusedMeansStalled(woken, bytes, limit, wakes[1..]);
      i := later + 1;
      forall k | 0 <= k <= i
        ensures Through(s, wakes, k).outstanding > 0 && Through(s, wakes, k).outstanding + bytes > limit
      {
        assert k > 0 ==> Through(s, wakes, k) == Through(woken, wakes[1..], k - 1);
      }
    }
  }

  /** Exactly when a claim gives up by itself: nobody closing the stream, it is
      refused if and only if some sleep stalls and the queue was full at every
      check up to it. */
  lemma RefusedIffStalled(s: State, bytes: nat, limit: nat, wakes: seq<Wake>)
    requires s.progress < U64 && !s.closed
    requires forall k :: 0 <= k < |wakes| ==> !wakes[k].closes
    ensures Claim(s, bytes, limit, s.progress, wakes).1 == Refused <==>
            exists i :: StallsAt(s, bytes, limit, wakes, i)
  {
    if Claim(s, bytes, limit, s.progress, wakes).1 == Refused {
      var i := RefusedMeansStalled(s, bytes, limit, wakes);
    }
    if i :| StallsAt(s, bytes, limit, wakes, i) {
      StallEndsTheClaim(s, bytes, limit, wakes, i);
    }
  }
}
