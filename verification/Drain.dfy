/**
 Measuring the client on the TCP side: a window over the send queue, kept only
 while the queue stays backed up, and the bytes the client took during it.
 */
module Drain {
  import opened Wrappers

  const LINK_SAMPLE_EVERY: nat := 500
  const MIN_WINDOW: nat := 250
  const MIN_BYTES: nat := 16 * 1024
  const U32: nat := 0x1_0000_0000
  const U64_MAX: nat := 0xFFFF_FFFF_FFFF_FFFF

  /** One open window: when it started, what was handed over since, in how many
      chunks, and how many chunks were queued before the first of them. */
  datatype Window = Window(started: nat, pushed: nat, chunks: nat, backlogAtStart: nat)

  function Pushed(w: Option<Window>, bytes: nat, backlog: nat, now: nat): Option<Window> {
    if backlog == 0 then None
    else
      var open := if w.None? then Window(now, 0, 0, backlog) else w.value;
      Some(open.(pushed := open.pushed + bytes, chunks := open.chunks + 1))
  }

  /** Bytes the client took, by the window's own mean chunk. */
  function Drained(w: Window, backlogNow: nat): nat
    requires w.chunks > 0
  {
    var queued: int := (backlogNow - w.backlogAtStart) * (w.pushed / w.chunks);
    if queued > w.pushed then 0 else w.pushed - queued
  }

  function FromDrain(bytes: nat, elapsed: nat): Option<nat> {
    if elapsed < MIN_WINDOW || bytes < MIN_BYTES then None
    else
      var bits := if bytes * 8 > U64_MAX then U64_MAX else bytes * 8;
      var kbps := bits / (if elapsed < 1 then 1 else elapsed);
      if 0 < kbps < U32 then Some(kbps) else None
  }

  function Rate(w: Option<Window>, backlogNow: nat, now: nat): Option<nat> {
    if w.None? then None
    else
      var elapsed := if now > w.value.started then now - w.value.started else 0;
      if elapsed < LINK_SAMPLE_EVERY || w.value.chunks == 0 then None
      else FromDrain(Drained(w.value, backlogNow), elapsed)
  }

  class Meter {
    var started: Option<nat>
    var pushed: nat
    var chunks: nat
    var backlogAtStart: nat

    ghost function View(): Option<Window>
      reads this
    {
      if started.None? then None else Some(Window(started.value, pushed, chunks, backlogAtStart))
    }

    /** A closed window carries no counts into the next. */
    ghost predicate Valid()
      reads this
    {
      started.None? ==> pushed == 0 && chunks == 0 && backlogAtStart == 0
    }

    constructor ()
      ensures Valid() && View() == None
    {
      started, pushed, chunks, backlogAtStart := None, 0, 0, 0;
    }

    /** `backlog` is what was queued before this chunk was handed over. */
    method Push(bytes: nat, backlog: nat, now: nat)
      requires Valid()
      modifies this
      ensures Valid() && View() == Pushed(old(View()), bytes, backlog, now)
    {
      if backlog == 0 {
        started, pushed, chunks, backlogAtStart := None, 0, 0, 0;
        return;
      }
      if started.None? {
        started := Some(now);
        backlogAtStart := backlog;
      }
      pushed := pushed + bytes;
      chunks := chunks + 1;
    }

    method Report(backlogNow: nat, now: nat) returns (kbps: Option<nat>)
      ensures kbps == Rate(View(), backlogNow, now)
    {
      if started.None? {
        return None;
      }
      var elapsed := if now > started.value then now - started.value else 0;
      if elapsed < LINK_SAMPLE_EVERY || chunks == 0 {
        return None;
      }
      var mean := pushed / chunks;
      var queued := (backlogNow - backlogAtStart) * mean;
      var drained := if pushed - queued > 0 then pushed - queued else 0;
      return FromDrain(drained, elapsed);
    }
  }

  /** When a figure is worth a rate: a quarter of a second and sixteen kilobytes
      at least, and a rate that is a positive 32-bit number of kilobits. */
  lemma FromDrainExactlyWhen(bytes: nat, elapsed: nat, kbps: nat)
    ensures FromDrain(bytes, elapsed) == Some(kbps) <==>
            && elapsed >= 250 && bytes >= 16384
            && kbps == (if bytes * 8 < 0x1_0000_0000_0000_0000 then bytes * 8 else 0xFFFF_FFFF_FFFF_FFFF) / elapsed
            && 0 < kbps < 0x1_0000_0000
  {
  }

  /** And when one is reported: from an open window at least half a second old. */
  lemma RateExactlyWhen(w: Option<Window>, backlogNow: nat, now: nat)
    ensures Rate(w, backlogNow, now) ==
            if w.Some? && w.value.chunks > 0 && now >= w.value.started + 500
            then FromDrain(Drained(w.value, backlogNow), now - w.value.started)
            else None
  {
  }

  // ---- A whole relay: chunks handed over, chunks taken, in any order ----

  /** The sizes of the chunks queued, and, for an open window: the queue as it
      was measured when the window opened; the bytes taken between that
      measurement and the window's start, between the start and the last chunk
      handed over, and since; and what each of its chunks was found behind. */
  datatype Relay = Relay(
    window: Option<Window>,
    queue: seq<nat>,
    atStart: seq<nat>,
    early: nat,
    taken: nat,
    late: nat,
    found: seq<nat>,
    now: nat)

  function Closed(queue: seq<nat>, now: nat): Relay {
    Relay(None, queue, [], 0, 0, 0, [], now)
  }

  const START := Closed([], 0)

  function Sum(sizes: seq<nat>): nat {
    if sizes == [] then 0 else sizes[0] + Sum(sizes[1..])
  }

  /** A hand-over measures the queue, waits while the client takes some of it if
      there is no room, queues its chunk and looks at the clock; a report uses
      that clock and measures the queue again. */
  datatype Event = HandOver(size: nat, takenMeanwhile: nat, now: nat) | Take | Report

  predicate Possible(r: Relay, e: Event, depth: nat) {
    match e
    case HandOver(size, takenMeanwhile, now) =>
      && size > 0 && takenMeanwhile <= |r.queue| + 1 && now >= r.now
      && (|r.queue| >= depth ==> takenMeanwhile > 0)
    case Take => r.queue != []
    case Report => true
  }

  function Next(r: Relay, e: Event, depth: nat): Relay
    requires Possible(r, e, depth)
  {
    match e
    case HandOver(size, takenMeanwhile, now) =>
      var window := Pushed(r.window, size, |r.queue|, now);
      var all := r.queue + [size];
      var gone, queue := Sum(all[..takenMeanwhile]), all[takenMeanwhile..];
      if window.None? then Closed(queue, now)
      else if r.window.None? then Relay(window, queue, r.queue, gone, 0, 0, [|r.queue|], now)
      else Relay(window, queue, r.atStart, r.early, r.taken + r.late + gone, 0, r.found + [|r.queue|], now)
    case Take => r.(queue := r.queue[1..], late := r.late + r.queue[0])
    case Report => if Rate(r.window, |r.queue|, r.now).Some? then Closed(r.queue, r.now) else r
  }

  predicate Runs(r: Relay, events: seq<Event>, depth: nat)
    decreases |events|
  {
    events == [] || (Possible(r, events[0], depth) && Runs(Next(r, events[0], depth), events[1..], depth))
  }

  function After(r: Relay, events: seq<Event>, depth: nat): Relay
    requires Runs(r, events, depth)
    decreases |events|
  {
    if events == [] then r else After(Next(r, events[0], depth), events[1..], depth)
  }

  /** Whatever was queued at the start or handed over since is still queued or
      has been taken: before the window, in it, or after its last chunk. */
  ghost predicate Inv(r: Relay) {
    r.window.Some? ==>
      var w := r.window.value;
      && w.chunks == |r.found| > 0
      && w.backlogAtStart == |r.atStart|
      && w.started <= r.now
      && Sum(r.queue) + (r.early + r.taken + r.late) == Sum(r.atStart) + w.pushed
      && (forall i :: 0 <= i < |r.found| ==> r.found[i] > 0)
  }

  lemma {:induction false} SumJoins(a: seq<nat>, b: seq<nat>)
    ensures Sum(a + b) == Sum(a) + Sum(b)
  {
    if a == [] {
      assert a + b == b;
    } else {
      assert (a + b)[1..] == a[1..] + b;
      SumJoins(a[1..], b);
    }
  }

  lemma SumSplits(sizes: seq<nat>, n: nat)
    requires n <= |sizes|
    ensures Sum(sizes[..n]) + Sum(sizes[n..]) == Sum(sizes)
  {
    SumJoins(sizes[..n], sizes[n..]);
    assert sizes[..n] + sizes[n..] == sizes;
  }

  lemma SumBack(sizes: seq<nat>, size: nat)
    ensures Sum(sizes + [size]) == Sum(sizes) + size
  {
    SumJoins(sizes, [size]);
    assert [size][1..] == [];
  }

  lemma EventKeepsInv(r: Relay, e: Event, depth: nat)
    requires Inv(r) && Possible(r, e, depth)
    ensures Inv(Next(r, e, depth))
  {
    if e.HandOver? {
      SumBack(r.queue, e.size);
      SumSplits(r.queue + [e.size], e.takenMeanwhile);
    }
  }

  lemma {:induction false} RunKeepsInv(r: Relay, events: seq<Event>, depth: nat)
    requires Inv(r) && Runs(r, events, depth)
    ensures Inv(After(r, events, depth))
    decreases |events|
  {
    if events != [] {
      EventKeepsInv(r, events[0], depth);
      RunKeepsInv(Next(r, events[0], depth), events[1..], depth);
    }
  }

  /** How far the window's mean chunk misjudges what the queue grew by. */
  function Misjudged(r: Relay): int
    requires r.window.Some? && r.window.value.chunks > 0
  {
    var w := r.window.value;
    (|r.queue| - w.backlogAtStart) * (w.pushed / w.chunks) - (Sum(r.queue) - Sum(r.atStart))
  }

  /** A window that can be reported holds no chunk that found the queue empty,
      and its figure is meant to be the bytes the client took from the window's
      start to its last chunk, the time the rate divides by. In any interleaving,
      with chunks of any sizes, it is that exactly when what the mean misjudges
      makes up for what was taken outside that time. */
  lemma FigureIsExactIff(events: seq<Event>, depth: nat)
    requires Runs(START, events, depth)
    ensures var r := After(START, events, depth);
            r.window.Some? ==>
              && (forall i :: 0 <= i < |r.found| ==> r.found[i] > 0)
              && r.window.value.chunks == |r.found| > 0 && r.window.value.started <= r.now
              && (Drained(r.window.value, |r.queue|) == r.taken <==>
                    if Misjudged(r) <= r.early + r.taken + r.late then Misjudged(r) == r.early + r.late
                    else r.taken == 0)
  {
    RunKeepsInv(START, events, depth);
  }

  // ---- With chunks of one size ----

  predicate AllOf(sizes: seq<nat>, size: nat) {
    forall i :: 0 <= i < |sizes| ==> sizes[i] == size
  }

  predicate OneSize(events: seq<Event>, size: nat) {
    forall i :: 0 <= i < |events| && events[i].HandOver? ==> events[i].size == size
  }

  ghost predicate Even(r: Relay, size: nat) {
    AllOf(r.queue, size) && AllOf(r.atStart, size)
    && (r.window.Some? ==> r.window.value.pushed == r.window.value.chunks * size)
  }

  lemma {:induction false} RunKeepsEven(r: Relay, events: seq<Event>, size: nat, depth: nat)
    requires Even(r, size) && Runs(r, events, depth) && OneSize(events, size)
    ensures Even(After(r, events, depth), size)
    decreases |events|
  {
    if events != [] {
      Multiples(if r.window.Some? then r.window.value.chunks else 0, size);
      assert OneSize(events[1..], size);
      RunKeepsEven(Next(r, events[0], depth), events[1..], size, depth);
    }
  }

  lemma {:induction false} EvenSum(sizes: seq<nat>, size: nat)
    requires AllOf(sizes, size)
    ensures Sum(sizes) == |sizes| * size
  {
    if sizes != [] {
      EvenSum(sizes[1..], size);
      Multiples(|sizes| - 1, size);
    }
  }

  /** Then the figure is all the client took since the queue was first measured,
      and so it is what was taken in the window's own time exactly when nothing
      was taken while the window was being opened or after its last chunk. */
  lemma DrainIsWhatTheClientTook(events: seq<Event>, size: nat, depth: nat)
    requires Runs(START, events, depth) && OneSize(events, size)
    ensures var r := After(START, events, depth);
            r.window.Some? ==>
              && r.window.value.chunks > 0
              && Drained(r.window.value, |r.queue|) == r.early + r.taken + r.late
              && (Drained(r.window.value, |r.queue|) == r.taken <==> r.early == 0 && r.late == 0)
  {
    RunKeepsInv(START, events, depth);
    RunKeepsEven(START, events, size, depth);
    var r := After(START, events, depth);
    if r.window.Some? {
      var w := r.window.value;
      Multiples(w.chunks, size);
      EvenSum(r.queue, size);
      EvenSum(r.atStart, size);
      Difference(|r.queue|, w.backlogAtStart, size);
    }
  }

  lemma Difference(a: nat, b: nat, size: nat)
    ensures (a - b) * size == a * size - b * size
  {
  }

  /** A window that opens on a full queue opens late: its first chunk had to wait
      for the client to take one that is counted all the same. */
  lemma FullQueueOpensLate(r: Relay, e: Event, depth: nat)
    requires r.window.None? && |r.queue| == depth > 0 && r.queue[0] > 0
    requires Possible(r, e, depth) && e.HandOver?
    ensures Next(r, e, depth).window.Some? && Next(r, e, depth).early >= r.queue[0]
  {
    var all := r.queue + [e.size];
    assert all[..e.takenMeanwhile][0] == r.queue[0];
  }

  /** A client that takes one chunk a second is reported at twice that. */
  lemma ASlowClientReadsTwiceAsFast(events: seq<Event>, depth: nat)
    requires depth > 0
    requires events == [HandOver(65536, 0, 0), HandOver(65536, 1, 1000), HandOver(65536, 1, 2000)]
    ensures Runs(START, events, depth)
    ensures var r := After(START, events, depth);
            && r.taken == 65536 && r.window.Some? && r.now - r.window.value.started == 1000
            && Rate(r.window, |r.queue|, r.now) == Some(1048)
            && FromDrain(r.taken, 1000) == Some(524)
  {
    var one := Next(START, events[0], depth);
    assert one.queue == [65536];
    var two := Next(one, events[1], depth);
    TakenOne(65536);
    assert two == Relay(Some(Window(1000, 65536, 1, 1)), [65536], [65536], 65536, 0, 0, [1], 1000);
    var three := Next(two, events[2], depth);
    assert three == Relay(Some(Window(1000, 131072, 2, 1)), [65536], [65536], 65536, 65536, 0, [1, 1], 2000);
    assert events[1..] == [events[1], events[2]] && events[1..][1..] == [events[2]] && events[1..][1..][1..] == [];
    assert Runs(two, [events[2]], depth) && After(two, [events[2]], depth) == three;
    assert Runs(one, events[1..], depth) && After(one, events[1..], depth) == three;
  }

  lemma TakenOne(size: nat)
    ensures ([size] + [size])[..1] == [size] && ([size] + [size])[1..] == [size] && Sum([size]) == size
  {
    assert [size][1..] == [];
  }

  lemma Multiples(chunks: nat, size: nat)
    ensures (chunks + 1) * size == chunks * size + size
    ensures chunks > 0 ==> chunks * size / chunks == size
  {
    if chunks > 0 {
      Quotient(chunks, size);
    }
  }

  lemma Quotient(chunks: nat, size: nat)
    requires chunks > 0
    ensures chunks * size / chunks == size
  {
    var q, r := chunks * size / chunks, chunks * size % chunks;
    Scaled(chunks, size - q, r) by {
      assert chunks * size == chunks * q + r;
      assert chunks * (size - q) == chunks * size - chunks * q;
    }
  }

  /** A multiple of `n` below `n` is none at all. */
  lemma Scaled(n: nat, k: int, r: int)
    requires 0 <= r < n && n * k == r
    ensures k == 0
  {
    if k > 0 {
      AtLeast(n, k);
    } else if k < 0 {
      AtLeast(n, -k);
    }
  }

  lemma {:induction false} AtLeast(n: nat, k: nat)
    requires k > 0
    ensures n * k >= n
  {
    if k > 1 {
      AtLeast(n, k - 1);
      assert n * k == n * (k - 1) + n;
    }
  }
}
