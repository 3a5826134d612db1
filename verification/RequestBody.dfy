/**
 An upload on its way to a worker: a bounded channel of chunks, a flag telling
 a body that stopped from one that ended, and a reader that hands the chunks
 out through buffers of any size.
 */
module RequestBody {

  type byte = x: int | 0 <= x < 256
  type Chunk = seq<byte>

  const CHANNEL_DEPTH: nat := 16

  function Concat(chunks: seq<Chunk>): seq<byte> {
    if chunks == [] then [] else chunks[0] + Concat(chunks[1..])
  }

  /** What the worker can see of an upload: the rest of the chunk in hand, the
      chunks queued, whether the sender is still there, and the flag. */
  datatype Body = Body(current: seq<byte>, queue: seq<Chunk>, open: bool, aborted: bool)

  /** A read blocks, rather than answers, while nothing is queued and the
      sender is still there. */
  datatype Outcome = Got(data: seq<byte>) | Interrupted | WouldBlock

  function Unread(b: Body): seq<byte> {
    b.current + Concat(b.queue)
  }

  function ReadOnce(b: Body, room: nat): (Body, Outcome) {
    if b.current == [] && b.queue == [] then
      (b, if b.open then WouldBlock else if b.aborted then Interrupted else Got([]))
    else
      var chunk := if b.current == [] then b.queue[0] else b.current;
      var queue := if b.current == [] then b.queue[1..] else b.queue;
      var take := if |chunk| < room then |chunk| else room;
      (b.(current := chunk[take..], queue := queue), Got(chunk[..take]))
  }

  /** The receiving end and the sending end of one channel. */
  class Channel {
    var queue: seq<Chunk>
    var open: bool
    var receiving: bool

    constructor ()
      ensures queue == [] && open && receiving
    {
      queue, open, receiving := [], true, true;
    }

    method TrySend(chunk: Chunk) returns (r: Sent)
      modifies this`queue
      ensures r == if !receiving then Disconnected else if |old(queue)| < CHANNEL_DEPTH then Accepted else Full
      ensures queue == if r == Accepted then old(queue) + [chunk] else old(queue)
    {
      if !receiving {
        return Disconnected;
      }
      if |queue| >= CHANNEL_DEPTH {
        return Full;
      }
      queue := queue + [chunk];
      return Accepted;
    }
  }

  datatype Sent = Accepted | Full | Disconnected

  class Ending {
    var aborted: bool

    constructor ()
      ensures !aborted
    {
      aborted := false;
    }

    method Abort()
      modifies this
      ensures aborted
    {
      aborted := true;
    }
  }

  class Reader {
    const chunks: Channel
    const ending: Ending
    var rest: Chunk
    var offset: nat

    ghost predicate Valid()
      reads this
    {
      offset <= |rest|
    }

    ghost function View(): Body
      reads this, chunks, ending
      requires Valid()
    {
      Body(rest[offset..], chunks.queue, chunks.open, ending.aborted)
    }

    constructor (chunks: Channel, ending: Ending)
      ensures Valid() && this.chunks == chunks && this.ending == ending
      ensures View() == Body([], chunks.queue, chunks.open, ending.aborted)
    {
      this.chunks, this.ending, rest, offset := chunks, ending, [], 0;
    }

    /** Fills the front of `out` and says how much; on anything but `Got` the
        buffer is untouched. */
    method Read(out: array<byte>) returns (r: Outcome)
      requires Valid()
      modifies this, chunks, out
      ensures Valid()
      ensures (View(), r) == ReadOnce(old(View()), out.Length)
      ensures chunks.open == old(chunks.open) && chunks.receiving == old(chunks.receiving)
      ensures r.Got? ==> |r.data| <= out.Length && out[..|r.data|] == r.data
      ensures out[if r.Got? then |r.data| else 0..] == old(out[..])[if r.Got? then |r.data| else 0..]
    {
      if offset == |rest| {
        if chunks.queue == [] {
          if chunks.open {
            return WouldBlock;
          }
          if ending.aborted {
            return Interrupted;
          }
          return Got([]);
        }
        rest := chunks.queue[0];
        chunks.queue := chunks.queue[1..];
        offset := 0;
      }
      ghost var front := rest[offset..];
      var take := if |rest| - offset < out.Length then |rest| - offset else out.Length;
      forall i | 0 <= i < take {
        out[i] := rest[offset + i];
      }
      r := Got(rest[offset..offset + take]);
      assert r.data == front[..take];
      offset := offset + take;
      assert rest[offset..] == front[take..];
    }
  }

  // ---- Reading a whole body into memory ----

  const BUFFER: nat := 64 * 1024

  /** `Starved` stands for blocking: the sender is still there. */
  datatype ToCap = Whole(body: seq<byte>) | OverCap | Cut | Starved

  /** Chunks up to the first empty one. */
  function BeforeEmpty(queue: seq<Chunk>): seq<Chunk> {
    if queue == [] || queue[0] == [] then [] else [queue[0]] + BeforeEmpty(queue[1..])
  }

  predicate HasEmpty(queue: seq<Chunk>) {
    exists i :: 0 <= i < |queue| && queue[i] == []
  }

  /** What reading sees before an empty chunk would make it stop. */
  function Visible(b: Body): seq<byte> {
    b.current + Concat(BeforeEmpty(b.queue))
  }

  function ReadToCapResult(b: Body, cap: nat): ToCap {
    if |Visible(b)| > cap then OverCap
    else if HasEmpty(b.queue) then Whole(Visible(b))
    else if b.open then Starved
    else if b.aborted then Cut
    else Whole(Visible(b))
  }

  lemma ReadSeesOn(b: Body, room: nat)
    requires room > 0
    ensures var (after, r) := ReadOnce(b, room);
            && after.open == b.open && after.aborted == b.aborted
            && (r.Got? && r.data != [] ==>
                  && Visible(b) == r.data + Visible(after)
                  && (HasEmpty(after.queue) <==> HasEmpty(b.queue))
                  && |Unread(after)| < |Unread(b)|)
            && (r == Got([]) ==> Visible(b) == [] && (HasEmpty(b.queue) || (!b.open && !b.aborted)))
            && (!r.Got? ==> Visible(b) == [] && !HasEmpty(b.queue))
            && (r == Interrupted ==> !b.open && b.aborted)
            && (r == WouldBlock ==> b.open)
  {
    var (after, r) := ReadOnce(b, room);
    if b.current == [] && b.queue != [] {
      if b.queue[0] != [] {
        assert b.queue == [b.queue[0]] + b.queue[1..];
        assert Concat(BeforeEmpty(b.queue)) == b.queue[0] + Concat(BeforeEmpty(b.queue[1..])) by {
          assert BeforeEmpty(b.queue)[1..] == BeforeEmpty(b.queue[1..]);
        }
        assert b.queue[0] == r.data + after.current;
      }
    } else if b.current != [] {
      assert b.current == r.data + after.current;
    }
    if HasEmpty(b.queue) && b.current == [] && b.queue[0] != [] {
      var i :| 0 <= i < |b.queue| && b.queue[i] == [];
      assert b.queue[1..][i - 1] == [];
    }
  }

  /** `now` is what is left of `b` once `body` has been read off it. */
  ghost predicate ReadOff(b: Body, body: seq<byte>, now: Body) {
    && Visible(b) == body + Visible(now)
    && now.open == b.open && now.aborted == b.aborted
    && (HasEmpty(now.queue) <==> HasEmpty(b.queue))
  }

  lemma ReadDecides(b: Body, body: seq<byte>, now: Body, cap: nat, room: nat)
    requires ReadOff(b, body, now) && |body| <= cap && room > 0
    ensures match ReadOnce(now, room)
            case (_, WouldBlock) => ReadToCapResult(b, cap) == Starved
            case (_, Interrupted) => ReadToCapResult(b, cap) == Cut
            case (after, Got(data)) =>
              if data == [] then ReadToCapResult(b, cap) == Whole(body)
              else if |body| + |data| > cap then ReadToCapResult(b, cap) == OverCap
              else ReadOff(b, body + data, after) && |Unread(after)| < |Unread(now)|
  {
    var (after, r) := ReadOnce(now, room);
    ReadSeesOn(now, room);
    assert body + [] == body;
    if r.Got? && r.data != [] {
      assert (body + r.data) + Visible(after) == body + (r.data + Visible(after));
    }
  }

  /** Everything, or a refusal: exactly the visible bytes when they fit. */
  method ReadToCap(reader: Reader, cap: nat) returns (r: ToCap)
    requires reader.Valid()
    modifies reader, reader.chunks
    ensures r == ReadToCapResult(old(reader.View()), cap)
  {
    var body: seq<byte> := [];
    var buf := new byte[BUFFER];
    ghost var b := reader.View();
    ghost var now := b;
    assert [] + Visible(b) == Visible(b);
    while true
      invariant reader.Valid() && fresh(buf) && buf.Length == BUFFER
      invariant now == reader.View() && |body| <= cap && ReadOff(b, body, now)
      decreases |Unread(now)|
    {
      ReadDecides(b, body, now, cap, BUFFER);
      var read := reader.Read(buf);
      now := reader.View();
      match read {
        case WouldBlock => return Starved;
        case Interrupted => return Cut;
        case Got(data) =>
          if data == [] {
            return Whole(body);
          }
          if |body| + |data| > cap {
            return OverCap;
          }
          body := body + buf[..|data|];
      }
    }
  }

  lemma {:induction false} NoEmptyMeansAllVisible(queue: seq<Chunk>)
    requires !HasEmpty(queue)
    ensures BeforeEmpty(queue) == queue
  {
    if queue != [] {
      assert queue[0] != [];
      assert forall i :: 0 <= i < |queue[1..]| ==> queue[1..][i] == queue[i + 1];
      NoEmptyMeansAllVisible(queue[1..]);
    }
  }

  /** Without empty chunks, a body whose sender is gone is read whole and in
      order, refused for its size, or reported as cut off; never shortened. */
  lemma WholeOrRefused(b: Body, cap: nat)
    requires !HasEmpty(b.queue) && !b.open
    ensures ReadToCapResult(b, cap) ==
            if |Unread(b)| > cap then OverCap else if b.aborted then Cut else Whole(Unread(b))
  {
    NoEmptyMeansAllVisible(b.queue);
  }

  /** An empty chunk would pass for the end of the body: the filter in front
      of the channel is what the promise rests on. */
  lemma EmptyChunkPassesForTheEnd(b: Body, cap: nat)
    requires HasEmpty(b.queue) && |Unread(b)| <= cap
    ensures ReadToCapResult(b, cap) == Whole(Visible(b))
  {
    BeforeEmptyIsShorter(b.queue);
  }

  lemma {:induction false} BeforeEmptyIsShorter(queue: seq<Chunk>)
    ensures |Concat(BeforeEmpty(queue))| <= |Concat(queue)|
  {
    if queue != [] && queue[0] != [] {
      BeforeEmptyIsShorter(queue[1..]);
      assert BeforeEmpty(queue)[1..] == BeforeEmpty(queue[1..]);
    }
  }

  // ---- Whole runs: a sender, a flag, and reads of any size ----

  datatype Step = Push(chunk: Chunk) | Abort | DropSender | Read(room: nat)

  /** `ended` once a read has reported the end of the body; `cutFirst` when the
      flag was up before the sender went. */
  datatype Flow = Flow(body: Body, pushed: seq<byte>, delivered: seq<byte>, ended: bool, cutFirst: bool)

  const START := Flow(Body([], [], true, false), [], [], false, false)

  predicate Enabled(f: Flow, step: Step) {
    match step
    case Push(chunk) => f.body.open && chunk != [] && |f.body.queue| < CHANNEL_DEPTH
    case Abort => true
    case DropSender => f.body.open
    case Read(room) => room > 0 && !ReadOnce(f.body, room).1.WouldBlock?
  }

  function Next(f: Flow, step: Step): Flow {
    match step
    case Push(chunk) => f.(body := f.body.(queue := f.body.queue + [chunk]), pushed := f.pushed + chunk)
    case Abort => f.(body := f.body.(aborted := true))
    case DropSender => f.(body := f.body.(open := false), cutFirst := f.body.aborted)
    case Read(room) =>
      var (body, r) := ReadOnce(f.body, room);
      if r.Got? then f.(body := body, delivered := f.delivered + r.data, ended := f.ended || r.data == [])
      else f.(body := body)
  }

  predicate Runs(f: Flow, steps: seq<Step>)
    decreases |steps|
  {
    steps == [] || (Enabled(f, steps[0]) && Runs(Next(f, steps[0]), steps[1..]))
  }

  function After(f: Flow, steps: seq<Step>): Flow
    decreases |steps|
  {
    if steps == [] then f else After(Next(f, steps[0]), steps[1..])
  }

  ghost predicate Inv(f: Flow) {
    && !HasEmpty(f.body.queue)
    && f.delivered + Unread(f.body) == f.pushed
    && (f.ended ==> !f.body.open && f.delivered == f.pushed && !f.cutFirst)
    && (f.cutFirst ==> f.body.aborted)
  }

  lemma {:induction false} ConcatAppend(chunks: seq<Chunk>, chunk: Chunk)
    ensures Concat(chunks + [chunk]) == Concat(chunks) + chunk
  {
    if chunks == [] {
      assert Concat([chunk]) == chunk + Concat([]);
    } else {
      assert (chunks + [chunk])[1..] == chunks[1..] + [chunk];
      ConcatAppend(chunks[1..], chunk);
    }
  }

  lemma ReadConserves(b: Body, room: nat)
    requires room > 0 && !HasEmpty(b.queue)
    ensures var (after, r) := ReadOnce(b, room);
            && !HasEmpty(after.queue)
            && (r.Got? ==> Unread(b) == r.data + Unread(after))
            && (r == Got([]) ==> Unread(b) == [] && !b.open && !b.aborted)
            && (!r.Got? ==> after == b)
  {
    ReadSeesOn(b, room);
    NoEmptyMeansAllVisible(b.queue);
    var (after, r) := ReadOnce(b, room);
    if r.Got? && r.data != [] {
      NoEmptyMeansAllVisible(after.queue);
    }
  }

  lemma StepKeepsInv(f: Flow, step: Step)
    requires Inv(f) && Enabled(f, step)
    ensures Inv(Next(f, step))
  {
    match step
    case Push(chunk) =>
      ConcatAppend(f.body.queue, chunk);
      assert f.delivered + (f.body.current + (Concat(f.body.queue) + chunk)) == f.pushed + chunk;
    case Abort =>
    case DropSender =>
    case Read(room) =>
      ReadConserves(f.body, room);
      var (body, r) := ReadOnce(f.body, room);
      if r.Got? {
        assert f.delivered + (r.data + Unread(body)) == (f.delivered + r.data) + Unread(body);
      }
  }

  lemma {:induction false} RunKeepsInv(f: Flow, steps: seq<Step>)
    requires Inv(f) && Runs(f, steps)
    ensures Inv(After(f, steps))
    decreases |steps|
  {
    if steps != [] {
      StepKeepsInv(f, steps[0]);
      RunKeepsInv(Next(f, steps[0]), steps[1..]);
    }
  }

  /** Reads return exactly the chunks' bytes, in order, whatever the buffer
      sizes; the end is reported only when all of them are out, the sender is
      gone, and no abort came before it went. */
  lemma ReadsAreTheChunks(steps: seq<Step>)
    requires Runs(START, steps)
    ensures var f := After(START, steps);
            && f.delivered <= f.pushed
            && (f.ended ==> f.delivered == f.pushed && !f.body.open && !f.cutFirst)
  {
    RunKeepsInv(START, steps);
    var f := After(START, steps);
    assert f.delivered <= f.delivered + Unread(f.body);
  }

  /** A sender that goes early says so first. */
  predicate DropsAreHonest(f: Flow, steps: seq<Step>, intended: seq<byte>)
    decreases |steps|
  {
    steps == [] ||
    ((steps[0].DropSender? ==> f.body.aborted || f.pushed == intended) &&
     DropsAreHonest(Next(f, steps[0]), steps[1..], intended))
  }

  lemma {:induction false} HonestDropsTell(f: Flow, steps: seq<Step>, intended: seq<byte>)
    requires Inv(f) && Runs(f, steps) && DropsAreHonest(f, steps, intended)
    requires f.body.open || f.cutFirst || f.pushed == intended
    ensures var g := After(f, steps); g.body.open || g.cutFirst || g.pushed == intended
    decreases |steps|
  {
    if steps != [] {
      StepKeepsInv(f, steps[0]);
      HonestDropsTell(Next(f, steps[0]), steps[1..], intended);
    }
  }

  /** If an abort precedes every early drop, a body reported as ended is the
      whole of what the client meant to send. */
  lemma TruncationIsTold(steps: seq<Step>, intended: seq<byte>)
    requires Runs(START, steps) && DropsAreHonest(START, steps, intended)
    ensures var f := After(START, steps); f.ended ==> f.delivered == intended
  {
    RunKeepsInv(START, steps);
    HonestDropsTell(START, steps, intended);
  }

  /** Once the sender is gone nothing more is pushed, and a flag that is up
      then keeps the end from being reported. */
  lemma {:induction false} AfterTheDrop(f: Flow, steps: seq<Step>)
    requires Inv(f) && Runs(f, steps) && !f.body.open
    ensures var g := After(f, steps);
            && Inv(g) && !g.body.open && g.pushed == f.pushed
            && (f.body.aborted && !f.ended ==> !g.ended)
    decreases |steps|
  {
    if steps != [] {
      StepKeepsInv(f, steps[0]);
      AfterTheDrop(Next(f, steps[0]), steps[1..]);
    }
  }

  /** Reading on reaches the end of a body whose sender went unflagged. */
  lemma {:induction false} ReadToTheEnd(f: Flow) returns (steps: seq<Step>)
    requires Inv(f) && !f.body.open && !f.body.aborted
    ensures Runs(f, steps) && After(f, steps).ended && After(f, steps).pushed == f.pushed
    decreases |Unread(f.body)|
  {
    var next := Next(f, Read(BUFFER));
    StepKeepsInv(f, Read(BUFFER));
    ReadSeesOn(f.body, BUFFER);
    var rest := [];
    if !next.ended {
      rest := ReadToTheEnd(next);
    }
    steps := [Read(BUFFER)] + rest;
    assert steps[1..] == rest;
  }

  /** Exactly when a body can be cut short and pass for whole: its sender is
      gone, the flag is not up, and bytes are missing. */
  lemma TruncatesIff(f: Flow, intended: seq<byte>)
    requires Inv(f) && !f.body.open && !f.ended
    ensures (exists steps :: Runs(f, steps) && After(f, steps).ended && After(f, steps).delivered != intended)
            <==> !f.body.aborted && f.pushed != intended
  {
    if steps :| Runs(f, steps) && After(f, steps).ended && After(f, steps).delivered != intended {
      AfterTheDrop(f, steps);
    }
    if !f.body.aborted && f.pushed != intended {
      var steps := ReadToTheEnd(f);
      AfterTheDrop(f, steps);
      assert Runs(f, steps) && After(f, steps).ended && After(f, steps).delivered != intended;
    }
  }

  /** What dropping the sender comes to, from what the event loop knows as it
      drops it: after any run, some reader will take what arrived for the whole
      if and only if the flag is not up and something has not arrived. */
  lemma ADropTruncatesIff(steps: seq<Step>, intended: seq<byte>)
    requires Runs(START, steps) && After(START, steps).body.open
    ensures var f := After(START, steps);
            (exists rest :: Runs(Next(f, DropSender), rest) && After(Next(f, DropSender), rest).ended
                            && After(Next(f, DropSender), rest).delivered != intended)
            <==> !f.body.aborted && f.pushed != intended
  {
    var f := After(START, steps);
    RunKeepsInv(START, steps);
    StepKeepsInv(f, DropSender);
    TruncatesIff(Next(f, DropSender), intended);
  }

  /** So every early drop without the flag (after a failed read of the stream,
      or with a connection removed from the table) can pass for the end. */
  lemma SilentDropTruncates(steps: seq<Step>, intended: seq<byte>) returns (rest: seq<Step>)
    requires Runs(START, steps) && After(START, steps).body.open
    requires !After(START, steps).body.aborted && After(START, steps).pushed != intended
    ensures var dropped := Next(After(START, steps), DropSender);
            Runs(dropped, rest) && After(dropped, rest).ended && After(dropped, rest).delivered != intended
  {
    RunKeepsInv(START, steps);
    StepKeepsInv(After(START, steps), DropSender);
    var dropped := Next(After(START, steps), DropSender);
    rest := ReadToTheEnd(dropped);
    AfterTheDrop(dropped, rest);
  }
}
