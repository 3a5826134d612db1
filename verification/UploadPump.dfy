/**
 Moving upload bytes from a QUIC stream towards a worker without ever blocking:
 what the channel has no room for is parked, and parked chunks go first.
 */
module UploadPump {
  import opened RequestBody

  const RECV_BUFFER: nat := 16384

  /** What the stream answers to one read; a read of nothing means drained. */
  datatype Answer = Some(n: nat) | Done | Broken

  datatype Received = Data(bytes: seq<byte>) | Drained | Failed

  /** The bytes of one stream not yet read off it, and what every read came to. */
  class BodySource {
    var unread: seq<byte>
    var answers: seq<Answer>
    ghost var log: seq<Received>

    constructor (unread: seq<byte>, answers: seq<Answer>)
      ensures this.unread == unread && this.answers == answers && log == []
    {
      this.unread, this.answers, log := unread, answers, [];
    }

    method RecvBody(room: nat) returns (r: Received)
      modifies this
      ensures answers == (if old(answers) == [] then [] else old(answers)[1..])
      ensures r.Data? ==> 0 < |r.bytes| <= room && old(unread) == r.bytes + unread && old(answers) != []
      ensures !r.Data? ==> unread == old(unread)
      ensures r.Failed? <==> old(answers) != [] && old(answers)[0].Broken?
      ensures log == old(log) + [r]
    {
      var answer := if answers == [] then Done else answers[0];
      answers := if answers == [] then [] else answers[1..];
      match answer {
        case Done => r := Drained;
        case Broken => r := Failed;
        case Some(n) =>
          var most := if room < |unread| then room else |unread|;
          var take := if n < most then n else most;
          if take == 0 {
            r := Drained;
          } else {
            r := Data(unread[..take]);
            unread := unread[take..];
          }
      }
      log := log + [r];
    }
  }

  /** The chunks among what some reads came to. */
  function DataOf(log: seq<Received>): seq<Chunk> {
    if log == [] then []
    else
      var last := log[|log| - 1];
      DataOf(log[..|log| - 1]) + if last.Data? then [last.bytes] else []
  }

  predicate AllData(log: seq<Received>) {
    forall i :: 0 <= i < |log| ==> log[i].Data?
  }

  /** Data, until a read came to `end`. */
  predicate EndsIn(log: seq<Received>, end: Received) {
    log != [] && log[|log| - 1] == end && AllData(log[..|log| - 1])
  }

  lemma OneMoreRead(before: seq<Received>, log: seq<Received>, read: Received)
    ensures (before + log) + [read] == before + (log + [read])
    ensures DataOf(log + [read]) == DataOf(log) + (if read.Data? then [read.bytes] else [])
    ensures AllData(log) && read.Data? ==> AllData(log + [read])
    ensures AllData(log) ==> EndsIn(log + [read], read)
  {
    assert (log + [read])[..|log|] == log;
  }

  lemma OneMoreArrived(start: seq<Chunk>, arrived: seq<Chunk>, bytes: Chunk, unread: seq<byte>)
    ensures start + (arrived + [bytes]) == (start + arrived) + [bytes]
    ensures Concat(arrived + [bytes]) + unread == Concat(arrived) + (bytes + unread)
    ensures !HasEmpty(arrived) && bytes != [] ==> !HasEmpty(arrived + [bytes])
  {
    ConcatAppend(arrived, bytes);
    assert (Concat(arrived) + bytes) + unread == Concat(arrived) + (bytes + unread);
  }

  // ---- The worker takes while the event loop pumps ----

  datatype Phase = Idle | Flushing | Reading

  /** `arrived` in stream order; what the worker has taken, what is queued for
      it, and what is parked. */
  datatype Lane = Lane(arrived: seq<Chunk>, taken: seq<Chunk>, queue: seq<Chunk>, overflow: seq<Chunk>, phase: Phase)

  const EMPTY := Lane([], [], [], [], Idle)

  datatype Move = Begin | FlushOne | FlushDone | ReadOne(chunk: Chunk) | EndPass | Take

  predicate CanMove(s: Lane, m: Move) {
    match m
    case Begin => s.phase == Idle
    case FlushOne => s.phase == Flushing && s.overflow != [] && |s.queue| < CHANNEL_DEPTH
    case FlushDone => s.phase == Flushing && (s.overflow == [] || |s.queue| >= CHANNEL_DEPTH)
    case ReadOne(_) => s.phase == Reading
    case EndPass => s.phase == Reading
    case Take => s.queue != []
  }

  function Moved(s: Lane, m: Move): Lane
    requires CanMove(s, m)
  {
    match m
    case Begin => s.(phase := Flushing)
    case FlushOne => s.(queue := s.queue + [s.overflow[0]], overflow := s.overflow[1..])
    case FlushDone => s.(phase := Reading)
    case ReadOne(chunk) =>
      if |s.queue| < CHANNEL_DEPTH then s.(arrived := s.arrived + [chunk], queue := s.queue + [chunk])
      else s.(arrived := s.arrived + [chunk], overflow := s.overflow + [chunk])
    case EndPass => s.(phase := Idle)
    case Take => s.(taken := s.taken + [s.queue[0]], queue := s.queue[1..])
  }

  predicate Moves(s: Lane, ms: seq<Move>)
    decreases |ms|
  {
    ms == [] || (CanMove(s, ms[0]) && Moves(Moved(s, ms[0]), ms[1..]))
  }

  function AfterMoves(s: Lane, ms: seq<Move>): Lane
    requires Moves(s, ms)
    decreases |ms|
  {
    if ms == [] then s else AfterMoves(Moved(s, ms[0]), ms[1..])
  }

  /** What the worker has had and will have, in the order it gets it, is the
      stream's order. */
  predicate InOrder(s: Lane) {
    s.taken + s.queue + s.overflow == s.arrived
  }

  /** A newly read chunk finds room in the channel while older ones are parked. */
  predicate Overtakes(s: Lane, m: Move) {
    m.ReadOne? && |s.queue| < CHANNEL_DEPTH && s.overflow != []
  }

  predicate NeverOvertakes(s: Lane, ms: seq<Move>)
    requires Moves(s, ms)
    decreases |ms|
  {
    ms == [] || (!Overtakes(s, ms[0]) && NeverOvertakes(Moved(s, ms[0]), ms[1..]))
  }

  predicate Distinct(chunks: seq<Chunk>) {
    forall i, j :: 0 <= i < j < |chunks| ==> chunks[i] != chunks[j]
  }

  lemma MoveKeepsOrder(s: Lane, m: Move)
    requires CanMove(s, m) && !Overtakes(s, m)
    ensures InOrder(Moved(s, m)) <==> InOrder(s)
  {
    var t := Moved(s, m);
    var before, after := s.taken + s.queue + s.overflow, t.taken + t.queue + t.overflow;
    if m.ReadOne? {
      assert after == before + [m.chunk];
      assert before == after[..|before|] && s.arrived == t.arrived[..|s.arrived|];
    } else {
      assert after == before;
    }
  }

  lemma OvertakingBreaksOrder(s: Lane, m: Move)
    requires CanMove(s, m) && Overtakes(s, m) && Distinct(s.arrived + [m.chunk])
    requires InOrder(s)
    ensures !InOrder(Moved(s, m))
  {
    var t := Moved(s, m);
    var before, after := s.taken + s.queue + s.overflow, t.taken + t.queue + t.overflow;
    var parked := s.overflow[|s.overflow| - 1];
    assert before[|before| - 1] == parked && after[|after| - 1] == parked;
    assert s.arrived[|s.arrived| - 1] == parked;
    assert (s.arrived + [m.chunk])[|s.arrived| - 1] != (s.arrived + [m.chunk])[|s.arrived|];
    assert t.arrived[|t.arrived| - 1] == m.chunk;
  }

  /** Chunks never leave the lane, so it always holds as many as arrived. */
  predicate Complete(s: Lane) {
    |s.taken| + |s.queue| + |s.overflow| == |s.arrived|
  }

  lemma DisorderStays(s: Lane, m: Move)
    requires CanMove(s, m) && !InOrder(s) && Complete(s)
    requires Distinct(Moved(s, m).arrived)
    ensures !InOrder(Moved(s, m)) && Complete(Moved(s, m))
  {
    var t := Moved(s, m);
    if Overtakes(s, m) {
      var place, last := |t.taken| + |t.queue| - 1, |t.arrived| - 1;
      assert (t.taken + t.queue + t.overflow)[place] == m.chunk;
      assert t.arrived[last] == m.chunk && t.arrived[place] != t.arrived[last];
    } else {
      MoveKeepsOrder(s, m);
    }
  }

  lemma {:induction false} ArrivedGrows(s: Lane, ms: seq<Move>)
    requires Moves(s, ms)
    ensures s.arrived <= AfterMoves(s, ms).arrived
    decreases |ms|
  {
    if ms != [] {
      ArrivedGrows(Moved(s, ms[0]), ms[1..]);
    }
  }

  lemma {:induction false} DisorderIsForever(s: Lane, ms: seq<Move>)
    requires Moves(s, ms) && !InOrder(s) && Complete(s) && Distinct(AfterMoves(s, ms).arrived)
    ensures !InOrder(AfterMoves(s, ms))
    decreases |ms|
  {
    if ms != [] {
      ArrivedGrows(Moved(s, ms[0]), ms[1..]);
      DisorderStays(s, ms[0]);
      DisorderIsForever(Moved(s, ms[0]), ms[1..]);
    }
  }

  /** Exactly when order survives: for chunks that can be told apart, a run
      delivers them in stream order if and only if no newly read chunk was ever
      sent while older ones were parked. */
  lemma {:induction false} OrderSurvivesIff(s: Lane, ms: seq<Move>)
    requires Moves(s, ms) && InOrder(s) && Distinct(AfterMoves(s, ms).arrived)
    ensures InOrder(AfterMoves(s, ms)) <==> NeverOvertakes(s, ms)
    decreases |ms|
  {
    if ms != [] {
      var t := Moved(s, ms[0]);
      ArrivedGrows(t, ms[1..]);
      if Overtakes(s, ms[0]) {
        assert t.arrived == s.arrived + [ms[0].chunk];
        OvertakingBreaksOrder(s, ms[0]);
        DisorderIsForever(t, ms[1..]);
      } else {
        MoveKeepsOrder(s, ms[0]);
        OrderSurvivesIff(t, ms[1..]);
      }
    }
  }

  /** The worker takes only between passes. */
  predicate Quiet(s: Lane, ms: seq<Move>)
    requires Moves(s, ms)
    decreases |ms|
  {
    ms == [] || ((ms[0].Take? ==> s.phase == Idle) && Quiet(Moved(s, ms[0]), ms[1..]))
  }

  /** While a pass reads, chunks are parked only behind a full channel. */
  predicate ParkedBehindFull(s: Lane) {
    |s.queue| <= CHANNEL_DEPTH && (s.phase == Reading ==> s.overflow == [] || |s.queue| == CHANNEL_DEPTH)
  }

  /** No take inside a pass is enough. */
  lemma {:induction false} QuietPassesKeepOrder(s: Lane, ms: seq<Move>)
    requires Moves(s, ms) && InOrder(s) && ParkedBehindFull(s) && Quiet(s, ms)
    ensures InOrder(AfterMoves(s, ms)) && NeverOvertakes(s, ms)
    decreases |ms|
  {
    if ms != [] {
      MoveKeepsOrder(s, ms[0]);
      QuietPassesKeepOrder(Moved(s, ms[0]), ms[1..]);
    }
  }

  // ---- A pass of the event loop ----

  /** A run of moves in which the worker takes only between passes. */
  ghost predicate Came(s: Lane, ms: seq<Move>, t: Lane) {
    Moves(s, ms) && Quiet(s, ms) && AfterMoves(s, ms) == t
  }

  lemma {:induction false} CameOn(s: Lane, ms: seq<Move>, t: Lane, m: Move)
    requires Came(s, ms, t) && CanMove(t, m) && (m.Take? ==> t.phase == Idle)
    ensures Came(s, ms + [m], Moved(t, m))
    decreases |ms|
  {
    if ms == [] {
      assert ms + [m] == [m] && [m][1..] == [];
    } else {
      assert (ms + [m])[1..] == ms[1..] + [m];
      CameOn(Moved(s, ms[0]), ms[1..], t, m);
    }
  }

  lemma Started(s: Lane, flushing: seq<Move>, t: Lane) returns (moves: seq<Move>)
    requires s.phase == Idle && Came(s.(phase := Flushing), flushing, t)
    requires t.phase == Flushing && (t.overflow == [] || |t.queue| >= CHANNEL_DEPTH)
    ensures Came(s, moves, t.(phase := Reading))
  {
    var begun := [Begin] + flushing;
    assert begun[1..] == flushing;
    CameOn(s, begun, t, FlushDone);
    moves := begun + [FlushDone];
  }

  lemma {:induction false} Continued(s: Lane, ms: seq<Move>, t: Lane, more: seq<Move>, u: Lane) returns (moves: seq<Move>)
    requires Came(s, ms, t) && Came(t, more, u)
    ensures Came(s, moves, u)
    decreases |more|
  {
    if more == [] {
      moves := ms;
    } else {
      CameOn(s, ms, t, more[0]);
      moves := Continued(s, ms + [more[0]], Moved(t, more[0]), more[1..], u);
    }
  }

  lemma Ended(s: Lane, ms: seq<Move>, t: Lane) returns (moves: seq<Move>)
    requires Came(s, ms, t) && t.phase == Reading
    ensures Came(s, moves, t.(phase := Idle))
  {
    CameOn(s, ms, t, EndPass);
    moves := ms + [EndPass];
  }

  lemma OneMoreOn(before: seq<Chunk>, arrived: seq<Chunk>, bytes: Chunk)
    ensures before + (arrived + [bytes]) == (before + arrived) + [bytes]
  {
  }

  function Weight(chunks: seq<Chunk>): nat {
    |Concat(chunks)|
  }

  /** Why an upload leaves the table after a pass, if it does. */
  datatype Pass = Kept | ReaderGone | StreamFailed | Finished

  /** Why reading stopped. */
  datatype Stop = NoRoom | Dry | Broke | Gone

  class Upload {
    const chunks: Channel
    var overflow: seq<Chunk>
    var parked: nat
    var finished: bool

    ghost predicate Valid()
      reads this, chunks
    {
      parked == Weight(overflow) && |chunks.queue| <= CHANNEL_DEPTH
    }

    constructor (chunks: Channel)
      requires |chunks.queue| <= CHANNEL_DEPTH
      ensures Valid() && this.chunks == chunks && overflow == [] && !finished
    {
      this.chunks, overflow, parked, finished := chunks, [], 0, false;
    }

    predicate HasRoom(cap: nat)
      reads this
    {
      parked < cap
    }

    method Park(chunk: Chunk)
      requires Valid()
      modifies this`overflow, this`parked
      ensures Valid()
      ensures overflow == old(overflow) + [chunk] && parked == old(parked) + |chunk|
    {
      ConcatAppend(overflow, chunk);
      parked := parked + |chunk|;
      overflow := overflow + [chunk];
    }

    /** Parked chunks first, until the channel is full. */
    method Flush(ghost lane: Lane) returns (closed: bool, ghost moves: seq<Move>)
      requires Valid() && Shows(lane) && lane.phase == Flushing
      modifies this`overflow, this`parked, chunks`queue
      ensures closed <==> !chunks.receiving && old(overflow) != []
      ensures !closed ==> Came(lane, moves, Lane(lane.arrived, lane.taken, chunks.queue, overflow, Flushing))
      ensures !closed ==>
                && Valid() && parked <= old(parked)
                && chunks.queue + overflow == old(chunks.queue + overflow)
                && (overflow == [] || |chunks.queue| == CHANNEL_DEPTH)
    {
      moves := [];
      while overflow != []
        invariant Valid() && parked <= old(parked)
        invariant !chunks.receiving ==> overflow == old(overflow)
        invariant chunks.queue + overflow == old(chunks.queue + overflow)
        invariant Came(lane, moves, Lane(lane.arrived, lane.taken, chunks.queue, overflow, Flushing))
        decreases |overflow|
      {
        ghost var at := Lane(lane.arrived, lane.taken, chunks.queue, overflow, Flushing);
        var chunk := overflow[0];
        overflow := overflow[1..];
        var sent := chunks.TrySend(chunk);
        match sent {
          case Accepted =>
            parked := parked - |chunk|;
            CameOn(lane, moves, at, FlushOne);
            moves := moves + [FlushOne];
          case Full =>
            overflow := [chunk] + overflow;
            break;
          case Disconnected =>
            return true, moves;
        }
      }
      return false, moves;
    }

    /** To the worker, or parked behind what the channel could not take. */
    method PassOn(chunk: Chunk) returns (gone: bool)
      requires Valid() && (overflow == [] || |chunks.queue| == CHANNEL_DEPTH)
      modifies this`overflow, this`parked, chunks`queue
      ensures gone <==> !chunks.receiving
      ensures !gone ==>
                && Valid()
                && chunks.queue + overflow == old(chunks.queue + overflow) + [chunk]
                && (overflow == [] || |chunks.queue| == CHANNEL_DEPTH)
                && (parked == old(parked) || parked == old(parked) + |chunk|)
                && (if |old(chunks.queue)| < CHANNEL_DEPTH
                    then chunks.queue == old(chunks.queue) + [chunk] && overflow == old(overflow)
                    else chunks.queue == old(chunks.queue) && overflow == old(overflow) + [chunk])
    {
      ghost var queue, parkedBefore := chunks.queue, overflow;
      var sent := chunks.TrySend(chunk);
      match sent {
        case Accepted =>
          assert (queue + [chunk]) + [] == (queue + []) + [chunk];
        case Full =>
          Park(chunk);
          assert queue + (parkedBefore + [chunk]) == (queue + parkedBefore) + [chunk];
        case Disconnected => return true;
      }
      return false;
    }

    /** `lane` is this upload as the worker sees it too. */
    ghost predicate Shows(lane: Lane)
      reads this, chunks
    {
      lane.queue == chunks.queue && lane.overflow == overflow
    }

    /** Reading the stream into the channel for as long as there is room. */
    method ReadStream(source: BodySource, cap: nat, ghost lane: Lane)
      returns (r: Stop, ghost arrived: seq<Chunk>, ghost moves: seq<Move>)
      requires Valid() && Shows(lane) && lane.phase == Reading
      requires overflow == [] || |chunks.queue| == CHANNEL_DEPTH
      modifies this`overflow, this`parked, chunks`queue, source
      ensures old(source.log) <= source.log
      ensures var log := source.log[|old(source.log)|..];
              && arrived == DataOf(log)
              && (r == Gone <==> !chunks.receiving && arrived != [])
              && (r == Broke <==> EndsIn(log, Failed))
              && (r == Dry <==> EndsIn(log, Drained))
              && (r == NoRoom ==> AllData(log) && parked >= cap)
      ensures r != Gone ==>
                && Valid()
                && chunks.queue + overflow == old(chunks.queue + overflow) + arrived
                && Concat(arrived) + source.unread == old(source.unread)
                && !HasEmpty(arrived)
                && (overflow == [] || |chunks.queue| == CHANNEL_DEPTH)
                && (parked <= old(parked) || parked < cap + 16384)
                && Came(lane, moves, Lane(lane.arrived + arrived, lane.taken, chunks.queue, overflow, Reading))
    {
      arrived, moves := [], [];
      ghost var start, before := chunks.queue + overflow, source.log;
      ghost var log: seq<Received> := [];
      assert lane.arrived + [] == lane.arrived;
      while HasRoom(cap)
        invariant Valid()
        invariant source.log == before + log && AllData(log) && arrived == DataOf(log)
        invariant !chunks.receiving ==> arrived == []
        invariant chunks.queue + overflow == start + arrived
        invariant Concat(arrived) + source.unread == old(source.unread)
        invariant !HasEmpty(arrived)
        invariant overflow == [] || |chunks.queue| == CHANNEL_DEPTH
        invariant parked <= old(parked) || parked < cap + 16384
        invariant Came(lane, moves, Lane(lane.arrived + arrived, lane.taken, chunks.queue, overflow, Reading))
        decreases |source.answers|
      {
        ghost var at := Lane(lane.arrived + arrived, lane.taken, chunks.queue, overflow, Reading);
        var read := source.RecvBody(RECV_BUFFER);
        OneMoreRead(before, log, read);
        log := log + [read];
        match read {
          case Drained =>
            return Dry, arrived, moves;
          case Failed =>
            return Broke, arrived, moves;
          case Data(bytes) =>
            OneMoreArrived(start, arrived, bytes, source.unread);
            OneMoreOn(lane.arrived, arrived, bytes);
            arrived := arrived + [bytes];
            var gone := PassOn(bytes);
            if gone {
              return Gone, arrived, moves;
            }
            CameOn(lane, moves, at, ReadOne(bytes));
            moves := moves + [ReadOne(bytes)];
        }
      }
      return NoRoom, arrived, moves;
    }

    /** One pass over one upload, no one else touching the channel meanwhile:
        nothing is lost, doubled or reordered on the way from the stream to the
        worker, no more is parked than one read past the cap, and the pass is
        a run of the moves above in which nobody takes. It goes on until the
        reader is gone, the stream fails or is drained, or there is no room; and
        what becomes of the upload is said by which. */
    method PumpUpload(source: BodySource, cap: nat, ghost lane: Lane)
      returns (r: Pass, ghost arrived: seq<Chunk>, ghost moves: seq<Move>)
      requires Valid() && Shows(lane) && lane.phase == Idle
      modifies this`overflow, this`parked, chunks`queue, source
      ensures old(source.log) <= source.log
      ensures var log := source.log[|old(source.log)|..];
              && arrived == DataOf(log)
              && (r == ReaderGone <==> !chunks.receiving && (old(overflow) != [] || arrived != []))
              && (r == StreamFailed <==> EndsIn(log, Failed))
              && (r == Finished <==> EndsIn(log, Drained) && finished && overflow == [])
              && (r == Kept ==> EndsIn(log, Drained) || (AllData(log) && parked >= cap))
      ensures r != ReaderGone ==>
                && Valid()
                && chunks.queue + overflow == old(chunks.queue + overflow) + arrived
                && Concat(arrived) + source.unread == old(source.unread)
                && !HasEmpty(arrived)
                && (overflow == [] || |chunks.queue| == CHANNEL_DEPTH)
                && (parked <= old(parked) || parked < cap + 16384)
                && Came(lane, moves, Lane(lane.arrived + arrived, lane.taken, chunks.queue, overflow, Idle))
    {
      arrived, moves := [], [];
      ghost var log := source.log;
      assert log[|log|..] == [];
      var closed: bool;
      ghost var flushing, reading;
      closed, flushing := Flush(lane.(phase := Flushing));
      if closed {
        return ReaderGone, arrived, moves;
      }
      ghost var ready := Lane(lane.arrived, lane.taken, chunks.queue, overflow, Flushing);
      moves := Started(lane, flushing, ready);
      var stop: Stop;
      stop, arrived, reading := ReadStream(source, cap, ready.(phase := Reading));
      if stop == Gone {
        return ReaderGone, arrived, moves;
      }
      ghost var at := Lane(lane.arrived + arrived, lane.taken, chunks.queue, overflow, Reading);
      moves := Continued(lane, moves, ready.(phase := Reading), reading, at);
      moves := Ended(lane, moves, at);
      if stop == Broke {
        return StreamFailed, arrived, moves;
      }
      if finished && stop == Dry && overflow == [] {
        return Finished, arrived, moves;
      }
      return Kept, arrived, moves;
    }
  }

  // ---- From the stream to the reader ----

  /** The lane, and the worker's reader on the other end of its channel. */
  datatype Route = Route(lane: Lane, flow: Flow)

  const NOTHING_YET := Route(EMPTY, START)

  datatype Event = Carry(move: Move) | Reads(room: nat) | Flags | Drops

  /** A read that has nothing in hand takes a chunk off the channel. */
  predicate Refills(f: Flow) {
    f.body.current == [] && f.body.queue != []
  }

  predicate CanHappen(w: Route, e: Event) {
    match e
    case Carry(m) => !m.Take? && CanMove(w.lane, m) && w.flow.body.open && (m.ReadOne? ==> m.chunk != [])
    case Reads(room) => Enabled(w.flow, Read(room))
    case Flags => true
    case Drops => w.flow.body.open
  }

  /** What a move puts into the channel. */
  function Entering(s: Lane, m: Move): seq<Chunk>
    requires CanMove(s, m)
  {
    match m
    case FlushOne => [s.overflow[0]]
    case ReadOne(chunk) => if |s.queue| < CHANNEL_DEPTH then [chunk] else []
    case _ => []
  }

  function Happened(w: Route, e: Event): Route
    requires CanHappen(w, e) && w.lane.queue == w.flow.body.queue
  {
    match e
    case Carry(m) =>
      var entering := Entering(w.lane, m);
      Route(Moved(w.lane, m), if entering == [] then w.flow else Next(w.flow, Push(entering[0])))
    case Reads(room) => Route(if Refills(w.flow) then Moved(w.lane, Take) else w.lane, Next(w.flow, Read(room)))
    case Flags => w.(flow := Next(w.flow, Abort))
    case Drops => w.(flow := Next(w.flow, DropSender))
  }

  /** Both ends see one channel, and what entered it is what the reader was
      sent. */
  ghost predicate Joined(w: Route) {
    && w.lane.queue == w.flow.body.queue
    && InOrder(w.lane) && ParkedBehindFull(w.lane) && !HasEmpty(w.lane.overflow)
    && Inv(w.flow) && w.flow.pushed == Concat(w.lane.taken + w.lane.queue)
  }

  /** The worker takes only between passes. */
  ghost predicate QuietRun(w: Route, events: seq<Event>)
    decreases |events|
  {
    events == [] ||
    (CanHappen(w, events[0]) && w.lane.queue == w.flow.body.queue
     && (events[0].Reads? && Refills(w.flow) ==> w.lane.phase == Idle)
     && QuietRun(Happened(w, events[0]), events[1..]))
  }

  ghost function AfterEvents(w: Route, events: seq<Event>): Route
    requires QuietRun(w, events)
    decreases |events|
  {
    if events == [] then w else AfterEvents(Happened(w, events[0]), events[1..])
  }

  lemma CarryKeepsJoined(w: Route, m: Move)
    requires Joined(w) && CanHappen(w, Carry(m))
    ensures Joined(Happened(w, Carry(m)))
  {
    var entering, t := Entering(w.lane, m), Moved(w.lane, m);
    MoveKeepsOrder(w.lane, m);
    if entering == [] {
      assert t.taken + t.queue == w.lane.taken + w.lane.queue;
    } else {
      assert entering[0] != [];
      RequestBody.StepKeepsInv(w.flow, Push(entering[0]));
      assert t.taken + t.queue == (w.lane.taken + w.lane.queue) + [entering[0]];
      ConcatAppend(w.lane.taken + w.lane.queue, entering[0]);
    }
  }

  lemma ReadKeepsJoined(w: Route, room: nat)
    requires Joined(w) && CanHappen(w, Reads(room)) && (Refills(w.flow) ==> w.lane.phase == Idle)
    ensures Joined(Happened(w, Reads(room)))
  {
    RequestBody.StepKeepsInv(w.flow, Read(room));
    if Refills(w.flow) {
      MoveKeepsOrder(w.lane, Take);
      var t := Moved(w.lane, Take);
      assert t.taken + t.queue == w.lane.taken + w.lane.queue;
    }
  }

  lemma {:induction false} RunKeepsJoined(w: Route, events: seq<Event>)
    requires Joined(w) && QuietRun(w, events)
    ensures Joined(AfterEvents(w, events))
    decreases |events|
  {
    if events != [] {
      match events[0] {
        case Carry(m) => CarryKeepsJoined(w, m);
        case Reads(room) => ReadKeepsJoined(w, room);
        case Flags => RequestBody.StepKeepsInv(w.flow, Abort);
        case Drops => RequestBody.StepKeepsInv(w.flow, DropSender);
      }
      RunKeepsJoined(Happened(w, events[0]), events[1..]);
    }
  }

  lemma {:induction false} ConcatJoins(a: seq<Chunk>, b: seq<Chunk>)
    ensures Concat(a + b) == Concat(a) + Concat(b)
  {
    if a == [] {
      assert a + b == b;
    } else {
      assert (a + b)[1..] == a[1..] + b;
      ConcatJoins(a[1..], b);
    }
  }

  /** From end to end: as long as nothing is taken inside a pass, whatever the
      sizes of chunks and buffers, the worker reads the stream's bytes in the
      stream's order; and told of the end, it has all that arrived, unless
      something was still parked when the sender went. */
  lemma StreamReachesTheReader(events: seq<Event>)
    requires QuietRun(NOTHING_YET, events)
    ensures var w := AfterEvents(NOTHING_YET, events);
            && w.flow.delivered <= Concat(w.lane.arrived)
            && (w.flow.ended ==> !w.flow.cutFirst
                                 && w.flow.delivered + Concat(w.lane.overflow) == Concat(w.lane.arrived))
  {
    RunKeepsJoined(NOTHING_YET, events);
    var w := AfterEvents(NOTHING_YET, events);
    ConcatJoins(w.lane.taken + w.lane.queue, w.lane.overflow);
    assert w.flow.delivered <= w.flow.delivered + Unread(w.flow.body);
    assert w.flow.pushed <= Concat(w.lane.arrived);
  }

  // ---- The run that reorders a body ----

  function Numbered(k: nat): Chunk
    requires k < 256
  {
    [k]
  }

  function FirstChunks(n: nat): seq<Chunk>
    requires n <= 256
  {
    seq(n, k requires 0 <= k < n => Numbered(k))
  }

  /** A pass in progress that has read chunks 0 to n - 1 with no take at all. */
  function Filled(n: nat): Lane
    requires n <= CHANNEL_DEPTH + 1
  {
    if n <= CHANNEL_DEPTH then Lane(FirstChunks(n), [], FirstChunks(n), [], Reading)
    else Lane(FirstChunks(n), [], FirstChunks(CHANNEL_DEPTH), [Numbered(CHANNEL_DEPTH)], Reading)
  }

  lemma {:induction false} Filling(n: nat) returns (ms: seq<Move>)
    requires n <= CHANNEL_DEPTH + 1
    ensures Moves(EMPTY, ms) && AfterMoves(EMPTY, ms) == Filled(n)
  {
    if n == 0 {
      ms := [Begin] + [FlushDone];
      Extended(EMPTY, [], Begin);
      assert [] + [Begin] == [Begin];
      Extended(EMPTY, [Begin], FlushDone);
    } else {
      var before := Filling(n - 1);
      ms := before + [ReadOne(Numbered(n - 1))];
      Extended(EMPTY, before, ReadOne(Numbered(n - 1)));
      assert FirstChunks(n) == FirstChunks(n - 1) + [Numbered(n - 1)];
    }
  }

  lemma {:induction false} Extended(s: Lane, ms: seq<Move>, m: Move)
    requires Moves(s, ms) && CanMove(AfterMoves(s, ms), m)
    ensures Moves(s, ms + [m]) && AfterMoves(s, ms + [m]) == Moved(AfterMoves(s, ms), m)
    decreases |ms|
  {
    if ms == [] {
      assert ms + [m] == [m];
      assert [m][1..] == [];
    } else {
      assert (ms + [m])[1..] == ms[1..] + [m];
      Extended(Moved(s, ms[0]), ms[1..], m);
    }
  }

  /** Sixteen chunks queued and one parked; the worker takes one in the middle
      of the pass; the next chunk read goes straight into the channel, ahead of
      the parked one. The worker will read chunk 17 before chunk 16. */
  lemma ATakeInsideAPassReorders() returns (ms: seq<Move>)
    ensures Moves(EMPTY, ms)
    ensures !InOrder(AfterMoves(EMPTY, ms))
    ensures var s := AfterMoves(EMPTY, ms);
            |s.queue| > 0 && s.queue[|s.queue| - 1] == Numbered(17) && s.overflow == [Numbered(16)]
  {
    var filling := Filling(CHANNEL_DEPTH + 1);
    var s := Filled(CHANNEL_DEPTH + 1);
    var taking := filling + [Take];
    Extended(EMPTY, filling, Take);
    var next := ReadOne(Numbered(CHANNEL_DEPTH + 1));
    Extended(EMPTY, taking, next);
    ms := taking + [next];
    var t := AfterMoves(EMPTY, ms);
    assert t.overflow == [Numbered(16)];
    assert t.arrived == s.arrived + [Numbered(17)];
    assert (t.taken + t.queue + t.overflow)[17] == Numbered(16);
    assert t.arrived[17] == Numbered(17);
  }
}
