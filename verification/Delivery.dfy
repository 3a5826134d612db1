/**
 One response on one HTTP/3 stream: what the worker hands over, what is queued,
 and what reaches the wire when the transport takes as much or as little as it
 likes at every call.
 */
module Delivery {
  import opened Wrappers
  import opened Headers
  import opened Text

  type byte = x: int | 0 <= x < 256

  datatype Payload =
    | FullResponse(status: nat, headers: seq<Header>, body: seq<byte>)
    | Head(status: nat, headers: seq<Header>)
    | Chunk(data: seq<byte>)
    | End

  /** What the worker claims before handing a payload over. */
  function Size(p: Payload): nat {
    match p
    case FullResponse(_, _, body) => |body|
    case Chunk(data) => |data|
    case _ => 0
  }

  function BytesOf(p: Payload): seq<byte> {
    match p
    case FullResponse(_, _, body) => body
    case Chunk(data) => data
    case _ => []
  }

  /** The body a sequence of payloads spells out. */
  function Bytes(plan: seq<Payload>): seq<byte> {
    if plan == [] then [] else Bytes(plan[..|plan| - 1]) + BytesOf(plan[|plan| - 1])
  }

  predicate Ends(p: Payload) {
    p.FullResponse? || p.End?
  }

  predicate Ended(plan: seq<Payload>) {
    exists i :: 0 <= i < |plan| && Ends(plan[i])
  }

  /** Everything one job ever sends: one whole response, or a head, non-empty
      chunks and an end; a worker that stops early sends a prefix. */
  predicate ValidPlan(plan: seq<Payload>) {
    && (|plan| > 0 ==> plan[0].FullResponse? || plan[0].Head?)
    && (|plan| > 0 && plan[0].FullResponse? ==> |plan| == 1)
    && (forall i :: 0 < i < |plan| ==> (plan[i].Chunk? && plan[i].data != []) || (plan[i].End? && i == |plan| - 1))
  }

  // ---- The queue for one stream ----

  datatype Pending = Pending(
    status: nat,
    headers: seq<Header>,
    headersSent: bool,
    chunks: seq<seq<byte>>,
    offset: nat,
    complete: bool,
    finSent: bool)

  function Opened(p: Payload): Pending
    requires p.FullResponse? || p.Head?
  {
    match p
    case FullResponse(status, headers, body) => Pending(status, headers, false, [body], 0, true, false)
    case Head(status, headers) => Pending(status, headers, false, [], 0, false, false)
  }

  predicate IsFinished(p: Pending) {
    p.headersSent && p.finSent
  }

  function Concat(chunks: seq<seq<byte>>): seq<byte> {
    if chunks == [] then [] else chunks[0] + Concat(chunks[1..])
  }

  /** Room still held by what is queued. */
  function Held(chunks: seq<seq<byte>>): nat {
    if chunks == [] then 0 else |chunks[0]| + Held(chunks[1..])
  }

  function BodyLen(p: Pending): nat {
    Held(p.chunks)
  }

  /** Queued and not yet taken by the transport. */
  function Unsent(p: Pending): seq<byte> {
    if p.chunks == [] || p.offset > |p.chunks[0]| then [] else Concat(p.chunks)[p.offset..]
  }

  // ---- The wire ----

  datatype HeadFrame = HeadFrame(status: nat, contentLength: Option<nat>, headers: seq<Header>)

  /** Everything the transport has accepted on one stream. */
  datatype Wire = Wire(heads: seq<HeadFrame>, body: seq<byte>, fins: nat)

  const SILENT := Wire([], [], 0)

  /** The transport takes up to `n` bytes, or none for now, or fails. */
  datatype Answer = Accept(n: nat) | Blocked | Fail

  predicate DeclaresLength(headers: seq<Header>) {
    Has(headers, "content-length")
  }

  /** Only a whole response, of a kind that may carry one and does not already,
      is given a measured content-length. */
  predicate Framed(p: Pending) {
    p.complete && p.status != 204 && p.status != 304 && p.status >= 200 && !DeclaresLength(p.headers)
  }

  /** A response whose length may be measured: of a status that carries a body,
      and with no content-length of its own, however spelled. */
  predicate Measurable(status: nat, headers: seq<Header>) {
    && status >= 200 && status != 204 && status != 304
    && forall i :: 0 <= i < |headers| ==> !SpelledAlike(headers[i].name, "content-length")
  }

  function HeadOf(p: Pending): HeadFrame {
    HeadFrame(p.status, if Framed(p) then Some(BodyLen(p)) else None, p.headers)
  }

  function HeadersAccepted(p: Pending, w: Wire): (Pending, Wire) {
    var fin := p.complete && BodyLen(p) == 0;
    (p.(headersSent := true, finSent := fin),
     w.(heads := w.heads + [HeadOf(p)], fins := w.fins + if fin then 1 else 0))
  }

  /** This write would carry the end of the stream. */
  predicate Last(p: Pending) {
    p.complete && |p.chunks| == 1
  }

  /** Bytes taken when the front chunk is offered and `n` are accepted. */
  function Taken(p: Pending, n: nat): nat
    requires p.chunks != [] && p.offset <= |p.chunks[0]|
  {
    if n < |p.chunks[0]| - p.offset then n else |p.chunks[0]| - p.offset
  }

  predicate Pops(p: Pending, n: nat)
    requires p.chunks != [] && p.offset <= |p.chunks[0]|
  {
    p.offset + Taken(p, n) >= |p.chunks[0]|
  }

  /** One accepted write of the front chunk; the end of the stream rides along
      only when the write took all that was offered. */
  function BodyAccepted(p: Pending, w: Wire, n: nat): (Pending, Wire)
    requires p.chunks != [] && p.offset <= |p.chunks[0]|
  {
    var taken := Taken(p, n);
    var wire := w.(body := w.body + p.chunks[0][p.offset..p.offset + taken]);
    if Pops(p, n) then
      (p.(chunks := p.chunks[1..], offset := 0, finSent := Last(p)),
       wire.(fins := w.fins + if Last(p) then 1 else 0))
    else (p.(offset := p.offset + taken), wire)
  }

  function FinAccepted(p: Pending, w: Wire): (Pending, Wire) {
    (p.(finSent := true), w.(fins := w.fins + 1))
  }

  /** The stream is to be closed by an empty write of its own. */
  predicate OwesFin(p: Pending) {
    p.complete && p.chunks == [] && !p.finSent
  }

  // ---- What holds of a live response ----

  /** The queue holds non-empty pieces and a cursor inside the first of them;
      the one exception is a whole response with an empty body. */
  ghost predicate QueueShape(p: Pending) {
    if p.chunks == [] then p.offset == 0
    else if p.chunks == [[]] then p.offset == 0 && (p.headersSent ==> p.finSent)
    else p.offset < |p.chunks[0]| && forall i :: 0 <= i < |p.chunks| ==> p.chunks[i] != []
  }

  /** `done` is what the event loop has taken off the channel for the stream. */
  ghost predicate FromPlan(p: Pending, done: seq<Payload>) {
    && done != [] && ValidPlan(done)
    && p.status == done[0].status && p.headers == done[0].headers
    && (p.complete <==> Ended(done))
    && (p.chunks == [[]] ==> done[0].FullResponse?)
  }

  ghost predicate Tracked(p: Pending, w: Wire) {
    && (!p.headersSent ==> w == SILENT && p.offset == 0 && !p.finSent)
    && (p.headersSent ==> |w.heads| == 1)
    && w.fins == (if p.finSent then 1 else 0)
    && (p.finSent ==> p.complete && Unsent(p) == [] && (p.chunks == [] || p.chunks == [[]]))
  }

  ghost predicate Faithful(p: Pending, w: Wire, done: seq<Payload>) {
    && FromPlan(p, done)
    && QueueShape(p)
    && Tracked(p, w)
    && w.body + Unsent(p) == Bytes(done)
    && HeadFaithful(w, done)
  }

  /** The one head is the worker's, and a length it announces is the length of
      the whole body. */
  ghost predicate HeadFaithful(w: Wire, done: seq<Payload>)
    requires done != [] && ValidPlan(done)
  {
    w.heads != [] ==>
      && w.heads[0].status == done[0].status && w.heads[0].headers == done[0].headers
      && (w.heads[0].contentLength.Some? ==>
            && Ended(done) && w.heads[0].contentLength.value == |Bytes(done)|
            && Measurable(done[0].status, done[0].headers))
      && (done[0].FullResponse? && Measurable(done[0].status, done[0].headers) ==> w.heads[0].contentLength.Some?)
  }

  /** What a client may ever see of a response: one head before anything else,
      a prefix of the body, one end and only after the whole of it. */
  ghost predicate Honest(w: Wire, plan: seq<Payload>) {
    && w.body <= Bytes(plan)
    && |w.heads| <= 1
    && (w.body != [] || w.fins > 0 ==> |w.heads| == 1)
    && w.fins <= 1
    && (w.fins == 1 ==> w.body == Bytes(plan) && Ended(plan))
    && (w.heads != [] ==>
          && plan != [] && !plan[0].Chunk? && !plan[0].End?
          && w.heads[0].status == plan[0].status && w.heads[0].headers == plan[0].headers
          && (w.heads[0].contentLength.Some? ==>
                w.heads[0].contentLength.value == |Bytes(plan)| && Measurable(plan[0].status, plan[0].headers))
          && (plan[0].FullResponse? && Measurable(plan[0].status, plan[0].headers) ==>
                w.heads[0].contentLength.Some?))
  }

  // ---- Lemmas on queues and plans ----

  lemma {:induction false} HeldIsLength(chunks: seq<seq<byte>>)
    ensures Held(chunks) == |Concat(chunks)|
  {
    if chunks != [] {
      HeldIsLength(chunks[1..]);
    }
  }

  lemma {:induction false} ConcatAppend(chunks: seq<seq<byte>>, data: seq<byte>)
    ensures Concat(chunks + [data]) == Concat(chunks) + data
    ensures Held(chunks + [data]) == Held(chunks) + |data|
  {
    if chunks == [] {
      assert Concat([data]) == data + Concat([]);
    } else {
      assert (chunks + [data])[1..] == chunks[1..] + [data];
      ConcatAppend(chunks[1..], data);
    }
  }

  lemma BytesAppend(done: seq<Payload>, p: Payload)
    ensures Bytes(done + [p]) == Bytes(done) + BytesOf(p)
  {
    assert (done + [p])[..|done|] == done;
  }

  lemma {:induction false} BytesPrefix(plan: seq<Payload>, d: nat)
    requires d <= |plan|
    ensures Bytes(plan[..d]) <= Bytes(plan)
    decreases |plan|
  {
    if d < |plan| {
      BytesPrefix(plan[..|plan| - 1], d);
      assert plan[..|plan| - 1][..d] == plan[..d];
    } else {
      assert plan[..d] == plan;
    }
  }

  /** Nothing follows the end of a response. */
  lemma EndIsLast(plan: seq<Payload>, d: nat)
    requires ValidPlan(plan) && d <= |plan| && Ended(plan[..d])
    ensures d == |plan| && plan[..d] == plan
  {
    var i :| 0 <= i < d && Ends(plan[..d][i]);
    assert Ends(plan[i]);
  }

  /** A live response shows the client nothing it should not see. */
  lemma FaithfulIsHonest(p: Pending, w: Wire, plan: seq<Payload>, d: nat)
    requires d <= |plan| && ValidPlan(plan)
    requires Faithful(p, w, plan[..d])
    ensures Honest(w, plan)
  {
    BytesPrefix(plan, d);
    assert w.body <= w.body + Unsent(p);
    if Ended(plan[..d]) {
      EndIsLast(plan, d);
    }
  }

  lemma OpenedIsFaithful(p: Payload)
    requires p.FullResponse? || p.Head?
    ensures Faithful(Opened(p), SILENT, [p])
    ensures Held(Opened(p).chunks) == Size(p)
  {
    BytesAppend([], p);
    assert [] + [p] == [p] && BytesOf(p) == Bytes([p]);
    if p.FullResponse? {
      assert Ends([p][0]);
      OneChunk(p.body);
    }
  }

  lemma OneChunk(data: seq<byte>)
    ensures Concat([data]) == data && Held([data]) == |data|
  {
    assert [data][1..] == [];
    assert data + [] == data;
  }

  lemma UnsentGrows(p: Pending, data: seq<byte>)
    requires p.chunks == [] ==> p.offset == 0
    requires p.chunks != [] ==> p.offset <= |p.chunks[0]|
    ensures Unsent(p.(chunks := p.chunks + [data])) == Unsent(p) + data
  {
    ConcatAppend(p.chunks, data);
    if p.chunks == [] {
      OneChunk(data);
      assert p.chunks + [data] == [data];
    } else {
      assert |Concat(p.chunks)| >= |p.chunks[0]|;
      assert (Concat(p.chunks) + data)[p.offset..] == Concat(p.chunks)[p.offset..] + data;
    }
  }

  lemma StillOpen(done: seq<Payload>, data: seq<byte>)
    requires done != [] && ValidPlan(done + [Chunk(data)])
    ensures ValidPlan(done) && !Ended(done) && !Ended(done + [Chunk(data)])
    ensures data != [] && done[0].Head?
  {
    var more := done + [Chunk(data)];
    assert more[..|done|] == done;
    assert more[|done|] == Chunk(data);
    assert forall i :: 0 <= i < |done| ==> more[i] == done[i];
    if Ended(more) {
      var i :| 0 <= i < |more| && Ends(more[i]);
    }
    if Ended(done) {
      EndIsLast(more, |done|);
    }
  }

  lemma ChunkKeepsFaith(p: Pending, w: Wire, done: seq<Payload>, data: seq<byte>)
    requires Faithful(p, w, done) && ValidPlan(done + [Chunk(data)])
    ensures Faithful(p.(chunks := p.chunks + [data]), w, done + [Chunk(data)])
  {
    var after, more := p.(chunks := p.chunks + [data]), done + [Chunk(data)];
    StillOpen(done, data);
    assert more[0] == done[0];
    assert p.chunks != [[]] && !p.complete && !p.finSent;
    assert FromPlan(after, more);
    assert QueueShape(after) by {
      if p.chunks == [] {
        assert after.chunks == [data];
      } else {
        assert after.chunks[0] == p.chunks[0];
      }
    }
    UnsentGrows(p, data);
    BytesAppend(done, Chunk(data));
    assert w.body + Unsent(after) == Bytes(more) by {
      assert w.body + (Unsent(p) + data) == (w.body + Unsent(p)) + data;
    }
  }

  lemma EndKeepsFaith(p: Pending, w: Wire, done: seq<Payload>)
    requires Faithful(p, w, done) && ValidPlan(done + [End])
    ensures Faithful(p.(complete := true), w, done + [End])
  {
    BytesAppend(done, End);
    assert Ends((done + [End])[|done|]);
    assert Bytes(done + [End]) == Bytes(done) by { assert Bytes(done) + [] == Bytes(done); }
    assert (done + [End])[0] == done[0];
  }

  lemma FramedIffMeasurable(p: Pending)
    ensures Framed(p) <==> p.complete && Measurable(p.status, p.headers)
  {
    forall i | 0 <= i < |p.headers|
      ensures Is(p.headers[i], "content-length") <==> SpelledAlike(p.headers[i].name, "content-length")
    {
      IgnoringCase(p.headers[i].name, "content-length");
    }
  }

  /** One head goes out, with the response's own status and headers, and with
      the length of all that is queued exactly when no more is to come and it
      may be measured. */
  lemma HeadSaysTheLength(p: Pending, w: Wire)
    ensures var (after, wire) := HeadersAccepted(p, w);
            && wire.heads == w.heads + [HeadFrame(
                 p.status,
                 if p.complete && Measurable(p.status, p.headers) then Some(|Concat(p.chunks)|) else None,
                 p.headers)]
            && after.headersSent && wire.body == w.body
            && (after.finSent <==> p.complete && Concat(p.chunks) == [])
            && wire.fins == w.fins + if after.finSent then 1 else 0
  {
    FramedIffMeasurable(p);
    HeldIsLength(p.chunks);
  }

  lemma HeadersKeepFaith(p: Pending, w: Wire, done: seq<Payload>)
    requires Faithful(p, w, done) && !p.headersSent
    ensures var (after, wire) := HeadersAccepted(p, w); Faithful(after, wire, done)
  {
    HeadSaysTheLength(p, w);
    HeldIsLength(p.chunks);
    assert Unsent(p) == Concat(p.chunks);
    assert Unsent(HeadersAccepted(p, w).0) == Unsent(p);
    assert [] + Unsent(p) == Unsent(p);
  }

  lemma UnsentShrinks(p: Pending, w: Wire, n: nat)
    requires p.chunks != [] && p.offset <= |p.chunks[0]|
    requires |p.chunks| > 1 ==> p.chunks[1] != []
    ensures Unsent(p) == p.chunks[0][p.offset..p.offset + Taken(p, n)] + Unsent(BodyAccepted(p, w, n).0)
  {
    var after := BodyAccepted(p, w, n).0;
    var taken := Taken(p, n);
    var rest := Concat(p.chunks[1..]);
    assert Unsent(p) == p.chunks[0][p.offset..] + rest;
    if Pops(p, n) {
      assert p.chunks[0][p.offset..p.offset + taken] == p.chunks[0][p.offset..];
      assert Unsent(after) == rest;
    } else {
      assert Unsent(after) == p.chunks[0][p.offset + taken..] + rest;
      assert p.chunks[0][p.offset..] == p.chunks[0][p.offset..p.offset + taken] + p.chunks[0][p.offset + taken..];
    }
  }

  lemma BodyKeepsFaith(p: Pending, w: Wire, done: seq<Payload>, n: nat)
    requires Faithful(p, w, done) && p.headersSent && !p.finSent && p.chunks != [] && n > 0
    ensures var (after, wire) := BodyAccepted(p, w, n);
            && Faithful(after, wire, done)
            && |Unsent(after)| < |Unsent(p)|
            && Held(after.chunks) + (if Pops(p, n) then |p.chunks[0]| else 0) == Held(p.chunks)
  {
    var (after, wire) := BodyAccepted(p, w, n);
    var front := p.chunks[0][p.offset..p.offset + Taken(p, n)];
    UnsentShrinks(p, w, n);
    assert (w.body + front) + Unsent(after) == w.body + (front + Unsent(after));
    assert |front| > 0;
  }

  lemma FinKeepsFaith(p: Pending, w: Wire, done: seq<Payload>)
    requires Faithful(p, w, done) && p.headersSent && OwesFin(p)
    ensures var (after, wire) := FinAccepted(p, w); Faithful(after, wire, done)
  {
  }
}
