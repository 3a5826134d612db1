/**
 One pass over one response: send the head, then as much of the queue as the
 transport takes, then the end of the stream.
 */
module Pump {
  import opened Wrappers
  import opened Delivery
  import opened Headers
  import Budgets

  datatype Verdict = Done | NotYet | Failed

  /** The response, its wire, its budget, and the transport's answers to come. */
  datatype Scene = Scene(p: Pending, w: Wire, b: Budgets.State, answers: seq<Answer>)

  /** What the transport does next; one with nothing more to say is blocked. */
  function NextAnswer(answers: seq<Answer>): Answer {
    if answers == [] then Blocked else answers[0]
  }

  function Later(answers: seq<Answer>): seq<Answer> {
    if answers == [] then [] else answers[1..]
  }

  function PumpAll(s: Scene): (Scene, Verdict) {
    if s.p.headersSent then PumpBody(s)
    else
      var asked := s.(answers := Later(s.answers));
      match NextAnswer(s.answers)
      case Blocked => (asked, NotYet)
      case Fail => (asked, Failed)
      case Accept(_) =>
        var (p, w) := HeadersAccepted(s.p, s.w);
        if p.finSent then (asked.(p := p, w := w), Done) else PumpBody(asked.(p := p, w := w))
  }

  function PumpBody(s: Scene): (Scene, Verdict)
    decreases |s.answers|
  {
    if s.p.chunks == [] || s.p.offset > |s.p.chunks[0]| then PumpFin(s)
    else
      var asked := s.(answers := Later(s.answers));
      match NextAnswer(s.answers)
      case Blocked => PumpFin(asked)
      case Fail => (asked, Failed)
      case Accept(n) =>
        if Taken(s.p, n) == 0 then PumpFin(asked)
        else
          var (p, w) := BodyAccepted(s.p, s.w, n);
          var b := if Pops(s.p, n) then Budgets.Released(s.b, |s.p.chunks[0]|) else s.b;
          PumpBody(Scene(p, w, b, asked.answers))
  }

  function PumpFin(s: Scene): (Scene, Verdict) {
    if OwesFin(s.p) then
      var asked := s.(answers := Later(s.answers));
      match NextAnswer(s.answers)
      case Blocked => (asked, Judge(asked.p))
      case Fail => (asked, Failed)
      case Accept(_) =>
        var (p, w) := FinAccepted(s.p, s.w);
        (asked.(p := p, w := w), Judge(p))
    else (s, Judge(s.p))
  }

  function Judge(p: Pending): Verdict {
    if IsFinished(p) then Done else NotYet
  }

  /** A queue as the event loop keeps it, with something left to do. */
  ghost predicate Sendable(p: Pending) {
    QueueShape(p) && !IsFinished(p) && (p.chunks == [[]] ==> p.complete)
  }

  /** The transport's side of one stream: it takes what its answers say. */
  class Transport {
    var heads: seq<HeadFrame>
    var body: seq<byte>
    var fins: nat
    var answers: seq<Answer>

    ghost function View(): Wire
      reads this
    {
      Wire(heads, body, fins)
    }

    constructor (answers: seq<Answer>)
      ensures View() == SILENT && this.answers == answers
    {
      heads, body, fins := [], [], 0;
      this.answers := answers;
    }

    method Ask() returns (r: Answer)
      modifies this`answers
      ensures r == NextAnswer(old(answers)) && answers == Later(old(answers))
    {
      r := NextAnswer(answers);
      answers := Later(answers);
    }

    method SendResponse(head: HeadFrame, fin: bool) returns (r: Answer)
      modifies this
      ensures r == NextAnswer(old(answers)) && answers == Later(old(answers))
      ensures View() == if r.Accept?
                        then Wire(old(heads) + [head], old(body), old(fins) + if fin then 1 else 0)
                        else old(View())
    {
      r := Ask();
      if r.Accept? {
        heads := heads + [head];
        fins := fins + if fin then 1 else 0;
      }
    }

    /** Takes a prefix of `data`; the end of the stream goes with the whole. */
    method SendBody(data: seq<byte>, fin: bool) returns (r: Answer)
      modifies this
      ensures answers == Later(old(answers))
      ensures match NextAnswer(old(answers))
              case Accept(n) =>
                var taken := if n < |data| then n else |data|;
                && r == Accept(taken)
                && View() == Wire(old(heads), old(body) + data[..taken],
                                  old(fins) + if fin && taken == |data| then 1 else 0)
              case other => r == other && View() == old(View())
    {
      r := Ask();
      if r.Accept? {
        var taken := if r.n < |data| then r.n else |data|;
        body := body + data[..taken];
        fins := fins + if fin && taken == |data| then 1 else 0;
        r := Accept(taken);
      }
    }
  }

  /** A response being written out on one stream. */
  class Response {
    const status: nat
    const headers: seq<Header>
    var headersSent: bool
    var chunks: seq<seq<byte>>
    var offset: nat
    var complete: bool
    var finSent: bool
    const budget: Budgets.Budget

    ghost function View(): Pending
      reads this
    {
      Pending(status, headers, headersSent, chunks, offset, complete, finSent)
    }

    ghost function SceneOn(q: Transport): Scene
      reads this, budget, q
    {
      Scene(View(), q.View(), budget.View(), q.answers)
    }

    constructor (p: Payload, budget: Budgets.Budget)
      requires p.FullResponse? || p.Head?
      ensures View() == Opened(p) && this.budget == budget
    {
      status, headers := p.status, p.headers;
      headersSent, offset, finSent := false, 0, false;
      chunks := if p.FullResponse? then [p.body] else [];
      complete := p.FullResponse?;
      this.budget := budget;
    }

    method SendHeaders(q: Transport) returns (r: Answer)
      requires !headersSent
      modifies this`headersSent, this`finSent, q
      ensures r == NextAnswer(old(q.answers)) && q.answers == Later(old(q.answers))
      ensures (View(), q.View()) ==
              if r.Accept? then HeadersAccepted(old(View()), old(q.View())) else (old(View()), old(q.View()))
    {
      var framed := Framed(Pending(status, headers, headersSent, chunks, offset, complete, finSent));
      var length := Held(chunks);
      var fin := complete && length == 0;
      r := q.SendResponse(HeadFrame(status, if framed then Some(length) else None, headers), fin);
      if r.Accept? {
        headersSent := true;
        finSent := fin;
      }
    }

    /** One offer of the front chunk. */
    method SendFront(q: Transport) returns (r: Answer)
      requires chunks != [] && offset < |chunks[0]|
      modifies this`chunks, this`offset, this`finSent, q, budget
      ensures q.answers == Later(old(q.answers))
      ensures match NextAnswer(old(q.answers))
              case Accept(n) =>
                if Taken(old(View()), n) == 0
                then r == Accept(0) && View() == old(View()) && q.View() == old(q.View())
                  && budget.View() == old(budget.View())
                else
                  && r == Accept(Taken(old(View()), n))
                  && (View(), q.View()) == BodyAccepted(old(View()), old(q.View()), n)
                  && budget.View() == (if Pops(old(View()), n)
                                       then Budgets.Released(old(budget.View()), |old(chunks)[0]|)
                                       else old(budget.View()))
              case other =>
                r == other && View() == old(View()) && q.View() == old(q.View()) && budget.View() == old(budget.View())
    {
      var chunk := chunks[0];
      var last := complete && |chunks| == 1;
      r := q.SendBody(chunk[offset..], last);
      if r.Accept? {
        assert chunk[offset..][..r.n] == chunk[offset..offset + r.n];
        if r.n > 0 {
          offset := offset + r.n;
          if offset >= |chunk| {
            chunks := chunks[1..];
            budget.ReleaseRoom(|chunk|);
            offset := 0;
            finSent := last;
          }
        } else {
          assert q.body == old(q.body);
        }
      }
    }

    method SendFin(q: Transport) returns (r: Verdict)
      modifies this`finSent, q
      ensures (SceneOn(q), r) == PumpFin(old(SceneOn(q)))
    {
      if complete && chunks == [] && !finSent {
        var answer := q.SendBody([], true);
        assert old(q.body) + [] == old(q.body);
        match answer {
          case Accept(_) => finSent := true;
          case Blocked =>
          case Fail => return Failed;
        }
      }
      return if headersSent && finSent then Done else NotYet;
    }

    /** Done once the whole response has been handed to the transport. */
    method SendPending(q: Transport) returns (r: Verdict)
      requires Sendable(View())
      modifies this, q, budget
      ensures (SceneOn(q), r) == PumpAll(old(SceneOn(q)))
    {
      if !headersSent {
        var answer := SendHeaders(q);
        match answer {
          case Blocked => return NotYet;
          case Fail => return Failed;
          case Accept(_) =>
        }
        if finSent {
          return Done;
        }
        assert Held([[]]) == 0;
      }
      ghost var start := SceneOn(q);
      while chunks != []
        invariant PumpBody(start) == PumpBody(SceneOn(q))
        invariant chunks != [] ==> offset < |chunks[0]|
        invariant forall i :: 0 < i < |chunks| ==> chunks[i] != []
        decreases |q.answers|
      {
        var answer := SendFront(q);
        if answer == Fail {
          return Failed;
        }
        if answer == Blocked || answer.n == 0 {
          break;
        }
      }
      r := SendFin(q);
    }
  }

  // ---- What one pass keeps and what it gets done ----

  /** The books of a pass: faith with the plan, nothing unsent, and room given
      back for exactly the pieces that left the queue. */
  ghost predicate PassKeeps(s: Scene, t: Scene, v: Verdict, done: seq<Payload>) {
    && Faithful(t.p, t.w, done)
    && (v == Done ==> IsFinished(t.p))
    && (v == NotYet ==> !IsFinished(t.p))
    && s.w.body <= t.w.body
    && Held(t.p.chunks) <= Held(s.p.chunks)
    && t.b.closed == s.b.closed
    && (s.b.outstanding >= Held(s.p.chunks) ==>
          t.b.outstanding - Held(t.p.chunks) == s.b.outstanding - Held(s.p.chunks))
  }

  /** The scene after the front chunk was offered and `n` bytes were taken. */
  function Offered(s: Scene, n: nat): Scene
    requires s.p.chunks != [] && s.p.offset <= |s.p.chunks[0]|
  {
    var (p, w) := BodyAccepted(s.p, s.w, n);
    Scene(p, w, if Pops(s.p, n) then Budgets.Released(s.b, |s.p.chunks[0]|) else s.b, Later(s.answers))
  }

  lemma OfferKeepsFaith(s: Scene, done: seq<Payload>, n: nat)
    requires Faithful(s.p, s.w, done) && s.p.headersSent && !s.p.finSent && s.p.chunks != [] && n > 0
    ensures Faithful(Offered(s, n).p, Offered(s, n).w, done)
    ensures Offered(s, n).p.headersSent && Taken(s.p, n) > 0
    ensures s.w.body <= Offered(s, n).w.body
    ensures Offered(s, n).b.closed == s.b.closed
    ensures Held(Offered(s, n).p.chunks) <= Held(s.p.chunks)
    ensures s.b.outstanding >= Held(s.p.chunks) ==>
              && Offered(s, n).b.outstanding >= Held(Offered(s, n).p.chunks)
              && Offered(s, n).b.outstanding - Held(Offered(s, n).p.chunks) == s.b.outstanding - Held(s.p.chunks)
  {
    BodyKeepsFaith(s.p, s.w, done, n);
  }

  lemma {:induction false} BodyPassKeepsFaith(s: Scene, done: seq<Payload>)
    requires Faithful(s.p, s.w, done) && s.p.headersSent && !s.p.finSent
    ensures var (t, v) := PumpBody(s); PassKeeps(s, t, v, done)
    decreases |s.answers|, 1
  {
    var asked := s.(answers := Later(s.answers));
    if s.p.chunks == [] {
      FinPassKeepsFaith(s, done);
    } else {
      match NextAnswer(s.answers)
      case Blocked => FinPassKeepsFaith(asked, done);
      case Fail =>
      case Accept(n) =>
        if n == 0 {
          FinPassKeepsFaith(asked, done);
        } else {
          OfferKeepsFaith(s, done, n);
          OfferedPassKeepsFaith(s, done, n);
        }
    }
  }

  lemma {:induction false} OfferedPassKeepsFaith(s: Scene, done: seq<Payload>, n: nat)
    requires s.answers != [] && s.answers[0] == Accept(n) && n > 0
    requires s.p.chunks != [] && s.p.offset <= |s.p.chunks[0]| && Taken(s.p, n) > 0
    requires Faithful(Offered(s, n).p, Offered(s, n).w, done) && Offered(s, n).p.headersSent
    ensures PumpBody(s) == PumpBody(Offered(s, n))
    ensures var (t, v) := PumpBody(s); PassKeeps(Offered(s, n), t, v, done)
    decreases |s.answers|, 0
  {
    var next := Offered(s, n);
    if next.p.finSent {
      assert PumpBody(next) == (next, Done);
    } else {
      BodyPassKeepsFaith(next, done);
    }
  }

  lemma FinPassKeepsFaith(s: Scene, done: seq<Payload>)
    requires Faithful(s.p, s.w, done) && s.p.headersSent && !s.p.finSent
    ensures var (t, v) := PumpFin(s); PassKeeps(s, t, v, done)
  {
    var (t, v) := PumpFin(s);
    if OwesFin(s.p) && NextAnswer(s.answers).Accept? {
      FinKeepsFaith(s.p, s.w, done);
      assert t.p == FinAccepted(s.p, s.w).0 && t.w == FinAccepted(s.p, s.w).1;
    } else {
      assert t.p == s.p && t.w == s.w;
    }
  }

  /** However the transport answers, one pass keeps faith with the plan. */
  lemma PassKeepsFaith(s: Scene, done: seq<Payload>)
    requires Faithful(s.p, s.w, done) && !IsFinished(s.p)
    ensures var (t, v) := PumpAll(s); PassKeeps(s, t, v, done)
  {
    if s.p.headersSent {
      BodyPassKeepsFaith(s, done);
    } else if NextAnswer(s.answers).Accept? {
      HeadersKeepFaith(s.p, s.w, done);
      var (p, w) := HeadersAccepted(s.p, s.w);
      if !p.finSent {
        BodyPassKeepsFaith(Scene(p, w, s.b, Later(s.answers)), done);
      }
    }
  }

  /** What is left to do: the head, the bytes, the end. */
  function Remaining(p: Pending): nat {
    (if p.headersSent then 0 else 1) + |Unsent(p)| + (if p.finSent then 0 else 1)
  }

  predicate AllAccepted(answers: seq<Answer>) {
    forall i :: 0 <= i < |answers| ==> answers[i].Accept? && answers[i].n > 0
  }

  lemma {:induction false} BodyPassCompletes(s: Scene, done: seq<Payload>)
    requires Faithful(s.p, s.w, done) && s.p.headersSent && !s.p.finSent && s.p.complete
    requires AllAccepted(s.answers) && |s.answers| >= Remaining(s.p)
    ensures PumpBody(s).1 == Done
    decreases |s.answers|
  {
    if s.p.chunks != [] {
      var n := s.answers[0].n;
      BodyKeepsFaith(s.p, s.w, done, n);
      var (p, w) := BodyAccepted(s.p, s.w, n);
      var b := if Pops(s.p, n) then Budgets.Released(s.b, |s.p.chunks[0]|) else s.b;
      var next := Scene(p, w, b, s.answers[1..]);
      if p.finSent {
        assert PumpBody(next) == (next, Done);
      } else {
        BodyPassCompletes(next, done);
      }
    }
  }

  /** A response whose end has come is finished by any transport that takes
      something at each of as many calls as there are things left to send, and
      the client then has the whole of it. */
  lemma PassCompletes(s: Scene, done: seq<Payload>)
    requires Faithful(s.p, s.w, done) && !IsFinished(s.p) && s.p.complete
    requires AllAccepted(s.answers) && |s.answers| >= Remaining(s.p)
    ensures var (t, v) := PumpAll(s);
            v == Done && t.w.body == Bytes(done) && t.w.fins == 1 && |t.w.heads| == 1
  {
    if s.p.headersSent {
      BodyPassCompletes(s, done);
    } else {
      HeadersKeepFaith(s.p, s.w, done);
      var (p, w) := HeadersAccepted(s.p, s.w);
      if !p.finSent {
        assert Unsent(p) == Unsent(s.p);
        BodyPassCompletes(Scene(p, w, s.b, s.answers[1..]), done);
      }
    }
    PassKeepsFaith(s, done);
    var t := PumpAll(s).0;
    assert t.w.body + [] == t.w.body;
  }
}
