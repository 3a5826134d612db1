/**
 The event loop's side of the shared channel: which connection and which queue
 each result goes to. One job to a stream, this is delivery as the response
 path has it; the guard against a second one stops its head and nothing after.
 */
module Results {
  import opened Wrappers
  import opened Delivery
  import Path = ResponsePath

  /** `owner` is the job whose budget the result carries. */
  datatype Result = Result(conn: nat, stream: nat, payload: Payload, owner: nat)

  datatype Entry = Entry(stream: nat, owner: nat, p: Pending)

  /** The responses each live connection is sending, and the budgets closed. */
  datatype Loop = Loop(clients: map<nat, seq<Entry>>, closed: set<nat>)

  function Find(pending: seq<Entry>, stream: nat): (at: Option<nat>)
    ensures match at
            case None => forall i :: 0 <= i < |pending| ==> pending[i].stream != stream
            case Some(i) =>
              && i < |pending| && pending[i].stream == stream
              && forall k :: 0 <= k < i ==> pending[k].stream != stream
  {
    if pending == [] then None
    else if pending[0].stream == stream then Some(0)
    else
      match Find(pending[1..], stream)
      case None => None
      case Some(i) => Some(i + 1)
  }

  predicate Begins(p: Payload) {
    p.FullResponse? || p.Head?
  }

  function Close(l: Loop, owner: nat): Loop {
    l.(closed := l.closed + {owner})
  }

  function Queue(l: Loop, conn: nat, pending: seq<Entry>): Loop {
    l.(clients := l.clients[conn := pending])
  }

  function Received(l: Loop, r: Result): Loop {
    if r.conn !in l.clients then Close(l, r.owner)
    else
      var pending := l.clients[r.conn];
      match Find(pending, r.stream)
      case None =>
        if Begins(r.payload) then Queue(l, r.conn, pending + [Entry(r.stream, r.owner, Opened(r.payload))])
        else if r.payload.Chunk? then Close(l, r.owner)
        else l
      case Some(at) =>
        if Begins(r.payload) then Close(l, r.owner)
        else Queue(l, r.conn, pending[at := pending[at].(p := Fed(pending[at].p, r.payload))])
  }

  /** A queue given a chunk, or told that no more will come. */
  function Fed(p: Pending, payload: Payload): Pending
    requires payload.Chunk? || payload.End?
  {
    if payload.Chunk? then p.(chunks := p.chunks + [payload.data]) else p.(complete := true)
  }

  function AllReceived(l: Loop, results: seq<Result>): Loop
    decreases |results|
  {
    if results == [] then l else AllReceived(Received(l, results[0]), results[1..])
  }

  /** A closed connection goes, and every response on it lets its worker go. */
  function Lost(l: Loop, conn: nat): Loop {
    if conn !in l.clients then l
    else
      var pending := l.clients[conn];
      Loop(l.clients - {conn}, l.closed + set i | 0 <= i < |pending| :: pending[i].owner)
  }

  class EventLoop {
    var clients: map<nat, seq<Entry>>
    var closed: set<nat>

    ghost function View(): Loop
      reads this
    {
      Loop(clients, closed)
    }

    method Attach(r: Result)
      modifies this
      ensures View() == Received(old(View()), r)
    {
      if r.conn !in clients {
        closed := closed + {r.owner};
        return;
      }
      var pending := clients[r.conn];
      var at := Find(pending, r.stream);
      if Begins(r.payload) && at.Some? {
        closed := closed + {r.owner};
        return;
      }
      match r.payload {
        case FullResponse(status, headers, body) =>
          pending := pending + [Entry(r.stream, r.owner, Pending(status, headers, false, [body], 0, true, false))];
          clients := clients[r.conn := pending];
        case Head(status, headers) =>
          pending := pending + [Entry(r.stream, r.owner, Pending(status, headers, false, [], 0, false, false))];
          clients := clients[r.conn := pending];
        case Chunk(data) =>
          if at.None? {
            closed := closed + {r.owner};
          } else {
            var e := pending[at.value];
            clients := clients[r.conn := pending[at.value := e.(p := e.p.(chunks := e.p.chunks + [data]))]];
          }
        case End =>
          if at.Some? {
            var e := pending[at.value];
            clients := clients[r.conn := pending[at.value := e.(p := e.p.(complete := true))]];
          }
      }
    }

    method DrainResults(results: seq<Result>)
      modifies this
      ensures View() == AllReceived(old(View()), results)
    {
      var i := 0;
      while i < |results|
        invariant 0 <= i <= |results|
        invariant AllReceived(old(View()), results) == AllReceived(View(), results[i..])
      {
        assert results[i..][1..] == results[i + 1..];
        Attach(results[i]);
        i := i + 1;
      }
    }
  }

  // ---- One stream, one response ----

  ghost predicate OnePerStream(l: Loop) {
    forall c, i, k :: c in l.clients && 0 <= i < k < |l.clients[c]| ==>
      l.clients[c][i].stream != l.clients[c][k].stream
  }

  function On(l: Loop, conn: nat, stream: nat): Option<Entry> {
    if conn !in l.clients then None
    else
      match Find(l.clients[conn], stream)
      case None => None
      case Some(at) => Some(l.clients[conn][at])
  }

  lemma FindIs(pending: seq<Entry>, stream: nat, i: nat)
    requires i < |pending| && pending[i].stream == stream
    requires forall k :: 0 <= k < i ==> pending[k].stream != stream
    ensures Find(pending, stream) == Some(i)
  {
  }

  /** However many jobs share a stream, it never has a second response; and a
      result touches no other stream, of its connection or of another. */
  lemma OneResponsePerStream(l: Loop, r: Result)
    requires OnePerStream(l)
    ensures OnePerStream(Received(l, r))
    ensures forall conn: nat, stream: nat :: (conn, stream) != (r.conn, r.stream) ==>
              On(Received(l, r), conn, stream) == On(l, conn, stream)
  {
    var after := Received(l, r);
    forall conn: nat, stream: nat | (conn, stream) != (r.conn, r.stream) ensures On(after, conn, stream) == On(l, conn, stream) {
      if conn == r.conn && conn in l.clients {
        var was, now := l.clients[conn], after.clients[conn];
        match Find(was, stream)
        case None =>
          assert forall i :: 0 <= i < |now| ==> now[i].stream != stream;
        case Some(at) =>
          assert now[at].stream == stream;
          FindIs(now, stream, at);
      }
    }
  }

  /** What the result does to its own stream. */
  lemma OwnStream(l: Loop, r: Result)
    ensures var was, now := On(l, r.conn, r.stream), On(Received(l, r), r.conn, r.stream);
            && now == (if r.conn !in l.clients then None
                       else if was.None? then
                         if Begins(r.payload) then Some(Entry(r.stream, r.owner, Opened(r.payload))) else None
                       else if Begins(r.payload) then was
                       else Some(was.value.(p := Fed(was.value.p, r.payload))))
            && Received(l, r).closed ==
               if r.conn !in l.clients || ((was.Some? <==> Begins(r.payload)) && !r.payload.End?)
               then l.closed + {r.owner} else l.closed
  {
    if r.conn in l.clients {
      var was := l.clients[r.conn];
      var now := Received(l, r).clients[r.conn];
      match Find(was, r.stream)
      case None =>
        if Begins(r.payload) {
          FindIs(now, r.stream, |was|);
        }
      case Some(at) =>
        FindIs(now, r.stream, at);
    }
  }

  // ---- With one job to a stream, this is the response path ----

  function QueueOn(l: Loop, conn: nat, stream: nat): Option<Pending> {
    match On(l, conn, stream)
    case None => None
    case Some(e) => Some(e.p)
  }

  /** Job `j` has stream `j` to itself. */
  ghost predicate Represents(l: Loop, s: Path.System) {
    && OnePerStream(l)
    && (forall c :: c in l.clients ==> c !in s.dead)
    && (forall j :: 0 <= j < |s.jobs| ==>
          && (s.jobs[j].conn in l.clients <==> s.jobs[j].conn !in s.dead)
          && s.jobs[j].pending == QueueOn(l, s.jobs[j].conn, j)
          && (s.jobs[j].budget.closed <==> j in l.closed))
    && (forall c, i :: c in l.clients && 0 <= i < |l.clients[c]| ==>
          var e := l.clients[c][i]; e.owner == e.stream && e.stream < |s.jobs| && s.jobs[e.stream].conn == c)
  }

  function ResultOf(s: Path.System, m: Path.Message): Result
    requires Path.IsJob(s, m.job)
  {
    Result(s.jobs[m.job].conn, m.job, m.payload, m.job)
  }

  /** What one result does to its own job. */
  lemma OwnJob(l: Loop, r: Result, job: Path.Job)
    requires r.conn == job.conn && job.pending == QueueOn(l, r.conn, r.stream)
    requires job.budget.closed <==> r.owner in l.closed
    ensures var after := Path.Receive(job, r.payload, r.conn !in l.clients);
            && after.conn == job.conn
            && (r.conn in l.clients ==> after.pending == QueueOn(Received(l, r), r.conn, r.stream))
            && (r.conn !in l.clients ==> after.pending == job.pending)
            && (after.budget.closed <==> r.owner in Received(l, r).closed)
  {
    OwnStream(l, r);
  }

  lemma OwnersStay(l: Loop, r: Result, c: nat, i: nat)
    requires c in Received(l, r).clients && i < |Received(l, r).clients[c]|
    ensures c in l.clients
    ensures var e := Received(l, r).clients[c][i];
            || (i < |l.clients[c]| && e.owner == l.clients[c][i].owner && e.stream == l.clients[c][i].stream)
            || (c == r.conn && e.owner == r.owner && e.stream == r.stream)
  {
  }

  lemma OnlyItsOwnerIsLetGo(l: Loop, r: Result, j: nat)
    requires j != r.owner
    ensures j in Received(l, r).closed <==> j in l.closed
  {
  }

  /** Attaching the next result is the response path's delivery step. */
  lemma AttachingIsDelivery(l: Loop, s: Path.System)
    requires Represents(l, s) && Path.Enabled(s, Path.Deliver)
    ensures Represents(Received(l, ResultOf(s, s.chan[0])), Path.Next(s, Path.Deliver))
  {
    var r := ResultOf(s, s.chan[0]);
    var after, t := Received(l, r), Path.Next(s, Path.Deliver);
    OneResponsePerStream(l, r);
    OwnJob(l, r, s.jobs[r.stream]);
    assert after.clients.Keys == l.clients.Keys;
    forall j: nat | j < |t.jobs|
      ensures t.jobs[j].conn == s.jobs[j].conn
      ensures t.jobs[j].pending == QueueOn(after, t.jobs[j].conn, j) && (t.jobs[j].budget.closed <==> j in after.closed)
    {
      if j != r.stream {
        assert t.jobs[j] == s.jobs[j];
        OnlyItsOwnerIsLetGo(l, r, j);
        assert On(after, s.jobs[j].conn, j) == On(l, s.jobs[j].conn, j);
      }
    }
    forall c, i | c in after.clients && 0 <= i < |after.clients[c]|
      ensures var e := after.clients[c][i]; e.owner == e.stream && e.stream < |t.jobs| && t.jobs[e.stream].conn == c
    {
      OwnersStay(l, r, c, i);
    }
  }

  /** A connection dying is the response path's step for that too. */
  lemma LosingIsDying(l: Loop, s: Path.System, conn: nat)
    requires Represents(l, s)
    ensures Represents(Lost(l, conn), Path.Next(s, Path.Die(conn)))
  {
    var after, t := Lost(l, conn), Path.Next(s, Path.Die(conn));
    forall j | 0 <= j < |t.jobs|
      ensures t.jobs[j].pending == QueueOn(after, t.jobs[j].conn, j) && (t.jobs[j].budget.closed <==> j in after.closed)
    {
      if s.jobs[j].conn == conn && conn in l.clients {
        var pending := l.clients[conn];
        if Find(pending, j).Some? {
          assert pending[Find(pending, j).value].owner == j;
        } else {
          assert forall i :: 0 <= i < |pending| ==> pending[i].owner != j;
        }
      } else if conn in l.clients {
        assert forall i :: 0 <= i < |l.clients[conn]| ==> l.clients[conn][i].owner != j;
      }
    }
  }

  function ResultsOf(s: Path.System, n: nat): seq<Result>
    requires n <= |s.chan| && forall i :: 0 <= i < |s.chan| ==> Path.IsJob(s, s.chan[i].job)
  {
    seq(n, i requires 0 <= i < n => ResultOf(s, s.chan[i]))
  }

  function Deliveries(n: nat): seq<Path.Step> {
    seq(n, i => Path.Deliver)
  }

  /** Draining what the channel holds is that many deliveries. */
  lemma {:induction false} DrainingIsDelivery(l: Loop, s: Path.System, n: nat)
    requires Represents(l, s) && n <= |s.chan|
    requires forall i :: 0 <= i < |s.chan| ==> Path.IsJob(s, s.chan[i].job)
    ensures Path.Runs(s, Deliveries(n))
    ensures Represents(AllReceived(l, ResultsOf(s, n)), Path.After(s, Deliveries(n)))
    decreases n
  {
    if n > 0 {
      var next := Path.Next(s, Path.Deliver);
      AttachingIsDelivery(l, s);
      DrainingIsDelivery(Received(l, ResultOf(s, s.chan[0])), next, n - 1);
      assert Deliveries(n)[1..] == Deliveries(n - 1);
      assert ResultsOf(s, n)[1..] == ResultsOf(next, n - 1) by {
        assert forall i :: 0 <= i < n - 1 ==> next.chan[i] == s.chan[i + 1];
        assert forall i :: 0 <= i < n - 1 ==> next.jobs[next.chan[i].job].conn == s.jobs[next.chan[i].job].conn;
      }
    }
  }

  // ---- With two, it is not ----

  /** A response changes under a result that is not its own job's exactly when
      the result is a chunk or an end and another job holds the stream. */
  lemma MixedExactlyWhen(l: Loop, r: Result)
    requires OnePerStream(l)
    ensures (exists conn: nat, stream: nat :: On(l, conn, stream).Some? && On(l, conn, stream).value.owner != r.owner
                                    && On(Received(l, r), conn, stream) != On(l, conn, stream))
            <==>
            (On(l, r.conn, r.stream).Some? && On(l, r.conn, r.stream).value.owner != r.owner
             && (r.payload.Chunk? || (r.payload.End? && !On(l, r.conn, r.stream).value.p.complete)))
  {
    OneResponsePerStream(l, r);
    OwnStream(l, r);
    var was, now := On(l, r.conn, r.stream), On(Received(l, r), r.conn, r.stream);
    if was.Some? && r.payload.Chunk? {
      assert |now.value.p.chunks| == |was.value.p.chunks| + 1;
    }
    if was.Some? && was.value.owner != r.owner && now != was {
      assert On(l, r.conn, r.stream).Some? && On(Received(l, r), r.conn, r.stream) != On(l, r.conn, r.stream);
    }
  }

  /** A second job's head is refused, but what it sent behind the head before
      it could know goes out as the end of the first job's response. */
  lemma SecondJobEndsTheFirst(l: Loop, conn: nat, stream: nat, second: nat, head: Payload, data: seq<byte>)
    requires OnePerStream(l) && head.Head?
    requires On(l, conn, stream).Some? && On(l, conn, stream).value.owner != second
    ensures var first := On(l, conn, stream).value;
            var results := [Result(conn, stream, head, second), Result(conn, stream, Chunk(data), second),
                            Result(conn, stream, End, second)];
            var after := AllReceived(l, results);
            && second in after.closed
            && On(after, conn, stream) ==
               Some(first.(p := first.p.(chunks := first.p.chunks + [data], complete := true)))
  {
    var r0, r1, r2 := Result(conn, stream, head, second), Result(conn, stream, Chunk(data), second),
                      Result(conn, stream, End, second);
    var l1 := Received(l, r0);
    var l2 := Received(l1, r1);
    OneResponsePerStream(l, r0);
    OwnStream(l, r0);
    OwnStream(l1, r1);
    OwnStream(l2, r2);
    ThreeReceived(l, r0, r1, r2);
  }

  lemma ThreeReceived(l: Loop, r0: Result, r1: Result, r2: Result)
    ensures AllReceived(l, [r0, r1, r2]) == Received(Received(Received(l, r0), r1), r2)
  {
    assert [r0, r1, r2][1..] == [r1, r2];
    assert [r1, r2][1..] == [r2];
    assert [r2][1..] == [];
    var l1 := Received(l, r0);
    var l2 := Received(l1, r1);
    assert AllReceived(l2, [r2]) == AllReceived(Received(l2, r2), []);
    assert AllReceived(l1, [r1, r2]) == AllReceived(l2, [r2]);
  }
}
