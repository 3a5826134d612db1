/**
 Every response of the proxy at once: workers claiming room and handing pieces
 to one shared channel, the event loop queueing them per stream and writing
 them out, connections dying, the clock running. One job is dispatched per
 stream, so a job's index stands for its stream.
 */
module ResponsePath {
  import opened Wrappers
  import opened Delivery
  import opened Budgets
  import Pump

  /** `seenReleases` counts without wrapping what `seen` counts modulo 2^64. */
  datatype Worker =
    | Running
    | Holding
    | Parked(seen: nat, seenReleases: nat, since: nat, notified: bool)
    | Stopped

  /** One request: what its worker will send, how much it has handed over, its
      budget, and the response the event loop is writing out for it. */
  datatype Job = Job(
    conn: nat,
    plan: seq<Payload>,
    limit: nat,
    handed: nat,
    worker: Worker,
    budget: State,
    releases: nat,
    lastRelease: nat,
    pending: Option<Pending>,
    wire: Wire)

  datatype Message = Message(job: nat, payload: Payload)

  datatype System = System(jobs: seq<Job>, chan: seq<Message>, dead: set<nat>, now: nat, stalled: nat)

  datatype Step =
    | Claim(job: nat)
    | Hand(job: nat)
    | Wake(job: nat, timedOut: bool)
    | Deliver
    | WriteHead(job: nat, answer: Answer)
    | WriteBody(job: nat, answer: Answer)
    | WriteFin(job: nat, answer: Answer)
    | Retire(job: nat)
    | Die(conn: nat)
    | Tick(ticks: nat)

  // ---- The worker's side ----

  function Notified(w: Worker): Worker {
    if w.Parked? then w.(notified := true) else w
  }

  function GiveBack(job: Job, bytes: nat, now: nat): Job {
    job.(budget := Released(job.budget, bytes),
         releases := job.releases + 1,
         lastRelease := now,
         worker := Notified(job.worker))
  }

  function CloseRoom(job: Job): Job {
    job.(budget := Closed(job.budget), worker := Notified(job.worker))
  }

  /** However a queued response ends, the worker behind it is let go. */
  function Drop(job: Job): Job {
    CloseRoom(job.(pending := None))
  }

  /** The head of the claim loop: give up, sleep, or take the room. */
  function Check(job: Job, seen: nat, seenReleases: nat, now: nat): Job
    requires job.handed < |job.plan|
  {
    var size := Size(job.plan[job.handed]);
    if job.budget.closed then job.(worker := Stopped)
    else if Full(job.budget, size, job.limit) then job.(worker := Parked(seen, seenReleases, now, false))
    else job.(worker := Holding, budget := job.budget.(outstanding := job.budget.outstanding + size))
  }

  function Claimed(job: Job, now: nat): Job
    requires job.handed < |job.plan|
  {
    if Size(job.plan[job.handed]) == 0 then job.(worker := Holding)
    else Check(job, job.budget.progress, job.releases, now)
  }

  function Woken(job: Job, timedOut: bool, now: nat): Job
    requires job.handed < |job.plan| && job.worker.Parked?
  {
    if job.budget.progress != job.worker.seen then Check(job, job.budget.progress, job.releases, now)
    else if timedOut then job.(budget := Closed(job.budget), worker := Stopped)
    else Check(job, job.worker.seen, job.worker.seenReleases, now)
  }

  function Handed(job: Job): Job {
    job.(handed := job.handed + 1, worker := Running)
  }

  // ---- The event loop's side ----

  function Receive(job: Job, p: Payload, gone: bool): Job {
    if gone then CloseRoom(job)
    else match p
      case FullResponse(_, _, _) => if job.pending.Some? then CloseRoom(job) else job.(pending := Some(Opened(p)))
      case Head(_, _) => if job.pending.Some? then CloseRoom(job) else job.(pending := Some(Opened(p)))
      case Chunk(data) =>
        if job.pending.None? then CloseRoom(job)
        else job.(pending := Some(job.pending.value.(chunks := job.pending.value.chunks + [data])))
      case End =>
        if job.pending.None? then job else job.(pending := Some(job.pending.value.(complete := true)))
  }

  function HeadWritten(job: Job, a: Answer): Job
    requires job.pending.Some?
  {
    match a
    case Blocked => job
    case Fail => Drop(job)
    case Accept(_) => var (p, w) := HeadersAccepted(job.pending.value, job.wire); job.(pending := Some(p), wire := w)
  }

  function BodyWritten(job: Job, a: Answer, now: nat): Job
    requires job.pending.Some? && job.pending.value.chunks != []
    requires job.pending.value.offset <= |job.pending.value.chunks[0]|
  {
    var p := job.pending.value;
    match a
    case Blocked => job
    case Fail => Drop(job)
    case Accept(n) =>
      if Taken(p, n) == 0 then job
      else
        var (after, w) := BodyAccepted(p, job.wire, n);
        var written := job.(pending := Some(after), wire := w);
        if Pops(p, n) then GiveBack(written, |p.chunks[0]|, now) else written
  }

  function FinWritten(job: Job, a: Answer): Job
    requires job.pending.Some?
  {
    match a
    case Blocked => job
    case Fail => Drop(job)
    case Accept(_) => var (p, w) := FinAccepted(job.pending.value, job.wire); job.(pending := Some(p), wire := w)
  }

  function Orphaned(job: Job, conn: nat): Job {
    if job.conn == conn && job.pending.Some? then Drop(job) else job
  }

  // ---- Steps ----

  predicate IsJob(s: System, j: nat) {
    j < |s.jobs|
  }

  predicate Writing(s: System, j: nat) {
    IsJob(s, j) && s.jobs[j].pending.Some? && !IsFinished(s.jobs[j].pending.value)
  }

  predicate Enabled(s: System, step: Step) {
    match step
    case Claim(j) => IsJob(s, j) && s.jobs[j].worker.Running? && s.jobs[j].handed < |s.jobs[j].plan|
    case Hand(j) => IsJob(s, j) && s.jobs[j].worker.Holding? && s.jobs[j].handed < |s.jobs[j].plan|
    case Wake(j, timedOut) =>
      && IsJob(s, j) && s.jobs[j].worker.Parked? && s.jobs[j].handed < |s.jobs[j].plan|
      && (timedOut ==> s.now >= s.jobs[j].worker.since + s.stalled)
    case Deliver => s.chan != [] && IsJob(s, s.chan[0].job)
    case WriteHead(j, _) => Writing(s, j) && !s.jobs[j].pending.value.headersSent
    case WriteBody(j, _) =>
      && Writing(s, j) && s.jobs[j].pending.value.headersSent && s.jobs[j].pending.value.chunks != []
      && s.jobs[j].pending.value.offset <= |s.jobs[j].pending.value.chunks[0]|
    case WriteFin(j, _) => Writing(s, j) && s.jobs[j].pending.value.headersSent && OwesFin(s.jobs[j].pending.value)
    case Retire(j) => IsJob(s, j) && s.jobs[j].pending.Some? && IsFinished(s.jobs[j].pending.value)
    case Die(_) => true
    case Tick(_) => true
  }

  function With(s: System, j: nat, job: Job): System
    requires IsJob(s, j)
  {
    s.(jobs := s.jobs[j := job])
  }

  function Next(s: System, step: Step): System
    requires Enabled(s, step)
  {
    match step
    case Claim(j) => With(s, j, Claimed(s.jobs[j], s.now))
    case Hand(j) =>
      var job := s.jobs[j];
      With(s, j, Handed(job))
        .(chan := s.chan + [Message(j, job.plan[job.handed])])
    case Wake(j, timedOut) => With(s, j, Woken(s.jobs[j], timedOut, s.now))
    case Deliver =>
      var m := s.chan[0];
      With(s, m.job, Receive(s.jobs[m.job], m.payload, s.jobs[m.job].conn in s.dead)).(chan := s.chan[1..])
    case WriteHead(j, a) => With(s, j, HeadWritten(s.jobs[j], a))
    case WriteBody(j, a) => With(s, j, BodyWritten(s.jobs[j], a, s.now))
    case WriteFin(j, a) => With(s, j, FinWritten(s.jobs[j], a))
    case Retire(j) => With(s, j, Drop(s.jobs[j]))
    case Die(conn) =>
      s.(dead := s.dead + {conn},
         jobs := seq(|s.jobs|, j requires 0 <= j < |s.jobs| => Orphaned(s.jobs[j], conn)))
    case Tick(ticks) => s.(now := s.now + ticks)
  }

  predicate Runs(s: System, steps: seq<Step>)
    decreases |steps|
  {
    steps == [] || (Enabled(s, steps[0]) && Runs(Next(s, steps[0]), steps[1..]))
  }

  function After(s: System, steps: seq<Step>): System
    requires Runs(s, steps)
    decreases |steps|
  {
    if steps == [] then s else After(Next(s, steps[0]), steps[1..])
  }

  predicate Fresh(job: Job) {
    && ValidPlan(job.plan) && job.handed == 0 && job.worker == Running
    && job.budget == State(0, 0, false) && job.releases == 0 && job.lastRelease == 0
    && job.pending == None && job.wire == SILENT
  }

  predicate Init(s: System) {
    s.chan == [] && forall j :: 0 <= j < |s.jobs| ==> Fresh(s.jobs[j])
  }

  // ---- The invariant, one job at a time ----

  /** What the channel still carries for one job, oldest first. */
  function QueueOf(chan: seq<Message>, j: nat): seq<Payload> {
    if chan == [] then []
    else if chan[0].job == j then [chan[0].payload] + QueueOf(chan[1..], j)
    else QueueOf(chan[1..], j)
  }

  /** The non-empty pieces among some payloads. */
  function Pieces(payloads: seq<Payload>): seq<seq<byte>> {
    if payloads == [] then []
    else if BytesOf(payloads[0]) == [] then Pieces(payloads[1..])
    else [BytesOf(payloads[0])] + Pieces(payloads[1..])
  }

  function PendingPieces(pending: Option<Pending>): seq<seq<byte>> {
    if pending.None? || pending.value.chunks == [[]] then [] else pending.value.chunks
  }

  function InHand(job: Job): seq<seq<byte>> {
    if job.worker.Holding? && job.handed < |job.plan| then Pieces([job.plan[job.handed]]) else []
  }

  /** Every piece claimed and not yet gone: queued, in the channel, in hand. */
  function Line(job: Job, q: seq<Payload>): seq<seq<byte>> {
    PendingPieces(job.pending) + Pieces(q) + InHand(job)
  }

  /** How many of the job's payloads the event loop has taken. */
  function Drained(job: Job, q: seq<Payload>): int {
    job.handed - |q|
  }

  ghost predicate InOrder(job: Job, q: seq<Payload>) {
    && ValidPlan(job.plan)
    && |q| <= job.handed <= |job.plan|
    && q == job.plan[Drained(job, q)..job.handed]
    && (job.worker.Holding? || job.worker.Parked? ==> job.handed < |job.plan|)
  }

  ghost predicate Staged(job: Job, q: seq<Payload>, dead: set<nat>)
    requires InOrder(job, q)
  {
    var d := Drained(job, q);
    if job.pending.Some? then
      d > 0 && job.conn !in dead && Faithful(job.pending.value, job.wire, job.plan[..d])
    else if d == 0 then job.wire == SILENT
    else job.budget.closed && Honest(job.wire, job.plan)
  }

  ghost predicate Balanced(job: Job, q: seq<Payload>) {
    && job.budget.progress == job.releases % U64
    && (!job.budget.closed ==>
          && job.budget.outstanding == Held(Line(job, q))
          && (job.budget.outstanding > job.limit ==> |Line(job, q)| == 1))
  }

  ghost predicate ParkedRightly(job: Job, now: nat)
    requires job.worker.Parked? && job.handed < |job.plan|
  {
    var w := job.worker;
    && job.handed > 0 && Size(job.plan[job.handed]) > 0
    && w.seen == w.seenReleases % U64 && w.seenReleases <= job.releases
    && w.since <= now
    && (job.releases == w.seenReleases ==> job.lastRelease <= w.since)
    && (!w.notified ==> !job.budget.closed && Full(job.budget, Size(job.plan[job.handed]), job.limit))
  }

  ghost predicate JobInv(job: Job, q: seq<Payload>, dead: set<nat>, now: nat) {
    && InOrder(job, q)
    && Staged(job, q, dead)
    && Balanced(job, q)
    && job.lastRelease <= now
    && (job.worker.Parked? ==> ParkedRightly(job, now))
  }

  ghost predicate Inv(s: System) {
    && (forall i :: 0 <= i < |s.chan| ==> IsJob(s, s.chan[i].job))
    && (forall j :: 0 <= j < |s.jobs| ==> JobInv(s.jobs[j], QueueOf(s.chan, j), s.dead, s.now))
  }

  // ---- Pieces and queues ----

  lemma {:induction false} QueueAppend(chan: seq<Message>, m: Message, j: nat)
    ensures QueueOf(chan + [m], j) == QueueOf(chan, j) + if m.job == j then [m.payload] else []
  {
    if chan == [] {
      assert (chan + [m])[1..] == [];
    } else {
      assert (chan + [m])[1..] == chan[1..] + [m];
      QueueAppend(chan[1..], m, j);
    }
  }

  lemma {:induction false} PiecesAppend(payloads: seq<Payload>, p: Payload)
    ensures Pieces(payloads + [p]) == Pieces(payloads) + Pieces([p])
  {
    if payloads == [] {
      assert payloads + [p] == [p];
    } else {
      assert (payloads + [p])[1..] == payloads[1..] + [p];
      PiecesAppend(payloads[1..], p);
    }
  }

  lemma {:induction false} PiecesNonEmpty(payloads: seq<Payload>)
    ensures forall i :: 0 <= i < |Pieces(payloads)| ==> Pieces(payloads)[i] != []
  {
    if payloads != [] {
      PiecesNonEmpty(payloads[1..]);
    }
  }

  lemma OnePiece(p: Payload)
    ensures Pieces([p]) == if Size(p) == 0 then [] else [BytesOf(p)]
    ensures Held(Pieces([p])) == Size(p)
  {
    assert [p][1..] == [];
    assert [BytesOf(p)][1..] == [];
  }

  lemma {:induction false} HeldConcat(a: seq<seq<byte>>, b: seq<seq<byte>>)
    ensures Held(a + b) == Held(a) + Held(b)
  {
    if a == [] {
      assert a + b == b;
    } else {
      assert (a + b)[1..] == a[1..] + b;
      HeldConcat(a[1..], b);
    }
  }

  /** Non-empty pieces weigh something. */
  lemma {:induction false} HeldCounts(pieces: seq<seq<byte>>)
    requires forall i :: 0 <= i < |pieces| ==> pieces[i] != []
    ensures Held(pieces) >= |pieces|
  {
    if pieces != [] {
      HeldCounts(pieces[1..]);
    }
  }

  lemma LineNonEmpty(job: Job, q: seq<Payload>)
    requires job.pending.Some? ==> QueueShape(job.pending.value)
    ensures Held(Line(job, q)) >= |Line(job, q)|
  {
    PiecesNonEmpty(q);
    if job.handed < |job.plan| {
      OnePiece(job.plan[job.handed]);
    }
    HeldCounts(Line(job, q));
  }

  // ---- Each kind of step keeps one job's invariant ----

  lemma CloseKeeps(job: Job, q: seq<Payload>, dead: set<nat>, now: nat)
    requires JobInv(job, q, dead, now)
    ensures JobInv(CloseRoom(job), q, dead, now)
  {
  }

  lemma DropKeeps(job: Job, q: seq<Payload>, dead: set<nat>, more: set<nat>, now: nat)
    requires JobInv(job, q, dead, now) && job.pending.Some?
    ensures JobInv(Drop(job), q, more, now)
  {
    FaithfulIsHonest(job.pending.value, job.wire, job.plan, Drained(job, q));
  }

  lemma SameLineBalances(job: Job, q: seq<Payload>, after: Job, r: seq<Payload>)
    requires Balanced(job, q) && Line(after, r) == Line(job, q)
    requires after.budget == job.budget && after.limit == job.limit && after.releases == job.releases
    ensures Balanced(after, r)
  {
  }

  lemma TakenInHand(job: Job, q: seq<Payload>)
    requires job.handed < |job.plan| && Size(job.plan[job.handed]) > 0 && !job.worker.Holding?
    ensures var after := job.(worker := Holding);
            && Line(after, q) == Line(job, q) + [BytesOf(job.plan[job.handed])]
            && Held(Line(after, q)) == Held(Line(job, q)) + Size(job.plan[job.handed])
  {
    var p := job.plan[job.handed];
    OnePiece(p);
    assert Line(job.(worker := Holding), q) == Line(job, q) + [BytesOf(p)];
    HeldConcat(Line(job, q), [BytesOf(p)]);
  }

  lemma GrantKeeps(job: Job, q: seq<Payload>, size: nat)
    requires Balanced(job, q) && !job.budget.closed && job.handed < |job.plan| && !job.worker.Holding?
    requires size == Size(job.plan[job.handed]) && size > 0 && !Full(job.budget, size, job.limit)
    requires Held(Line(job, q)) >= |Line(job, q)|
    ensures Balanced(job.(worker := Holding, budget := job.budget.(outstanding := job.budget.outstanding + size)), q)
  {
    TakenInHand(job, q);
    var granted := job.budget.(outstanding := job.budget.outstanding + size);
    assert Line(job.(worker := Holding, budget := granted), q) == Line(job.(worker := Holding), q);
  }

  /** What a worker does never reaches what is queued or written. */
  lemma WorkerKeepsStage(job: Job, q: seq<Payload>, dead: set<nat>, after: Job)
    requires InOrder(job, q) && Staged(job, q, dead)
    requires after == job.(worker := after.worker, budget := after.budget)
    requires job.budget.closed ==> after.budget.closed
    requires after.worker.Holding? || after.worker.Parked? ==> job.handed < |job.plan|
    ensures InOrder(after, q) && Staged(after, q, dead)
  {
  }

  /** A worker that stops or goes to sleep changes nothing else. */
  lemma RestKeeps(job: Job, q: seq<Payload>, dead: set<nat>, now: nat, w: Worker)
    requires JobInv(job, q, dead, now) && !job.worker.Holding? && !w.Holding?
    requires w.Parked? ==> job.handed < |job.plan| && ParkedRightly(job.(worker := w), now)
    ensures JobInv(job.(worker := w), q, dead, now)
  {
    var after := job.(worker := w);
    WorkerKeepsStage(job, q, dead, after);
    assert InHand(after) == InHand(job) == [];
    SameLineBalances(job, q, after, q);
  }

  lemma TakeKeeps(job: Job, q: seq<Payload>, dead: set<nat>, now: nat, size: nat)
    requires JobInv(job, q, dead, now) && !job.budget.closed && job.handed < |job.plan| && !job.worker.Holding?
    requires size == Size(job.plan[job.handed]) && size > 0 && !Full(job.budget, size, job.limit)
    ensures JobInv(job.(worker := Holding, budget := job.budget.(outstanding := job.budget.outstanding + size)),
                   q, dead, now)
  {
    var after := job.(worker := Holding, budget := job.budget.(outstanding := job.budget.outstanding + size));
    WorkerKeepsStage(job, q, dead, after);
    LineNonEmpty(job, q);
    GrantKeeps(job, q, size);
  }

  lemma CheckKeeps(job: Job, q: seq<Payload>, dead: set<nat>, now: nat, seen: nat, seenReleases: nat)
    requires JobInv(job, q, dead, now) && job.handed < |job.plan| && Size(job.plan[job.handed]) > 0
    requires !job.worker.Holding?
    requires seen == seenReleases % U64 && seenReleases <= job.releases
    ensures JobInv(Check(job, seen, seenReleases, now), q, dead, now)
  {
    var size := Size(job.plan[job.handed]);
    if job.budget.closed {
      RestKeeps(job, q, dead, now, Stopped);
    } else if Full(job.budget, size, job.limit) {
      assert job.handed > 0;
      RestKeeps(job, q, dead, now, Parked(seen, seenReleases, now, false));
    } else {
      TakeKeeps(job, q, dead, now, size);
    }
  }

  lemma HoldKeeps(job: Job, q: seq<Payload>, dead: set<nat>, now: nat)
    requires JobInv(job, q, dead, now) && job.worker.Running? && job.handed < |job.plan|
    requires Size(job.plan[job.handed]) == 0
    ensures JobInv(job.(worker := Holding), q, dead, now)
  {
    var after := job.(worker := Holding);
    WorkerKeepsStage(job, q, dead, after);
    OnePiece(job.plan[job.handed]);
    assert InHand(after) == InHand(job) == [];
    SameLineBalances(job, q, after, q);
  }

  lemma ClaimKeeps(job: Job, q: seq<Payload>, dead: set<nat>, now: nat)
    requires JobInv(job, q, dead, now) && job.worker.Running? && job.handed < |job.plan|
    ensures JobInv(Claimed(job, now), q, dead, now)
  {
    if Size(job.plan[job.handed]) == 0 {
      HoldKeeps(job, q, dead, now);
    } else {
      CheckKeeps(job, q, dead, now, job.budget.progress, job.releases);
    }
  }

  lemma WakeKeeps(job: Job, q: seq<Payload>, dead: set<nat>, now: nat, timedOut: bool)
    requires JobInv(job, q, dead, now) && job.worker.Parked? && job.handed < |job.plan|
    ensures JobInv(Woken(job, timedOut, now), q, dead, now)
  {
    if job.budget.progress != job.worker.seen {
      CheckKeeps(job, q, dead, now, job.budget.progress, job.releases);
    } else if !timedOut {
      CheckKeeps(job, q, dead, now, job.worker.seen, job.worker.seenReleases);
    }
  }

  lemma HandKeepsLine(job: Job, q: seq<Payload>)
    requires job.worker.Holding? && job.handed < |job.plan|
    ensures Line(Handed(job), q + [job.plan[job.handed]]) == Line(job, q)
  {
    PiecesAppend(q, job.plan[job.handed]);
    var pending, queued, hand := PendingPieces(job.pending), Pieces(q), InHand(job);
    assert pending + (queued + hand) + [] == pending + queued + hand;
  }

  lemma HandKeepsOrder(job: Job, q: seq<Payload>)
    requires InOrder(job, q) && job.worker.Holding? && job.handed < |job.plan|
    ensures var more := q + [job.plan[job.handed]];
            InOrder(Handed(job), more) && Drained(Handed(job), more) == Drained(job, q)
  {
    var d := Drained(job, q);
    assert q + [job.plan[job.handed]] == job.plan[d..job.handed + 1];
  }

  lemma HandKeeps(job: Job, q: seq<Payload>, dead: set<nat>, now: nat)
    requires JobInv(job, q, dead, now) && job.worker.Holding? && job.handed < |job.plan|
    ensures JobInv(Handed(job), q + [job.plan[job.handed]], dead, now)
  {
    var more := q + [job.plan[job.handed]];
    HandKeepsOrder(job, q);
    HandKeepsLine(job, q);
    SameLineBalances(job, q, Handed(job), more);
  }

  lemma GiveBackKeeps(job: Job, bytes: nat, now: nat)
    requires job.lastRelease <= now && job.budget.progress == job.releases % U64
    requires job.worker.Parked? ==> job.handed < |job.plan| && ParkedRightly(job, now)
    ensures var after := GiveBack(job, bytes, now);
            && after.budget.progress == after.releases % U64
            && (after.worker.Parked? ==> ParkedRightly(after, now))
  {
  }

  lemma DrainedOne(job: Job, p: Payload, q: seq<Payload>)
    requires InOrder(job, [p] + q)
    ensures InOrder(job, q)
    ensures Drained(job, q) == Drained(job, [p] + q) + 1
    ensures job.plan[Drained(job, [p] + q)] == p
    ensures job.plan[..Drained(job, q)] == job.plan[..Drained(job, [p] + q)] + [p]
  {
    var d := Drained(job, [p] + q);
    assert job.plan[d] == job.plan[d..job.handed][0] == p;
    assert q == ([p] + q)[1..] == job.plan[d + 1..job.handed];
  }

  lemma PiecesFront(p: Payload, q: seq<Payload>)
    ensures Pieces([p] + q) == Pieces([p]) + Pieces(q)
  {
    assert ([p] + q)[1..] == q;
    OnePiece(p);
  }

  lemma OpenKeeps(job: Job, p: Payload, q: seq<Payload>, dead: set<nat>, now: nat)
    requires JobInv(job, [p] + q, dead, now) && job.conn !in dead
    requires Drained(job, [p] + q) == 0
    ensures JobInv(Receive(job, p, false), q, dead, now)
  {
    DrainedOne(job, p, q);
    PiecesFront(p, q);
    OnePiece(p);
    OpenedIsFaithful(p);
    var after := Receive(job, p, false);
    assert job.plan[..Drained(job, q)] == [p];
    assert PendingPieces(after.pending) == Pieces([p]);
    assert Line(after, q) == Line(job, [p] + q);
  }

  lemma PlanSoFar(job: Job, p: Payload, q: seq<Payload>) returns (done: seq<Payload>)
    requires InOrder(job, [p] + q)
    ensures done == job.plan[..Drained(job, [p] + q)]
    ensures done + [p] == job.plan[..Drained(job, q)] && ValidPlan(done + [p])
  {
    DrainedOne(job, p, q);
    done := job.plan[..Drained(job, [p] + q)];
  }

  /** A piece off the channel joins the end of the queue. */
  lemma ChunkKeepsLine(job: Job, p: Payload, q: seq<Payload>)
    requires job.pending.Some? && p.Chunk? && p.data != [] && job.pending.value.chunks != [[]]
    ensures Line(Receive(job, p, false), q) == Line(job, [p] + q)
  {
    PiecesFront(p, q);
    OnePiece(p);
    var chunks := job.pending.value.chunks;
    assert chunks + [p.data] != [[]] by {
      assert (chunks + [p.data])[|chunks|] == p.data;
    }
    assert chunks + ([p.data] + Pieces(q)) == (chunks + [p.data]) + Pieces(q);
  }

  lemma ChunkKeepsStage(job: Job, p: Payload, q: seq<Payload>, dead: set<nat>)
    requires InOrder(job, [p] + q) && Staged(job, [p] + q, dead) && job.pending.Some? && p.Chunk?
    ensures InOrder(job, q) && Staged(Receive(job, p, false), q, dead)
    ensures p.data != [] && job.pending.value.chunks != [[]]
  {
    DrainedOne(job, p, q);
    var done := PlanSoFar(job, p, q);
    ChunkKeepsFaith(job.pending.value, job.wire, done, p.data);
    StillOpen(done, p.data);
  }

  lemma ChunkKeeps(job: Job, p: Payload, q: seq<Payload>, dead: set<nat>, now: nat)
    requires JobInv(job, [p] + q, dead, now) && job.pending.Some? && p.Chunk?
    ensures JobInv(Receive(job, p, false), q, dead, now)
  {
    ChunkKeepsStage(job, p, q, dead);
    ChunkKeepsLine(job, p, q);
    SameLineBalances(job, [p] + q, Receive(job, p, false), q);
  }

  lemma EndKeepsLine(job: Job, p: Payload, q: seq<Payload>)
    requires job.pending.Some? && p.End?
    ensures Line(Receive(job, p, false), q) == Line(job, [p] + q)
  {
    PiecesFront(p, q);
    OnePiece(p);
    assert [] + Pieces(q) == Pieces(q);
  }

  lemma EndKeepsStage(job: Job, p: Payload, q: seq<Payload>, dead: set<nat>)
    requires InOrder(job, [p] + q) && Staged(job, [p] + q, dead) && job.pending.Some? && p.End?
    ensures InOrder(job, q) && Staged(Receive(job, p, false), q, dead)
  {
    DrainedOne(job, p, q);
    var done := PlanSoFar(job, p, q);
    EndKeepsFaith(job.pending.value, job.wire, done);
  }

  lemma EndKeeps(job: Job, p: Payload, q: seq<Payload>, dead: set<nat>, now: nat)
    requires JobInv(job, [p] + q, dead, now) && job.pending.Some? && p.End?
    ensures JobInv(Receive(job, p, false), q, dead, now)
  {
    EndKeepsStage(job, p, q, dead);
    EndKeepsLine(job, p, q);
    SameLineBalances(job, [p] + q, Receive(job, p, false), q);
  }

  lemma ReceiveKeeps(job: Job, p: Payload, q: seq<Payload>, dead: set<nat>, now: nat)
    requires JobInv(job, [p] + q, dead, now)
    ensures JobInv(Receive(job, p, job.conn in dead), q, dead, now)
  {
    DrainedOne(job, p, q);
    if job.pending.Some? {
      if p.Chunk? {
        ChunkKeeps(job, p, q, dead, now);
      } else {
        EndKeeps(job, p, q, dead, now);
      }
    } else if Drained(job, [p] + q) == 0 && job.conn !in dead {
      OpenKeeps(job, p, q, dead, now);
    }
  }

  lemma WriteHeadKeeps(job: Job, q: seq<Payload>, dead: set<nat>, now: nat, a: Answer)
    requires JobInv(job, q, dead, now)
    requires job.pending.Some? && !job.pending.value.headersSent
    ensures JobInv(HeadWritten(job, a), q, dead, now)
  {
    match a
    case Blocked =>
    case Fail => DropKeeps(job, q, dead, dead, now);
    case Accept(_) =>
      HeadersKeepFaith(job.pending.value, job.wire, job.plan[..Drained(job, q)]);
      assert Line(HeadWritten(job, a), q) == Line(job, q);
  }

  lemma WriteFinKeeps(job: Job, q: seq<Payload>, dead: set<nat>, now: nat, a: Answer)
    requires JobInv(job, q, dead, now)
    requires job.pending.Some? && job.pending.value.headersSent && OwesFin(job.pending.value)
    ensures JobInv(FinWritten(job, a), q, dead, now)
  {
    match a
    case Blocked =>
    case Fail => DropKeeps(job, q, dead, dead, now);
    case Accept(_) =>
      FinKeepsFaith(job.pending.value, job.wire, job.plan[..Drained(job, q)]);
      SameLineBalances(job, q, FinWritten(job, a), q);
  }

  lemma PopKeeps(job: Job, q: seq<Payload>, dead: set<nat>, now: nat, n: nat)
    requires JobInv(job, q, dead, now) && job.pending.Some?
    requires var p := job.pending.value;
             && !p.finSent && p.headersSent && p.chunks != [] && n > 0
             && p.offset <= |p.chunks[0]| && Pops(p, n) && Taken(p, n) > 0
    ensures JobInv(BodyWritten(job, Accept(n), now), q, dead, now)
  {
    var size := |job.pending.value.chunks[0]|;
    var written := Written(job, n);
    WrittenKeepsStage(job, q, dead, n);
    GiveBackKeeps(written, size, now);
    GiveBackKeepsStage(written, q, dead, size, now);
    LineNonEmpty(job, q);
    PopLine(job, written, q);
    PopBalances(job, q, GiveBack(written, size, now), size);
  }

  function Written(job: Job, n: nat): Job
    requires job.pending.Some? && job.pending.value.chunks != []
    requires job.pending.value.offset <= |job.pending.value.chunks[0]|
  {
    var (after, w) := BodyAccepted(job.pending.value, job.wire, n);
    job.(pending := Some(after), wire := w)
  }

  lemma WrittenKeepsStage(job: Job, q: seq<Payload>, dead: set<nat>, n: nat)
    requires InOrder(job, q) && Staged(job, q, dead) && job.pending.Some? && n > 0
    requires job.pending.value.headersSent && !job.pending.value.finSent && job.pending.value.chunks != []
    requires job.pending.value.offset <= |job.pending.value.chunks[0]|
    ensures InOrder(Written(job, n), q) && Staged(Written(job, n), q, dead)
    ensures Written(job, n).pending.value.chunks != [[]]
  {
    BodyKeepsFaith(job.pending.value, job.wire, job.plan[..Drained(job, q)], n);
  }

  lemma GiveBackKeepsStage(job: Job, q: seq<Payload>, dead: set<nat>, bytes: nat, now: nat)
    requires InOrder(job, q) && Staged(job, q, dead) && job.pending.Some?
    ensures InOrder(GiveBack(job, bytes, now), q) && Staged(GiveBack(job, bytes, now), q, dead)
  {
  }

  lemma PopLine(job: Job, written: Job, q: seq<Payload>)
    requires job.pending.Some? && written.pending.Some?
    requires job.pending.value.chunks != [] && job.pending.value.chunks != [[]]
    requires written.pending.value.chunks == job.pending.value.chunks[1..] && written.pending.value.chunks != [[]]
    requires InHand(written) == InHand(job)
    ensures Line(job, q) == [job.pending.value.chunks[0]] + Line(written, q)
  {
    var chunks := job.pending.value.chunks;
    assert chunks == [chunks[0]] + chunks[1..];
  }

  lemma PopBalances(job: Job, q: seq<Payload>, after: Job, size: nat)
    requires Balanced(job, q) && Line(job, q) != [] && size == |Line(job, q)[0]|
    requires Line(after, q) == Line(job, q)[1..] && Held(Line(job, q)) >= |Line(job, q)|
    requires after.budget == Released(job.budget, size) && after.limit == job.limit
    requires after.budget.progress == after.releases % U64
    ensures Balanced(after, q)
  {
    var line := Line(job, q);
    assert Held(line) == size + Held(line[1..]);
  }

  lemma PartKeeps(job: Job, q: seq<Payload>, dead: set<nat>, now: nat, n: nat)
    requires JobInv(job, q, dead, now) && job.pending.Some?
    requires var p := job.pending.value;
             && !p.finSent && p.headersSent && p.chunks != [] && n > 0
             && p.offset <= |p.chunks[0]| && !Pops(p, n) && Taken(p, n) > 0
    ensures JobInv(BodyWritten(job, Accept(n), now), q, dead, now)
  {
    var p := job.pending.value;
    BodyKeepsFaith(p, job.wire, job.plan[..Drained(job, q)], n);
    assert Line(BodyWritten(job, Accept(n), now), q) == Line(job, q);
  }

  lemma WriteBodyKeeps(job: Job, q: seq<Payload>, dead: set<nat>, now: nat, a: Answer)
    requires JobInv(job, q, dead, now)
    requires job.pending.Some? && !IsFinished(job.pending.value)
    requires job.pending.value.headersSent && job.pending.value.chunks != []
    requires job.pending.value.offset <= |job.pending.value.chunks[0]|
    ensures JobInv(BodyWritten(job, a, now), q, dead, now)
  {
    match a
    case Blocked =>
    case Fail => DropKeeps(job, q, dead, dead, now);
    case Accept(n) =>
      if Taken(job.pending.value, n) > 0 {
        if Pops(job.pending.value, n) {
          PopKeeps(job, q, dead, now, n);
        } else {
          PartKeeps(job, q, dead, now, n);
        }
      }
  }

  // ---- Every step, every run ----

  lemma HandStep(s: System, j: nat)
    requires Inv(s) && Enabled(s, Hand(j))
    ensures Inv(Next(s, Hand(j)))
  {
    var job, t := s.jobs[j], Next(s, Hand(j));
    var m := Message(j, job.plan[job.handed]);
    HandKeeps(job, QueueOf(s.chan, j), s.dead, s.now);
    forall k | 0 <= k < |t.jobs| ensures JobInv(t.jobs[k], QueueOf(t.chan, k), t.dead, t.now) {
      QueueAppend(s.chan, m, k);
      if k != j {
        assert t.jobs[k] == s.jobs[k];
        assert QueueOf(t.chan, k) == QueueOf(s.chan, k);
      }
    }
  }

  lemma DeliverStep(s: System)
    requires Inv(s) && Enabled(s, Deliver)
    ensures Inv(Next(s, Deliver))
  {
    var m, t := s.chan[0], Next(s, Deliver);
    forall k | 0 <= k < |t.jobs| ensures JobInv(t.jobs[k], QueueOf(t.chan, k), t.dead, t.now) {
      if k == m.job {
        ReceiveKeeps(s.jobs[k], m.payload, QueueOf(t.chan, k), s.dead, s.now);
      } else {
        assert t.jobs[k] == s.jobs[k];
        assert QueueOf(t.chan, k) == QueueOf(s.chan, k);
      }
    }
  }

  lemma DieStep(s: System, conn: nat)
    requires Inv(s)
    ensures Inv(Next(s, Die(conn)))
  {
    var t := Next(s, Die(conn));
    forall k | 0 <= k < |t.jobs| ensures JobInv(t.jobs[k], QueueOf(t.chan, k), t.dead, t.now) {
      if s.jobs[k].conn == conn && s.jobs[k].pending.Some? {
        DropKeeps(s.jobs[k], QueueOf(s.chan, k), s.dead, t.dead, s.now);
      }
    }
  }

  /** A step on one job that leaves the channel alone. */
  lemma LocalStep(s: System, j: nat, job: Job)
    requires Inv(s) && IsJob(s, j)
    requires JobInv(job, QueueOf(s.chan, j), s.dead, s.now)
    ensures Inv(With(s, j, job))
  {
    var t := With(s, j, job);
    forall k | 0 <= k < |t.jobs| ensures JobInv(t.jobs[k], QueueOf(t.chan, k), t.dead, t.now) {
      assert k != j ==> t.jobs[k] == s.jobs[k];
    }
  }

  lemma StepKeepsInv(s: System, step: Step)
    requires Inv(s) && Enabled(s, step)
    ensures Inv(Next(s, step))
  {
    match step
    case Claim(j) =>
      ClaimKeeps(s.jobs[j], QueueOf(s.chan, j), s.dead, s.now);
      LocalStep(s, j, Claimed(s.jobs[j], s.now));
    case Hand(j) => HandStep(s, j);
    case Wake(j, timedOut) =>
      WakeKeeps(s.jobs[j], QueueOf(s.chan, j), s.dead, s.now, timedOut);
      LocalStep(s, j, Woken(s.jobs[j], timedOut, s.now));
    case Deliver => DeliverStep(s);
    case WriteHead(j, a) =>
      WriteHeadKeeps(s.jobs[j], QueueOf(s.chan, j), s.dead, s.now, a);
      LocalStep(s, j, HeadWritten(s.jobs[j], a));
    case WriteBody(j, a) =>
      WriteBodyKeeps(s.jobs[j], QueueOf(s.chan, j), s.dead, s.now, a);
      LocalStep(s, j, BodyWritten(s.jobs[j], a, s.now));
    case WriteFin(j, a) =>
      WriteFinKeeps(s.jobs[j], QueueOf(s.chan, j), s.dead, s.now, a);
      LocalStep(s, j, FinWritten(s.jobs[j], a));
    case Retire(j) =>
      DropKeeps(s.jobs[j], QueueOf(s.chan, j), s.dead, s.dead, s.now);
      LocalStep(s, j, Drop(s.jobs[j]));
    case Die(conn) => DieStep(s, conn);
    case Tick(ticks) =>
      var t := Next(s, step);
      forall k | 0 <= k < |t.jobs| ensures JobInv(t.jobs[k], QueueOf(t.chan, k), t.dead, t.now) {
        assert JobInv(s.jobs[k], QueueOf(s.chan, k), s.dead, s.now);
      }
  }

  lemma {:induction false} RunKeepsInv(s: System, steps: seq<Step>)
    requires Inv(s) && Runs(s, steps)
    ensures Inv(After(s, steps))
    decreases |steps|
  {
    if steps != [] {
      StepKeepsInv(s, steps[0]);
      RunKeepsInv(Next(s, steps[0]), steps[1..]);
    }
  }

  lemma ReachableInv(s: System, steps: seq<Step>)
    requires Init(s) && Runs(s, steps)
    ensures Inv(After(s, steps))
  {
    forall j | 0 <= j < |s.jobs| ensures JobInv(s.jobs[j], QueueOf(s.chan, j), s.dead, s.now) {
      FreshKeeps(s.jobs[j], s.dead, s.now);
    }
    RunKeepsInv(s, steps);
  }

  lemma FreshKeeps(job: Job, dead: set<nat>, now: nat)
    requires Fresh(job)
    ensures JobInv(job, [], dead, now)
  {
    assert job.plan[0..0] == [];
    assert Line(job, []) == [];
  }

  // ---- What every run promises ----

  /** Whatever the transport takes and when, and whoever dies: on every stream
      the client has seen one head first, a prefix of what the worker sent, in
      order, and an end only after all of it. */
  lemma DeliveryIsExact(s: System, steps: seq<Step>, j: nat)
    requires Init(s) && Runs(s, steps) && j < |After(s, steps).jobs|
    ensures var job := After(s, steps).jobs[j]; Honest(job.wire, job.plan)
  {
    ReachableInv(s, steps);
    var t := After(s, steps);
    var job, q := t.jobs[j], QueueOf(t.chan, j);
    if job.pending.Some? {
      FaithfulIsHonest(job.pending.value, job.wire, job.plan, Drained(job, q));
    }
  }

  /** On an open budget the room taken is exactly the room of the pieces in
      hand, in the channel and in the queue; and more than the limit is taken
      only by one piece alone. */
  lemma RoomIsConserved(s: System, steps: seq<Step>, j: nat)
    requires Init(s) && Runs(s, steps) && j < |After(s, steps).jobs|
    ensures var t := After(s, steps); var job, line := t.jobs[j], Line(t.jobs[j], QueueOf(t.chan, j));
            !job.budget.closed ==>
              && job.budget.outstanding == Held(line)
              && (job.budget.outstanding > job.limit ==> |line| == 1)
  {
    ReachableInv(s, steps);
  }

  /** A worker asleep in a claim is never forgotten: its budget is closed, or a
      live response holds it, or a result in the channel still carries it; and
      one not yet woken really has pieces ahead of it and no room. */
  lemma NoWorkerIsOrphaned(s: System, steps: seq<Step>, j: nat)
    requires Init(s) && Runs(s, steps) && j < |After(s, steps).jobs|
    requires After(s, steps).jobs[j].worker.Parked?
    ensures var t := After(s, steps); var job, q := t.jobs[j], QueueOf(t.chan, j);
            && (job.budget.closed || (job.pending.Some? && job.conn !in t.dead) || q != [])
            && (!job.worker.notified ==>
                  && !job.budget.closed && job.handed < |job.plan|
                  && job.budget.outstanding > 0
                  && job.budget.outstanding + Size(job.plan[job.handed]) > job.limit
                  && PendingPieces(job.pending) + Pieces(q) != [])
  {
    ReachableInv(s, steps);
    var t := After(s, steps);
    var job, q := t.jobs[j], QueueOf(t.chan, j);
    if !job.worker.notified {
      assert Held(Line(job, q)) > 0;
      assert InHand(job) == [];
      assert PendingPieces(job.pending) + Pieces(q) == Line(job, q);
    }
  }

  /** Closed before and closed after, with no room taken in between. */
  predicate StaysClosed(before: Job, after: Job) {
    && after.budget.closed
    && after.budget.outstanding <= before.budget.outstanding
    && (after.worker.Holding? && !before.worker.Holding? ==>
          before.handed < |before.plan| && Size(before.plan[before.handed]) == 0)
  }

  /** Nothing reopens a budget, and no claim of any size succeeds on a closed
      one. */
  lemma ClosedForGood(s: System, step: Step, j: nat)
    requires Enabled(s, step) && j < |s.jobs| && s.jobs[j].budget.closed
    ensures StaysClosed(s.jobs[j], Next(s, step).jobs[j])
  {
    var job, after := s.jobs[j], Next(s, step).jobs[j];
    match step
    case Claim(k) => assert after == if k == j then Claimed(job, s.now) else job;
    case Hand(k) => assert k != j ==> after == job;
    case Wake(k, timedOut) => assert after == if k == j then Woken(job, timedOut, s.now) else job;
    case Deliver =>
      var m := s.chan[0];
      assert after == if m.job == j then Receive(job, m.payload, job.conn in s.dead) else job;
    case WriteHead(k, a) => assert after == if k == j then HeadWritten(job, a) else job;
    case WriteBody(k, a) => assert after == if k == j then BodyWritten(job, a, s.now) else job;
    case WriteFin(k, a) => assert after == if k == j then FinWritten(job, a) else job;
    case Retire(k) => assert after == if k == j then Drop(job) else job;
    case Die(conn) => assert after == Orphaned(job, conn);
    case Tick(_) =>
  }

  /** A worker that gives up by itself slept a whole stall window in which, for
      fewer than 2^64 releases a sleep, nothing at all was given back. */
  lemma GivingUpTakesAWholeWindow(s: System, step: Step, j: nat)
    requires Inv(s) && Enabled(s, step) && step.Wake? && step.job == j
    requires !s.jobs[j].budget.closed && Next(s, step).jobs[j].budget.closed
    ensures step.timedOut
    ensures s.now >= s.jobs[j].worker.since + s.stalled
    ensures s.jobs[j].releases - s.jobs[j].worker.seenReleases < U64 ==>
              s.jobs[j].lastRelease <= s.jobs[j].worker.since
  {
    var job := s.jobs[j];
    var more := job.releases - job.worker.seenReleases;
    if more < U64 {
      SameCount(job.worker.seenReleases, more);
    }
  }

  lemma SameCount(base: nat, more: nat)
    requires more < U64 && (base + more) % U64 == base % U64
    ensures more == 0
  {
    var q, r := base / U64, base % U64;
    assert base + more == q * U64 + (r + more);
    if r + more < U64 {
      Residue(q, r + more);
    } else {
      Residue(q + 1, r + more - U64);
    }
  }

  /** The only other hands that close a budget are the event loop's: a result
      for a stream or connection that is gone, a failed write, a finished or
      abandoned response. */
  lemma WhoCloses(s: System, step: Step, j: nat)
    requires Inv(s) && Enabled(s, step) && j < |s.jobs|
    requires !s.jobs[j].budget.closed && Next(s, step).jobs[j].budget.closed
    ensures !step.Claim? && !step.Hand? && !step.Tick?
    ensures step.Deliver? ==> s.chan[0].job == j && s.jobs[j].conn in s.dead
    ensures step.Retire? ==> s.jobs[j].wire.fins == 1
    ensures (step.WriteHead? || step.WriteBody? || step.WriteFin?) ==> step.answer == Fail
    ensures step.Die? ==> s.jobs[j].conn == step.conn
  {
    assert JobInv(s.jobs[j], QueueOf(s.chan, j), s.dead, s.now);
    if step.Deliver? {
      DeliverCloses(s, j);
    } else if step.Retire? {
      RetireCloses(s, step, j);
    } else {
      OtherStepsClose(s, step, j);
    }
  }

  lemma DeliverCloses(s: System, j: nat)
    requires Enabled(s, Deliver) && j < |s.jobs|
    requires JobInv(s.jobs[j], QueueOf(s.chan, j), s.dead, s.now)
    requires !s.jobs[j].budget.closed && Next(s, Deliver).jobs[j].budget.closed
    ensures s.chan[0].job == j && s.jobs[j].conn in s.dead
  {
    if s.chan[0].job == j {
      ReceiveCloses(s.jobs[j], s.chan[0].payload, QueueOf(s.chan[1..], j), s.dead, s.now);
    }
  }

  lemma RetireCloses(s: System, step: Step, j: nat)
    requires Enabled(s, step) && step.Retire? && j < |s.jobs|
    requires JobInv(s.jobs[j], QueueOf(s.chan, j), s.dead, s.now)
    requires !s.jobs[j].budget.closed && Next(s, step).jobs[j].budget.closed
    ensures s.jobs[j].wire.fins == 1
  {
    assert step.job == j;
  }

  lemma OtherStepsClose(s: System, step: Step, j: nat)
    requires Enabled(s, step) && !step.Deliver? && !step.Retire? && j < |s.jobs|
    requires !s.jobs[j].budget.closed && Next(s, step).jobs[j].budget.closed
    ensures !step.Claim? && !step.Hand? && !step.Tick?
    ensures (step.WriteHead? || step.WriteBody? || step.WriteFin?) ==> step.answer == Fail
    ensures step.Die? ==> s.jobs[j].conn == step.conn
  {
  }

  lemma ReceiveCloses(job: Job, p: Payload, q: seq<Payload>, dead: set<nat>, now: nat)
    requires JobInv(job, [p] + q, dead, now) && !job.budget.closed
    requires Receive(job, p, job.conn in dead).budget.closed
    ensures job.conn in dead
  {
    DrainedOne(job, p, q);
  }

  // ---- Getting there ----

  /** A response whose end has come always has a write to make, and any write
      the transport takes something of leaves less to do. */
  lemma CompleteResponsesProgress(s: System, j: nat, n: nat) returns (step: Step)
    requires Inv(s) && Writing(s, j) && s.jobs[j].pending.value.complete && n > 0
    ensures Enabled(s, step)
    ensures var after := Next(s, step).jobs[j];
            && after.pending.Some?
            && Pump.Remaining(after.pending.value) < Pump.Remaining(s.jobs[j].pending.value)
  {
    var job := s.jobs[j];
    var p, done := job.pending.value, job.plan[..Drained(job, QueueOf(s.chan, j))];
    assert Faithful(p, job.wire, done);
    if !p.headersSent {
      step := WriteHead(j, Accept(n));
      assert Unsent(HeadersAccepted(p, job.wire).0) == Unsent(p);
    } else if p.chunks != [] {
      step := WriteBody(j, Accept(n));
      BodyKeepsFaith(p, job.wire, done, n);
    } else {
      step := WriteFin(j, Accept(n));
    }
  }

  /** Steps that concern one job's response only. */
  ghost predicate OnlyJob(s: System, t: System, j: nat) {
    && IsJob(s, j) && |t.jobs| == |s.jobs|
    && t.chan == s.chan && t.dead == s.dead && t.now == s.now && t.stalled == s.stalled
    && (forall k :: 0 <= k < |s.jobs| && k != j ==> t.jobs[k] == s.jobs[k])
  }

  /** The state after the event loop's pass over one response, as the pass
      itself computes it. */
  ghost predicate PassedTo(t: System, j: nat, scene: Pump.Scene, v: Pump.Verdict) {
    && IsJob(t, j)
    && t.jobs[j].wire == scene.w
    && if v == Pump.Failed then t.jobs[j].pending.None? && t.jobs[j].budget == Closed(scene.b)
       else t.jobs[j].pending == Some(scene.p) && t.jobs[j].budget == scene.b
  }

  function SceneOf(job: Job, answers: seq<Answer>): Pump.Scene
    requires job.pending.Some?
  {
    Pump.Scene(job.pending.value, job.wire, job.budget, answers)
  }

  lemma Prefixed(s: System, first: Step, rest: seq<Step>)
    requires Enabled(s, first) && Runs(Next(s, first), rest)
    ensures Runs(s, [first] + rest) && After(s, [first] + rest) == After(Next(s, first), rest)
  {
    assert ([first] + rest)[1..] == rest;
  }

  lemma FinPassRuns(s: System, j: nat, answers: seq<Answer>) returns (steps: seq<Step>)
    requires Writing(s, j) && s.jobs[j].pending.value.headersSent
    ensures Runs(s, steps) && OnlyJob(s, After(s, steps), j)
    ensures var (scene, v) := Pump.PumpFin(SceneOf(s.jobs[j], answers)); PassedTo(After(s, steps), j, scene, v)
  {
    if OwesFin(s.jobs[j].pending.value) {
      var step := WriteFin(j, Pump.NextAnswer(answers));
      steps := [step];
      Prefixed(s, step, []);
      assert [step] + [] == steps;
    } else {
      steps := [];
    }
  }

  lemma {:induction false} BodyPassRuns(s: System, j: nat, answers: seq<Answer>) returns (steps: seq<Step>)
    requires Inv(s) && Writing(s, j) && s.jobs[j].pending.value.headersSent
    ensures Runs(s, steps) && OnlyJob(s, After(s, steps), j)
    ensures var (scene, v) := Pump.PumpBody(SceneOf(s.jobs[j], answers)); PassedTo(After(s, steps), j, scene, v)
    decreases |answers|
  {
    var p := s.jobs[j].pending.value;
    if p.chunks == [] {
      steps := FinPassRuns(s, j, answers);
    } else {
      var a, step := Pump.NextAnswer(answers), WriteBody(j, Pump.NextAnswer(answers));
      if a == Blocked || (a.Accept? && Taken(p, a.n) == 0) {
        steps := FinPassRuns(s, j, Pump.Later(answers));
      } else {
        var next := Next(s, step);
        var rest := [];
        if a.Accept? {
          StepKeepsInv(s, step);
          if next.jobs[j].pending.value.finSent {
            assert next.jobs[j].pending.value.chunks == [];
          } else {
            rest := BodyPassRuns(next, j, Pump.Later(answers));
          }
        }
        steps := [step] + rest;
        Prefixed(s, step, rest);
      }
    }
  }

  /** One pass of the event loop over one response, whatever the transport
      answers, is a run of the steps above, so everything proved of runs holds
      of the loop that sends. */
  lemma PassIsARun(s: System, j: nat, answers: seq<Answer>) returns (steps: seq<Step>)
    requires Inv(s) && Writing(s, j)
    ensures Runs(s, steps) && OnlyJob(s, After(s, steps), j)
    ensures var (scene, v) := Pump.PumpAll(SceneOf(s.jobs[j], answers)); PassedTo(After(s, steps), j, scene, v)
  {
    if s.jobs[j].pending.value.headersSent {
      steps := BodyPassRuns(s, j, answers);
    } else {
      var a, step := Pump.NextAnswer(answers), WriteHead(j, Pump.NextAnswer(answers));
      var next := Next(s, step);
      var rest := [];
      if a.Accept? && !next.jobs[j].pending.value.finSent {
        StepKeepsInv(s, step);
        rest := BodyPassRuns(next, j, Pump.Later(answers));
      }
      steps := [step] + rest;
      Prefixed(s, step, rest);
    }
  }

  // ---- A pass over every response of a connection ----

  lemma {:induction false} RunsJoin(s: System, first: seq<Step>, rest: seq<Step>)
    requires Runs(s, first) && Runs(After(s, first), rest)
    ensures Runs(s, first + rest) && After(s, first + rest) == After(After(s, first), rest)
    decreases |first|
  {
    if first == [] {
      assert first + rest == rest;
    } else {
      RunsJoin(Next(s, first[0]), first[1..], rest);
      assert (first + rest)[1..] == first[1..] + rest;
    }
  }

  /** What the loop leaves of one response: kept while there is more to send,
      else gone from the list and its worker let go. */
  ghost predicate ServedAs(before: Job, after: Job, answers: seq<Answer>) {
    before.pending.Some? &&
    var (scene, v) := Pump.PumpAll(SceneOf(before, answers));
    && after.wire == scene.w
    && if v == Pump.NotYet then after.pending == Some(scene.p) && after.budget == scene.b
       else after.pending.None? && after.budget == Closed(scene.b)
  }

  lemma ServiceIsARun(s: System, j: nat, answers: seq<Answer>) returns (steps: seq<Step>)
    requires Inv(s) && Writing(s, j)
    ensures Runs(s, steps) && OnlyJob(s, After(s, steps), j)
    ensures ServedAs(s.jobs[j], After(s, steps).jobs[j], answers)
  {
    var job := s.jobs[j];
    var (scene, v) := Pump.PumpAll(SceneOf(job, answers));
    Pump.PassKeepsFaith(SceneOf(job, answers), job.plan[..Drained(job, QueueOf(s.chan, j))]);
    steps := PassIsARun(s, j, answers);
    if v == Pump.Done {
      var t := After(s, steps);
      assert Enabled(t, Retire(j));
      Prefixed(t, Retire(j), []);
      assert [Retire(j)] + [] == [Retire(j)];
      RunsJoin(s, steps, [Retire(j)]);
      steps := steps + [Retire(j)];
    }
  }

  predicate EachOnce(js: seq<nat>) {
    forall i, k :: 0 <= i < k < |js| ==> js[i] != js[k]
  }

  /** The jobs in `js` were served, each by its own answers, and no other. */
  ghost predicate Round(s: System, t: System, js: seq<nat>, answers: seq<seq<Answer>>)
    requires |answers| == |js|
  {
    && |t.jobs| == |s.jobs| && t.chan == s.chan && t.dead == s.dead && t.now == s.now && t.stalled == s.stalled
    && (forall i :: 0 <= i < |js| ==> IsJob(s, js[i]) && ServedAs(s.jobs[js[i]], t.jobs[js[i]], answers[i]))
    && (forall k: nat :: k < |s.jobs| && k !in js ==> t.jobs[k] == s.jobs[k])
  }

  /** The pass over all of a connection's responses, keeping those with more to
      send, is a run of the steps too, and ends in the invariant. */
  lemma {:induction false} RoundIsARun(s: System, js: seq<nat>, answers: seq<seq<Answer>>) returns (steps: seq<Step>)
    requires Inv(s) && |answers| == |js| && EachOnce(js)
    requires forall i :: 0 <= i < |js| ==> Writing(s, js[i])
    ensures Runs(s, steps) && Inv(After(s, steps))
    ensures Round(s, After(s, steps), js, answers)
    decreases |js|
  {
    if js == [] {
      steps := [];
    } else {
      var first := ServiceIsARun(s, js[0], answers[0]);
      RunKeepsInv(s, first);
      var mid := After(s, first);
      assert forall i :: 0 <= i < |js[1..]| ==> js[1..][i] == js[i + 1] && js[i + 1] != js[0];
      var rest := RoundIsARun(mid, js[1..], answers[1..]);
      RunsJoin(s, first, rest);
      steps := first + rest;
      RoundJoins(s, mid, After(mid, rest), js, answers);
    }
  }

  lemma RoundJoins(s: System, mid: System, t: System, js: seq<nat>, answers: seq<seq<Answer>>)
    requires |answers| == |js| && js != [] && EachOnce(js)
    requires forall i :: 0 <= i < |js| ==> Writing(s, js[i])
    requires OnlyJob(s, mid, js[0]) && ServedAs(s.jobs[js[0]], mid.jobs[js[0]], answers[0])
    requires forall i :: 0 <= i < |js[1..]| ==> Writing(mid, js[1..][i])
    requires Round(mid, t, js[1..], answers[1..])
    ensures Round(s, t, js, answers)
  {
    assert js[0] !in js[1..];
    forall i | 0 <= i < |js| ensures IsJob(s, js[i]) && ServedAs(s.jobs[js[i]], t.jobs[js[i]], answers[i]) {
      if i > 0 {
        assert js[1..][i - 1] == js[i] && answers[1..][i - 1] == answers[i];
        assert mid.jobs[js[i]] == s.jobs[js[i]];
      }
    }
    forall k: nat | k < |s.jobs| && k !in js ensures t.jobs[k] == s.jobs[k] {
      assert k !in js[1..];
    }
  }

  // ---- The claim loop as steps ----

  function AllGivenBack(job: Job, releases: seq<nat>, now: nat): Job
    decreases releases
  {
    if releases == [] then job else AllGivenBack(GiveBack(job, releases[0], now), releases[1..], now)
  }

  /** The job after one sleep. */
  function Slept(job: Job, w: Budgets.Wake, now: nat): Job {
    var released := AllGivenBack(job, w.releases, now);
    if w.closes then CloseRoom(released) else released
  }

  /** Sleeping and waking until the claim is settled or the wakes run out. */
  function Settled(job: Job, wakes: seq<Budgets.Wake>, now: nat): Job
    requires job.worker.Parked? ==> job.handed < |job.plan|
    decreases |wakes|
  {
    if !job.worker.Parked? || wakes == [] then job
    else
      SleepKeepsPlace(job, wakes[0], now);
      Settled(Woken(Slept(job, wakes[0], now), wakes[0].timedOut, now), wakes[1..], now)
  }

  lemma {:induction false} GivenBackKeepsPlace(job: Job, releases: seq<nat>, now: nat)
    requires job.worker.Parked?
    ensures var after := AllGivenBack(job, releases, now);
            && after.plan == job.plan && after.handed == job.handed && after.limit == job.limit
            && after.worker.Parked? && after.worker.seen == job.worker.seen
            && after.worker.seenReleases == job.worker.seenReleases
            && after.budget == AllReleased(job.budget, releases)
    decreases releases
  {
    if releases != [] {
      GivenBackKeepsPlace(GiveBack(job, releases[0], now), releases[1..], now);
    }
  }

  lemma SleepKeepsPlace(job: Job, w: Budgets.Wake, now: nat)
    requires job.worker.Parked?
    ensures var after := Slept(job, w, now);
            && after.plan == job.plan && after.handed == job.handed && after.limit == job.limit
            && after.worker.Parked? && after.worker.seen == job.worker.seen
            && after.budget == During(job.budget, w)
  {
    GivenBackKeepsPlace(job, w.releases, now);
  }

  predicate SettledAs(w: Worker, outcome: Outcome) {
    match outcome
    case Granted => w.Holding?
    case Refused => w.Stopped?
    case Waiting => w.Parked?
  }

  lemma {:induction false} ChecksAreTheClaim(job: Job, seen: nat, seenReleases: nat, wakes: seq<Budgets.Wake>, now: nat)
    requires job.handed < |job.plan|
    ensures var after := Settled(Check(job, seen, seenReleases, now), wakes, now);
            var (b, outcome) := Budgets.Claim(job.budget, Size(job.plan[job.handed]), job.limit, seen, wakes);
            after.budget == b && SettledAs(after.worker, outcome)
    decreases |wakes|
  {
    var size := Size(job.plan[job.handed]);
    var checked := Check(job, seen, seenReleases, now);
    if !job.budget.closed && Full(job.budget, size, job.limit) && wakes != [] {
      SleepKeepsPlace(checked, wakes[0], now);
      var slept := Slept(checked, wakes[0], now);
      if slept.budget.progress != seen {
        ChecksAreTheClaim(slept, slept.budget.progress, slept.releases, wakes[1..], now);
      } else if !wakes[0].timedOut {
        ChecksAreTheClaim(slept, seen, slept.worker.seenReleases, wakes[1..], now);
      }
    }
  }

  /** The worker's steps, with whatever is given back or closed while it
      sleeps, come to what the loop over the condition variable computes. */
  lemma ClaimStepsAreTheLoop(job: Job, wakes: seq<Budgets.Wake>, now: nat)
    requires job.worker.Running? && job.handed < |job.plan| && Size(job.plan[job.handed]) > 0
    ensures var after := Settled(Claimed(job, now), wakes, now);
            var (b, outcome) := Budgets.Claim(job.budget, Size(job.plan[job.handed]), job.limit, job.budget.progress, wakes);
            after.budget == b && SettledAs(after.worker, outcome)
  {
    ChecksAreTheClaim(job, job.budget.progress, job.releases, wakes, now);
  }

  /** A worker goes to sleep exactly when its piece has no room on an open budget,
      and sleeps until told. */
  lemma SleepsExactlyWhen(job: Job, seen: nat, seenReleases: nat, now: nat)
    requires job.handed < |job.plan|
    ensures var size, after := Size(job.plan[job.handed]), Check(job, seen, seenReleases, now);
            && (after.worker.Parked? <==>
                  !job.budget.closed && job.budget.outstanding > 0 && job.budget.outstanding + size > job.limit)
            && (after.worker.Parked? ==> !after.worker.notified && after.worker.since == now)
  {
  }

  predicate OwnStep(step: Step, j: nat) {
    (step.Claim? || step.Hand? || step.Wake?) && step.job == j
  }

  lemma StepWhileAsleep(s: System, step: Step, j: nat) returns (w: Budgets.Wake)
    requires Enabled(s, step) && j < |s.jobs| && !OwnStep(step, j)
    ensures Next(s, step).jobs[j].budget == During(s.jobs[j].budget, w)
  {
    var before, after := s.jobs[j].budget, Next(s, step).jobs[j].budget;
    if after == before {
      w := Budgets.Wake([], false, false);
    } else if after == Closed(before) {
      w := Budgets.Wake([], true, false);
    } else {
      assert step.WriteBody? && step.job == j;
      var bytes := |s.jobs[j].pending.value.chunks[0]|;
      w := Budgets.Wake([bytes], false, false);
      assert AllReleased(before, [bytes]) == Released(before, bytes);
    }
  }

  lemma {:induction false} ReleasesJoin(s: State, a: seq<nat>, b: seq<nat>)
    ensures AllReleased(AllReleased(s, a), b) == AllReleased(s, a + b)
    ensures AllReleased(Closed(s), a) == Closed(AllReleased(s, a))
    decreases a
  {
    if a == [] {
      assert a + b == b;
    } else {
      assert (a + b)[1..] == a[1..] + b;
      ReleasesJoin(Released(s, a[0]), a[1..], b);
      assert Released(Closed(s), a[0]) == Closed(Released(s, a[0]));
    }
  }

  /** And whatever everyone else does while a worker sleeps is, to its budget,
      one such sleep. */
  lemma {:induction false} OthersAreASleep(s: System, steps: seq<Step>, j: nat) returns (w: Budgets.Wake)
    requires Runs(s, steps) && j < |s.jobs|
    requires forall i :: 0 <= i < |steps| ==> !OwnStep(steps[i], j)
    ensures j < |After(s, steps).jobs| && After(s, steps).jobs[j].budget == During(s.jobs[j].budget, w)
    decreases |steps|
  {
    if steps == [] {
      w := Budgets.Wake([], false, false);
    } else {
      var first := StepWhileAsleep(s, steps[0], j);
      var next := Next(s, steps[0]);
      var rest := OthersAreASleep(next, steps[1..], j);
      w := Budgets.Wake(first.releases + rest.releases, first.closes || rest.closes, false);
      SleepsJoin(s.jobs[j].budget, first, rest);
    }
  }

  lemma SleepsJoin(s: State, a: Budgets.Wake, b: Budgets.Wake)
    ensures During(During(s, a), b) ==
            During(s, Budgets.Wake(a.releases + b.releases, a.closes || b.closes, false))
  {
    ReleasesJoin(s, a.releases, b.releases);
    ReleasesJoin(AllReleased(s, a.releases), b.releases, []);
  }
}
