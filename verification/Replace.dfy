/**
 Putting bytes at a path while other threads do the same, readers read and a
 sweep deletes what it likes: a file is written beside its path under a name of
 its own and then renamed. Names point at inodes; a rename moves the name and
 never the bytes.
 */
module Replace {

  type byte = x: int | 0 <= x < 256

  /** A temporary is named for its path, its process and the nth write of that
      process; no published path has such a name. */
  datatype Name = Published(key: string) | Temporary(key: string, pid: nat, nth: nat)

  datatype Stage =
    | Named
    | Writing(inode: nat, written: nat)
    | Written(inode: nat)
    | Finished
    | GivenUp

  datatype Writer = Writer(pid: nat, nth: nat, key: string, bytes: seq<byte>, stage: Stage) {
    function Temp(): Name {
      Temporary(key, pid, nth)
    }

    /** The inode this writer still has in hand. */
    predicate Holds(i: nat) {
      (stage.Writing? || stage.Written?) && stage.inode == i
    }
  }

  /** `counters` holds how many writes each process has begun; `sealed` every
      inode that has ever been published. */
  datatype Disk = Disk(
    names: map<Name, nat>,
    inodes: seq<seq<byte>>,
    counters: map<nat, nat>,
    writers: seq<Writer>,
    sealed: set<nat>)

  datatype Step =
    | Begin(pid: nat, key: string, bytes: seq<byte>)
    | Create(w: nat)
    | Write(w: nat, count: nat)
    | Close(w: nat)
    | Rename(w: nat)
    | Abandon(w: nat, removed: bool)
    | Remove(name: Name)

  function Count(d: Disk, pid: nat): nat {
    if pid in d.counters then d.counters[pid] else 0
  }

  function Without(m: map<Name, nat>, name: Name): map<Name, nat> {
    map n | n in m && n != name :: m[n]
  }

  function Staged(d: Disk, w: nat, stage: Stage): Disk
    requires w < |d.writers|
  {
    d.(writers := d.writers[w := d.writers[w].(stage := stage)])
  }

  predicate Enabled(d: Disk, step: Step) {
    match step
    case Begin(_, _, _) => true
    case Create(w) => w < |d.writers| && d.writers[w].stage.Named?
    case Write(w, count) =>
      && w < |d.writers| && d.writers[w].stage.Writing?
      && d.writers[w].stage.inode < |d.inodes|
      && d.writers[w].stage.written + count <= |d.writers[w].bytes|
    case Close(w) =>
      && w < |d.writers| && d.writers[w].stage.Writing?
      && d.writers[w].stage.written == |d.writers[w].bytes|
    case Rename(w) => w < |d.writers| && d.writers[w].stage.Written?
    case Abandon(w, _) =>
      w < |d.writers| && (d.writers[w].stage.Named? || d.writers[w].stage.Writing? || d.writers[w].stage.Written?)
    case Remove(_) => true
  }

  /** `Create` truncates whatever the temporary name already points at; a
      rename whose temporary is gone fails; `Abandon` is any other failure, after
      which the temporary may refuse to be removed, and `Remove` a sweep or
      anyone else deleting a name. */
  function Next(d: Disk, step: Step): Disk
    requires Enabled(d, step)
  {
    match step
    case Begin(pid, key, bytes) =>
      d.(writers := d.writers + [Writer(pid, Count(d, pid), key, bytes, Named)],
         counters := d.counters[pid := Count(d, pid) + 1])
    case Create(w) =>
      var temp := d.writers[w].Temp();
      if temp in d.names && d.names[temp] < |d.inodes| then
        Staged(d, w, Writing(d.names[temp], 0)).(inodes := d.inodes[d.names[temp] := []])
      else
        Staged(d, w, Writing(|d.inodes|, 0)).(inodes := d.inodes + [[]], names := d.names[temp := |d.inodes|])
    case Write(w, count) =>
      var writer := d.writers[w];
      var i, from := writer.stage.inode, writer.stage.written;
      Staged(d, w, Writing(i, from + count))
        .(inodes := d.inodes[i := d.inodes[i] + writer.bytes[from..from + count]])
    case Close(w) => Staged(d, w, Written(d.writers[w].stage.inode))
    case Rename(w) =>
      var writer := d.writers[w];
      if writer.Temp() in d.names then
        var i := d.names[writer.Temp()];
        Staged(d, w, Finished)
          .(names := Without(d.names, writer.Temp())[Published(writer.key) := i], sealed := d.sealed + {i})
      else Staged(d, w, GivenUp)
    case Abandon(w, removed) =>
      Staged(d, w, GivenUp).(names := if removed then Without(d.names, d.writers[w].Temp()) else d.names)
    case Remove(name) => d.(names := Without(d.names, name))
  }

  predicate Runs(d: Disk, steps: seq<Step>)
    decreases |steps|
  {
    steps == [] || (Enabled(d, steps[0]) && Runs(Next(d, steps[0]), steps[1..]))
  }

  function After(d: Disk, steps: seq<Step>): Disk
    requires Runs(d, steps)
    decreases |steps|
  {
    if steps == [] then d else After(Next(d, steps[0]), steps[1..])
  }

  // ---- The invariant ----

  ghost predicate NamesFit(d: Disk) {
    && (forall n :: n in d.names ==> d.names[n] < |d.inodes|)
    && (forall m, n :: m in d.names && n in d.names && d.names[m] == d.names[n] ==> m == n)
    && (forall i :: i in d.sealed ==> i < |d.inodes|)
    && (forall n :: n in d.names && n.Published? ==> d.names[n] in d.sealed)
    && (forall n :: n in d.names && n.Temporary? ==> d.names[n] !in d.sealed)
  }

  ghost predicate WritersDiffer(d: Disk) {
    && (forall w :: 0 <= w < |d.writers| ==> d.writers[w].nth < Count(d, d.writers[w].pid))
    && (forall v, w :: 0 <= v < w < |d.writers| && d.writers[v].pid == d.writers[w].pid ==>
          d.writers[v].nth != d.writers[w].nth)
  }

  /** A writer's inode holds what it has written so far, is nobody else's, was
      never published, and has no name but the writer's own temporary. */
  ghost predicate HandsFit(d: Disk, w: Writer) {
    w.stage.Writing? || w.stage.Written? ==>
      && w.stage.inode < |d.inodes| && w.stage.inode !in d.sealed
      && (w.stage.Writing? ==>
            w.stage.written <= |w.bytes| && d.inodes[w.stage.inode] == w.bytes[..w.stage.written])
      && (w.stage.Written? ==> d.inodes[w.stage.inode] == w.bytes)
      && (forall n :: n in d.names && d.names[n] == w.stage.inode ==> n == w.Temp())
      && (w.Temp() in d.names ==> d.names[w.Temp()] == w.stage.inode)
  }

  ghost predicate HandsDiffer(d: Disk) {
    forall v, w, i :: 0 <= v < w < |d.writers| && d.writers[v].Holds(i) ==> !d.writers[w].Holds(i)
  }

  /** A published name shows what it showed at first, or all the bytes of one
      finished write to it. */
  ghost predicate Whole(start: Disk, d: Disk, key: string)
    requires NamesFit(d) && NamesFit(start)
    requires Published(key) in d.names
  {
    var now := d.inodes[d.names[Published(key)]];
    || (Published(key) in start.names && now == start.inodes[start.names[Published(key)]])
    || (exists w :: 0 <= w < |d.writers| && d.writers[w].key == key
                    && d.writers[w].stage.Finished? && d.writers[w].bytes == now)
  }

  ghost predicate Inv(start: Disk, d: Disk) {
    && NamesFit(start) && NamesFit(d) && WritersDiffer(d) && HandsDiffer(d)
    && (forall w :: 0 <= w < |d.writers| ==> HandsFit(d, d.writers[w]))
    && (forall key :: Published(key) in d.names ==> Whole(start, d, key))
  }

  /** Nobody writing yet; temporaries may be left over from an earlier run. */
  ghost predicate Init(d: Disk) {
    NamesFit(d) && d.writers == []
  }

  /** Finished writes are remembered and the bytes shown are the same. */
  lemma WholeStays(start: Disk, d: Disk, t: Disk, k: string)
    requires NamesFit(start) && NamesFit(d) && NamesFit(t) && StillNamed(d, t, k) && Whole(start, d, k)
    requires t.inodes[t.names[Published(k)]] == d.inodes[d.names[Published(k)]]
    requires |d.writers| <= |t.writers|
    requires forall v :: 0 <= v < |d.writers| && d.writers[v].stage.Finished? ==> t.writers[v] == d.writers[v]
    ensures Whole(start, t, k)
  {
    var now := d.inodes[d.names[Published(k)]];
    if w :| 0 <= w < |d.writers| && d.writers[w].key == k && d.writers[w].stage.Finished? && d.writers[w].bytes == now {
      assert t.writers[w] == d.writers[w];
    }
  }

  lemma BeginApart(d: Disk, pid: nat, key: string, bytes: seq<byte>)
    requires WritersDiffer(d) && HandsDiffer(d)
    ensures var t := Next(d, Begin(pid, key, bytes)); WritersDiffer(t) && HandsDiffer(t)
  {
    var t := Next(d, Begin(pid, key, bytes));
    assert forall v :: 0 <= v < |d.writers| ==> t.writers[v] == d.writers[v];
    assert t.writers[|d.writers|].stage == Named;
    assert forall p :: Count(d, p) <= Count(t, p);
  }

  lemma BeginKeeps(start: Disk, d: Disk, pid: nat, key: string, bytes: seq<byte>)
    requires Inv(start, d)
    ensures Inv(start, Next(d, Begin(pid, key, bytes)))
  {
    var t := Next(d, Begin(pid, key, bytes));
    BeginApart(d, pid, key, bytes);
    forall k | Published(k) in t.names ensures Whole(start, t, k) {
      WholeStays(start, d, t, k);
    }
    forall v | 0 <= v < |t.writers| ensures HandsFit(t, t.writers[v]) {
      if v < |d.writers| {
        assert HandsFit(d, d.writers[v]);
      }
    }
  }

  ghost predicate StillNamed(d: Disk, t: Disk, k: string) {
    && Published(k) in t.names && Published(k) in d.names
    && t.names[Published(k)] == d.names[Published(k)]
  }

  /** Changing one writer's stage, and nothing a published name shows. */
  lemma WholeKept(start: Disk, d: Disk, t: Disk, w: nat)
    requires Inv(start, d) && NamesFit(t) && w < |d.writers|
    requires |t.writers| == |d.writers| && t.writers == d.writers[w := t.writers[w]]
    requires t.writers[w].key == d.writers[w].key && t.writers[w].bytes == d.writers[w].bytes
    requires !d.writers[w].stage.Finished?
    requires |d.inodes| <= |t.inodes|
    requires forall i :: i in d.sealed ==> t.inodes[i] == d.inodes[i]
    ensures forall k :: StillNamed(d, t, k) ==> Whole(start, t, k)
  {
    forall k | StillNamed(d, t, k) ensures Whole(start, t, k) {
      assert d.names[Published(k)] in d.sealed;
      WholeStays(start, d, t, k);
    }
  }

  lemma TempsDiffer(d: Disk, v: nat, w: nat)
    requires WritersDiffer(d) && v < |d.writers| && w < |d.writers| && v != w
    ensures d.writers[v].Temp() != d.writers[w].Temp()
  {
  }

  lemma CreateHands(start: Disk, d: Disk, w: nat, v: nat)
    requires Inv(start, d) && Enabled(d, Create(w)) && v < |d.writers|
    ensures var t := Next(d, Create(w));
            && HandsFit(t, t.writers[v])
            && (v != w ==> !t.writers[v].Holds(t.writers[w].stage.inode))
  {
    var t := Next(d, Create(w));
    if v != w {
      TempsDiffer(d, v, w);
      assert HandsFit(d, d.writers[v]);
    }
  }

  lemma CreateNames(d: Disk, w: nat)
    requires NamesFit(d) && Enabled(d, Create(w))
    ensures var t := Next(d, Create(w));
            && NamesFit(t)
            && (forall k :: Published(k) in t.names ==> StillNamed(d, t, k))
            && (forall i :: i in d.sealed ==> t.inodes[i] == d.inodes[i])
  {
    var temp := d.writers[w].Temp();
    if temp !in d.names {
      var t := Next(d, Create(w));
      assert forall n :: n in t.names && n != temp ==> n in d.names && t.names[n] == d.names[n];
    }
  }

  lemma CreateKeeps(start: Disk, d: Disk, w: nat)
    requires Inv(start, d) && Enabled(d, Create(w))
    ensures Inv(start, Next(d, Create(w)))
  {
    var t := Next(d, Create(w));
    CreateNames(d, w);
    WholeKept(start, d, t, w);
    forall v | 0 <= v < |t.writers|
      ensures HandsFit(t, t.writers[v])
      ensures v != w ==> t.writers[v] == d.writers[v] && !t.writers[v].Holds(t.writers[w].stage.inode)
    {
      CreateHands(start, d, w, v);
    }
  }

  lemma WriteHands(start: Disk, d: Disk, w: nat, count: nat, v: nat)
    requires Inv(start, d) && Enabled(d, Write(w, count)) && v < |d.writers|
    ensures var t := Next(d, Write(w, count)); HandsFit(t, t.writers[v])
  {
    var t := Next(d, Write(w, count));
    var writer := d.writers[w];
    var i, from := writer.stage.inode, writer.stage.written;
    assert HandsFit(d, writer) && HandsFit(d, d.writers[v]);
    if v == w {
      assert writer.bytes[..from] + writer.bytes[from..from + count] == writer.bytes[..from + count];
    } else {
      assert writer.Holds(i) && !d.writers[v].Holds(i);
    }
  }

  lemma WriteApart(d: Disk, w: nat, count: nat)
    requires WritersDiffer(d) && HandsDiffer(d) && Enabled(d, Write(w, count))
    ensures var t := Next(d, Write(w, count)); WritersDiffer(t) && HandsDiffer(t)
  {
    var t := Next(d, Write(w, count));
    assert forall v, i :: 0 <= v < |t.writers| ==> (t.writers[v].Holds(i) <==> d.writers[v].Holds(i));
  }

  lemma WriteKeeps(start: Disk, d: Disk, w: nat, count: nat)
    requires Inv(start, d) && Enabled(d, Write(w, count))
    ensures Inv(start, Next(d, Write(w, count)))
  {
    var t := Next(d, Write(w, count));
    assert HandsFit(d, d.writers[w]);
    assert NamesFit(t);
    WriteApart(d, w, count);
    WholeKept(start, d, t, w);
    assert forall k :: Published(k) in t.names ==> StillNamed(d, t, k);
    forall v | 0 <= v < |t.writers| ensures HandsFit(t, t.writers[v]) {
      WriteHands(start, d, w, count, v);
    }
  }

  lemma CloseHands(start: Disk, d: Disk, w: nat, v: nat)
    requires Inv(start, d) && Enabled(d, Close(w)) && v < |d.writers|
    ensures var t := Next(d, Close(w)); HandsFit(t, t.writers[v])
  {
    assert HandsFit(d, d.writers[v]);
    if v == w {
      assert d.writers[w].bytes[..d.writers[w].stage.written] == d.writers[w].bytes;
    }
  }

  lemma CloseApart(d: Disk, w: nat)
    requires WritersDiffer(d) && HandsDiffer(d) && Enabled(d, Close(w))
    ensures var t := Next(d, Close(w)); WritersDiffer(t) && HandsDiffer(t)
  {
    var t := Next(d, Close(w));
    assert forall v, i :: 0 <= v < |t.writers| ==> (t.writers[v].Holds(i) <==> d.writers[v].Holds(i));
  }

  lemma CloseKeeps(start: Disk, d: Disk, w: nat)
    requires Inv(start, d) && Enabled(d, Close(w))
    ensures Inv(start, Next(d, Close(w)))
  {
    var t := Next(d, Close(w));
    assert NamesFit(t);
    CloseApart(d, w);
    WholeKept(start, d, t, w);
    assert forall k :: Published(k) in t.names ==> StillNamed(d, t, k);
    forall v | 0 <= v < |t.writers| ensures HandsFit(t, t.writers[v]) {
      CloseHands(start, d, w, v);
    }
  }

  lemma RenameNames(start: Disk, d: Disk, w: nat)
    requires Inv(start, d) && Enabled(d, Rename(w)) && d.writers[w].Temp() in d.names
    ensures NamesFit(Next(d, Rename(w)))
  {
    var t := Next(d, Rename(w));
    var temp, target := d.writers[w].Temp(), Published(d.writers[w].key);
    var i := d.names[temp];
    forall n | n in t.names && n != target ensures n in d.names && t.names[n] == d.names[n] && d.names[n] != i {
      assert n != temp;
    }
    assert t.names[target] == i;
  }

  lemma RenameApart(start: Disk, d: Disk, w: nat)
    requires Inv(start, d) && Enabled(d, Rename(w)) && d.writers[w].Temp() in d.names
    ensures var t := Next(d, Rename(w)); WritersDiffer(t) && HandsDiffer(t)
  {
    var t := Next(d, Rename(w));
    assert forall v :: 0 <= v < |t.writers| && v != w ==> t.writers[v] == d.writers[v];
    assert t.writers[w] == d.writers[w].(stage := Finished);
  }

  lemma RenameHands(start: Disk, d: Disk, w: nat, v: nat)
    requires Inv(start, d) && Enabled(d, Rename(w)) && d.writers[w].Temp() in d.names && v < |d.writers|
    ensures var t := Next(d, Rename(w)); HandsFit(t, t.writers[v])
  {
    var t := Next(d, Rename(w));
    var writer := d.writers[w];
    assert HandsFit(d, writer) && HandsFit(d, d.writers[v]);
    if v != w {
      TempsDiffer(d, v, w);
      assert writer.Holds(writer.stage.inode) && !d.writers[v].Holds(writer.stage.inode);
    }
  }

  /** A writer that gives up changes nothing but, perhaps, what it named. */
  lemma GivenUpKeeps(start: Disk, d: Disk, w: nat, t: Disk)
    requires Inv(start, d) && w < |d.writers| && !d.writers[w].stage.Finished?
    requires t == Staged(d, w, GivenUp).(names := t.names)
    requires forall n :: n in t.names ==> n in d.names && t.names[n] == d.names[n]
    ensures Inv(start, t)
  {
    assert NamesFit(t);
    WholeKept(start, d, t, w);
    assert forall k :: Published(k) in t.names ==> StillNamed(d, t, k);
    forall v | 0 <= v < |t.writers| ensures HandsFit(t, t.writers[v]) {
      assert HandsFit(d, d.writers[v]);
    }
  }

  lemma RenameKeeps(start: Disk, d: Disk, w: nat)
    requires Inv(start, d) && Enabled(d, Rename(w))
    ensures Inv(start, Next(d, Rename(w)))
  {
    if d.writers[w].Temp() in d.names {
      RenamedKeeps(start, d, w);
    } else {
      GivenUpKeeps(start, d, w, Next(d, Rename(w)));
    }
  }

  lemma RenamedKeeps(start: Disk, d: Disk, w: nat)
    requires Inv(start, d) && Enabled(d, Rename(w)) && d.writers[w].Temp() in d.names
    ensures Inv(start, Next(d, Rename(w)))
  {
    var t := Next(d, Rename(w));
    var writer := d.writers[w];
    RenameNames(start, d, w);
    RenameApart(start, d, w);
    WholeKept(start, d, t, w);
    assert HandsFit(d, writer);
    forall k | Published(k) in t.names ensures Whole(start, t, k) {
      if k == writer.key {
        assert t.writers[w].stage.Finished? && t.writers[w].bytes == t.inodes[t.names[Published(k)]];
      } else {
        assert StillNamed(d, t, k);
      }
    }
    forall v | 0 <= v < |t.writers| ensures HandsFit(t, t.writers[v]) {
      RenameHands(start, d, w, v);
    }
  }

  lemma AbandonKeeps(start: Disk, d: Disk, w: nat, removed: bool)
    requires Inv(start, d) && Enabled(d, Abandon(w, removed))
    ensures Inv(start, Next(d, Abandon(w, removed)))
  {
    GivenUpKeeps(start, d, w, Next(d, Abandon(w, removed)));
  }

  lemma RemoveKeeps(start: Disk, d: Disk, name: Name)
    requires Inv(start, d)
    ensures Inv(start, Next(d, Remove(name)))
  {
    var t := Next(d, Remove(name));
    forall v | 0 <= v < |t.writers| ensures HandsFit(t, t.writers[v]) {
      assert HandsFit(d, d.writers[v]);
    }
    forall k | Published(k) in t.names ensures Whole(start, t, k) {
      assert Whole(start, d, k);
    }
  }

  lemma StepKeepsInv(start: Disk, d: Disk, step: Step)
    requires Inv(start, d) && Enabled(d, step)
    ensures Inv(start, Next(d, step))
  {
    match step
    case Begin(pid, key, bytes) => BeginKeeps(start, d, pid, key, bytes);
    case Create(w) => CreateKeeps(start, d, w);
    case Write(w, count) => WriteKeeps(start, d, w, count);
    case Close(w) => CloseKeeps(start, d, w);
    case Rename(w) => RenameKeeps(start, d, w);
    case Abandon(w, removed) => AbandonKeeps(start, d, w, removed);
    case Remove(name) => RemoveKeeps(start, d, name);
  }

  lemma {:induction false} RunKeepsInv(start: Disk, d: Disk, steps: seq<Step>)
    requires Inv(start, d) && Runs(d, steps)
    ensures Inv(start, After(d, steps))
    decreases |steps|
  {
    if steps != [] {
      StepKeepsInv(start, d, steps[0]);
      RunKeepsInv(start, Next(d, steps[0]), steps[1..]);
    }
  }

  // ---- What every run promises ----

  /** However many writes and deletions run at once, and however they fail: a
      published name is never an inode still being written, and shows what was
      there first or the whole of one finished write to that very name. */
  lemma NoReaderSeesATear(start: Disk, steps: seq<Step>, key: string)
    requires Init(start) && Runs(start, steps)
    requires Published(key) in After(start, steps).names
    ensures var d := After(start, steps);
            && d.names[Published(key)] < |d.inodes|
            && (forall w :: 0 <= w < |d.writers| ==> !d.writers[w].Holds(d.names[Published(key)]))
            && NamesFit(start) && NamesFit(d) && Whole(start, d, key)
  {
    RunKeepsInv(start, start, steps);
    var d := After(start, steps);
    forall w | 0 <= w < |d.writers| ensures !d.writers[w].Holds(d.names[Published(key)]) {
      assert HandsFit(d, d.writers[w]);
    }
  }

  lemma StepLeavesSealed(start: Disk, d: Disk, step: Step, i: nat)
    requires Inv(start, d) && Enabled(d, step) && i in d.sealed
    ensures var t := Next(d, step); i in t.sealed && i < |t.inodes| && t.inodes[i] == d.inodes[i]
  {
    if step.Write? {
      assert HandsFit(d, d.writers[step.w]);
    }
  }

  /** A reader that has opened a published file reads one version of it to the
      end, whatever happens to the name meanwhile: the bytes never change. */
  lemma {:induction false} PublishedBytesNeverChange(start: Disk, d: Disk, steps: seq<Step>, i: nat)
    requires Inv(start, d) && Runs(d, steps) && i in d.sealed
    ensures var t := After(d, steps); i < |t.inodes| && t.inodes[i] == d.inodes[i]
    decreases |steps|
  {
    if steps != [] {
      StepKeepsInv(start, d, steps[0]);
      StepLeavesSealed(start, d, steps[0], i);
      PublishedBytesNeverChange(start, Next(d, steps[0]), steps[1..], i);
    }
  }

  /** A step that publishes or removes a name. */
  predicate Renames(step: Step) {
    step.Rename? || step.Remove?
  }

  /** This name shows what it showed, through the same inode. */
  ghost predicate SameAt(d: Disk, t: Disk, k: string) {
    && (Published(k) in t.names <==> Published(k) in d.names)
    && (Published(k) in d.names ==>
          && t.names[Published(k)] == d.names[Published(k)]
          && d.names[Published(k)] < |d.inodes| && d.names[Published(k)] < |t.inodes|
          && t.inodes[d.names[Published(k)]] == d.inodes[d.names[Published(k)]])
  }

  ghost predicate ShowsTheSame(d: Disk, t: Disk) {
    forall k :: SameAt(d, t, k)
  }

  lemma StepShowsTheSame(start: Disk, d: Disk, step: Step)
    requires Inv(start, d) && Enabled(d, step) && !Renames(step)
    ensures ShowsTheSame(d, Next(d, step))
  {
    forall k ensures SameAt(d, Next(d, step), k) {
      if Published(k) in d.names {
        StepLeavesSealed(start, d, step, d.names[Published(k)]);
      }
    }
  }

  lemma {:induction false} RunShowsTheSame(start: Disk, d: Disk, steps: seq<Step>)
    requires Inv(start, d) && Runs(d, steps)
    requires forall i :: 0 <= i < |steps| ==> !Renames(steps[i])
    ensures ShowsTheSame(d, After(d, steps))
    decreases |steps|
  {
    if steps != [] {
      var next := Next(d, steps[0]);
      StepShowsTheSame(start, d, steps[0]);
      StepKeepsInv(start, d, steps[0]);
      RunShowsTheSame(start, next, steps[1..]);
      forall k ensures SameAt(d, After(d, steps), k) {
        assert SameAt(d, next, k) && SameAt(next, After(d, steps), k);
      }
    } else {
      forall k ensures SameAt(d, d, k) {
        assert NamesFit(d);
      }
    }
  }

  // ---- One whole call ----

  /** How a write may go wrong: not even created, cut short, or not renamed. */
  datatype Trouble = NoTrouble | NotCreated | CutShort(written: nat) | NotRenamed

  lemma {:induction false} RunExtended(d: Disk, steps: seq<Step>, step: Step)
    requires Runs(d, steps) && Enabled(After(d, steps), step)
    ensures Runs(d, steps + [step]) && After(d, steps + [step]) == Next(After(d, steps), step)
    decreases |steps|
  {
    if steps == [] {
      assert [] + [step] == [step] && [step][1..] == [];
    } else {
      assert (steps + [step])[1..] == steps[1..] + [step];
      RunExtended(Next(d, steps[0]), steps[1..], step);
    }
  }

  ghost predicate Reaches(d: Disk, steps: seq<Step>, t: Disk) {
    Runs(d, steps) && After(d, steps) == t
  }

  predicate RenamesNothing(steps: seq<Step>) {
    forall i :: 0 <= i < |steps| ==> !Renames(steps[i])
  }

  lemma Reached(d: Disk, steps: seq<Step>, t: Disk, step: Step)
    requires Reaches(d, steps, t) && Enabled(t, step)
    ensures Reaches(d, steps + [step], Next(t, step))
  {
    RunExtended(d, steps, step);
  }

  class FileSystem {
    var names: map<Name, nat>
    var inodes: seq<seq<byte>>
    var counters: map<nat, nat>
    ghost var writers: seq<Writer>
    ghost var sealed: set<nat>

    ghost function View(): Disk
      reads this
    {
      Disk(names, inodes, counters, writers, sealed)
    }

    constructor ()
      ensures View() == Disk(map[], [], map[], [], {})
    {
      names, inodes, counters, writers, sealed := map[], [], map[], [], {};
    }

    method BeginWrite(pid: nat, key: string, ghost bytes: seq<byte>) returns (temp: Name, ghost w: nat)
      modifies this
      ensures View() == Next(old(View()), Begin(pid, key, bytes))
      ensures w == |old(writers)| && temp == writers[w].Temp()
    {
      var nth := if pid in counters then counters[pid] else 0;
      counters := counters[pid := nth + 1];
      w := |writers|;
      writers := writers + [Writer(pid, nth, key, bytes, Named)];
      temp := Temporary(key, pid, nth);
    }

    /** Creates the file, or truncates what the name already points at. */
    method CreateFile(temp: Name, ghost w: nat) returns (inode: nat)
      requires Enabled(View(), Create(w)) && temp == writers[w].Temp()
      modifies this
      ensures View() == Next(old(View()), Create(w))
      ensures writers[w].stage == Writing(inode, 0) && inode < |inodes|
    {
      if temp in names && names[temp] < |inodes| {
        inode := names[temp];
        inodes := inodes[inode := []];
      } else {
        inode := |inodes|;
        inodes := inodes + [[]];
        names := names[temp := inode];
      }
      writers := writers[w := writers[w].(stage := Writing(inode, 0))];
    }

    method WriteBytes(inode: nat, data: seq<byte>, ghost w: nat)
      requires Enabled(View(), Write(w, |data|))
      requires writers[w].stage == Writing(inode, 0) && data == writers[w].bytes[..|data|]
      modifies this
      ensures View() == Next(old(View()), Write(w, |data|))
    {
      inodes := inodes[inode := inodes[inode] + data];
      writers := writers[w := writers[w].(stage := Writing(inode, |data|))];
    }

    method RenameFile(temp: Name, key: string, ghost w: nat) returns (ok: bool)
      requires Enabled(View(), Rename(w)) && temp == writers[w].Temp() && key == writers[w].key
      modifies this
      ensures View() == Next(old(View()), Rename(w)) && (ok <==> temp in old(names))
    {
      ok := temp in names;
      if ok {
        sealed := sealed + {names[temp]};
        names := Without(names, temp)[Published(key) := names[temp]];
        writers := writers[w := writers[w].(stage := Finished)];
      } else {
        writers := writers[w := writers[w].(stage := GivenUp)];
      }
    }

    /** Tries to; a temporary that refuses to go is left where it is. */
    method RemoveTemporary(temp: Name, stuck: bool, ghost w: nat)
      requires Enabled(View(), Abandon(w, !stuck)) && temp == writers[w].Temp()
      modifies this
      ensures View() == Next(old(View()), Abandon(w, !stuck))
    {
      if !stuck {
        names := Without(names, temp);
      }
      writers := writers[w := writers[w].(stage := GivenUp)];
    }

    /** `before` is the run so far. */
    method FillFile(temp: Name, inode: nat, bytes: seq<byte>, trouble: Trouble, stuck: bool, ghost w: nat,
                    ghost start: Disk, ghost before: seq<Step>)
      returns (ok: bool, ghost steps: seq<Step>)
      requires Reaches(start, before, View()) && RenamesNothing(before)
      requires w < |writers| && writers[w].stage == Writing(inode, 0) && writers[w].bytes == bytes
      requires temp == writers[w].Temp() && temp in names && names[temp] == inode
      requires inode < |inodes| && inodes[inode] == []
      modifies this
      ensures Reaches(start, steps, View()) && RenamesNothing(steps)
      ensures ok <==> !trouble.CutShort?
      ensures forall n :: n in names ==> n in old(names)
      ensures !ok && !stuck ==> temp !in names
      ensures |writers| == |old(writers)|
      ensures writers[w].key == old(writers)[w].key && writers[w].Temp() == temp && writers[w].bytes == bytes
      ensures ok ==>
                && writers[w].stage.Writing? && writers[w].stage.written == |bytes|
                && temp in names && names[temp] < |inodes| && inodes[names[temp]] == bytes
    {
      ghost var created := View();
      var count := if trouble.CutShort? && trouble.written < |bytes| then trouble.written else |bytes|;
      assert [] + bytes[..|bytes|] == bytes;
      WriteBytes(inode, bytes[..count], w);
      Reached(start, before, created, Write(w, count));
      steps := before + [Write(w, count)];
      ok := !trouble.CutShort?;
      if !ok {
        ghost var written := View();
        RemoveTemporary(temp, stuck, w);
        Reached(start, steps, written, Abandon(w, !stuck));
        steps := steps + [Abandon(w, !stuck)];
      }
    }

    /** Written in full under its own name, or taken away again. */
    method WriteAside(pid: nat, key: string, bytes: seq<byte>, trouble: Trouble, stuck: bool)
      returns (ok: bool, temp: Name, ghost w: nat, ghost steps: seq<Step>)
      modifies this
      ensures Reaches(old(View()), steps, View()) && RenamesNothing(steps)
      ensures ok <==> trouble.NoTrouble? || trouble.NotRenamed?
      ensures forall n :: n in names ==> n in old(names) || n == temp
      ensures !ok && !stuck ==> temp !in names
      ensures w < |writers| && temp == writers[w].Temp() && writers[w].key == key && writers[w].bytes == bytes
      ensures ok ==>
                && writers[w].stage.Writing? && writers[w].stage.written == |bytes|
                && temp in names && names[temp] < |inodes| && inodes[names[temp]] == bytes
    {
      ghost var start := View();
      temp, w := BeginWrite(pid, key, bytes);
      Reached(start, [], start, Begin(pid, key, bytes));
      steps := [] + [Begin(pid, key, bytes)];
      ghost var begun := View();
      if trouble.NotCreated? {
        RemoveTemporary(temp, stuck, w);
        Reached(start, steps, begun, Abandon(w, !stuck));
        steps := steps + [Abandon(w, !stuck)];
        ok := false;
        return;
      }
      var inode := CreateFile(temp, w);
      Reached(start, steps, begun, Create(w));
      steps := steps + [Create(w)];
      ok, steps := FillFile(temp, inode, bytes, trouble, stuck, w, start, steps);
    }

    /** One call with nobody else in between: a run of the steps above, after
        which the path shows all the bytes, or the call has failed and every
        published name shows what it did. */
    method ReplaceFile(pid: nat, key: string, bytes: seq<byte>, trouble: Trouble, stuck: bool, ghost origin: Disk)
      returns (ok: bool, ghost steps: seq<Step>)
      requires Inv(origin, View())
      modifies this
      ensures Inv(origin, View()) && Reaches(old(View()), steps, View())
      ensures ok <==> trouble.NoTrouble?
      ensures ok ==> Published(key) in names && names[Published(key)] < |inodes| && inodes[names[Published(key)]] == bytes
      ensures !ok ==> ShowsTheSame(old(View()), View())
      ensures ok || !stuck ==> forall n :: n in names ==> n in old(names) || (ok && n == Published(key))
      ensures forall k :: k != key ==> SameAt(old(View()), View(), k)
    {
      ghost var start := View();
      var temp: Name;
      ghost var w: nat;
      ok, temp, w, steps := WriteAside(pid, key, bytes, trouble, stuck);
      ghost var aside := View();
      if ok && trouble.NotRenamed? {
        RemoveTemporary(temp, stuck, w);
        Reached(start, steps, aside, Abandon(w, !stuck));
        steps := steps + [Abandon(w, !stuck)];
        ok := false;
      }
      RunShowsTheSame(origin, start, steps);
      if ok {
        Publish(temp, key, bytes, w, start, steps);
        steps := steps + [Close(w)] + [Rename(w)];
        assert forall k :: k != key ==> SameAt(start, aside, k) ==> SameAt(start, View(), k);
      }
      RunKeepsInv(origin, start, steps);
    }

    method Publish(temp: Name, key: string, bytes: seq<byte>, ghost w: nat, ghost start: Disk, ghost steps: seq<Step>)
      requires Reaches(start, steps, View())
      requires w < |writers| && temp == writers[w].Temp() && writers[w].key == key && writers[w].bytes == bytes
      requires writers[w].stage.Writing? && writers[w].stage.written == |bytes|
      requires temp in names && names[temp] < |inodes| && inodes[names[temp]] == bytes
      modifies this
      ensures Reaches(start, steps + [Close(w)] + [Rename(w)], View())
      ensures inodes == old(inodes)
      ensures forall n :: n in names ==> n == Published(key) || (n in old(names) && n != temp)
      ensures forall k :: k != key ==>
                && (Published(k) in names <==> Published(k) in old(names))
                && (Published(k) in names ==> names[Published(k)] == old(names)[Published(k)])
      ensures Published(key) in names && names[Published(key)] < |inodes| && inodes[names[Published(key)]] == bytes
    {
      ghost var aside := View();
      writers := writers[w := writers[w].(stage := Written(writers[w].stage.inode))];
      Reached(start, steps, aside, Close(w));
      ghost var closed := View();
      var ok := RenameFile(temp, key, w);
      Reached(start, steps + [Close(w)], closed, Rename(w));
    }
  }
}
