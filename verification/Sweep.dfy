/**
 Files under a budget: deleting the longest unused until the total fits again,
 and counting bytes written so that it need not be asked at every write.
 */
module Sweep {
  import opened Wrappers

  datatype Part = Body | Meta

  /** A cache entry is two files, each first written beside itself under the
      name of one write of one process. */
  datatype Name = Name(key: string, part: Part) | Temporary(key: string, pid: nat, nth: nat)

  datatype File = File(name: Name, used: nat, size: nat)

  function Total(files: seq<File>): nat {
    if files == [] then 0 else files[0].size + Total(files[1..])
  }

  function Names(files: seq<File>): set<Name> {
    set i | 0 <= i < |files| :: files[i].name
  }

  predicate Distinct(files: seq<File>) {
    forall i, j :: 0 <= i < j < |files| ==> files[i].name != files[j].name
  }

  function Without(files: seq<File>, gone: set<Name>): seq<File> {
    if files == [] then []
    else if files[0].name in gone then Without(files[1..], gone)
    else [files[0]] + Without(files[1..], gone)
  }

  // ---- Oldest first ----

  function Insert(f: File, files: seq<File>): seq<File> {
    if files == [] || f.used <= files[0].used then [f] + files else [files[0]] + Insert(f, files[1..])
  }

  /** A stable sort by last use. */
  function Sorted(files: seq<File>): seq<File> {
    if files == [] then [] else Insert(files[0], Sorted(files[1..]))
  }

  predicate Ascending(files: seq<File>) {
    forall i, j :: 0 <= i < j < |files| ==> files[i].used <= files[j].used
  }

  lemma AscendingFront(f: File, files: seq<File>)
    requires Ascending(files) && forall g :: g in files ==> f.used <= g.used
    ensures Ascending([f] + files)
  {
    var r := [f] + files;
    assert forall i :: 0 < i < |r| ==> r[i] == files[i - 1] && r[i] in files;
  }

  lemma {:induction false} InsertHolds(f: File, files: seq<File>)
    ensures Names(Insert(f, files)) == Names(files) + {f.name}
    ensures forall g :: g in Insert(f, files) <==> g == f || g in files
  {
    if files == [] || f.used <= files[0].used {
      NamesFront(f, files);
    } else {
      InsertHolds(f, files[1..]);
      assert files == [files[0]] + files[1..];
      NamesFront(files[0], Insert(f, files[1..]));
      NamesFront(files[0], files[1..]);
    }
  }

  lemma {:induction false} InsertAscends(f: File, files: seq<File>)
    requires Ascending(files)
    ensures Ascending(Insert(f, files))
    ensures Names(Insert(f, files)) == Names(files) + {f.name}
    ensures forall g :: g in Insert(f, files) <==> g == f || g in files
  {
    InsertHolds(f, files);
    if files == [] || f.used <= files[0].used {
      AscendingFront(f, files);
    } else {
      InsertAscends(f, files[1..]);
      AscendingFront(files[0], Insert(f, files[1..]));
    }
  }

  lemma NamesFront(f: File, files: seq<File>)
    ensures Names([f] + files) == {f.name} + Names(files)
  {
    var r := [f] + files;
    assert r[0] == f && forall i :: 0 <= i < |files| ==> r[i + 1] == files[i];
  }

  lemma {:induction false} SortedAscends(files: seq<File>)
    ensures Ascending(Sorted(files)) && Names(Sorted(files)) == Names(files)
    ensures forall g :: g in Sorted(files) <==> g in files
  {
    if files != [] {
      SortedAscends(files[1..]);
      InsertAscends(files[0], Sorted(files[1..]));
      NamesFront(files[0], files[1..]);
      assert files == [files[0]] + files[1..];
    }
  }

  lemma {:induction false} InsertWeighs(f: File, files: seq<File>, gone: set<Name>)
    ensures Total(Without(Insert(f, files), gone)) == Total(Without([f] + files, gone))
    ensures |Insert(f, files)| == |files| + 1
  {
    assert ([f] + files)[1..] == files;
    if !(files == [] || f.used <= files[0].used) {
      InsertWeighs(f, files[1..], gone);
      assert ([f] + files[1..])[1..] == files[1..];
      assert ([files[0]] + Insert(f, files[1..]))[1..] == Insert(f, files[1..]);
    }
  }

  /** Sorting changes no total, whatever is taken away. */
  lemma {:induction false} SortedWeighs(files: seq<File>, gone: set<Name>)
    ensures Total(Without(Sorted(files), gone)) == Total(Without(files, gone))
    ensures |Sorted(files)| == |files|
  {
    if files != [] {
      SortedWeighs(files[1..], gone);
      InsertWeighs(files[0], Sorted(files[1..]), gone);
      var s := [files[0]] + Sorted(files[1..]);
      assert s[1..] == Sorted(files[1..]);
    }
  }

  lemma {:induction false} WithoutNone(files: seq<File>)
    ensures Without(files, {}) == files
  {
    if files != [] {
      WithoutNone(files[1..]);
    }
  }

  lemma SortedTotal(files: seq<File>)
    ensures Total(Sorted(files)) == Total(files)
  {
    SortedWeighs(files, {});
    WithoutNone(files);
    WithoutNone(Sorted(files));
  }

  lemma {:induction false} InsertDistinct(f: File, files: seq<File>)
    requires Distinct([f] + files) && Ascending(files)
    ensures Distinct(Insert(f, files))
  {
    assert forall i :: 0 <= i < |files| ==> files[i] == ([f] + files)[i + 1];
    if !(files == [] || f.used <= files[0].used) {
      var rest := files[1..];
      assert Ascending(rest);
      var fr := [f] + rest;
      assert forall i, j :: 0 <= i < j < |fr| ==> fr[i].name != fr[j].name by {
        forall i, j | 0 <= i < j < |fr| ensures fr[i].name != fr[j].name {
          assert fr[j] == ([f] + files)[j + 1];
          if i > 0 {
            assert fr[i] == ([f] + files)[i + 1];
          } else {
            assert fr[i] == ([f] + files)[0];
          }
        }
      }
      InsertDistinct(f, rest);
      InsertAscends(f, rest);
      var r := Insert(f, rest);
      assert files[0].name !in Names(rest) && files[0].name != f.name by {
        assert ([f] + files)[0] == f && ([f] + files)[1] == files[0];
      }
      assert forall j :: 0 <= j < |r| ==> r[j].name in Names(r);
      var whole := [files[0]] + r;
      assert forall j :: 0 < j < |whole| ==> whole[j] == r[j - 1];
    }
  }

  lemma {:induction false} SortedDistinct(files: seq<File>)
    requires Distinct(files)
    ensures Distinct(Sorted(files))
  {
    if files != [] {
      var rest := Sorted(files[1..]);
      SortedDistinct(files[1..]);
      SortedAscends(files[1..]);
      assert files[0].name !in Names(files[1..]);
      var fr := [files[0]] + rest;
      assert forall j :: 0 <= j < |rest| ==> rest[j].name in Names(rest);
      assert forall j :: 0 < j < |fr| ==> fr[j] == rest[j - 1];
      assert Distinct(fr);
      InsertDistinct(files[0], rest);
    }
  }

  // ---- The sweep ----

  /** What is deleted of `sorted` when `freed` bytes are gone already; `stuck`
      files refuse to be deleted. */
  function Doomed(sorted: seq<File>, total: nat, freed: nat, budget: nat, stuck: set<Name>): seq<File>
    decreases sorted
  {
    if sorted == [] || total <= budget + freed then []
    else if sorted[0].name in stuck then Doomed(sorted[1..], total, freed, budget, stuck)
    else [sorted[0]] + Doomed(sorted[1..], total, freed + sorted[0].size, budget, stuck)
  }

  function Swept(files: seq<File>, budget: nat, stuck: set<Name>): seq<File> {
    Without(files, Names(Doomed(Sorted(files), Total(files), 0, budget, stuck)))
  }

  class Directory {
    var files: seq<File>

    constructor (files: seq<File>)
      ensures this.files == files
    {
      this.files := files;
    }

    method Remove(name: Name)
      modifies this
      ensures files == Without(old(files), {name})
    {
      files := Without(files, {name});
    }

    method SweepTo(budget: nat, stuck: set<Name>)
      modifies this
      ensures files == Swept(old(files), budget, stuck)
    {
      var total := Total(files);
      WithoutNone(files);
      if total <= budget {
        assert Doomed(Sorted(files), total, 0, budget, stuck) == [];
        assert Names([]) == {};
        return;
      }
      var sorted := Sorted(files);
      ghost var doomed := Doomed(sorted, total, 0, budget, stuck);
      ghost var gone: seq<File> := [];
      var freed: nat, i: nat := 0, 0;
      assert Names(gone) == {};
      assert sorted[0..] == sorted;
      while i < |sorted| && total > budget + freed
        invariant 0 <= i <= |sorted|
        invariant doomed == gone + Doomed(sorted[i..], total, freed, budget, stuck)
        invariant files == Without(old(files), Names(gone))
      {
        ghost var rest := sorted[i..];
        assert rest[1..] == sorted[i + 1..];
        if sorted[i].name !in stuck {
          Remove(sorted[i].name);
          NamesBack(gone, sorted[i]);
          WithoutTwice(old(files), Names(gone), {sorted[i].name});
          gone := gone + [sorted[i]];
          freed := freed + sorted[i].size;
        }
        i := i + 1;
      }
      assert gone + [] == gone;
    }
  }

  lemma NamesBack(files: seq<File>, f: File)
    ensures Names(files + [f]) == Names(files) + {f.name}
  {
    var r := files + [f];
    assert r[|files|] == f && forall i :: 0 <= i < |files| ==> r[i] == files[i];
  }

  lemma {:induction false} WithoutTwice(files: seq<File>, a: set<Name>, b: set<Name>)
    ensures Without(Without(files, a), b) == Without(files, a + b)
  {
    if files != [] {
      WithoutTwice(files[1..], a, b);
      if files[0].name !in a {
        assert ([files[0]] + Without(files[1..], a))[1..] == Without(files[1..], a);
      }
    }
  }

  /** With nothing stuck, what goes is a prefix of the oldest-first order, and
      the shortest that brings the total within the budget. */
  lemma {:induction false} DoomedIsShortestPrefix(sorted: seq<File>, total: nat, freed: nat, budget: nat)
    returns (k: nat)
    requires total == freed + Total(sorted)
    ensures k <= |sorted| && Doomed(sorted, total, freed, budget, {}) == sorted[..k]
    ensures Total(sorted[k..]) <= budget
    ensures k > 0 ==> Total(sorted[k - 1..]) > budget
    decreases sorted
  {
    if sorted == [] || total <= budget + freed {
      k := 0;
      assert sorted[0..] == sorted;
    } else {
      var rest := DoomedIsShortestPrefix(sorted[1..], total, freed + sorted[0].size, budget);
      k := rest + 1;
      assert sorted[1..][rest..] == sorted[k..];
      assert [sorted[0]] + sorted[1..][..rest] == sorted[..k];
      if rest > 0 {
        assert sorted[1..][rest - 1..] == sorted[k - 1..];
      } else {
        assert sorted[k - 1..] == sorted;
      }
    }
  }

  lemma {:induction false} WithoutPrefix(sorted: seq<File>, k: nat)
    requires Distinct(sorted) && k <= |sorted|
    ensures Without(sorted, Names(sorted[..k])) == sorted[k..]
    decreases k
  {
    if k == 0 {
      assert Names(sorted[..0]) == {};
      WithoutNone(sorted);
    } else {
      var before := sorted[..k - 1];
      WithoutPrefix(sorted, k - 1);
      NamesBack(before, sorted[k - 1]);
      assert sorted[..k] == before + [sorted[k - 1]];
      WithoutTwice(sorted, Names(before), {sorted[k - 1].name});
      var tail := sorted[k - 1..];
      assert tail[1..] == sorted[k..];
      WithoutOther(tail[1..], sorted[k - 1].name);
    }
  }

  lemma {:induction false} WithoutOther(files: seq<File>, name: Name)
    requires forall i :: 0 <= i < |files| ==> files[i].name != name
    ensures Without(files, {name}) == files
  {
    if files != [] {
      WithoutOther(files[1..], name);
    }
  }

  /** With every deletion succeeding a sweep leaves no more than the budget,
      deletes the longest unused first, and not one file more than it must. */
  lemma SweepMeetsTheBudget(files: seq<File>, budget: nat) returns (k: nat)
    requires Distinct(files)
    ensures var sorted := Sorted(files);
            && k <= |sorted| && Ascending(sorted)
            && Swept(files, budget, {}) == Without(files, Names(sorted[..k]))
            && Total(Swept(files, budget, {})) == Total(sorted[k..]) <= budget
            && (k > 0 ==> Total(sorted[k - 1..]) > budget)
  {
    var sorted := Sorted(files);
    SortedAscends(files);
    SortedTotal(files);
    SortedDistinct(files);
    k := DoomedIsShortestPrefix(sorted, Total(files), 0, budget);
    SortedWeighs(files, Names(sorted[..k]));
    WithoutPrefix(sorted, k);
  }

  /** Whatever refuses to go: in the end the budget is met or everything that
      could go has gone. */
  lemma {:induction false} DoomedOrMet(sorted: seq<File>, total: nat, freed: nat, budget: nat, stuck: set<Name>)
    ensures var gone := Doomed(sorted, total, freed, budget, stuck);
            && (total <= budget + freed + Total(gone)
                || forall i :: 0 <= i < |sorted| && sorted[i].name !in stuck ==> sorted[i] in gone)
    ensures forall i :: 0 <= i < |Doomed(sorted, total, freed, budget, stuck)| ==>
              Doomed(sorted, total, freed, budget, stuck)[i].name !in stuck
    decreases sorted
  {
    if sorted != [] && total > budget + freed {
      var more := if sorted[0].name in stuck then 0 else sorted[0].size;
      DoomedOrMet(sorted[1..], total, freed + more, budget, stuck);
      var gone := Doomed(sorted, total, freed, budget, stuck);
      if sorted[0].name !in stuck {
        var later := Doomed(sorted[1..], total, freed + more, budget, stuck);
        assert gone == [sorted[0]] + later && gone[1..] == later;
      }
      assert forall i :: 0 < i < |sorted| ==> sorted[i] == sorted[1..][i - 1];
    }
  }

  /** The bytes of the files that refuse to be deleted. */
  function StuckBytes(files: seq<File>, stuck: set<Name>): nat {
    if files == [] then 0
    else (if files[0].name in stuck then files[0].size else 0) + StuckBytes(files[1..], stuck)
  }

  lemma {:induction false} StuckOrNot(files: seq<File>, stuck: set<Name>)
    ensures StuckBytes(files, stuck) + Total(Without(files, stuck)) == Total(files)
  {
    if files != [] {
      StuckOrNot(files[1..], stuck);
      if files[0].name !in stuck {
        assert ([files[0]] + Without(files[1..], stuck))[1..] == Without(files[1..], stuck);
      }
    }
  }

  lemma {:induction false} NothingStuck(files: seq<File>)
    ensures StuckBytes(files, {}) == 0
  {
    if files != [] {
      NothingStuck(files[1..]);
    }
  }

  lemma {:induction false} DoomedAreThere(sorted: seq<File>, total: nat, freed: nat, budget: nat, stuck: set<Name>)
    ensures forall n :: n in Names(Doomed(sorted, total, freed, budget, stuck)) ==> n in Names(sorted)
    decreases sorted
  {
    if sorted != [] && total > budget + freed {
      var more := if sorted[0].name in stuck then 0 else sorted[0].size;
      DoomedAreThere(sorted[1..], total, freed + more, budget, stuck);
      NamesFront(sorted[0], Doomed(sorted[1..], total, freed + more, budget, stuck));
      NamesFront(sorted[0], sorted[1..]);
      assert sorted == [sorted[0]] + sorted[1..];
    }
  }

  lemma OthersKeep(files: seq<File>, name: Name, gone: set<Name>)
    requires forall i :: 0 <= i < |files| ==> files[i].name != name
    ensures Without(files, {name} + gone) == Without(files, gone)
  {
    WithoutTwice(files, {name}, gone);
    WithoutOther(files, name);
  }

  /** What goes and what stays weigh together what there was. */
  lemma {:induction false} DoomedWeighs(sorted: seq<File>, total: nat, freed: nat, budget: nat, stuck: set<Name>)
    requires Distinct(sorted)
    ensures var gone := Doomed(sorted, total, freed, budget, stuck);
            Total(Without(sorted, Names(gone))) + Total(gone) == Total(sorted)
    decreases sorted
  {
    if sorted == [] || total <= budget + freed {
      assert Names([]) == {};
      WithoutNone(sorted);
    } else {
      var f, rest := sorted[0], sorted[1..];
      var more := if f.name in stuck then 0 else f.size;
      var later := Doomed(rest, total, freed + more, budget, stuck);
      assert forall i :: 0 <= i < |rest| ==> rest[i] == sorted[i + 1];
      DoomedWeighs(rest, total, freed + more, budget, stuck);
      DoomedAreThere(rest, total, freed + more, budget, stuck);
      if f.name in stuck {
        assert ([f] + Without(rest, Names(later)))[1..] == Without(rest, Names(later));
      } else {
        NamesFront(f, later);
        OthersKeep(rest, f.name, Names(later));
        assert ([f] + later)[1..] == later;
      }
    }
  }

  lemma {:induction false} SweepLeaves(sorted: seq<File>, total: nat, freed: nat, kept: nat, budget: nat, stuck: set<Name>)
    requires total == kept + freed + Total(sorted)
    ensures var left := Total(sorted) - Total(Doomed(sorted, total, freed, budget, stuck));
            && StuckBytes(sorted, stuck) <= left
            && (kept + left <= budget || left == StuckBytes(sorted, stuck))
    decreases sorted
  {
    if sorted == [] || total <= budget + freed {
      StuckOrNot(sorted, stuck);
    } else if sorted[0].name in stuck {
      SweepLeaves(sorted[1..], total, freed, kept + sorted[0].size, budget, stuck);
    } else {
      SweepLeaves(sorted[1..], total, freed + sorted[0].size, kept, budget, stuck);
      var later := Doomed(sorted[1..], total, freed + sorted[0].size, budget, stuck);
      assert ([sorted[0]] + later)[1..] == later;
    }
  }

  /** A sweep ends within the budget, or with nothing left but what refuses to
      go; and what refuses is always left. */
  lemma SweptOrStuck(files: seq<File>, budget: nat, stuck: set<Name>)
    requires Distinct(files)
    ensures var left := Total(Swept(files, budget, stuck));
            && StuckBytes(files, stuck) <= left
            && (left <= budget || left == StuckBytes(files, stuck))
    ensures Distinct(Swept(files, budget, stuck))
  {
    var sorted := Sorted(files);
    var gone := Doomed(sorted, Total(files), 0, budget, stuck);
    SortedTotal(files);
    SortedDistinct(files);
    SortedWeighs(files, Names(gone));
    SortedWeighs(files, stuck);
    StuckOrNot(files, stuck);
    StuckOrNot(sorted, stuck);
    DoomedWeighs(sorted, Total(files), 0, budget, stuck);
    SweepLeaves(sorted, Total(files), 0, 0, budget, stuck);
    WithoutShrinks(files, Names(gone));
  }

  // ---- The cache that sweeps now and then ----

  const SWEEP_FRACTION: nat := 8

  function Limit(budget: nat): nat {
    if budget / SWEEP_FRACTION > 1 then budget / SWEEP_FRACTION else 1
  }

  function Stored(files: seq<File>, f: File): seq<File> {
    Without(files, {f.name}) + [f]
  }

  /** A write that failed, and as much of its temporary as there was. */
  datatype Left = Left(pid: nat, nth: nat, size: nat)
  datatype Trouble = NoTrouble | BodyNotWritten(left: Option<Left>) | MetaNotWritten(left: Option<Left>)

  /** One put, while `stuck` files refuse to be deleted. */
  datatype PutCall = PutCall(key: string, bodySize: nat, metaSize: nat, now: nat, trouble: Trouble, stuck: set<Name>) {
    function BodyFile(): File {
      File(Name(key, Body), now, bodySize)
    }

    function MetaFile(): File {
      File(Name(key, Meta), now, metaSize)
    }

    function TempFile(): Option<File> {
      if trouble.NoTrouble? || trouble.left.None? then None
      else Some(File(Temporary(key, trouble.left.value.pid, trouble.left.value.nth), now, trouble.left.value.size))
    }

    function Written(): nat {
      bodySize + metaSize
    }
  }

  /** After a failed write: its temporary is deleted, unless it refuses to go. */
  function Aside(files: seq<File>, call: PutCall): seq<File> {
    match call.TempFile()
    case None => files
    case Some(f) => if f.name in call.stuck then Stored(files, f) else Without(files, {f.name})
  }

  /** The directory and the count of bytes written since the last sweep. */
  function Put(files: seq<File>, unswept: nat, budget: nat, call: PutCall): (seq<File>, nat) {
    match call.trouble
    case BodyNotWritten(_) => (Aside(files, call), unswept)
    case MetaNotWritten(_) =>
      var failed := Aside(Stored(files, call.BodyFile()), call);
      (if Name(call.key, Body) in call.stuck then failed else Without(failed, {Name(call.key, Body)}), unswept)
    case NoTrouble =>
      var count := unswept + call.Written();
      if count >= Limit(budget) then (Swept(Both(files, call), budget, call.stuck), 0)
      else (Both(files, call), count)
  }

  function Both(files: seq<File>, call: PutCall): seq<File> {
    Stored(Stored(files, call.BodyFile()), call.MetaFile())
  }

  class Cache {
    const dir: Directory
    const budget: nat
    var unswept: nat

    constructor (dir: Directory, budget: nat, stuck: set<Name>)
      requires budget > 0
      modifies dir
      ensures this.dir == dir && this.budget == budget && unswept == 0
      ensures dir.files == Swept(old(dir.files), budget, stuck)
    {
      this.dir, this.budget, unswept := dir, budget, 0;
      new;
      dir.SweepTo(budget, stuck);
    }

    method CleanUp(call: PutCall)
      modifies dir
      ensures dir.files == Aside(old(dir.files), call)
    {
      var temp := call.TempFile();
      if temp.Some? {
        if temp.value.name in call.stuck {
          dir.files := Stored(dir.files, temp.value);
        } else {
          dir.Remove(temp.value.name);
        }
      }
    }

    method Keep(call: PutCall)
      modifies this`unswept, dir
      ensures (dir.files, unswept) == Put(old(dir.files), old(unswept), budget, call)
    {
      var body, meta := call.BodyFile(), call.MetaFile();
      if call.trouble.BodyNotWritten? {
        CleanUp(call);
        return;
      }
      dir.files := Stored(dir.files, body);
      if call.trouble.MetaNotWritten? {
        CleanUp(call);
        if body.name !in call.stuck {
          dir.Remove(body.name);
        }
        return;
      }
      dir.files := Stored(dir.files, meta);
      var written := call.bodySize + call.metaSize;
      var limit := if budget / SWEEP_FRACTION > 1 then budget / SWEEP_FRACTION else 1;
      var was := unswept;
      unswept := unswept + written;
      if was + written >= limit {
        unswept := 0;
        dir.SweepTo(budget, call.stuck);
      }
    }
  }

  /** What the count is for. */
  predicate Bounded(files: seq<File>, unswept: nat, budget: nat) {
    Distinct(files) && Total(files) <= budget + unswept && unswept < Limit(budget)
  }

  lemma {:induction false} WithoutHolds(files: seq<File>, gone: set<Name>)
    ensures Total(Without(files, gone)) <= Total(files)
    ensures forall f :: f in Without(files, gone) ==> f in files && f.name !in gone
  {
    if files != [] {
      WithoutHolds(files[1..], gone);
      assert files == [files[0]] + files[1..];
    }
  }

  lemma {:induction false} WithoutShrinks(files: seq<File>, gone: set<Name>)
    requires Distinct(files)
    ensures Total(Without(files, gone)) <= Total(files)
    ensures Distinct(Without(files, gone))
    ensures forall f :: f in Without(files, gone) ==> f in files && f.name !in gone
  {
    WithoutHolds(files, gone);
    if files != [] {
      WithoutShrinks(files[1..], gone);
      assert files == [files[0]] + files[1..];
      DistinctFront(files[0], files[1..], Without(files[1..], gone));
    }
  }

  lemma DistinctFront(f: File, files: seq<File>, some: seq<File>)
    requires Distinct([f] + files) && Distinct(some) && forall g :: g in some ==> g in files
    ensures Distinct([f] + some)
  {
    var all, r := [f] + files, [f] + some;
    forall i, j | 0 <= i < j < |r| ensures r[i].name != r[j].name {
      assert r[j] == some[j - 1] && r[j] in files;
      if i == 0 {
        var k :| 0 <= k < |files| && files[k] == r[j];
        assert all[0] == f && all[k + 1] == r[j];
      } else {
        assert r[i] == some[i - 1];
      }
    }
  }

  lemma {:induction false} TotalBack(files: seq<File>, f: File)
    ensures Total(files + [f]) == Total(files) + f.size
  {
    if files == [] {
      assert files + [f] == [f];
    } else {
      assert (files + [f])[1..] == files[1..] + [f];
      TotalBack(files[1..], f);
    }
  }

  lemma StoredGrowsBy(files: seq<File>, f: File)
    requires Distinct(files)
    ensures Distinct(Stored(files, f)) && Total(Stored(files, f)) <= Total(files) + f.size
  {
    var rest := Without(files, {f.name});
    WithoutShrinks(files, {f.name});
    TotalBack(rest, f);
    assert forall i :: 0 <= i < |rest| ==> rest[i] in rest;
  }

  lemma {:induction false} WithoutBack(files: seq<File>, f: File, gone: set<Name>)
    ensures Without(files + [f], gone) == Without(files, gone) + (if f.name in gone then [] else [f])
  {
    if files == [] {
      assert files + [f] == [f] && [f][1..] == [];
    } else {
      assert (files + [f])[1..] == files[1..] + [f];
      WithoutBack(files[1..], f, gone);
    }
  }

  lemma BothGrowBy(files: seq<File>, call: PutCall)
    requires Distinct(files)
    ensures Distinct(Both(files, call)) && Total(Both(files, call)) <= Total(files) + call.Written()
  {
    StoredGrowsBy(files, call.BodyFile());
    StoredGrowsBy(Stored(files, call.BodyFile()), call.MetaFile());
  }

  // What a failed put touches, and the bytes of it that stay behind.

  function TempName(call: PutCall): set<Name> {
    if call.TempFile().Some? then {call.TempFile().value.name} else {}
  }

  function TempBehind(call: PutCall): nat {
    if call.TempFile().Some? && call.TempFile().value.name in call.stuck then call.TempFile().value.size else 0
  }

  function Touched(call: PutCall): set<Name> {
    if call.trouble.MetaNotWritten? then {Name(call.key, Body)} + TempName(call) else TempName(call)
  }

  function Behind(call: PutCall): nat {
    TempBehind(call) +
    if call.trouble.MetaNotWritten? && Name(call.key, Body) in call.stuck then call.bodySize else 0
  }

  lemma AsideWeighs(files: seq<File>, call: PutCall)
    requires Distinct(files)
    ensures Distinct(Aside(files, call))
    ensures Total(Aside(files, call)) == Total(Without(files, TempName(call))) + TempBehind(call)
    ensures Without(Aside(files, call), {Name(call.key, Body)}) ==
            Aside(Without(files, {Name(call.key, Body)}), call)
  {
    var body := Name(call.key, Body);
    match call.TempFile()
    case None =>
      WithoutNone(files);
    case Some(f) =>
      WithoutShrinks(files, {f.name});
      StoredGrowsBy(files, f);
      TotalBack(Without(files, {f.name}), f);
      WithoutTwice(files, {f.name}, {body});
      WithoutTwice(files, {body}, {f.name});
      assert {f.name} + {body} == {body} + {f.name};
      WithoutBack(Without(files, {f.name}), f, {body});
  }

  /** A failed put leaves what it did not touch, and what stays behind. */
  lemma FailedPutWeighs(files: seq<File>, unswept: nat, budget: nat, call: PutCall)
    requires Distinct(files) && !call.trouble.NoTrouble?
    ensures var after := Put(files, unswept, budget, call).0;
            Distinct(after) && Total(after) == Total(Without(files, Touched(call))) + Behind(call)
  {
    if call.trouble.BodyNotWritten? {
      AsideWeighs(files, call);
    } else {
      var body, name := call.BodyFile(), Name(call.key, Body);
      var stored, rest := Stored(files, body), Without(files, {name});
      StoredGrowsBy(files, body);
      WithoutShrinks(files, {name});
      AsideWeighs(stored, call);
      WithoutTwice(files, {name}, TempName(call));
      if name in call.stuck {
        WithoutBack(rest, body, TempName(call));
        TotalBack(Without(rest, TempName(call)), body);
      } else {
        WithoutBack(rest, body, {name});
        WithoutTwice(files, {name}, {name});
        assert {name} + {name} == {name};
        assert Without(stored, {name}) == rest;
        AsideWeighs(rest, call);
      }
    }
  }

  /** The promise for one put: below the budget and an eighth of it. It is kept
      exactly when, of what this put could not delete, the temporary of a failed
      write and a body without metadata still fit beside the rest, and the files
      a sweep could not touch fit by themselves. */
  lemma PutStaysBoundedIff(files: seq<File>, unswept: nat, budget: nat, call: PutCall)
    requires Bounded(files, unswept, budget)
    ensures Total(Put(files, unswept, budget, call).0) < budget + Limit(budget) <==>
            if call.trouble.NoTrouble? then
              unswept + call.Written() >= Limit(budget) ==>
                StuckBytes(Both(files, call), call.stuck) < budget + Limit(budget)
            else
              Behind(call) > 0 ==> Total(Without(files, Touched(call))) + Behind(call) < budget + Limit(budget)
  {
    if call.trouble.NoTrouble? {
      BothGrowBy(files, call);
      SweptOrStuck(Both(files, call), budget, call.stuck);
    } else {
      WithoutShrinks(files, Touched(call));
      FailedPutWeighs(files, unswept, budget, call);
    }
  }

  /** The count is let run to an eighth of the budget, and to one byte at
      least. */
  lemma LimitIsAnEighth(budget: nat)
    ensures budget < 16 ==> Limit(budget) == 1
    ensures budget >= 8 ==> 8 * Limit(budget) <= budget < 8 * Limit(budget) + 8
  {
  }

  lemma {:induction false} WithoutMember(files: seq<File>, gone: set<Name>, f: File)
    ensures f in Without(files, gone) <==> f in files && f.name !in gone
  {
    if files != [] {
      WithoutMember(files[1..], gone, f);
      assert files == [files[0]] + files[1..];
    }
  }

  predicate TempStays(call: PutCall, f: File) {
    call.TempFile() == Some(f) && f.name in call.stuck
  }

  lemma AsideMember(files: seq<File>, call: PutCall, f: File)
    ensures f in Aside(files, call) <==> TempStays(call, f) || (f in files && f.name !in TempName(call))
  {
    if call.TempFile().Some? {
      WithoutMember(files, {call.TempFile().value.name}, f);
    }
  }

  /** What is on disk after a put: both files, with nothing failing, and a sweep
      of all that just when the count has come to the limit; the body alone if
      it had to stay; the temporary if it had to; and every other file. */
  lemma PutHolds(files: seq<File>, unswept: nat, budget: nat, call: PutCall, f: File)
    ensures var (after, count) := Put(files, unswept, budget, call);
            match call.trouble
            case BodyNotWritten(_) =>
              count == unswept && (f in after <==> TempStays(call, f) || (f in files && f.name !in TempName(call)))
            case MetaNotWritten(_) =>
              && count == unswept
              && (f in after <==>
                    || (f == call.BodyFile() && f.name in call.stuck)
                    || TempStays(call, f)
                    || (f in files && f.name !in Touched(call)))
            case NoTrouble =>
              && (f in Both(files, call) <==>
                    || f == call.BodyFile() || f == call.MetaFile()
                    || (f in files && f.name != Name(call.key, Body) && f.name != Name(call.key, Meta)))
              && (after, count) ==
                 if unswept + call.bodySize + call.metaSize < Limit(budget)
                 then (Both(files, call), unswept + call.bodySize + call.metaSize)
                 else (Swept(Both(files, call), budget, call.stuck), 0)
  {
    var body, meta := call.BodyFile(), call.MetaFile();
    var stored := Stored(files, body);
    WithoutMember(files, {body.name}, f);
    match call.trouble
    case BodyNotWritten(_) => AsideMember(files, call, f);
    case MetaNotWritten(_) =>
      AsideMember(stored, call, f);
      WithoutMember(Aside(stored, call), {body.name}, f);
    case NoTrouble =>
      WithoutMember(stored, {meta.name}, f);
  }

  /** Whatever refuses to go, a sweep deletes, of the files in order of last use,
      those among the first that do not refuse: not one more than it takes to
      meet the budget, and not fewer while another would go. */
  lemma {:induction false} DoomedAreTheOldest(sorted: seq<File>, total: nat, freed: nat, budget: nat, stuck: set<Name>)
    returns (k: nat)
    ensures k <= |sorted| && Doomed(sorted, total, freed, budget, stuck) == Without(sorted[..k], stuck)
    ensures k > 0 ==> sorted[k - 1].name !in stuck && total > budget + freed + Total(Without(sorted[..k - 1], stuck))
    ensures total <= budget + freed + Total(Without(sorted[..k], stuck))
            || forall i :: k <= i < |sorted| ==> sorted[i].name in stuck
    decreases sorted
  {
    if sorted == [] || total <= budget + freed {
      k := 0;
    } else {
      var f := sorted[0];
      var more := if f.name in stuck then 0 else f.size;
      var later := DoomedAreTheOldest(sorted[1..], total, freed + more, budget, stuck);
      assert forall i :: 0 < i < |sorted| ==> sorted[i] == sorted[1..][i - 1];
      if f.name in stuck && later == 0 {
        k := 0;
      } else {
        k := later + 1;
        FrontWithout(sorted, later, stuck);
        if later > 0 {
          FrontWithout(sorted, later - 1, stuck);
        }
      }
    }
  }

  lemma FrontWithout(sorted: seq<File>, n: nat, stuck: set<Name>)
    requires n < |sorted|
    ensures Without(sorted[..n + 1], stuck) ==
            (if sorted[0].name in stuck then [] else [sorted[0]]) + Without(sorted[1..][..n], stuck)
    ensures Total(Without(sorted[..n + 1], stuck)) ==
            (if sorted[0].name in stuck then 0 else sorted[0].size) + Total(Without(sorted[1..][..n], stuck))
  {
    assert sorted[..n + 1][1..] == sorted[1..][..n];
    var rest := Without(sorted[1..][..n], stuck);
    assert ([sorted[0]] + rest)[1..] == rest;
  }

  // ---- Whole runs, whatever refuses to go ----

  function Over(bytes: nat, budget: nat): nat {
    if bytes > budget then bytes - budget else 0
  }

  /** Bytes nobody counts: what failed puts left behind since the last sweep,
      and what that sweep could not bring within the budget. */
  function Escaped(files: seq<File>, unswept: nat, budget: nat, escaped: nat, call: PutCall): nat {
    if !call.trouble.NoTrouble? then escaped + Behind(call)
    else if unswept + call.Written() >= Limit(budget) then Over(StuckBytes(Both(files, call), call.stuck), budget)
    else escaped
  }

  /** What the count and the bytes that escaped it are for. */
  predicate Accounted(files: seq<File>, unswept: nat, budget: nat, escaped: nat) {
    Distinct(files) && Total(files) <= budget + unswept + escaped && unswept < Limit(budget)
  }

  lemma PutIsAccounted(files: seq<File>, unswept: nat, budget: nat, escaped: nat, call: PutCall)
    requires Accounted(files, unswept, budget, escaped)
    ensures var (after, count) := Put(files, unswept, budget, call);
            Accounted(after, count, budget, Escaped(files, unswept, budget, escaped, call))
  {
    if call.trouble.NoTrouble? {
      BothGrowBy(files, call);
      SweptOrStuck(Both(files, call), budget, call.stuck);
    } else {
      WithoutShrinks(files, Touched(call));
      FailedPutWeighs(files, unswept, budget, call);
    }
  }

  /** Opening the cache starts the account. */
  lemma OpeningIsAccounted(files: seq<File>, budget: nat, stuck: set<Name>)
    requires Distinct(files)
    ensures Accounted(Swept(files, budget, stuck), 0, budget, Over(StuckBytes(files, stuck), budget))
    ensures stuck == {} ==> Bounded(Swept(files, budget, stuck), 0, budget)
  {
    SweptOrStuck(files, budget, stuck);
    NothingStuck(files);
  }

  function Puts(files: seq<File>, unswept: nat, budget: nat, calls: seq<PutCall>): (seq<File>, nat)
    decreases |calls|
  {
    if calls == [] then (files, unswept)
    else
      var (after, count) := Put(files, unswept, budget, calls[0]);
      Puts(after, count, budget, calls[1..])
  }

  function EscapedIn(files: seq<File>, unswept: nat, budget: nat, escaped: nat, calls: seq<PutCall>): nat
    decreases |calls|
  {
    if calls == [] then escaped
    else
      var (after, count) := Put(files, unswept, budget, calls[0]);
      EscapedIn(after, count, budget, Escaped(files, unswept, budget, escaped, calls[0]), calls[1..])
  }

  /** After any run of puts, whatever fails and whatever refuses to go, the
      bytes held are below the budget, an eighth of it, and what escaped. */
  lemma {:induction false} EveryRunIsAccounted(files: seq<File>, unswept: nat, budget: nat, escaped: nat,
                                               calls: seq<PutCall>)
    requires Accounted(files, unswept, budget, escaped)
    ensures var (after, count) := Puts(files, unswept, budget, calls);
            var out := EscapedIn(files, unswept, budget, escaped, calls);
            && Accounted(after, count, budget, out)
            && Total(after) < budget + Limit(budget) + out
    decreases |calls|
  {
    if calls != [] {
      PutIsAccounted(files, unswept, budget, escaped, calls[0]);
      var (after, count) := Put(files, unswept, budget, calls[0]);
      EveryRunIsAccounted(after, count, budget, Escaped(files, unswept, budget, escaped, calls[0]), calls[1..]);
    }
  }

  lemma {:induction false} NothingEscapes(files: seq<File>, unswept: nat, budget: nat, calls: seq<PutCall>)
    requires forall i :: 0 <= i < |calls| ==> calls[i].stuck == {}
    ensures EscapedIn(files, unswept, budget, 0, calls) == 0
    decreases |calls|
  {
    if calls != [] {
      NothingStuck(Both(files, calls[0]));
      var (after, count) := Put(files, unswept, budget, calls[0]);
      NothingEscapes(after, count, budget, calls[1..]);
    }
  }

  /** With every deletion succeeding the bound holds after every put. */
  lemma EveryRunStaysBounded(files: seq<File>, unswept: nat, budget: nat, calls: seq<PutCall>)
    requires Bounded(files, unswept, budget)
    requires forall i :: 0 <= i < |calls| ==> calls[i].stuck == {}
    ensures var (after, count) := Puts(files, unswept, budget, calls);
            Bounded(after, count, budget) && Total(after) < budget + Limit(budget)
  {
    EveryRunIsAccounted(files, unswept, budget, 0, calls);
    NothingEscapes(files, unswept, budget, calls);
  }

  /** What a failed put leaves behind is never counted: a body that cannot be
      taken back, or a temporary that cannot be deleted, can pass any bound. */
  lemma WhatIsLeftEscapesTheCount(files: seq<File>, unswept: nat, budget: nat, call: PutCall, excess: nat)
    requires Bounded(files, unswept, budget)
    requires !call.trouble.NoTrouble? && Behind(call) >= budget + Limit(budget) + excess
    ensures var (after, count) := Put(files, unswept, budget, call);
            Total(after) >= budget + Limit(budget) + excess && count == unswept
  {
    FailedPutWeighs(files, unswept, budget, call);
  }

  /** Both kinds of leftover exist, from any state and of any size. */
  lemma AStuckBodyEscapesTheCount(files: seq<File>, unswept: nat, budget: nat, key: string, excess: nat)
    returns (body: PutCall, temp: PutCall)
    requires Bounded(files, unswept, budget)
    ensures body.trouble == MetaNotWritten(None) && body.stuck == {Name(key, Body)}
    ensures temp.trouble.BodyNotWritten? && temp.stuck == {Temporary(key, 0, 0)}
    ensures Total(Put(files, unswept, budget, body).0) >= budget + Limit(budget) + excess
    ensures Total(Put(files, unswept, budget, temp).0) >= budget + Limit(budget) + excess
  {
    var size := budget + Limit(budget) + excess;
    body := PutCall(key, size, 0, 0, MetaNotWritten(None), {Name(key, Body)});
    temp := PutCall(key, size, 0, 0, BodyNotWritten(Some(Left(0, 0, size))), {Temporary(key, 0, 0)});
    WhatIsLeftEscapesTheCount(files, unswept, budget, body, excess);
    WhatIsLeftEscapesTheCount(files, unswept, budget, temp, excess);
  }
}
