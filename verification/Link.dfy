/**
 How fast each client's link is: a smoothed estimate, a ladder of tiers with
 hysteresis, and a bounded store of both.
 */
module Link {

  const U32: nat := 0x1_0000_0000

  type u32 = x: int | 0 <= x < U32

  /** Best first; the degradation says how far down the ladder. */
  datatype Tier = Untouched | Reduced | Grey | Placeholder | Nothing {
    function Degradation(): nat {
      match this
      case Untouched => 0
      case Reduced => 1
      case Grey => 2
      case Placeholder => 3
      case Nothing => 4
    }
  }

  const UPGRADE_SAMPLES: nat := 3

  predicate Descends(floors: seq<u32>) {
    forall i, j :: 0 <= i <= j < |floors| ==> floors[j] <= floors[i]
  }

  function Lowest(floors: seq<u32>, i: nat): (r: u32)
    requires i < |floors|
    ensures forall k :: 0 <= k <= i ==> r <= floors[k]
    ensures exists k :: 0 <= k <= i && r == floors[k]
  {
    if i == 0 then floors[0]
    else
      var before := Lowest(floors, i - 1);
      if before < floors[i] then before else floors[i]
  }

  lemma LowestSoFar(floors: seq<u32>, i: nat)
    requires 0 < i < |floors|
    ensures Lowest(floors, i) == if floors[i] < Lowest(floors, i - 1) then floors[i] else Lowest(floors, i - 1)
  {
  }

  /** Each floor becomes the lowest of those up to it. */
  method Clamp(floors: array<u32>)
    modifies floors
    ensures forall i :: 0 <= i < floors.Length ==> floors[i] == Lowest(old(floors[..]), i)
  {
    ghost var was := floors[..];
    var i := 1;
    while i < floors.Length
      invariant 1 <= i
      invariant forall k :: i <= k < floors.Length ==> floors[k] == was[k]
      invariant forall k :: 0 <= k < i && k < floors.Length ==> floors[k] == Lowest(was, k)
    {
      LowestSoFar(was, i);
      floors[i] := if floors[i] < floors[i - 1] then floors[i] else floors[i - 1];
      i := i + 1;
    }
  }

  /** So the ladder descends, and one that did already is left alone. */
  lemma ClampedDescends(floors: seq<u32>)
    ensures Descends(seq(|floors|, i requires 0 <= i < |floors| => Lowest(floors, i)))
    ensures Descends(floors) ==> forall i :: 0 <= i < |floors| ==> Lowest(floors, i) == floors[i]
  {
    forall i, j | 0 <= i <= j < |floors| ensures Lowest(floors, j) <= Lowest(floors, i) {
      var k :| 0 <= k <= i && Lowest(floors, i) == floors[k];
      assert Lowest(floors, j) <= floors[k];
    }
  }

  datatype Thresholds = Thresholds(floors: seq<u32>) {
    predicate Valid() {
      |floors| == 4 && Descends(floors)
    }

    /** The best tier this speed still earns. */
    function TierFor(kbps: nat): (t: Tier)
      requires Valid()
      ensures t.Degradation() < 4 ==> kbps >= floors[t.Degradation()]
      ensures forall k :: 0 <= k < t.Degradation() && k < 4 ==> kbps < floors[k]
    {
      if kbps >= floors[0] then Untouched
      else if kbps >= floors[1] then Reduced
      else if kbps >= floors[2] then Grey
      else if kbps >= floors[3] then Placeholder
      else Nothing
    }
  }

  /** A faster link never earns a worse tier. */
  lemma FasterIsNoWorse(t: Thresholds, slow: nat, fast: nat)
    requires t.Valid() && slow <= fast
    ensures t.TierFor(fast).Degradation() <= t.TierFor(slow).Degradation()
  {
  }

  /** Half weight to a worse sample, a quarter to a better one. */
  function Blend(previous: nat, sample: nat): nat {
    if sample < previous then (previous + sample) / 2 else (previous * 3 + sample) / 4
  }

  lemma BlendFits(previous: u32, sample: u32)
    ensures Blend(previous, sample) < U32
    ensures previous <= sample ==> previous <= Blend(previous, sample) <= sample
    ensures sample <= previous ==> sample <= Blend(previous, sample) <= previous
  {
  }

  datatype Entry = Entry(kbps: nat, tier: Tier, upgrades: nat, seen: nat)

  function Margin(kbps: nat): nat {
    kbps / 5 * 4
  }

  /** The tier served and the count towards a better one, after one sample
      whose estimate earns `candidate`, and `confident` with the margin off. */
  function Moved(tier: Tier, upgrades: nat, candidate: Tier, confident: Tier): (Tier, nat) {
    if candidate.Degradation() >= tier.Degradation() then (candidate, 0)
    else if confident.Degradation() < tier.Degradation() then
      if upgrades + 1 >= UPGRADE_SAMPLES then (confident, 0) else (tier, upgrades + 1)
    else (tier, 0)
  }

  function Updated(t: Thresholds, e: Entry, sample: nat, now: nat): Entry
    requires t.Valid()
  {
    var kbps := Blend(e.kbps, sample);
    var (tier, upgrades) := Moved(e.tier, e.upgrades, t.TierFor(kbps), t.TierFor(Margin(kbps)));
    Entry(kbps, tier, upgrades, now)
  }

  function Measured(t: Thresholds, sample: nat, now: nat): Entry
    requires t.Valid()
  {
    Entry(sample, t.TierFor(sample), 0, now)
  }

  // ---- The store ----

  type Peer = nat

  function Elapsed(now: nat, since: nat): nat {
    if now > since then now - since else 0
  }

  predicate Live(e: Entry, now: nat, ttl: nat) {
    Elapsed(now, e.seen) < ttl
  }

  /** `after` keeps `before` within `max`: nothing is dropped needlessly, the
      expired go first, and beyond them only the longest unseen. */
  ghost predicate Trimmed(before: map<Peer, Entry>, after: map<Peer, Entry>, now: nat, ttl: nat, max: nat) {
    && |after| <= max
    && (forall p :: p in after ==> p in before && after[p] == before[p])
    && (|before| <= max ==> after == before)
    && (|before| > max ==> forall p :: p in after ==> Live(after[p], now, ttl))
    && (forall gone :: gone in before && gone !in after && Live(before[gone], now, ttl) ==>
          |after| == max && forall p :: p in after ==> before[gone].seen <= after[p].seen)
  }

  /** No entry's tier promises more than its estimate earns, and counts stay
      short of an upgrade. */
  ghost predicate Earned(t: Thresholds, e: Entry)
    requires t.Valid()
  {
    e.tier.Degradation() >= t.TierFor(e.kbps).Degradation() && e.upgrades < UPGRADE_SAMPLES && e.kbps < U32
  }

  class Links {
    const enabled: bool
    const thresholds: Thresholds
    const ttl: nat
    const max: nat
    var clients: map<Peer, Entry>

    ghost predicate Valid()
      reads this
    {
      && thresholds.Valid() && max >= 1
      && |clients| <= max
      && forall p :: p in clients ==> Earned(thresholds, clients[p])
    }

    constructor (enabled: bool, thresholds: Thresholds, ttl: nat, max: nat)
      requires thresholds.Valid()
      ensures Valid() && clients == map[]
      ensures this.enabled == enabled && this.thresholds == thresholds && this.ttl == ttl
      ensures if max == 0 then this.max == 1 else this.max == max
    {
      this.enabled, this.thresholds, this.ttl := enabled, thresholds, ttl;
      this.max := if max < 1 then 1 else max;
      this.clients := map[];
    }

    method RecordAt(peer: Peer, kbps: u32, now: nat)
      requires Valid()
      modifies this
      ensures Valid()
      ensures !enabled || kbps == 0 ==> clients == old(clients)
      ensures enabled && kbps > 0 ==>
                if peer in old(clients)
                   && (if now > old(clients)[peer].seen then now - old(clients)[peer].seen else 0) < ttl
                then clients == old(clients)[peer := Updated(thresholds, old(clients)[peer], kbps, now)]
                  && clients[peer].seen == now
                else Trimmed(old(clients)[peer := Entry(kbps, thresholds.TierFor(kbps), 0, now)], clients, now, ttl, max)
    {
      if !enabled || kbps == 0 {
        return;
      }
      if peer in clients && Live(clients[peer], now, ttl) {
        UpdateEarned(thresholds, clients[peer], kbps, now);
        ghost var was := clients;
        clients := clients[peer := Updated(thresholds, clients[peer], kbps, now)];
        assert clients.Keys == was.Keys;
        SameKeys(was, clients);
      } else {
        clients := clients[peer := Measured(thresholds, kbps, now)];
        Bound(now);
      }
    }

    method Bound(now: nat)
      requires max >= 1
      modifies this
      ensures Trimmed(old(clients), clients, now, ttl, max)
    {
      if |clients| <= max {
        return;
      }
      clients := map p | p in clients && Live(clients[p], now, ttl) :: clients[p];
      ghost var live := clients;
      while |clients| > max
        invariant forall p :: p in clients ==> p in live && clients[p] == live[p]
        invariant forall gone :: gone in live && gone !in clients ==>
                    |clients| >= max && forall p :: p in clients ==> live[gone].seen <= clients[p].seen
        decreases |clients|
      {
        OldestExists(clients);
        var oldest :| oldest in clients && forall p :: p in clients ==> clients[oldest].seen <= clients[p].seen;
        ghost var was := clients;
        clients := clients - {oldest};
        OneFewer(was, oldest);
      }
    }
  }

  lemma SameKeys(a: map<Peer, Entry>, b: map<Peer, Entry>)
    requires a.Keys == b.Keys
    ensures |a| == |b|
  {
    assert |a| == |a.Keys| && |b| == |b.Keys|;
  }

  lemma OneFewer(m: map<Peer, Entry>, p: Peer)
    requires p in m
    ensures |m - {p}| == |m| - 1
  {
    assert (m - {p}).Keys == m.Keys - {p};
    assert |m - {p}| == |(m - {p}).Keys| && |m| == |m.Keys|;
  }

  lemma {:induction false} OldestExists(m: map<Peer, Entry>)
    requires |m| > 0
    ensures exists p :: p in m && forall q :: q in m ==> m[p].seen <= m[q].seen
  {
    assert |m| == |m.Keys|;
    var p := Oldest(m, m.Keys);
  }

  lemma {:induction false} Oldest(m: map<Peer, Entry>, keys: set<Peer>) returns (p: Peer)
    requires keys != {} && keys <= m.Keys
    ensures p in keys && forall q :: q in keys ==> m[p].seen <= m[q].seen
    decreases |keys|
  {
    p :| p in keys;
    var rest := keys - {p};
    assert keys == rest + {p};
    if rest != {} {
      var other := Oldest(m, rest);
      if m[other].seen < m[p].seen {
        p := other;
      }
    }
  }

  lemma UpdateEarned(t: Thresholds, e: Entry, sample: u32, now: nat)
    requires t.Valid() && Earned(t, e)
    ensures Earned(t, Updated(t, e, sample, now))
  {
    var kbps := Blend(e.kbps, sample);
    BlendFits(e.kbps, sample);
    FasterIsNoWorse(t, Margin(kbps), kbps);
  }

  // ---- Stickiness, over any run of samples ----

  function Ran(t: Thresholds, e: Entry, samples: seq<u32>): Entry
    requires t.Valid()
    decreases samples
  {
    if samples == [] then e else Ran(t, Updated(t, e, samples[0], e.seen), samples[1..])
  }

  /** How many of the samples made the tier better. */
  function Upgrades(t: Thresholds, e: Entry, samples: seq<u32>): nat
    requires t.Valid()
    decreases samples
  {
    if samples == [] then 0
    else
      var next := Updated(t, e, samples[0], e.seen);
      (if next.tier.Degradation() < e.tier.Degradation() then 1 else 0) + Upgrades(t, next, samples[1..])
  }

  /** Every step up the ladder has been paid for with three samples. */
  lemma {:induction false} UpgradesArePaidFor(t: Thresholds, e: Entry, samples: seq<u32>)
    requires t.Valid() && Earned(t, e)
    ensures 3 * Upgrades(t, e, samples) + Ran(t, e, samples).upgrades <= |samples| + e.upgrades
    ensures Earned(t, Ran(t, e, samples))
    decreases samples
  {
    if samples != [] {
      UpdateEarned(t, e, samples[0], e.seen);
      UpgradesArePaidFor(t, Updated(t, e, samples[0], e.seen), samples[1..]);
    }
  }

  /** A tier got worse at once: after any sample it is no better than the new
      estimate earns. */
  lemma DowngradesAtOnce(t: Thresholds, e: Entry, sample: u32, now: nat)
    requires t.Valid() && Earned(t, e)
    ensures var next := Updated(t, e, sample, now);
            && next.tier.Degradation() >= t.TierFor(next.kbps).Degradation()
            && (next.tier.Degradation() > e.tier.Degradation() ==> next.tier == t.TierFor(next.kbps))
  {
    UpdateEarned(t, e, sample, now);
  }

  /** The estimate, taken a fifth worse than it is, still earns a better tier
      than the one served: what argues for an upgrade. */
  predicate Argues(t: Thresholds, kbps: nat, tier: Tier)
    requires t.Valid()
  {
    t.TierFor(kbps / 5 * 4).Degradation() < tier.Degradation()
  }

  /** One sample that does not argue for an upgrade, and the count starts over. */
  lemma DoubtStartsOver(t: Thresholds, e: Entry, sample: nat, now: nat)
    requires t.Valid()
    ensures var next := Updated(t, e, sample, now);
            t.TierFor(next.kbps / 5 * 4).Degradation() >= e.tier.Degradation() ==> next.upgrades == 0
  {
    FasterIsNoWorse(t, Blend(e.kbps, sample) / 5 * 4, Blend(e.kbps, sample));
  }

  /** The entry after the first `n` samples. */
  function At(t: Thresholds, e: Entry, samples: seq<u32>, n: nat): Entry
    requires t.Valid() && n <= |samples|
  {
    if n == 0 then e else Updated(t, At(t, e, samples, n - 1), samples[n - 1], e.seen)
  }

  /** Sample `n` argued for an upgrade from what was then served. */
  predicate ArguedAt(t: Thresholds, e: Entry, samples: seq<u32>, n: nat)
    requires t.Valid() && n < |samples|
  {
    Argues(t, At(t, e, samples, n + 1).kbps, At(t, e, samples, n).tier)
  }

  /** A count that goes up by one or starts over tells how long it has been
      since it did. */
  lemma {:induction false} CountsBack(es: seq<Entry>, argued: seq<bool>, n: nat)
    requires |es| == |argued| + 1 && n <= |argued| && es[0].upgrades == 0
    requires forall j :: 0 <= j < |argued| && es[j + 1].upgrades > 0 ==>
               argued[j] && es[j + 1].tier == es[j].tier && es[j + 1].upgrades == es[j].upgrades + 1
    ensures es[n].upgrades <= n
    ensures forall j :: n - es[n].upgrades <= j < n ==> argued[j] && es[j].tier == es[n].tier
  {
    if n > 0 {
      CountsBack(es, argued, n - 1);
    }
  }

  lemma {:induction false} EarnedAt(t: Thresholds, e: Entry, samples: seq<u32>, n: nat)
    requires t.Valid() && Earned(t, e) && n <= |samples|
    ensures Earned(t, At(t, e, samples, n))
  {
    if n > 0 {
      EarnedAt(t, e, samples, n - 1);
      UpdateEarned(t, At(t, e, samples, n - 1), samples[n - 1], e.seen);
    }
  }

  /** The count is how many of the last samples argued in a row, for the tier
      served all that time. */
  lemma CountsTheLast(t: Thresholds, e: Entry, samples: seq<u32>, n: nat)
    requires t.Valid() && e.upgrades == 0 && n <= |samples|
    ensures var at := At(t, e, samples, n);
            && at.upgrades <= n
            && forall j :: n - at.upgrades <= j < n ==>
                 ArguedAt(t, e, samples, j) && At(t, e, samples, j).tier == at.tier
  {
    var es := seq(|samples| + 1, k requires 0 <= k <= |samples| => At(t, e, samples, k));
    var argued := seq(|samples|, k requires 0 <= k < |samples| => ArguedAt(t, e, samples, k));
    forall j | 0 <= j < |argued| && es[j + 1].upgrades > 0
      ensures argued[j] && es[j + 1].tier == es[j].tier && es[j + 1].upgrades == es[j].upgrades + 1
    {
      CountedAt(t, e, samples, j);
    }
    CountsBack(es, argued, n);
    forall j | n - es[n].upgrades <= j < n
      ensures ArguedAt(t, e, samples, j) && At(t, e, samples, j).tier == es[n].tier
    {
      assert argued[j] && es[j].tier == es[n].tier;
    }
  }

  lemma CountedAt(t: Thresholds, e: Entry, samples: seq<u32>, j: nat)
    requires t.Valid() && j < |samples|
    ensures var at, next := At(t, e, samples, j), At(t, e, samples, j + 1);
            next.upgrades > 0 ==>
              ArguedAt(t, e, samples, j) && next.tier == at.tier && next.upgrades == at.upgrades + 1
  {
    OneMoreCounted(t, At(t, e, samples, j), samples[j], e.seen);
  }

  lemma OneMoreCounted(t: Thresholds, e: Entry, sample: u32, now: nat)
    requires t.Valid()
    ensures var next := Updated(t, e, sample, now);
            next.upgrades > 0 ==>
              Argues(t, next.kbps, e.tier) && next.tier == e.tier && next.upgrades == e.upgrades + 1
  {
  }

  /** A tier only gets better at a sample that argues for it after two more that
      did, in a row and from the same tier; and then it is the tier the estimate
      earns when taken a fifth worse. */
  lemma UpgradesTakeThreeInARow(t: Thresholds, e: Entry, samples: seq<u32>, n: nat)
    requires t.Valid() && Earned(t, e) && e.upgrades == 0 && n < |samples|
    requires At(t, e, samples, n + 1).tier.Degradation() < At(t, e, samples, n).tier.Degradation()
    ensures n >= 2 && ArguedAt(t, e, samples, n - 2) && ArguedAt(t, e, samples, n - 1) && ArguedAt(t, e, samples, n)
    ensures At(t, e, samples, n - 2).tier == At(t, e, samples, n - 1).tier == At(t, e, samples, n).tier
    ensures At(t, e, samples, n + 1).tier == t.TierFor(At(t, e, samples, n + 1).kbps / 5 * 4)
  {
    var at := At(t, e, samples, n);
    EarnedAt(t, e, samples, n);
    CountsTheLast(t, e, samples, n);
    BetterTakesThree(t, at, samples[n], e.seen);
  }

  lemma BetterTakesThree(t: Thresholds, e: Entry, sample: u32, now: nat)
    requires t.Valid() && Earned(t, e)
    ensures var next := Updated(t, e, sample, now);
            next.tier.Degradation() < e.tier.Degradation() ==>
              e.upgrades == 2 && Argues(t, next.kbps, e.tier) && next.tier == t.TierFor(next.kbps / 5 * 4)
  {
    UpdateEarned(t, e, sample, now);
  }

  /** And three that do, in a row, are enough. */
  lemma ThreeInARowUpgrade(t: Thresholds, e: Entry, samples: seq<u32>)
    requires t.Valid() && Earned(t, e) && e.upgrades == 0 && |samples| == 3
    requires ArguedAt(t, e, samples, 0) && ArguedAt(t, e, samples, 1) && ArguedAt(t, e, samples, 2)
    ensures At(t, e, samples, 1).tier == At(t, e, samples, 2).tier == e.tier
    ensures At(t, e, samples, 3).tier == t.TierFor(At(t, e, samples, 3).kbps / 5 * 4)
    ensures At(t, e, samples, 3).tier.Degradation() < e.tier.Degradation()
  {
    ArguedIsKept(t, e, samples[0], e.seen);
    var one := At(t, e, samples, 1);
    UpdateEarned(t, e, samples[0], e.seen);
    ArguedIsKept(t, one, samples[1], e.seen);
    var two := At(t, e, samples, 2);
    UpdateEarned(t, one, samples[1], e.seen);
    ArguedIsKept(t, two, samples[2], e.seen);
  }

  lemma ArguedIsKept(t: Thresholds, e: Entry, sample: u32, now: nat)
    requires t.Valid() && Earned(t, e)
    ensures var next := Updated(t, e, sample, now);
            Argues(t, next.kbps, e.tier) ==>
              if e.upgrades == 2 then next.tier == t.TierFor(next.kbps / 5 * 4) && next.upgrades == 0
              else next.tier == e.tier && next.upgrades == e.upgrades + 1
  {
    FasterIsNoWorse(t, Blend(e.kbps, sample) / 5 * 4, Blend(e.kbps, sample));
  }

  // ---- Convergence under a constant sample ----

  function Smoothed(kbps: nat, sample: nat, n: nat): nat
    decreases n
  {
    if n == 0 then kbps else Smoothed(Blend(kbps, sample), sample, n - 1)
  }

  function CeilThreeQuarters(gap: nat): nat {
    (3 * gap + 3) / 4
  }

  /** One sample halves a gap from above and leaves three quarters, rounded up,
      of one from below. */
  lemma GapAfterOne(kbps: nat, sample: nat)
    ensures kbps >= sample ==> Blend(kbps, sample) == sample + (kbps - sample) / 2
    ensures kbps <= sample ==> Blend(kbps, sample) == sample - CeilThreeQuarters(sample - kbps)
  {
    if kbps > sample {
      assert kbps + sample == 2 * sample + (kbps - sample);
    } else {
      var gap := sample - kbps;
      assert kbps * 3 + sample == 4 * sample - 3 * gap;
    }
  }

  function Pow2(k: nat): nat {
    if k == 0 then 1 else 2 * Pow2(k - 1)
  }

  lemma Pow2Of32()
    ensures Pow2(32) == U32
  {
    assert Pow2(4) == 16;
    assert Pow2(8) == 16 * Pow2(4);
    assert Pow2(12) == 16 * Pow2(8);
    assert Pow2(16) == 16 * Pow2(12);
    assert Pow2(20) == 16 * Pow2(16);
    assert Pow2(24) == 16 * Pow2(20);
    assert Pow2(28) == 16 * Pow2(24);
    assert Pow2(32) == 16 * Pow2(28);
  }

  lemma {:induction false} FromAbove(kbps: nat, sample: nat, n: nat)
    requires kbps >= sample && kbps - sample < Pow2(n)
    ensures Smoothed(kbps, sample, n) == sample
    decreases n
  {
    if n > 0 {
      GapAfterOne(kbps, sample);
      FromAbove(Blend(kbps, sample), sample, n - 1);
    }
  }

  /** Three samples halve what is left beyond the last three. */
  lemma {:induction false} FromBelow(kbps: nat, sample: nat, k: nat)
    requires kbps <= sample && sample - kbps <= Pow2(k) + 3
    ensures var e := Smoothed(kbps, sample, 3 * k + 1); e <= sample <= e + 3
    decreases k
  {
    var one := Blend(kbps, sample);
    GapAfterOne(kbps, sample);
    if k == 0 {
      assert Smoothed(kbps, sample, 1) == Smoothed(one, sample, 0);
    } else {
      var two := Blend(one, sample);
      var three := Blend(two, sample);
      GapAfterOne(one, sample);
      GapAfterOne(two, sample);
      assert sample - three <= Pow2(k - 1) + 3;
      FromBelow(three, sample, k - 1);
      var m := 3 * (k - 1) + 1;
      assert Smoothed(two, sample, m + 1) == Smoothed(three, sample, m);
      assert Smoothed(one, sample, m + 2) == Smoothed(two, sample, m + 1);
      assert Smoothed(kbps, sample, m + 3) == Smoothed(one, sample, m + 2);
    }
  }

  /** Within three of the sample from below, or on it, nothing moves. */
  lemma SettledIsFixed(kbps: nat, sample: nat)
    requires kbps <= sample <= kbps + 3
    ensures Blend(kbps, sample) == kbps
  {
  }

  lemma {:induction false} StaysSettled(kbps: nat, sample: nat, n: nat)
    requires kbps <= sample <= kbps + 3
    ensures Smoothed(kbps, sample, n) == kbps
    decreases n
  {
    if n > 0 {
      SettledIsFixed(kbps, sample);
      StaysSettled(kbps, sample, n - 1);
    }
  }

  lemma {:induction false} SmoothedAdds(kbps: nat, sample: nat, m: nat, n: nat)
    ensures Smoothed(kbps, sample, m + n) == Smoothed(Smoothed(kbps, sample, m), sample, n)
    decreases m
  {
    if m > 0 {
      SmoothedAdds(Blend(kbps, sample), sample, m - 1, n);
    }
  }

  const SETTLING: nat := 97

  lemma SettlesBy97(kbps: u32, sample: u32, m: nat)
    requires m == SETTLING
    ensures var e := Smoothed(kbps, sample, m); e <= sample <= e + 3
  {
    Pow2Of32();
    var k: nat := 32;
    if kbps >= sample {
      FromAbove(kbps, sample, k);
      SmoothedAdds(kbps, sample, k, m - k);
      StaysSettled(sample, sample, m - k);
    } else {
      FromBelow(kbps, sample, k);
    }
  }

  /** Any estimate settles within 97 equal samples, at the sample or at most
      three below it, and stays there. */
  lemma EstimateConverges(kbps: u32, sample: u32, m: nat, n: nat)
    requires SETTLING <= m <= n
    ensures var e := Smoothed(kbps, sample, m);
            e <= sample <= e + 3 && Smoothed(kbps, sample, n) == e
  {
    var first: nat :| first == SETTLING;
    SettlesBy97(kbps, sample, first);
    var e := Smoothed(kbps, sample, first);
    SmoothedAdds(kbps, sample, first, m - first);
    StaysSettled(e, sample, m - first);
    SmoothedAdds(kbps, sample, first, n - first);
    StaysSettled(e, sample, n - first);
  }

  /** The entry after `n` equal samples. */
  function Repeated(t: Thresholds, e: Entry, sample: nat, n: nat): Entry
    requires t.Valid()
    decreases n
  {
    if n == 0 then e else Repeated(t, Updated(t, e, sample, e.seen), sample, n - 1)
  }

  lemma {:induction false} RepeatedKbps(t: Thresholds, e: Entry, sample: nat, n: nat)
    requires t.Valid()
    ensures Repeated(t, e, sample, n).kbps == Smoothed(e.kbps, sample, n)
    decreases n
  {
    if n > 0 {
      RepeatedKbps(t, Updated(t, e, sample, e.seen), sample, n - 1);
    }
  }

  lemma OneMore(t: Thresholds, e: Entry, sample: nat, n: nat)
    requires t.Valid() && n > 0
    ensures Repeated(t, e, sample, n) == Repeated(t, Updated(t, e, sample, e.seen), sample, n - 1)
  {
  }

  lemma {:induction false} RepeatedAdds(t: Thresholds, e: Entry, sample: nat, m: nat, n: nat)
    requires t.Valid()
    ensures Repeated(t, e, sample, m + n) == Repeated(t, Repeated(t, e, sample, m), sample, n)
    decreases m
  {
    if m > 0 {
      var next := Updated(t, e, sample, e.seen);
      RepeatedAdds(t, next, sample, m - 1, n);
      OneMore(t, e, sample, m);
      OneMore(t, e, sample, m + n);
    }
  }

  lemma {:induction false} RepeatedEarned(t: Thresholds, e: Entry, sample: u32, n: nat)
    requires t.Valid() && Earned(t, e)
    ensures Earned(t, Repeated(t, e, sample, n))
    decreases n
  {
    if n > 0 {
      UpdateEarned(t, e, sample, e.seen);
      RepeatedEarned(t, Updated(t, e, sample, e.seen), sample, n - 1);
    }
  }

  /** The tier lies between what the estimate earns and what four fifths of it
      would, so no equal sample can move it. */
  ghost predicate AtRest(t: Thresholds, e: Entry)
    requires t.Valid()
  {
    t.TierFor(e.kbps).Degradation() <= e.tier.Degradation() <= t.TierFor(Margin(e.kbps)).Degradation()
  }

  lemma RestIsKept(t: Thresholds, e: Entry, sample: nat)
    requires t.Valid() && e.kbps <= sample <= e.kbps + 3 && AtRest(t, e)
    ensures var next := Updated(t, e, sample, e.seen);
            next.tier == e.tier && next.kbps == e.kbps && AtRest(t, next)
  {
    SettledIsFixed(e.kbps, sample);
    var next := Updated(t, e, sample, e.seen);
    assert next.tier.Degradation() == e.tier.Degradation();
  }

  lemma {:induction false} RestIsForever(t: Thresholds, e: Entry, sample: nat, n: nat)
    requires t.Valid() && e.kbps <= sample <= e.kbps + 3 && AtRest(t, e)
    ensures Repeated(t, e, sample, n).tier == e.tier && Repeated(t, e, sample, n).kbps == e.kbps
    decreases n
  {
    if n > 0 {
      RestIsKept(t, e, sample);
      RestIsForever(t, Updated(t, e, sample, e.seen), sample, n - 1);
    }
  }

  /** Three samples on a settled estimate bring the tier to rest. */
  lemma RestsInThree(t: Thresholds, e: Entry, sample: nat)
    requires t.Valid() && Earned(t, e) && e.kbps <= sample <= e.kbps + 3
    ensures AtRest(t, Repeated(t, e, sample, 3)) && Repeated(t, e, sample, 3).kbps == e.kbps
  {
    SettledIsFixed(e.kbps, sample);
    FasterIsNoWorse(t, Margin(e.kbps), e.kbps);
    var one := Updated(t, e, sample, e.seen);
    var two := Updated(t, one, sample, one.seen);
    var three := Updated(t, two, sample, two.seen);
    ThreeRepeated(t, e, sample);
    MovedRests(e.tier, e.upgrades, t.TierFor(e.kbps), t.TierFor(Margin(e.kbps)));
  }

  lemma ThreeRepeated(t: Thresholds, e: Entry, sample: nat)
    requires t.Valid()
    ensures var one := Updated(t, e, sample, e.seen);
            var two := Updated(t, one, sample, one.seen);
            Repeated(t, e, sample, 3) == Updated(t, two, sample, two.seen)
  {
    var one := Updated(t, e, sample, e.seen);
    var two := Updated(t, one, sample, one.seen);
    var three := Updated(t, two, sample, two.seen);
    assert Repeated(t, two, sample, 1) == Repeated(t, three, sample, 0) == three;
    assert Repeated(t, one, sample, 2) == Repeated(t, two, sample, 1);
    assert Repeated(t, e, sample, 3) == Repeated(t, one, sample, 2);
  }

  lemma MovedRests(tier: Tier, upgrades: nat, candidate: Tier, confident: Tier)
    requires candidate.Degradation() <= confident.Degradation()
    requires candidate.Degradation() <= tier.Degradation()
    ensures var (a, i) := Moved(tier, upgrades, candidate, confident);
            var (b, j) := Moved(a, i, candidate, confident);
            var (c, k) := Moved(b, j, candidate, confident);
            candidate.Degradation() <= c.Degradation() <= confident.Degradation()
  {
  }

  lemma RestsFrom(t: Thresholds, e: Entry, sample: u32, m: nat)
    requires t.Valid() && Earned(t, e) && m >= SETTLING + 3
    ensures var at := Repeated(t, e, sample, m); AtRest(t, at) && at.kbps <= sample <= at.kbps + 3
  {
    var last: nat :| last == 3;
    var k := m - last;
    var before := Repeated(t, e, sample, k);
    EstimateConverges(e.kbps, sample, k, k);
    RepeatedKbps(t, e, sample, k);
    RepeatedEarned(t, e, sample, k);
    RepeatedAdds(t, e, sample, k, last);
    RestsInThree(t, before, sample);
  }

  /** Within a hundred equal samples the tier is fixed for good, between what
      the settled estimate earns and what four fifths of it would. */
  lemma TierConverges(t: Thresholds, e: Entry, sample: u32, m: nat, n: nat)
    requires t.Valid() && Earned(t, e) && SETTLING + 3 <= m <= n
    ensures var at, last := Repeated(t, e, sample, m), Repeated(t, e, sample, n);
            && AtRest(t, at) && at.kbps <= sample <= at.kbps + 3
            && last.kbps == at.kbps && last.tier == at.tier
  {
    RestsFrom(t, e, sample, m);
    Forever(t, e, Repeated(t, e, sample, m), sample, m, n);
  }

  lemma Forever(t: Thresholds, e: Entry, at: Entry, sample: nat, m: nat, n: nat)
    requires t.Valid() && m <= n && at == Repeated(t, e, sample, m)
    requires at.kbps <= sample <= at.kbps + 3 && AtRest(t, at)
    ensures Repeated(t, e, sample, n).tier == at.tier && Repeated(t, e, sample, n).kbps == at.kbps
  {
    var more := n - m;
    RestIsForever(t, at, sample, more);
    RepeatedAdds(t, e, sample, m, more);
  }
}
