/** The memory recommendation of src/utils/recommend.py and the startup guards of
    src/startup_tuning.py. Host detection, the environment and the rounding of 15% of the
    RAM are inputs. */
module MemoryEnvelope {
  import opened Basics

  // Python's // : the quotient rounded down.
  function FloorDiv(a: int, b: int): (q: int)
    requires b != 0
    ensures b > 0 ==> q * b <= a < (q + 1) * b
    ensures b < 0 ==> q * b >= a > (q + 1) * b
  {
    if b > 0 then a / b else (-a) / (-b)
  }

  // Python's int() of a float: towards zero.
  function Truncate(x: real): (n: int)
    ensures x >= 0.0 ==> n as real <= x < n as real + 1.0
    ensures x < 0.0 ==> n as real - 1.0 < x <= n as real
  {
    if x >= 0.0 then x.Floor else -((-x).Floor)
  }

  function Least(a: int, b: int): int {
    if a <= b then a else b
  }

  function Greatest(a: int, b: int): int {
    if a >= b then a else b
  }

  function Clamp(x: int, lo: int, hi: int): int {
    Greatest(lo, Least(hi, x))
  }

  // ---- Tiers ----

  datatype Tier = Tier(name: string, cpgMaxGb: Option<real>, heapGb: int, capGb: int)

  const DEFAULT_TIERS := [
    Tier("S", Some(1.0), 2, 3),
    Tier("M", Some(4.0), 6, 8),
    Tier("L", Some(12.0), 16, 20),
    Tier("XL", None, 28, 32)]

  predicate Covers(t: Tier, sizeGb: real) {
    t.cpgMaxGb == None || sizeGb <= t.cpgMaxGb.value
  }

  // i is the first tier that covers the size, or the last one when none does.
  ghost predicate IsTierFor(tiers: seq<Tier>, sizeGb: real, i: nat) {
    && i < |tiers|
    && (forall j | 0 <= j < i :: !Covers(tiers[j], sizeGb))
    && (Covers(tiers[i], sizeGb) || i == |tiers| - 1)
  }

  // None is the error of indexing an empty list.
  method TierForCpgSizeGb(sizeGb: real, tiers: seq<Tier>) returns (tier: Option<Tier>)
    ensures tier == None <==> tiers == []
    ensures tier.Some? ==> exists i: nat :: IsTierFor(tiers, sizeGb, i) && tiers[i] == tier.value
  {
    var i := 0;
    while i < |tiers|
      invariant 0 <= i <= |tiers|
      invariant forall j | 0 <= j < i :: !Covers(tiers[j], sizeGb)
    {
      if Covers(tiers[i], sizeGb) {
        assert IsTierFor(tiers, sizeGb, i);
        return Some(tiers[i]);
      }
      i := i + 1;
    }
    if tiers == [] {
      return None;
    }
    assert IsTierFor(tiers, sizeGb, |tiers| - 1);
    return Some(tiers[|tiers| - 1]);
  }

  // Each tier takes larger CPGs and more memory than the one before, and the last takes all.
  ghost predicate Ascending(tiers: seq<Tier>) {
    && tiers != [] && tiers[|tiers| - 1].cpgMaxGb == None
    && (forall i, j | 0 <= i < j < |tiers| ::
          && tiers[i].heapGb <= tiers[j].heapGb && tiers[i].capGb <= tiers[j].capGb
          && tiers[i].cpgMaxGb.Some?
          && (tiers[j].cpgMaxGb.Some? ==> tiers[i].cpgMaxGb.value <= tiers[j].cpgMaxGb.value))
  }

  // The chosen tier covers the CPG with the least memory of all tiers that do, and a larger
  // CPG never gets less. The default tiers are such a list.
  lemma TierIsSmallestCovering(tiers: seq<Tier>, sizeGb: real, i: nat, larger: real, k: nat)
    requires Ascending(tiers) && IsTierFor(tiers, sizeGb, i) && IsTierFor(tiers, larger, k) && sizeGb <= larger
    ensures Covers(tiers[i], sizeGb)
    ensures forall t | t in tiers && Covers(t, sizeGb) :: tiers[i].capGb <= t.capGb && tiers[i].heapGb <= t.heapGb
    ensures i <= k && tiers[i].capGb <= tiers[k].capGb && tiers[i].heapGb <= tiers[k].heapGb
    ensures Ascending(DEFAULT_TIERS)
  {
    assert Covers(tiers[k], larger);
    assert Covers(tiers[k], sizeGb);
  }

  // The default tiers by size: what they are called and the heap and container they get.
  lemma DefaultTiersBySize(sizeGb: real, i: nat)
    requires IsTierFor(DEFAULT_TIERS, sizeGb, i)
    ensures var t := DEFAULT_TIERS[i];
            && (sizeGb <= 1.0 ==> t.name == "S" && t.heapGb == 2 && t.capGb == 3)
            && (1.0 < sizeGb <= 4.0 ==> t.name == "M" && t.heapGb == 6 && t.capGb == 8)
            && (4.0 < sizeGb <= 12.0 ==> t.name == "L" && t.heapGb == 16 && t.capGb == 20)
            && (12.0 < sizeGb ==> t.name == "XL" && t.heapGb == 28 && t.capGb == 32)
  {
    assert Covers(DEFAULT_TIERS[3], sizeGb);
    assert sizeGb <= 12.0 ==> Covers(DEFAULT_TIERS[2], sizeGb);
    assert sizeGb <= 4.0 ==> Covers(DEFAULT_TIERS[1], sizeGb);
    assert sizeGb <= 1.0 ==> Covers(DEFAULT_TIERS[0], sizeGb);
  }

  // ---- The recommendation ----

  datatype Recommendation = Recommendation(
    headroomGb: int,
    joernBudgetGb: int,
    buildWorkers: int,
    buildReserveGb: int,
    queryBudgetGb: int,
    queryCapGb: int,
    maxActive: int,
    maxMcp: int,
    rssThresholdMb: int,
    poolMode: bool,
    buildCapGb: int,
    tiers: seq<Tier>,
    perTier: map<string, int>)

  // The arguments of compute; `rounded` is 15% of the host's RAM, rounded.
  datatype Inputs = Inputs(
    totalGb: real, cores: int, rounded: int,
    queryHeapGb: int, buildHeapGb: int, headroomGb: Option<int>, buildWorkers: Option<int>,
    poolMode: bool, tiers: seq<Tier>)
  {
    function Headroom(): int {
      Least(if headroomGb.Some? then headroomGb.value else Clamp(rounded, 12, 24), Truncate(totalGb) - 4)
    }

    function JoernBudget(): int {
      Greatest(4, Truncate(totalGb) - Headroom())
    }

    function Workers(): int {
      if buildWorkers.Some? then buildWorkers.value else Clamp(FloorDiv(cores, 16), 2, 6)
    }

    function BuildReserve(): int {
      Least(Workers() * (buildHeapGb + 1), FloorDiv(JoernBudget(), 2))
    }

    function QueryBudget(): int {
      Greatest(queryHeapGb + 1, JoernBudget() - BuildReserve())
    }

    // A division by zero is the one error.
    predicate Divides() {
      queryHeapGb != -1 && forall t | t in tiers :: t.capGb != 0
    }
  }

  function TierFit(budgetGb: int, t: Tier): int
    requires t.capGb != 0
  {
    Greatest(0, FloorDiv(budgetGb * 1024, t.capGb * 1024))
  }

  // A repeated name keeps the last tier of that name.
  function TierFits(budgetGb: int, tiers: seq<Tier>): map<string, int>
    requires forall t | t in tiers :: t.capGb != 0
  {
    if tiers == [] then map[]
    else
      var last := tiers[|tiers| - 1];
      TierFits(budgetGb, tiers[..|tiers| - 1])[last.name := TierFit(budgetGb, last)]
  }

  method Compute(inp: Inputs) returns (rec: Option<Recommendation>)
    ensures rec == None <==> !inp.Divides()
    ensures rec.Some? ==>
              rec.value == Recommendation(
                inp.Headroom(), inp.JoernBudget(), inp.Workers(), inp.BuildReserve(), inp.QueryBudget(),
                inp.queryHeapGb + 1, Greatest(1, FloorDiv(inp.QueryBudget(), inp.queryHeapGb + 1)),
                Greatest(1, FloorDiv(inp.QueryBudget(), inp.queryHeapGb + 1)) + inp.Workers() + 8,
                FloorDiv(inp.JoernBudget() * 9216, 10), inp.poolMode,
                if inp.poolMode then inp.BuildReserve() else inp.JoernBudget(),
                inp.tiers, TierFits(inp.QueryBudget(), inp.tiers))
  {
    var total := Truncate(inp.totalGb);
    var headroom := if inp.headroomGb.Some? then inp.headroomGb.value else Clamp(inp.rounded, 12, 24);
    headroom := Least(headroom, total - 4);
    var joernBudget := Greatest(4, total - headroom);
    var buildWorkers := if inp.buildWorkers.Some? then inp.buildWorkers.value else Clamp(FloorDiv(inp.cores, 16), 2, 6);
    var buildReserve := buildWorkers * (inp.buildHeapGb + 1);
    buildReserve := Least(buildReserve, FloorDiv(joernBudget, 2));
    var queryBudget := Greatest(inp.queryHeapGb + 1, joernBudget - buildReserve);
    var queryCap := inp.queryHeapGb + 1;
    if queryCap == 0 {
      return None;
    }
    var maxActive := Greatest(1, FloorDiv(queryBudget, queryCap));
    var perTier := PerTierCapacity(queryBudget, inp.tiers);
    if perTier == None {
      return None;
    }
    var buildCap := if inp.poolMode then buildReserve else joernBudget;
    rec := Some(Recommendation(headroom, joernBudget, buildWorkers, buildReserve, queryBudget, queryCap, maxActive,
                               maxActive + buildWorkers + 8, FloorDiv(joernBudget * 9216, 10), inp.poolMode, buildCap,
                               inp.tiers, perTier.value));
  }

  // The loop of compute that fills the per-tier capacities.
  method PerTierCapacity(budgetGb: int, tiers: seq<Tier>) returns (perTier: Option<map<string, int>>)
    ensures perTier == None <==> exists t :: t in tiers && t.capGb == 0
    ensures perTier.Some? ==> perTier.value == TierFits(budgetGb, tiers)
  {
    var filled: map<string, int> := map[];
    var i := 0;
    while i < |tiers|
      invariant 0 <= i <= |tiers|
      invariant forall t | t in tiers[..i] :: t.capGb != 0
      invariant filled == TierFits(budgetGb, tiers[..i])
    {
      if tiers[i].capGb == 0 {
        return None;
      }
      assert tiers[..i + 1][..i] == tiers[..i];
      filled := filled[tiers[i].name := TierFit(budgetGb, tiers[i])];
      i := i + 1;
    }
    assert tiers[..|tiers|] == tiers;
    return Some(filled);
  }

  // ---- What the recommendation guarantees ----

  // The query server fits what the builds leave: at least half, or all that the workers do not need.
  predicate QueryServerFits(inp: Inputs) {
    || inp.queryHeapGb + 1 <= inp.JoernBudget() - inp.Workers() * (inp.buildHeapGb + 1)
    || 2 * (inp.queryHeapGb + 1) <= inp.JoernBudget() + 1
  }

  // What fits beside a reserve of at most half.
  lemma LeftBeside(budget: int, asked: int, need: int)
    ensures need <= budget - Least(asked, FloorDiv(budget, 2)) <==> need <= budget - asked || 2 * need <= budget + 1
  {
  }

  // The default heaps, with nothing set by hand.
  predicate Defaults(inp: Inputs) {
    inp.queryHeapGb == 4 && inp.buildHeapGb == 6 && inp.headroomGb == None && inp.buildWorkers == None
  }

  // What is not set by hand follows the host: headroom is 15% of the RAM but 12 to 24 GB, and
  // build workers one for 16 cores but 2 to 6; either way headroom leaves 4 GB of the host.
  lemma DefaultsFollowTheHost(inp: Inputs)
    ensures inp.buildWorkers == None ==>
              && 2 <= inp.Workers() <= 6 && (inp.cores < 48 ==> inp.Workers() == 2)
              && (48 <= inp.cores < 96 ==> 16 * inp.Workers() <= inp.cores < 16 * (inp.Workers() + 1))
              && (inp.cores >= 96 ==> inp.Workers() == 6)
    ensures inp.buildWorkers.Some? ==> inp.Workers() == inp.buildWorkers.value
    ensures inp.Headroom() <= Truncate(inp.totalGb) - 4
    ensures inp.Headroom() < Truncate(inp.totalGb) - 4 ==>
              match inp.headroomGb
              case Some(asked) => inp.Headroom() == asked
              case None =>
                && 12 <= inp.Headroom() <= 24 && (inp.rounded <= 12 ==> inp.Headroom() == 12)
                && (12 <= inp.rounded <= 24 ==> inp.Headroom() == inp.rounded) && (inp.rounded >= 24 ==> inp.Headroom() == 24)
    ensures inp.Headroom() == Truncate(inp.totalGb) - 4 ==>
              match inp.headroomGb
              case Some(asked) => asked >= Truncate(inp.totalGb) - 4
              case None =>
                Truncate(inp.totalGb) - 4 <= 24 && (Truncate(inp.totalGb) <= 16 || inp.rounded >= Truncate(inp.totalGb) - 4)
  {
  }

  // How the recommendation shares out the host. Headroom and Joern budget are exactly its whole
  // gigabytes, at least four of them for Joern, which exist on the host exactly when it has four
  // and the headroom asked for is not negative. Builds reserve at most half of the budget, which
  // covers the workers exactly when they need no more. Reserve and query budget add up to the
  // budget exactly when one query server fits beside the reserve, and otherwise exceed it by what
  // that server lacks: with the defaults below 9 GB, so on every host below 21 GB.
  lemma RecommendationSharesTheHost(inp: Inputs)
    ensures inp.JoernBudget() == Truncate(inp.totalGb) - inp.Headroom() >= 4
    ensures inp.JoernBudget() <= Truncate(inp.totalGb)
       <==> Truncate(inp.totalGb) >= 4 && (inp.headroomGb.Some? ==> inp.headroomGb.value >= 0)
    ensures 2 * inp.BuildReserve() <= inp.JoernBudget()
    ensures inp.Workers() * (inp.buildHeapGb + 1) <= inp.BuildReserve()
       <==> 2 * (inp.Workers() * (inp.buildHeapGb + 1)) <= inp.JoernBudget()
    ensures inp.BuildReserve() + inp.QueryBudget() >= inp.JoernBudget()
    ensures inp.BuildReserve() + inp.QueryBudget() == inp.JoernBudget() <==> QueryServerFits(inp)
    ensures !QueryServerFits(inp) ==> inp.QueryBudget() == inp.queryHeapGb + 1
    ensures Defaults(inp) ==> (QueryServerFits(inp) <==> inp.JoernBudget() >= 9)
    ensures Defaults(inp) && Truncate(inp.totalGb) < 21 ==> !QueryServerFits(inp)
  {
    LeftBeside(inp.JoernBudget(), inp.Workers() * (inp.buildHeapGb + 1), inp.queryHeapGb + 1);
    assert Defaults(inp) ==> inp.Workers() >= 2;
  }

  predicate LastOfName(tiers: seq<Tier>, i: nat) {
    i < |tiers| && forall j | i < j < |tiers| :: tiers[j].name != tiers[i].name
  }

  // The recommended number of containers of a tier is the largest that fits; of tiers of one
  // name the last one counts.
  lemma {:induction false} TierFitsByName(budgetGb: int, tiers: seq<Tier>, i: nat)
    requires budgetGb >= 0 && (forall t | t in tiers :: t.capGb != 0)
    requires LastOfName(tiers, i) && tiers[i].capGb > 0
    ensures var name, fits := tiers[i].name, TierFits(budgetGb, tiers);
            name in fits && fits[name] * tiers[i].capGb <= budgetGb < (fits[name] + 1) * tiers[i].capGb
    decreases |tiers|
  {
    var n := |tiers| - 1;
    if i == n {
      TierFitIsLargest(budgetGb, tiers[n]);
    } else {
      TierFitsByName(budgetGb, tiers[..n], i);
    }
  }

  // The promised number of standard query servers is the largest that fits the query budget,
  // and fits beside the builds exactly when one does; a tier's capacity in the recommendation
  // is the largest number of its containers that fits.
  lemma CapacitiesAreLargest(inp: Inputs, i: nat)
    requires inp.queryHeapGb >= 0 && forall t | t in inp.tiers :: t.capGb != 0
    ensures var n, cap := Greatest(1, FloorDiv(inp.QueryBudget(), inp.queryHeapGb + 1)), inp.queryHeapGb + 1;
            && n * cap <= inp.QueryBudget() < (n + 1) * cap
            && (inp.BuildReserve() + n * cap <= inp.JoernBudget() <==> QueryServerFits(inp))
    ensures LastOfName(inp.tiers, i) && inp.tiers[i].capGb > 0 ==>
              var t, fits := inp.tiers[i], TierFits(inp.QueryBudget(), inp.tiers);
              t.name in fits && fits[t.name] * t.capGb <= inp.QueryBudget() < (fits[t.name] + 1) * t.capGb
  {
    var cap := inp.queryHeapGb + 1;
    OneFits(inp.QueryBudget(), cap);
    RecommendationSharesTheHost(inp);
    if !QueryServerFits(inp) {
      ExactlyOneFits(cap);
    }
    if LastOfName(inp.tiers, i) && inp.tiers[i].capGb > 0 {
      TierFitsByName(inp.QueryBudget(), inp.tiers, i);
    }
  }

  lemma ScaleKeepsOrder(x: int, y: int, k: int)
    requires k > 0
    ensures x <= y <==> x * k <= y * k
  {
    assert y * k - x * k == (y - x) * k;
  }

  lemma QuotientIsAtLeast(a: int, b: int, n: int)
    requires b > 0 && n * b <= a
    ensures FloorDiv(a, b) >= n
  {
    ScaleKeepsOrder(FloorDiv(a, b) + 1, n, b);
  }

  lemma OneFits(budget: int, cap: int)
    requires 0 < cap <= budget
    ensures FloorDiv(budget, cap) >= 1
  {
    QuotientIsAtLeast(budget, cap, 1);
  }

  lemma ExactlyOneFits(cap: int)
    requires cap > 0
    ensures FloorDiv(cap, cap) == 1
  {
    OneFits(cap, cap);
    ScaleKeepsOrder(2, FloorDiv(cap, cap), cap);
  }

  lemma Regroup(x: int, y: int, z: int)
    ensures x * (y * z) == (x * y) * z
  {
  }

  lemma TierFitIsLargest(budgetGb: int, t: Tier)
    requires budgetGb >= 0 && t.capGb > 0
    ensures var n := TierFit(budgetGb, t); n * t.capGb <= budgetGb < (n + 1) * t.capGb
  {
    QuotientIsAtLeast(budgetGb * 1024, t.capGb * 1024, 0);
    var q := FloorDiv(budgetGb * 1024, t.capGb * 1024);
    Regroup(q, t.capGb, 1024);
    Regroup(q + 1, t.capGb, 1024);
  }

  // ---- The startup guards ----

  const DEFAULT_BUILD_CAP_MB := 100 * 1024
  const BUILD_JVM_OVERHEAD_GB := 1

  function MinCapGb(tiers: seq<Tier>): (m: int)
    ensures tiers != [] ==> (exists t :: t in tiers && m == t.capGb) && forall t | t in tiers :: m <= t.capGb
    ensures tiers == [] ==> m == 3
  {
    if tiers == [] then 3
    else if |tiers| == 1 then tiers[0].capGb
    else Least(tiers[0].capGb, MinCapGb(tiers[1..]))
  }

  // What the build container's cap leaves of the Joern budget.
  function SafeWorkerMb(rec: Recommendation, memLimitMb: Option<int>): int {
    rec.joernBudgetGb * 1024 - (if memLimitMb.Some? then memLimitMb.value else DEFAULT_BUILD_CAP_MB)
  }

  function GuardedBudgetMb(rec: Recommendation, memLimitMb: Option<int>, budgetMb: int): int {
    if SafeWorkerMb(rec, memLimitMb) < MinCapGb(rec.tiers) * 1024 then MinCapGb(rec.tiers) * 1024
    else Least(budgetMb, SafeWorkerMb(rec, memLimitMb))
  }

  function PerBuildMb(buildHeapGb: int): (mb: int)
    ensures mb >= 2048
  {
    (Greatest(1, buildHeapGb) + BUILD_JVM_OVERHEAD_GB) * 1024
  }

  function GuardedWorkers(buildHeapGb: int, limitMb: int, workers: int): int {
    if limitMb <= 0 then workers
    else Least(workers, Greatest(1, FloorDiv(limitMb, PerBuildMb(buildHeapGb))))
  }

  // The settings the tuning overwrites.
  class Config {
    const poolMode: bool
    const buildHeapGb: int
    var memoryBudgetMb: int
    var rssThresholdMb: int
    var buildWorkers: int

    constructor (poolMode: bool, buildHeapGb: int, memoryBudgetMb: int, rssThresholdMb: int, buildWorkers: int)
      ensures this.poolMode == poolMode && this.buildHeapGb == buildHeapGb
      ensures this.memoryBudgetMb == memoryBudgetMb && this.rssThresholdMb == rssThresholdMb
      ensures this.buildWorkers == buildWorkers
    {
      this.poolMode, this.buildHeapGb := poolMode, buildHeapGb;
      this.memoryBudgetMb, this.rssThresholdMb := memoryBudgetMb, rssThresholdMb;
      this.buildWorkers := buildWorkers;
    }

    method GuardPoolMemory(rec: Recommendation, memLimitMb: Option<int>)
      modifies this`memoryBudgetMb
      ensures memoryBudgetMb == GuardedBudgetMb(rec, memLimitMb, old(memoryBudgetMb))
    {
      var joernBudgetMb := rec.joernBudgetGb * 1024;
      var buildCapMb := if memLimitMb.Some? then memLimitMb.value else DEFAULT_BUILD_CAP_MB;
      var safeWorkerMb := joernBudgetMb - buildCapMb;
      var minWorkerMb := MinCapGb(rec.tiers) * 1024;
      if safeWorkerMb < minWorkerMb {
        memoryBudgetMb := minWorkerMb;
      } else if memoryBudgetMb > safeWorkerMb {
        memoryBudgetMb := safeWorkerMb;
      }
    }

    method GuardBuildConcurrency(limitMb: int)
      modifies this`buildWorkers
      ensures buildWorkers == GuardedWorkers(buildHeapGb, limitMb, old(buildWorkers))
    {
      if limitMb <= 0 {
        return;
      }
      var heap := Greatest(1, buildHeapGb);
      var perBuildMb := (heap + BUILD_JVM_OVERHEAD_GB) * 1024;
      var maxWorkers := Greatest(1, FloorDiv(limitMb, perBuildMb));
      if buildWorkers > maxWorkers {
        buildWorkers := maxWorkers;
      }
    }

    // The live container's limit if known, else the configured one, else the recommended one.
    method ApplyStartupTuning(rec: Recommendation, memLimitMb: Option<int>, liveLimitMb: Option<int>)
      modifies this
      ensures var asked := if old(memoryBudgetMb) <= 0 then rec.queryBudgetGb * 1024 else old(memoryBudgetMb);
              memoryBudgetMb == if poolMode then GuardedBudgetMb(rec, memLimitMb, asked) else asked
      ensures rssThresholdMb == if old(rssThresholdMb) <= 0 then rec.rssThresholdMb else old(rssThresholdMb)
      ensures buildWorkers == GuardedWorkers(buildHeapGb, BuildLimitMb(rec, memLimitMb, liveLimitMb), old(buildWorkers))
    {
      if memoryBudgetMb <= 0 {
        memoryBudgetMb := rec.queryBudgetGb * 1024;
      }
      if rssThresholdMb <= 0 {
        rssThresholdMb := rec.rssThresholdMb;
      }
      if poolMode {
        GuardPoolMemory(rec, memLimitMb);
      }
      GuardBuildConcurrency(BuildLimitMb(rec, memLimitMb, liveLimitMb));
    }
  }

  function BuildLimitMb(rec: Recommendation, memLimitMb: Option<int>, liveLimitMb: Option<int>): int {
    if liveLimitMb.Some? && liveLimitMb.value != 0 then liveLimitMb.value
    else if memLimitMb.Some? && memLimitMb.value != 0 then memLimitMb.value
    else rec.buildCapGb * 1024
  }

  // ---- What the guards guarantee ----

  function BuildCapMb(memLimitMb: Option<int>): int {
    if memLimitMb.Some? then memLimitMb.value else DEFAULT_BUILD_CAP_MB
  }

  // One gigabyte for the JVM beside the heap, which is at least one.
  function MbPerBuild(buildHeapGb: int): int {
    if buildHeapGb <= 1 then 2048 else buildHeapGb * 1024 + 1024
  }

  // A guarded build concurrency fits the container exactly when one build does (or nobody
  // builds), is never raised, and is cut no further than it has to be.
  lemma GuardedBuildsFitIff(buildHeapGb: int, limitMb: int, workers: int)
    requires limitMb > 0
    ensures var guarded, per := GuardedWorkers(buildHeapGb, limitMb, workers), MbPerBuild(buildHeapGb);
            && (guarded * per <= limitMb <==> per <= limitMb || workers <= 0)
            && guarded <= workers
            && (guarded < workers ==> (guarded + 1) * per > limitMb)
  {
    var per := PerBuildMb(buildHeapGb);
    var q := FloorDiv(limitMb, per);
    var guarded := GuardedWorkers(buildHeapGb, limitMb, workers);
    if per <= limitMb {
      OneFits(limitMb, per);
      ScaleKeepsOrder(guarded, q, per);
    } else {
      ScaleKeepsOrder(1, guarded, per);
      ScaleKeepsOrder(guarded, 0, per);
    }
    ScaleKeepsOrder(q + 1, guarded + 1, per);
  }

  // The tuning guards the builds against the limit of the live container, else against the
  // configured one, else against the recommended cap; a limit of 0 counts as not known.
  lemma TunedBuildsFitIff(rec: Recommendation, memLimitMb: Option<int>, liveLimitMb: Option<int>, buildHeapGb: int, workers: int)
    ensures var tuned := GuardedWorkers(buildHeapGb, BuildLimitMb(rec, memLimitMb, liveLimitMb), workers);
            var per := MbPerBuild(buildHeapGb);
            && (liveLimitMb.Some? && liveLimitMb.value > 0 ==>
                  (tuned * per <= liveLimitMb.value <==> per <= liveLimitMb.value || workers <= 0))
            && (liveLimitMb in {None, Some(0)} && memLimitMb.Some? && memLimitMb.value > 0 ==>
                  (tuned * per <= memLimitMb.value <==> per <= memLimitMb.value || workers <= 0))
            && (liveLimitMb in {None, Some(0)} && memLimitMb in {None, Some(0)} && rec.buildCapGb > 0 ==>
                  (tuned * per <= rec.buildCapGb * 1024 <==> per <= rec.buildCapGb * 1024 || workers <= 0))
            && (liveLimitMb.Some? && liveLimitMb.value < 0 ==> tuned == workers)
            && (liveLimitMb in {None, Some(0)} && memLimitMb in {None, Some(0)} && rec.buildCapGb <= 0 ==> tuned == workers)
  {
    var limit := BuildLimitMb(rec, memLimitMb, liveLimitMb);
    if limit > 0 {
      GuardedBuildsFitIff(buildHeapGb, limit, workers);
    }
  }

  // The recommendation that the tuning is given in pool mode.
  predicate Recommends(inp: Inputs, rec: Recommendation) {
    && inp.poolMode && rec.joernBudgetGb == inp.JoernBudget() && rec.buildCapGb == inp.BuildReserve()
    && rec.queryBudgetGb == inp.QueryBudget() && rec.tiers == inp.tiers
  }

  // After the guard, build cap and worker budget fit the Joern budget exactly when the cap
  // leaves room for the smallest tier. Where it does, a budget that fits already is kept and
  // a larger one is cut to the largest that fits; where it does not, the smallest tier's cap
  // is forced, even over a budget that fitted. With the recommended cap the two pools fit,
  // whatever was configured, exactly when half the Joern budget, or what the builds leave of
  // it, holds the smallest tier.
  lemma GuardRestoresTheBoundIff(inp: Inputs, rec: Recommendation, memLimitMb: Option<int>, budgetMb: int)
    ensures var joernMb, capMb := rec.joernBudgetGb * 1024, BuildCapMb(memLimitMb);
            var minMb, guarded := MinCapGb(rec.tiers) * 1024, GuardedBudgetMb(rec, memLimitMb, budgetMb);
            && (capMb + guarded <= joernMb <==> capMb + minMb <= joernMb)
            && (capMb + minMb <= joernMb ==>
                  if capMb + budgetMb <= joernMb then guarded == budgetMb else capMb + guarded == joernMb)
            && (capMb + minMb > joernMb ==> guarded == minMb)
            && GuardedBudgetMb(rec, memLimitMb, guarded) == guarded
            && (memLimitMb == None ==> capMb == 102400)
    ensures Recommends(inp, rec) && memLimitMb == Some(rec.buildCapGb * 1024) ==>
              (BuildCapMb(memLimitMb) + GuardedBudgetMb(rec, memLimitMb, budgetMb) <= rec.joernBudgetGb * 1024 <==>
               || MinCapGb(inp.tiers) <= inp.JoernBudget() - inp.Workers() * (inp.buildHeapGb + 1)
               || 2 * MinCapGb(inp.tiers) <= inp.JoernBudget() + 1)
  {
    LeftBeside(inp.JoernBudget(), inp.Workers() * (inp.buildHeapGb + 1), MinCapGb(inp.tiers));
  }
}
