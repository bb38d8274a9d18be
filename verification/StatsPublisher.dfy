/** The sample cache of stats_publisher.py and the differencing of
    `build_resource_usage` (model.py). Counters are integers, times and rates reals. */
module StatsPublisher {
  import opened Common

  type Id = string

  datatype Counter = RxBytes | TxBytes | BlockRead | BlockWrite

  // Totals come in pairs, or not at all.
  datatype Network = Network(received: int, sent: int)
  datatype BlockIo = BlockIo(read: int, written: int)

  /** The parts of a stats body that are differenced. */
  datatype Reading = Reading(
    cpuTotal: int, systemCpu: int, online: int, network: Option<Network>, block: Option<BlockIo>)

  datatype Sample = Sample(
    cpuTotal: int, systemCpu: int, network: Option<Network>, block: Option<BlockIo>, at: real)

  /** Unset is not zero: what has no predecessor to be differenced against is absent. */
  datatype Usage = Usage(
    id: Id, network: Option<Network>, block: Option<BlockIo>,
    window: Option<real>, cpuLoadPct: Option<real>, rates: map<Counter, real>)

  function Total(network: Option<Network>, block: Option<BlockIo>, c: Counter): Option<int> {
    match c
    case RxBytes => if network.Some? then Some(network.value.received) else None
    case TxBytes => if network.Some? then Some(network.value.sent) else None
    case BlockRead => if block.Some? then Some(block.value.read) else None
    case BlockWrite => if block.Some? then Some(block.value.written) else None
  }

  /** A stopped container answers with zeroed counters: no sample. */
  function ReadSample(raw: Reading, at: real): Option<Sample> {
    if raw.cpuTotal <= 0 || raw.systemCpu <= 0 then None
    else Some(Sample(raw.cpuTotal, raw.systemCpu, raw.network, raw.block, at))
  }

  function Rate(current: int, previous: int, elapsed: real): Option<real> {
    if elapsed <= 0.0 then None
    else if current - previous < 0 then None
    else Some((current - previous) as real / elapsed)
  }

  function CounterRate(raw: Reading, previous: Sample, elapsed: real, c: Counter): Option<real> {
    match (Total(raw.network, raw.block, c), Total(previous.network, previous.block, c))
    case (Some(now), Some(before)) => Rate(now, before, elapsed)
    case _ => None
  }

  function SetRate(rates: map<Counter, real>, c: Counter, rate: Option<real>): map<Counter, real> {
    match rate
    case None => rates
    case Some(r) => rates[c := r]
  }

  function CpuLoad(sample: Sample, previous: Sample, online: int): Option<real> {
    var cpuDelta, systemDelta := sample.cpuTotal - previous.cpuTotal, sample.systemCpu - previous.systemCpu;
    if cpuDelta >= 0 && systemDelta > 0 && online > 0
    then Some(cpuDelta as real / systemDelta as real * online as real * 100.0) else None
  }

  function BuildUsage(id: Id, raw: Reading, previous: Option<Sample>, at: real): Option<(Usage, Sample)> {
    match ReadSample(raw, at)
    case None => None
    case Some(sample) =>
      var blank := Usage(id, raw.network, raw.block, None, None, map[]);
      match previous
      case None => Some((blank, sample))
      case Some(p) =>
        var elapsed := at - p.at;
        var blockRates := SetRate(SetRate(map[], BlockRead, CounterRate(raw, p, elapsed, BlockRead)),
                                  BlockWrite, CounterRate(raw, p, elapsed, BlockWrite));
        var rates := SetRate(SetRate(blockRates, RxBytes, CounterRate(raw, p, elapsed, RxBytes)),
                             TxBytes, CounterRate(raw, p, elapsed, TxBytes));
        Some((blank.(window := if elapsed > 0.0 then Some(elapsed) else None,
                     cpuLoadPct := CpuLoad(sample, p, raw.online), rates := rates), sample))
  }

  // ---- one sweep ----

  /** A listed container, when it was asked, and its answer; none if the call failed. */
  datatype Visit = Visit(id: Id, at: real, answer: Option<Reading>)

  type Cache = map<Id, Sample>

  function Get(cache: Cache, id: Id): Option<Sample> {
    if id in cache then Some(cache[id]) else None
  }

  function Row(previous: Cache, visit: Visit): Option<(Usage, Sample)> {
    match visit.answer
    case None => None
    case Some(raw) => BuildUsage(visit.id, raw, Get(previous, visit.id), visit.at)
  }

  function Entries(previous: Cache, visits: seq<Visit>): seq<Usage> {
    if |visits| == 0 then []
    else
      var before := Entries(previous, Front(visits));
      match Row(previous, Last(visits))
      case None => before
      case Some((usage, _)) => before + [usage]
  }

  function Samples(previous: Cache, visits: seq<Visit>): Cache {
    if |visits| == 0 then map[]
    else
      match Row(previous, Last(visits))
      case None => Samples(previous, Front(visits))
      case Some((_, sample)) => Samples(previous, Front(visits))[Last(visits).id := sample]
  }

  /** A tick: the listing fails, or every listed container is visited in turn and the
      result is published, which may fail. */
  datatype Tick = ListFails | Sweep(visits: seq<Visit>, putFails: bool)

  datatype Message = Message(entries: seq<Usage>, sequence: nat)

  class ContainerStatsPublisher {
    var previous: Cache
    var sequence: nat
    var sent: seq<Message>
    ghost var ticks: seq<Tick>

    ghost predicate Valid()
      reads this
    {
      && previous == CacheAfter(ticks)
      && sequence == |sent|
      && sent == Sent(ticks)
    }

    constructor ()
      ensures Valid() && ticks == []
    {
      previous, sequence, sent, ticks := map[], 0, [], [];
    }

    method SweepAll(visits: seq<Visit>) returns (entries: seq<Usage>)
      modifies this`previous
      ensures entries == Entries(old(previous), visits)
      ensures previous == Samples(old(previous), visits)
    {
      entries := [];
      var samples: Cache := map[];
      for i := 0 to |visits|
        invariant previous == old(previous)
        invariant entries == Entries(previous, visits[..i])
        invariant samples == Samples(previous, visits[..i])
      {
        var visit := visits[i];
        assert Front(visits[..i + 1]) == visits[..i] && Last(visits[..i + 1]) == visit;
        if visit.answer.None? {
          continue;
        }
        var built := BuildUsage(visit.id, visit.answer.value, Get(previous, visit.id), visit.at);
        if built.None? {
          continue;
        }
        entries := entries + [built.value.0];
        samples := samples[visit.id := built.value.1];
      }
      assert visits[..|visits|] == visits;
      previous := samples;
    }

    method RunTick(tick: Tick)
      requires Valid()
      modifies this
      ensures Valid() && ticks == old(ticks) + [tick]
    {
      ticks := ticks + [tick];
      assert Front(ticks) == old(ticks);
      if tick.ListFails? {
        return;
      }
      var entries := SweepAll(tick.visits);
      if tick.putFails {
        return;
      }
      sent := sent + [Message(entries, sequence)];
      sequence := sequence + 1;
    }
  }

  // ---- whole runs ----

  /** The cache is replaced by every sweep that gets past its listing, and only then. */
  function CacheAfter(ticks: seq<Tick>): Cache {
    if |ticks| == 0 then map[]
    else
      match Last(ticks)
      case ListFails => CacheAfter(Front(ticks))
      case Sweep(visits, _) => Samples(CacheAfter(Front(ticks)), visits)
  }

  function Sent(ticks: seq<Tick>): seq<Message> {
    if |ticks| == 0 then []
    else
      var before := Sent(Front(ticks));
      match Last(ticks)
      case ListFails => before
      case Sweep(visits, putFails) =>
        if putFails then before
        else before + [Message(Entries(CacheAfter(Front(ticks)), visits), |before|)]
  }

  function Ids(entries: seq<Usage>): set<Id> {
    set i | 0 <= i < |entries| :: entries[i].id
  }

  /** The cache never holds more than the last completed sweep published. */
  lemma {:induction false} CacheIsLastSweep(previous: Cache, visits: seq<Visit>)
    ensures Samples(previous, visits).Keys == Ids(Entries(previous, visits))
  {
    if |visits| > 0 {
      CacheIsLastSweep(previous, Front(visits));
      var before, after := Entries(previous, Front(visits)), Entries(previous, visits);
      match Row(previous, Last(visits)) {
        case None => assert after == before;
        case Some((usage, _)) =>
          assert after == before + [usage];
          assert Ids(after) == Ids(before) + {usage.id} by {
            assert after[|before|] == usage;
            assert forall i :: 0 <= i < |before| ==> after[i] == before[i];
          }
      }
    }
  }

  /** Which rates a row carries, whichever order they were set in. */
  lemma RatesOfRow(previous: Cache, visit: Visit, c: Counter)
    requires Row(previous, visit).Some?
    ensures var Some((usage, _)) := Row(previous, visit);
      if visit.id !in previous then usage.rates == map[]
      else
        var elapsed := visit.at - previous[visit.id].at;
        var rate := CounterRate(visit.answer.value, previous[visit.id], elapsed, c);
        (c in usage.rates <==> rate.Some?) && (rate.Some? ==> usage.rates[c] == rate.value)
  {
  }

  /** In terms of the cache: when a row has a rate, and what it is. */
  lemma RateFromCache(previous: Cache, visit: Visit, c: Counter)
    requires Row(previous, visit).Some?
    ensures var Some((usage, _)) := Row(previous, visit);
      var now, before := Total(visit.answer.value.network, visit.answer.value.block, c), Cached(previous, visit.id, c);
      && (c in usage.rates <==>
           now.Some? && before.Some? && visit.at - previous[visit.id].at > 0.0 && now.value >= before.value)
      && (c in usage.rates ==>
           usage.window == Some(visit.at - previous[visit.id].at) && Moved(usage, c, before.value, now.value))
  {
    RatesOfRow(previous, visit, c);
    var raw := visit.answer.value;
    var now, before := Total(raw.network, raw.block, c), Cached(previous, visit.id, c);
    if now.Some? && before.Some? {
      var elapsed := visit.at - previous[visit.id].at;
      if elapsed > 0.0 && now.value >= before.value {
        RateTimesWindow((now.value - before.value) as real, elapsed);
      }
    }
  }

  lemma RateTimesWindow(delta: real, elapsed: real)
    requires elapsed > 0.0
    ensures delta / elapsed * elapsed == delta
  {
  }

  /** The rate over its window is what the counter moved. */
  ghost predicate Moved(usage: Usage, c: Counter, before: int, after: int) {
    c in usage.rates && usage.window.Some? && usage.rates[c] * usage.window.value == (after - before) as real
  }

  ghost function Cached(cache: Cache, id: Id, c: Counter): Option<int> {
    if id in cache then Total(cache[id].network, cache[id].block, c) else None
  }

  /** The row that counts for a container: its last one in the sweep. */
  function RowOf(previous: Cache, visits: seq<Visit>, id: Id): Option<(Usage, Sample)> {
    if |visits| == 0 then None
    else if Last(visits).id == id && Row(previous, Last(visits)).Some? then Row(previous, Last(visits))
    else RowOf(previous, Front(visits), id)
  }

  lemma {:induction false} CacheHoldsRow(previous: Cache, visits: seq<Visit>, id: Id)
    ensures RowOf(previous, visits, id).Some? <==> id in Samples(previous, visits)
    ensures RowOf(previous, visits, id).Some? ==> Samples(previous, visits)[id] == RowOf(previous, visits, id).value.1
  {
    if |visits| > 0 {
      CacheHoldsRow(previous, Front(visits), id);
    }
  }

  lemma {:induction false} RowIsVisited(previous: Cache, visits: seq<Visit>, id: Id) returns (visit: Visit)
    requires RowOf(previous, visits, id).Some?
    ensures visit in visits && visit.id == id && Row(previous, visit) == RowOf(previous, visits, id)
  {
    if Last(visits).id == id && Row(previous, Last(visits)).Some? {
      visit := Last(visits);
    } else {
      visit := RowIsVisited(previous, Front(visits), id);
    }
  }

  /** One missed sweep (a failed call, a stop, another id under the same name) and the next
      row is a first sight again: no rate, no window, no load. */
  lemma FirstSightHasNoRates(before: Cache, missed: seq<Visit>, visits: seq<Visit>, id: Id)
    requires RowOf(before, missed, id).None?
    requires RowOf(Samples(before, missed), visits, id).Some?
    ensures var (usage, _) := RowOf(Samples(before, missed), visits, id).value;
      usage.rates == map[] && usage.window == None && usage.cpuLoadPct == None
  {
    CacheHoldsRow(before, missed, id);
    var visit := RowIsVisited(Samples(before, missed), visits, id);
  }

  // ---- rates integrate back to counters ----

  function CacheFrom(cache: Cache, ticks: seq<Tick>): Cache
    decreases |ticks|
  {
    if |ticks| == 0 then cache
    else CacheFrom(if ticks[0].ListFails? then cache else Samples(cache, ticks[0].visits), ticks[1..])
  }

  /** Every completed sweep has a rate for this counter of this container. */
  ghost predicate RatedThroughout(cache: Cache, ticks: seq<Tick>, id: Id, c: Counter)
    decreases |ticks|
  {
    |ticks| > 0 ==>
      if ticks[0].ListFails? then RatedThroughout(cache, ticks[1..], id, c)
      else
        && RowOf(cache, ticks[0].visits, id).Some?
        && c in RowOf(cache, ticks[0].visits, id).value.0.rates
        && RatedThroughout(Samples(cache, ticks[0].visits), ticks[1..], id, c)
  }

  /** Rate times window. */
  ghost function Swept(usage: Usage, c: Counter): real
    requires c in usage.rates
  {
    if usage.window.Some? then usage.rates[c] * usage.window.value else 0.0
  }

  /** The sum of rate times window over the completed sweeps. */
  ghost function Volume(cache: Cache, ticks: seq<Tick>, id: Id, c: Counter): real
    requires RatedThroughout(cache, ticks, id, c)
    decreases |ticks|
  {
    if |ticks| == 0 then 0.0
    else if ticks[0].ListFails? then Volume(cache, ticks[1..], id, c)
    else
      Swept(RowOf(cache, ticks[0].visits, id).value.0, c)
        + Volume(Samples(cache, ticks[0].visits), ticks[1..], id, c)
  }

  /** Over any run of ticks in which a container is rated at every completed sweep, the
      rates times their windows add up to what the counter moved, whatever happens to
      other containers and however many listings fail in between. */
  lemma {:induction false} RatesIntegrateToCounters(cache: Cache, ticks: seq<Tick>, id: Id, c: Counter)
    requires RatedThroughout(cache, ticks, id, c) && Cached(cache, id, c).Some?
    ensures Cached(CacheFrom(cache, ticks), id, c).Some?
    ensures Volume(cache, ticks, id, c)
         == (Cached(CacheFrom(cache, ticks), id, c).value - Cached(cache, id, c).value) as real
    decreases |ticks|
  {
    if |ticks| > 0 {
      if ticks[0].ListFails? {
        RatesIntegrateToCounters(cache, ticks[1..], id, c);
      } else {
        var next, end := Samples(cache, ticks[0].visits), CacheFrom(cache, ticks);
        OneSweepIntegrates(cache, ticks[0].visits, id, c);
        RatesIntegrateToCounters(next, ticks[1..], id, c);
        assert end == CacheFrom(next, ticks[1..]);
      }
    }
  }

  lemma OneSweepIntegrates(cache: Cache, visits: seq<Visit>, id: Id, c: Counter)
    requires RowOf(cache, visits, id).Some? && c in RowOf(cache, visits, id).value.0.rates
    ensures var usage := RowOf(cache, visits, id).value.0;
      var before, after := Cached(cache, id, c), Cached(Samples(cache, visits), id, c);
      before.Some? && after.Some? && Swept(usage, c) == (after.value - before.value) as real
  {
    CacheHoldsRow(cache, visits, id);
    var visit := RowIsVisited(cache, visits, id);
    RateFromCache(cache, visit, c);
    RowKeepsTotals(cache, visit, c);
  }

  lemma RowKeepsTotals(previous: Cache, visit: Visit, c: Counter)
    requires Row(previous, visit).Some?
    ensures var Some((_, sample)) := Row(previous, visit); var raw := visit.answer.value;
      Total(sample.network, sample.block, c) == Total(raw.network, raw.block, c)
  {
  }

  /** The publisher's cache is the one the run above is about. */
  lemma {:induction false} CacheFromIsCacheAfter(before: seq<Tick>, ticks: seq<Tick>)
    ensures CacheFrom(CacheAfter(before), ticks) == CacheAfter(before + ticks)
    decreases |ticks|
  {
    if |ticks| == 0 {
      assert before + ticks == before;
    } else {
      var longer := before + [ticks[0]];
      assert Front(longer) == before;
      assert longer + ticks[1..] == before + ticks;
      CacheFromIsCacheAfter(longer, ticks[1..]);
    }
  }

  // ---- what a published row says of the readings behind it ----

  /** A visit whose reading gives a sample: the call worked and the container was running. */
  predicate Sampled(visit: Visit) {
    visit.answer.Some? && visit.answer.value.cpuTotal > 0 && visit.answer.value.systemCpu > 0
  }

  lemma RowIffSampled(previous: Cache, visit: Visit)
    ensures Row(previous, visit).Some? <==> Sampled(visit)
  {
  }

  /** Visit number `m` is the last sampled one of `id` in the sweep. */
  ghost predicate LastSampleAt(visits: seq<Visit>, id: Id, m: int) {
    && 0 <= m < |visits| && visits[m].id == id && Sampled(visits[m])
    && forall n :: m < n < |visits| && visits[n].id == id ==> !Sampled(visits[n])
  }

  /** The latest completed sweep, whatever became of its put; listings that failed since
      do not count. */
  ghost predicate LatestSweep(ticks: seq<Tick>, j: int) {
    0 <= j < |ticks| && ticks[j].Sweep? && forall k :: j < k < |ticks| ==> ticks[k].ListFails?
  }

  /** In the latest completed sweep `before` is the last sampled visit of `id`. */
  ghost predicate SeenLast(ticks: seq<Tick>, id: Id, before: Visit) {
    exists j, m :: LatestSweep(ticks, j) && LastSampleAt(ticks[j].visits, id, m) && ticks[j].visits[m] == before
  }

  lemma {:induction false} SamplesHoldLast(previous: Cache, visits: seq<Visit>, id: Id)
    ensures id in Samples(previous, visits) ==> exists m :: LastSampleAt(visits, id, m)
    ensures forall m :: LastSampleAt(visits, id, m) ==>
      && id in Samples(previous, visits)
      && Some(Samples(previous, visits)[id]) == ReadSample(visits[m].answer.value, visits[m].at)
  {
    if |visits| > 0 {
      var front, last := Front(visits), |visits| - 1;
      SamplesHoldLast(previous, front, id);
      if visits[last].id == id && Sampled(visits[last]) {
        assert LastSampleAt(visits, id, last);
        assert forall m :: LastSampleAt(visits, id, m) ==> m == last;
      } else {
        assert forall n :: 0 <= n < last ==> front[n] == visits[n];
        assert forall m :: LastSampleAt(visits, id, m) <==> LastSampleAt(front, id, m);
      }
    }
  }

  /** Over every run the cache holds, for each id, the sample of the visit it was seen last in. */
  lemma {:induction false} CacheIsSeenLast(ticks: seq<Tick>, id: Id)
    ensures id in CacheAfter(ticks) ==> exists before :: SeenLast(ticks, id, before)
    ensures forall before :: SeenLast(ticks, id, before) ==>
      && id in CacheAfter(ticks)
      && Some(CacheAfter(ticks)[id]) == ReadSample(before.answer.value, before.at)
  {
    if |ticks| > 0 {
      var front, last := Front(ticks), |ticks| - 1;
      assert forall k :: 0 <= k < last ==> front[k] == ticks[k];
      if ticks[last].ListFails? {
        CacheIsSeenLast(front, id);
        assert forall j :: LatestSweep(ticks, j) <==> LatestSweep(front, j);
        assert forall before :: SeenLast(ticks, id, before) <==> SeenLast(front, id, before);
      } else {
        var visits := ticks[last].visits;
        SamplesHoldLast(CacheAfter(front), visits, id);
        assert LatestSweep(ticks, last);
        assert forall j :: LatestSweep(ticks, j) ==> j == last;
        if m :| LastSampleAt(visits, id, m) {
          assert SeenLast(ticks, id, visits[m]);
        }
      }
    }
  }

  function Counted(visit: Visit, c: Counter): Option<int> {
    if visit.answer.Some? then Total(visit.answer.value.network, visit.answer.value.block, c) else None
  }

  /** Two readings with the counter known in both, time passed and no decrease. */
  predicate RateDue(before: Visit, visit: Visit, c: Counter) {
    && Counted(before, c).Some? && Counted(visit, c).Some?
    && visit.at > before.at && Counted(visit, c).value >= Counted(before, c).value
  }

  /** Two readings with processor time not gone back, the host's time advanced and cores known;
      no time need have passed between them. */
  predicate LoadDue(before: Visit, visit: Visit) {
    && before.answer.Some? && visit.answer.Some? && visit.answer.value.online > 0
    && visit.answer.value.cpuTotal >= before.answer.value.cpuTotal
    && visit.answer.value.systemCpu > before.answer.value.systemCpu
  }

  /** Whichever visit it was, the cache holds what it read. */
  lemma SeenIsCached(ticks: seq<Tick>, id: Id, before: Visit)
    requires SeenLast(ticks, id, before)
    ensures id in CacheAfter(ticks) && Sampled(before)
    ensures var sample, raw := CacheAfter(ticks)[id], before.answer.value;
      && sample.at == before.at && sample.cpuTotal == raw.cpuTotal && sample.systemCpu == raw.systemCpu
      && forall c :: Cached(CacheAfter(ticks), id, c) == Counted(before, c)
  {
    CacheIsSeenLast(ticks, id);
  }

  /** In every run a byte rate is present exactly when the container's visit in the latest
      completed sweep had the counter known, time has passed and the counter has not gone
      back; and then rate times window is what the raw counter moved between the two readings. */
  lemma RatePresentIff(ticks: seq<Tick>, visit: Visit, c: Counter)
    requires Sampled(visit)
    ensures Row(CacheAfter(ticks), visit).Some?
    ensures var (usage, _) := Row(CacheAfter(ticks), visit).value;
      && (c in usage.rates <==> exists before :: SeenLast(ticks, visit.id, before) && RateDue(before, visit, c))
      && (forall before :: SeenLast(ticks, visit.id, before) && c in usage.rates ==>
            && RateDue(before, visit, c) && usage.window == Some(visit.at - before.at)
            && Moved(usage, c, Counted(before, c).value, Counted(visit, c).value))
  {
    RateFromCache(CacheAfter(ticks), visit, c);
    CacheIsSeenLast(ticks, visit.id);
    forall before | SeenLast(ticks, visit.id, before)
      ensures c in Row(CacheAfter(ticks), visit).value.0.rates <==> RateDue(before, visit, c)
    {
      SeenIsCached(ticks, visit.id, before);
    }
  }

  /** A CPU load is the share of the host's cores' time that the container used, in percent
      of one core. */
  ghost predicate LoadShares(load: real, before: Reading, now: Reading) {
    load * (now.systemCpu - before.systemCpu) as real
      == (now.cpuTotal - before.cpuTotal) as real * (now.online as real * 100.0)
  }

  /** Likewise in every run for the CPU load, which does not ask for time to have passed. */
  lemma LoadPresentIff(ticks: seq<Tick>, visit: Visit)
    requires Sampled(visit)
    ensures Row(CacheAfter(ticks), visit).Some?
    ensures var (usage, _) := Row(CacheAfter(ticks), visit).value;
      && (usage.cpuLoadPct.Some? <==> exists before :: SeenLast(ticks, visit.id, before) && LoadDue(before, visit))
      && (forall before :: SeenLast(ticks, visit.id, before) && usage.cpuLoadPct.Some? ==>
            && LoadDue(before, visit)
            && LoadShares(usage.cpuLoadPct.value, before.answer.value, visit.answer.value))
  {
    CacheIsSeenLast(ticks, visit.id);
    LoadFromCache(CacheAfter(ticks), visit);
    forall before | SeenLast(ticks, visit.id, before)
      ensures var (usage, _) := Row(CacheAfter(ticks), visit).value;
        && (usage.cpuLoadPct.Some? <==> LoadDue(before, visit))
        && (LoadDue(before, visit) ==>
              LoadShares(usage.cpuLoadPct.value, before.answer.value, visit.answer.value))
    {
      SeenIsCached(ticks, visit.id, before);
    }
  }

  /** In terms of the cache. */
  lemma LoadFromCache(previous: Cache, visit: Visit)
    requires Row(previous, visit).Some?
    ensures var (usage, _) := Row(previous, visit).value; var raw := visit.answer.value;
      && (visit.id !in previous ==> usage.cpuLoadPct == None)
      && (visit.id in previous ==>
            var p := previous[visit.id]; var system := raw.systemCpu - p.systemCpu;
            && (usage.cpuLoadPct.Some? <==> raw.cpuTotal >= p.cpuTotal && system > 0 && raw.online > 0)
            && (usage.cpuLoadPct.Some? ==>
                  usage.cpuLoadPct.value * system as real
                    == (raw.cpuTotal - p.cpuTotal) as real * (raw.online as real * 100.0)))
  {
    if visit.id in previous {
      var raw, p := visit.answer.value, previous[visit.id];
      if raw.systemCpu > p.systemCpu {
        ShareTimesWhole((raw.cpuTotal - p.cpuTotal) as real, (raw.systemCpu - p.systemCpu) as real, raw.online as real);
      }
    }
  }

  lemma ShareTimesWhole(part: real, whole: real, cores: real)
    requires whole > 0.0
    ensures part / whole * cores * 100.0 * whole == part * (cores * 100.0)
  {
    var share := part / whole;
    assert share * whole == part;
    assert share * cores * 100.0 * whole == share * whole * (cores * 100.0);
  }

  /** A row repeats the totals of the reading it was made from. */
  ghost predicate RepeatsTotals(visit: Visit, usage: Usage) {
    && usage.id == visit.id && visit.answer.Some?
    && usage.network == visit.answer.value.network && usage.block == visit.answer.value.block
  }

  ghost predicate WindowMeasures(ticks: seq<Tick>, visit: Visit, usage: Usage) {
    && (usage.window.Some? <==> exists before :: SeenLast(ticks, visit.id, before) && visit.at > before.at)
    && (forall before :: SeenLast(ticks, visit.id, before) && usage.window.Some? ==>
          usage.window.value == visit.at - before.at)
  }

  ghost predicate RatesMeasure(ticks: seq<Tick>, visit: Visit, usage: Usage) {
    && (forall c :: c in usage.rates <==>
          exists before :: SeenLast(ticks, visit.id, before) && RateDue(before, visit, c))
    && (forall before, c :: SeenLast(ticks, visit.id, before) && c in usage.rates ==>
          && RateDue(before, visit, c) && usage.window == Some(visit.at - before.at)
          && Moved(usage, c, Counted(before, c).value, Counted(visit, c).value))
  }

  ghost predicate LoadMeasures(ticks: seq<Tick>, visit: Visit, usage: Usage) {
    && (usage.cpuLoadPct.Some? <==> exists before :: SeenLast(ticks, visit.id, before) && LoadDue(before, visit))
    && (forall before :: SeenLast(ticks, visit.id, before) && usage.cpuLoadPct.Some? ==>
          && LoadDue(before, visit)
          && LoadShares(usage.cpuLoadPct.value, before.answer.value, visit.answer.value))
  }

  /** After `ticks`, a row for `visit` repeats the totals read and carries exactly the window,
      rates and load that are due against the container's visit in the latest completed sweep,
      and they measure what lies between. */
  ghost predicate Measures(ticks: seq<Tick>, visit: Visit, usage: Usage) {
    && RepeatsTotals(visit, usage)
    && WindowMeasures(ticks, visit, usage)
    && RatesMeasure(ticks, visit, usage)
    && LoadMeasures(ticks, visit, usage)
  }

  lemma RowMeasures(ticks: seq<Tick>, visit: Visit)
    requires Sampled(visit)
    ensures Row(CacheAfter(ticks), visit).Some?
    ensures Measures(ticks, visit, Row(CacheAfter(ticks), visit).value.0)
  {
    LoadPresentIff(ticks, visit);
    RowWindow(ticks, visit);
    RowRates(ticks, visit);
  }

  lemma RowWindow(ticks: seq<Tick>, visit: Visit)
    requires Sampled(visit)
    ensures Row(CacheAfter(ticks), visit).Some?
    ensures WindowMeasures(ticks, visit, Row(CacheAfter(ticks), visit).value.0)
  {
    CacheIsSeenLast(ticks, visit.id);
    forall before | SeenLast(ticks, visit.id, before)
      ensures visit.id in CacheAfter(ticks) && CacheAfter(ticks)[visit.id].at == before.at
    {
      SeenIsCached(ticks, visit.id, before);
    }
  }

  lemma RowRates(ticks: seq<Tick>, visit: Visit)
    requires Sampled(visit)
    ensures Row(CacheAfter(ticks), visit).Some?
    ensures RatesMeasure(ticks, visit, Row(CacheAfter(ticks), visit).value.0)
  {
    RatePresentIff(ticks, visit, RxBytes);
    var usage := Row(CacheAfter(ticks), visit).value.0;
    forall c
      ensures c in usage.rates <==> exists before :: SeenLast(ticks, visit.id, before) && RateDue(before, visit, c)
      ensures forall before :: SeenLast(ticks, visit.id, before) && c in usage.rates ==>
        && RateDue(before, visit, c) && usage.window == Some(visit.at - before.at)
        && Moved(usage, c, Counted(before, c).value, Counted(visit, c).value)
    {
      RatePresentIff(ticks, visit, c);
    }
  }

  // ---- and so for everything that is published ----

  /** Message `n` was sent by tick `k`, a sweep whose put worked, and carries its rows. */
  ghost predicate SentBy(ticks: seq<Tick>, n: nat, k: nat)
    requires n < |Sent(ticks)|
  {
    && k < |ticks| && ticks[k].Sweep? && !ticks[k].putFails && |Sent(ticks[..k])| == n
    && Sent(ticks)[n] == Message(Entries(CacheAfter(ticks[..k]), ticks[k].visits), n)
  }

  lemma {:induction false} SentBySweep(ticks: seq<Tick>, n: nat) returns (k: nat)
    requires n < |Sent(ticks)|
    ensures SentBy(ticks, n, k)
  {
    var front := Front(ticks);
    if n < |Sent(front)| {
      k := SentBySweep(front, n);
      assert front[..k] == ticks[..k];
    } else {
      k := |ticks| - 1;
      assert ticks[..k] == front;
    }
  }

  /** The rows of a sweep are those of its sampled visits, in their order. */
  lemma {:induction false} EntryOfVisit(previous: Cache, visits: seq<Visit>, i: nat) returns (v: nat)
    requires i < |Entries(previous, visits)|
    ensures v < |visits| && Sampled(visits[v]) && |Entries(previous, visits[..v])| == i
    ensures Row(previous, visits[v]).Some? && Entries(previous, visits)[i] == Row(previous, visits[v]).value.0
  {
    var front := Front(visits);
    if i < |Entries(previous, front)| {
      v := EntryOfVisit(previous, front, i);
      assert front[..v] == visits[..v];
    } else {
      v := |visits| - 1;
      assert visits[..v] == front;
    }
  }

  /** Every message of every run was sent by one sweep of it, and each of its rows is the row of
      one sampled visit of that sweep; its rates and load are exactly those due to, and measure,
      the reading of that visit and the container's reading in the completed sweep before. */
  lemma PublishedRowsMeasure(ticks: seq<Tick>, n: nat, i: nat) returns (k: nat, v: nat)
    requires n < |Sent(ticks)| && i < |Sent(ticks)[n].entries|
    ensures SentBy(ticks, n, k)
    ensures v < |ticks[k].visits| && Sampled(ticks[k].visits[v])
    ensures |Entries(CacheAfter(ticks[..k]), ticks[k].visits[..v])| == i
    ensures Row(CacheAfter(ticks[..k]), ticks[k].visits[v]).Some?
    ensures Sent(ticks)[n].entries[i] == Row(CacheAfter(ticks[..k]), ticks[k].visits[v]).value.0
    ensures Measures(ticks[..k], ticks[k].visits[v], Sent(ticks)[n].entries[i])
  {
    k := SentBySweep(ticks, n);
    v := EntryOfVisit(CacheAfter(ticks[..k]), ticks[k].visits, i);
    RowMeasures(ticks[..k], ticks[k].visits[v]);
  }

  /** Every sampled visit of a sweep has its row, and no other rows are there. */
  lemma {:induction false} VisitHasEntry(previous: Cache, visits: seq<Visit>, v: nat)
    requires v < |visits| && Sampled(visits[v])
    ensures var i := |Entries(previous, visits[..v])|;
      && i < |Entries(previous, visits)| && Row(previous, visits[v]).Some?
      && Entries(previous, visits)[i] == Row(previous, visits[v]).value.0
  {
    var front := Front(visits);
    if v < |front| {
      VisitHasEntry(previous, front, v);
      assert front[..v] == visits[..v];
    } else {
      assert visits[..v] == front;
    }
  }

  lemma {:induction false} EntriesGrow(previous: Cache, visits: seq<Visit>, v: nat, w: nat)
    requires v <= w <= |visits|
    ensures |Entries(previous, visits[..v])| <= |Entries(previous, visits[..w])|
    decreases w - v
  {
    if v < w {
      EntriesGrow(previous, visits, v, w - 1);
      assert Front(visits[..w]) == visits[..w - 1];
    }
  }

  /** The row that a published message has last for an id. */
  ghost predicate LastEntryFor(entries: seq<Usage>, id: Id, h: int) {
    0 <= h < |entries| && entries[h].id == id && forall j :: h < j < |entries| ==> entries[j].id != id
  }

  /** The row of the last sampled visit is the last row of its id, and repeats its totals. */
  lemma LastVisitLastEntry(previous: Cache, visits: seq<Visit>, id: Id, m: nat) returns (h: nat)
    requires LastSampleAt(visits, id, m)
    ensures LastEntryFor(Entries(previous, visits), id, h) && RepeatsTotals(visits[m], Entries(previous, visits)[h])
  {
    var entries := Entries(previous, visits);
    h := |Entries(previous, visits[..m])|;
    VisitHasEntry(previous, visits, m);
    forall j | h < j < |entries| ensures entries[j].id != id {
      var v := EntryOfVisit(previous, visits, j);
      if v <= m {
        EntriesGrow(previous, visits, v, m);
      }
    }
  }

  /** The rate of a later row times its window is what its own total has moved by. */
  ghost predicate TotalMoved(was: Usage, now: Usage, c: Counter) {
    match c
    case RxBytes =>
      && was.network.Some? && now.network.Some?
      && Moved(now, RxBytes, was.network.value.received, now.network.value.received)
    case TxBytes =>
      && was.network.Some? && now.network.Some?
      && Moved(now, TxBytes, was.network.value.sent, now.network.value.sent)
    case BlockRead =>
      && was.block.Some? && now.block.Some?
      && Moved(now, BlockRead, was.block.value.read, now.block.value.read)
    case BlockWrite =>
      && was.block.Some? && now.block.Some?
      && Moved(now, BlockWrite, was.block.value.written, now.block.value.written)
  }

  /** Two messages in a row whose sweeps had no other completed sweep between them: a row of
      the later one that has any rate follows a row of that id in the earlier one, and its rates
      are the movement of the published totals. */
  lemma PublishedTotalsMove(ticks: seq<Tick>, n: nat, k: nat, l: nat, i: nat) returns (h: nat)
    requires n + 1 < |Sent(ticks)| && SentBy(ticks, n, k) && SentBy(ticks, n + 1, l) && k < l
    requires forall t :: k < t < l ==> ticks[t].ListFails?
    requires i < |Sent(ticks)[n + 1].entries| && Sent(ticks)[n + 1].entries[i].rates != map[]
    ensures var usage := Sent(ticks)[n + 1].entries[i];
      && LastEntryFor(Sent(ticks)[n].entries, usage.id, h)
      && forall c :: c in usage.rates ==> TotalMoved(Sent(ticks)[n].entries[h], usage, c)
  {
    var v := EntryOfVisit(CacheAfter(ticks[..l]), ticks[l].visits, i);
    var visit, usage := ticks[l].visits[v], Sent(ticks)[n + 1].entries[i];
    RowMeasures(ticks[..l], visit);
    var c :| c in usage.rates;
    var m := SeenInSweep(ticks, k, l, visit, c);
    h := LastVisitLastEntry(CacheAfter(ticks[..k]), ticks[k].visits, visit.id, m);
    var before := ticks[k].visits[m];
    forall c | c in usage.rates ensures TotalMoved(Sent(ticks)[n].entries[h], usage, c) {
      TotalMoves(ticks[..l], before, visit, usage, c);
      TotalMovesBetween(before, visit, Sent(ticks)[n].entries[h], usage, c);
    }
  }

  lemma TotalMovesBetween(before: Visit, visit: Visit, was: Usage, now: Usage, c: Counter)
    requires RepeatsTotals(before, was) && RepeatsTotals(visit, now)
    requires RateDue(before, visit, c) && Moved(now, c, Counted(before, c).value, Counted(visit, c).value)
    ensures TotalMoved(was, now, c)
  {
  }

  lemma TotalMoves(ticks: seq<Tick>, before: Visit, visit: Visit, now: Usage, c: Counter)
    requires SeenLast(ticks, visit.id, before) && RatesMeasure(ticks, visit, now) && c in now.rates
    ensures RateDue(before, visit, c) && Moved(now, c, Counted(before, c).value, Counted(visit, c).value)
  {
  }

  lemma SeenInSweep(ticks: seq<Tick>, k: nat, l: nat, visit: Visit, c: Counter) returns (m: nat)
    requires k < l <= |ticks| && ticks[k].Sweep? && (forall t :: k < t < l ==> ticks[t].ListFails?)
    requires exists before :: SeenLast(ticks[..l], visit.id, before) && RateDue(before, visit, c)
    ensures LastSampleAt(ticks[k].visits, visit.id, m)
    ensures SeenLast(ticks[..l], visit.id, ticks[k].visits[m])
  {
    var before :| SeenLast(ticks[..l], visit.id, before) && RateDue(before, visit, c);
    var j, n :| LatestSweep(ticks[..l], j) && LastSampleAt(ticks[..l][j].visits, visit.id, n)
      && ticks[..l][j].visits[n] == before;
    LatestIs(ticks, k, l, j);
    m := n;
  }

  lemma LatestIs(ticks: seq<Tick>, k: nat, l: nat, j: int)
    requires k < l <= |ticks| && ticks[k].Sweep? && (forall t :: k < t < l ==> ticks[t].ListFails?)
    requires LatestSweep(ticks[..l], j)
    ensures j == k
  {
    assert ticks[..l][k] == ticks[k] && ticks[..l][j] == ticks[j];
  }
}
