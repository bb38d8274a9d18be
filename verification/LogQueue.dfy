/** The bounded hand-over queue of logs_follower.py. Any number of follower threads run
    `_enqueue`, one publisher runs `_publish_loop`, and their queue operations and the
    loads and stores of the shared drop counter interleave freely. */
module LogQueue {
  import opened Common

  /** The `serial`-th item producer `pid` set out to enqueue. */
  datatype Item = Item(pid: nat, serial: nat)

  /** Where a producer stands in `_enqueue`. `+= 1` is a load and a store. */
  datatype Pc =
    | Idle
    | FirstPut
    | TakeHead
    | LoadTaken
    | StoreTaken(loaded: nat)
    | SecondPut
    | LoadRefused
    | StoreRefused(loaded: nat)

  /** `next` is the serial of the next push, `ops` the queue operations of the current one. */
  datatype Producer = Producer(pc: Pc, next: nat, ops: nat)

  datatype State = State(
    producers: map<nat, Producer>,
    queue: seq<Item>,
    taken: seq<Item>,
    dropped: seq<Item>,
    counter: nat)

  datatype Step = Begin(p: nat) | Advance(p: nat) | Publish

  /** `queue.Queue(maxsize)`: a size of zero or less is unbounded. */
  predicate Full(cap: int, s: State) {
    cap > 0 && |s.queue| >= cap
  }

  predicate Enabled(s: State, step: Step) {
    match step
    case Begin(p) => p in s.producers && s.producers[p].pc == Idle
    case Advance(p) => p in s.producers && s.producers[p].pc != Idle
    case Publish => |s.queue| > 0
  }

  function SetPc(s: State, p: nat, pc: Pc, op: nat): State
    requires p in s.producers
  {
    var producer := s.producers[p];
    s.(producers := s.producers[p := producer.(pc := pc, ops := producer.ops + op)])
  }

  /** The item a producer is enqueueing. */
  function Current(s: State, p: nat): Item
    requires p in s.producers
  {
    Item(p, if s.producers[p].next > 0 then s.producers[p].next - 1 else 0)
  }

  function Apply(cap: int, s: State, step: Step): State
    requires Enabled(s, step)
  {
    match step
    case Publish => s.(queue := s.queue[1..], taken := s.taken + [s.queue[0]])
    case Begin(p) => s.(producers := s.producers[p := Producer(FirstPut, s.producers[p].next + 1, 0)])
    case Advance(p) =>
      match s.producers[p].pc
      case Idle => s
      case FirstPut =>
        if Full(cap, s) then SetPc(s, p, TakeHead, 1)
        else SetPc(s.(queue := s.queue + [Current(s, p)]), p, Idle, 1)
      case TakeHead =>
        if |s.queue| == 0 then SetPc(s, p, SecondPut, 1)
        else SetPc(s.(queue := s.queue[1..], dropped := s.dropped + [s.queue[0]]), p, LoadTaken, 1)
      case LoadTaken => SetPc(s, p, StoreTaken(s.counter), 0)
      case StoreTaken(loaded) => SetPc(s.(counter := loaded + 1), p, SecondPut, 0)
      case SecondPut =>
        if Full(cap, s) then SetPc(s.(dropped := s.dropped + [Current(s, p)]), p, LoadRefused, 1)
        else SetPc(s.(queue := s.queue + [Current(s, p)]), p, Idle, 1)
      case LoadRefused => SetPc(s, p, StoreRefused(s.counter), 0)
      case StoreRefused(loaded) => SetPc(s.(counter := loaded + 1), p, Idle, 0)
  }

  function Init(pids: set<nat>): State {
    State(map p | p in pids :: Producer(Idle, 0, 0), [], [], [], 0)
  }

  /** `steps` is an interleaving that leads from `s` to `t`. */
  ghost predicate Reaches(cap: int, s: State, steps: seq<Step>, t: State)
    decreases |steps|
  {
    if |steps| == 0 then s == t
    else Enabled(s, steps[0]) && Reaches(cap, Apply(cap, s, steps[0]), steps[1..], t)
  }

  // ---- what every reachable state satisfies ----

  /** The producer's item is in its own hands: neither queued nor taken nor dropped. */
  predicate Holding(pc: Pc) {
    pc.FirstPut? || pc.TakeHead? || pc.LoadTaken? || pc.StoreTaken? || pc.SecondPut?
  }

  /** A drop has happened that this producer has yet to count. */
  predicate Uncounted(pc: Pc) {
    pc.LoadTaken? || pc.StoreTaken? || pc.LoadRefused? || pc.StoreRefused?
  }

  function Owing(s: State): set<nat> {
    set p | p in s.producers && Uncounted(s.producers[p].pc)
  }

  /** Everything below this serial has left the producer's hands. */
  function Settled(s: State, p: nat): int
    requires p in s.producers
  {
    if Holding(s.producers[p].pc) then s.producers[p].next - 1 else s.producers[p].next
  }

  function Placed(s: State): multiset<Item> {
    multiset(s.taken) + multiset(s.queue) + multiset(s.dropped)
  }

  /** Every settled push is in exactly one of taken, queued and dropped, exactly once,
      and nothing else is. */
  ghost predicate Conserved(s: State) {
    forall x: Item :: Placed(s)[x] ==
      if x.pid in s.producers && x.serial < Settled(s, x.pid) then 1 else 0
  }

  /** One producer's items leave the queue in the order it pushed them. */
  ghost predicate InPushOrder(items: seq<Item>) {
    forall i, j :: 0 <= i < j < |items| && items[i].pid == items[j].pid ==> items[i].serial < items[j].serial
  }

  /** A push that is under way has done as many queue operations as its place says. */
  predicate OpsMatch(producer: Producer) {
    match producer.pc
    case Idle => producer.ops <= 3
    case FirstPut => producer.ops == 0 && producer.next > 0
    case TakeHead => producer.ops == 1 && producer.next > 0
    case LoadTaken => producer.ops == 2 && producer.next > 0
    case StoreTaken(_) => producer.ops == 2 && producer.next > 0
    case SecondPut => producer.ops == 2 && producer.next > 0
    case LoadRefused => producer.ops == 3
    case StoreRefused(_) => producer.ops == 3
  }

  /** The counter lags by at least the drops still to be counted, and so does every
      value that is about to be incremented and stored. */
  ghost predicate CounterBehind(s: State) {
    && s.counter + |Owing(s)| <= |s.dropped|
    && forall p :: p in s.producers ==>
         && (s.producers[p].pc.StoreTaken? ==> s.producers[p].pc.loaded + |Owing(s)| <= |s.dropped|)
         && (s.producers[p].pc.StoreRefused? ==> s.producers[p].pc.loaded + |Owing(s)| <= |s.dropped|)
  }

  ghost predicate Safe(cap: int, s: State) {
    && (cap > 0 ==> |s.queue| <= cap)
    && Conserved(s)
    && InPushOrder(s.taken + s.queue)
    && (forall p :: p in s.producers ==> OpsMatch(s.producers[p]))
    && CounterBehind(s)
  }

  lemma InitSafe(cap: int, pids: set<nat>)
    ensures Safe(cap, Init(pids))
  {
    assert Owing(Init(pids)) == {};
  }

  /** Which way a step moves items. */
  datatype Move = Nothing | HeadOut | OwnQueued | OwnRefused

  function MoveOf(cap: int, s: State, step: Step): Move
    requires Enabled(s, step)
  {
    match step
    case Publish => HeadOut
    case Begin(_) => Nothing
    case Advance(p) =>
      var pc := s.producers[p].pc;
      if pc.TakeHead? && |s.queue| > 0 then HeadOut
      else if (pc.FirstPut? || pc.SecondPut?) && !Full(cap, s) then OwnQueued
      else if pc.SecondPut? then OwnRefused
      else Nothing
  }

  /** What a step does to the items, and to how far each producer has settled. */
  ghost predicate Moved(s: State, t: State, step: Step, move: Move) {
    && t.producers.Keys == s.producers.Keys
    && (move.Nothing? ==> t.queue == s.queue && t.taken == s.taken && t.dropped == s.dropped)
    && (move.HeadOut? ==> |s.queue| > 0 && t.queue == s.queue[1..])
    && (move.HeadOut? ==>
         || (t.taken == s.taken + [s.queue[0]] && t.dropped == s.dropped)
         || (t.taken == s.taken && t.dropped == s.dropped + [s.queue[0]]))
    && (move.OwnQueued? || move.OwnRefused? ==>
         step.Advance? && step.p in s.producers && Current(s, step.p).serial == Settled(s, step.p))
    && (move.OwnQueued? ==>
         t.taken == s.taken && t.dropped == s.dropped && t.queue == s.queue + [Current(s, step.p)])
    && (move.OwnRefused? ==>
         t.taken == s.taken && t.queue == s.queue && t.dropped == s.dropped + [Current(s, step.p)])
    && (forall p :: p in s.producers ==>
          Settled(t, p) == Settled(s, p) + if (move.OwnQueued? || move.OwnRefused?) && p == step.p then 1 else 0)
  }

  lemma StepMoves(cap: int, s: State, step: Step)
    requires Enabled(s, step)
    requires forall p :: p in s.producers ==> OpsMatch(s.producers[p])
    ensures Moved(s, Apply(cap, s, step), step, MoveOf(cap, s, step))
  {
    if step.Advance? {
      var pc := s.producers[step.p].pc;
      match pc {
        case Idle =>
        case FirstPut =>
        case TakeHead =>
        case SecondPut =>
        case _ =>
      }
    }
  }

  lemma StepKeepsBounds(cap: int, s: State, step: Step)
    requires Enabled(s, step)
    requires cap > 0 ==> |s.queue| <= cap
    requires forall p :: p in s.producers ==> OpsMatch(s.producers[p])
    ensures cap > 0 ==> |Apply(cap, s, step).queue| <= cap
    ensures forall p :: p in Apply(cap, s, step).producers ==> OpsMatch(Apply(cap, s, step).producers[p])
  {
  }

  lemma MovePlaces(s: State, t: State, step: Step, move: Move)
    requires Moved(s, t, step, move)
    ensures Placed(t) == Placed(s)
      + if move.OwnQueued? || move.OwnRefused? then multiset{Current(s, step.p)} else multiset{}
  {
    if move.HeadOut? {
      assert s.queue == [s.queue[0]] + s.queue[1..];
      assert multiset(s.queue) == multiset{s.queue[0]} + multiset(t.queue);
    }
  }

  lemma MoveConserves(s: State, t: State, step: Step, move: Move)
    requires Conserved(s) && Moved(s, t, step, move)
    ensures Conserved(t)
  {
    MovePlaces(s, t, step, move);
    forall x: Item
      ensures Placed(t)[x] == if x.pid in t.producers && x.serial < Settled(t, x.pid) then 1 else 0
    {
      assert Placed(s)[x] == if x.pid in s.producers && x.serial < Settled(s, x.pid) then 1 else 0;
    }
  }

  lemma QueuedIsSettled(s: State, x: Item)
    requires Conserved(s) && x in s.taken + s.queue
    ensures x.pid in s.producers && x.serial < Settled(s, x.pid)
  {
    assert x in multiset(s.taken) || x in multiset(s.queue);
    assert Placed(s)[x] > 0;
  }

  lemma MoveKeepsOrder(s: State, t: State, step: Step, move: Move)
    requires Conserved(s) && InPushOrder(s.taken + s.queue) && Moved(s, t, step, move)
    ensures InPushOrder(t.taken + t.queue)
  {
    var before := s.taken + s.queue;
    if move.HeadOut? {
      HeadOutKeepsOrder(s.taken, s.queue);
      assert s.taken + [s.queue[0]] + s.queue[1..] == before;
    } else if move.OwnQueued? {
      var mine := Current(s, step.p);
      assert t.taken + t.queue == before + [mine];
      forall i | 0 <= i < |before| && before[i].pid == mine.pid ensures before[i].serial < mine.serial {
        QueuedIsSettled(s, before[i]);
      }
    }
  }

  lemma HeadOutKeepsOrder(taken: seq<Item>, queue: seq<Item>)
    requires |queue| > 0 && InPushOrder(taken + queue)
    ensures InPushOrder(taken + queue[1..])
  {
    var before, after := taken + queue, taken + queue[1..];
    forall i, j | 0 <= i < j < |after| && after[i].pid == after[j].pid ensures after[i].serial < after[j].serial {
      var i', j' := if i < |taken| then i else i + 1, if j < |taken| then j else j + 1;
      assert after[i] == before[i'] && after[j] == before[j'];
    }
  }

  lemma OwingUpdate(s: State, t: State, p: nat)
    requires p in s.producers && p in t.producers
    requires t.producers == s.producers[p := t.producers[p]]
    ensures |Owing(t)| == |Owing(s)| - (if Uncounted(s.producers[p].pc) then 1 else 0)
                                     + (if Uncounted(t.producers[p].pc) then 1 else 0)
  {
    assert Owing(t) - {p} == Owing(s) - {p};
    assert p in Owing(s) ==> Owing(s) == (Owing(s) - {p}) + {p};
    assert p in Owing(t) ==> Owing(t) == (Owing(t) - {p}) + {p};
    assert p !in Owing(s) ==> Owing(s) == Owing(s) - {p};
    assert p !in Owing(t) ==> Owing(t) == Owing(t) - {p};
  }

  lemma StepKeepsCounterBehind(cap: int, s: State, step: Step)
    requires Enabled(s, step) && Safe(cap, s)
    ensures CounterBehind(Apply(cap, s, step))
  {
    var t := Apply(cap, s, step);
    if step.Publish? {
      assert Owing(t) == Owing(s);
    } else {
      OwingUpdate(s, t, step.p);
    }
  }

  lemma StepSafe(cap: int, s: State, step: Step)
    requires Enabled(s, step) && Safe(cap, s)
    ensures Safe(cap, Apply(cap, s, step))
  {
    StepMoves(cap, s, step);
    StepKeepsBounds(cap, s, step);
    MoveConserves(s, Apply(cap, s, step), step, MoveOf(cap, s, step));
    MoveKeepsOrder(s, Apply(cap, s, step), step, MoveOf(cap, s, step));
    StepKeepsCounterBehind(cap, s, step);
  }

  /** Every interleaving, of any length, of any set of producers and the publisher. */
  lemma {:induction false} EveryInterleavingSafe(cap: int, s: State, steps: seq<Step>, t: State)
    requires Safe(cap, s) && Reaches(cap, s, steps, t)
    ensures Safe(cap, t)
    decreases |steps|
  {
    if |steps| > 0 {
      StepSafe(cap, s, steps[0]);
      EveryInterleavingSafe(cap, Apply(cap, s, steps[0]), steps[1..], t);
    }
  }

  lemma EveryRunSafe(cap: int, pids: set<nat>, steps: seq<Step>, s: State)
    requires Reaches(cap, Init(pids), steps, s)
    ensures Safe(cap, s) && s.producers.Keys == pids
  {
    InitSafe(cap, pids);
    EveryInterleavingSafe(cap, Init(pids), steps, s);
    ProducersFixed(cap, Init(pids), steps, s);
  }

  lemma {:induction false} ProducersFixed(cap: int, s: State, steps: seq<Step>, t: State)
    requires Reaches(cap, s, steps, t)
    ensures t.producers.Keys == s.producers.Keys
    decreases |steps|
  {
    if |steps| > 0 {
      ProducersFixed(cap, Apply(cap, s, steps[0]), steps[1..], t);
    }
  }

  // ---- `_enqueue` never waits ----

  /** Steps a push still has to take, whatever the other threads do. */
  function Work(pc: Pc): nat {
    match pc
    case Idle => 0
    case FirstPut => 7
    case TakeHead => 6
    case LoadTaken => 5
    case StoreTaken(_) => 4
    case SecondPut => 3
    case LoadRefused => 2
    case StoreRefused(_) => 1
  }

  function OwnSteps(steps: seq<Step>, p: nat): nat {
    if |steps| == 0 then 0 else (if steps[0] == Advance(p) then 1 else 0) + OwnSteps(steps[1..], p)
  }

  /** Until it begins another push, a producer takes at most seven steps of its own,
      and one is always open to it: no other thread can keep `_enqueue` from returning. */
  lemma {:induction false} EnqueueAlwaysEnds(cap: int, s: State, steps: seq<Step>, t: State, p: nat)
    requires Reaches(cap, s, steps, t) && p in s.producers && Begin(p) !in steps
    ensures p in t.producers && OwnSteps(steps, p) + Work(t.producers[p].pc) <= Work(s.producers[p].pc)
    ensures t.producers[p].pc == Idle || Enabled(t, Advance(p))
    decreases |steps|
  {
    if |steps| > 0 {
      EnqueueAlwaysEnds(cap, Apply(cap, s, steps[0]), steps[1..], t, p);
    }
  }

  // ---- one producer alone ----

  /** With a single producer the queue holds the latest pushes without a hole, the
      second put finds room, and the counter lags by the pending count alone. */
  ghost predicate AloneInv(cap: int, s: State, p: nat) {
    && s.producers.Keys == {p}
    && var pc := s.producers[p].pc;
       && OpsMatch(s.producers[p])
       && |s.queue| <= Settled(s, p)
       && (forall i :: 0 <= i < |s.queue| ==> s.queue[i] == Item(p, Settled(s, p) - |s.queue| + i))
       && (pc.LoadTaken? || pc.StoreTaken? || pc.SecondPut? ==> !Full(cap, s))
       && !pc.LoadRefused? && !pc.StoreRefused?
       && s.counter + (if Uncounted(pc) then 1 else 0) == |s.dropped|
       && (pc.StoreTaken? ==> pc.loaded == s.counter)
  }

  lemma {:induction false} AloneRun(cap: int, s: State, steps: seq<Step>, t: State, p: nat)
    requires Reaches(cap, s, steps, t) && AloneInv(cap, s, p)
    requires cap > 0 ==> |s.queue| <= cap
    ensures AloneInv(cap, t, p)
    decreases |steps|
  {
    if |steps| > 0 {
      AloneStep(cap, s, steps[0], p);
      StepKeepsBounds(cap, s, steps[0]);
      AloneRun(cap, Apply(cap, s, steps[0]), steps[1..], t, p);
    }
  }

  lemma AloneStep(cap: int, s: State, step: Step, p: nat)
    requires Enabled(s, step) && AloneInv(cap, s, p)
    requires cap > 0 ==> |s.queue| <= cap
    ensures AloneInv(cap, Apply(cap, s, step), p)
  {
    var t := Apply(cap, s, step);
    assert step.Publish? || step.p == p;
    StepMoves(cap, s, step);
    assert t.producers.Keys == {p};
  }

  /** An unbounded queue drops nothing and counts nothing. */
  ghost predicate NothingDropped(s: State) {
    && s.dropped == [] && s.counter == 0
    && forall p :: p in s.producers ==> s.producers[p].pc == Idle || s.producers[p].pc == FirstPut
  }

  lemma {:induction false} UnboundedRun(cap: int, s: State, steps: seq<Step>, t: State)
    requires cap <= 0 && Reaches(cap, s, steps, t) && NothingDropped(s)
    ensures NothingDropped(t)
    decreases |steps|
  {
    if |steps| > 0 {
      UnboundedRun(cap, Apply(cap, s, steps[0]), steps[1..], t);
    }
  }

  // ---- when the reported drop count is exact, and when only old lines are dropped ----

  predicate Quiet(s: State) {
    forall p :: p in s.producers ==> s.producers[p].pc == Idle
  }

  /** In every run, whenever no push is under way, the counter is the number of drops. */
  ghost predicate CountAlwaysExact(cap: int, pids: set<nat>) {
    forall steps, s :: Reaches(cap, Init(pids), steps, s) && Quiet(s) ==> s.counter == |s.dropped|
  }

  /** In no run does a push give up its own, newest, line. */
  ghost predicate NewestNeverRefused(cap: int, pids: set<nat>) {
    forall steps, s, p :: Reaches(cap, Init(pids), steps, s) && p in s.producers ==> !s.producers[p].pc.LoadRefused?
  }

  lemma DropReportExactIff(cap: int, pids: set<nat>)
    ensures CountAlwaysExact(cap, pids) <==> cap <= 0 || |pids| <= 1
    ensures NewestNeverRefused(cap, pids) <==> cap <= 0 || |pids| <= 1
  {
    if cap <= 0 {
      forall steps, s | Reaches(cap, Init(pids), steps, s) ensures NothingDropped(s) {
        UnboundedRun(cap, Init(pids), steps, s);
      }
    } else if |pids| <= 1 {
      forall steps, s | Reaches(cap, Init(pids), steps, s)
        ensures Quiet(s) ==> s.counter == |s.dropped|
        ensures forall p :: p in s.producers ==> !s.producers[p].pc.LoadRefused?
      {
        AtMostOneProducer(cap, pids, steps, s);
      }
    } else {
      var p :| p in pids;
      assert |pids - {p}| == |pids| - 1;
      var q :| q in pids - {p};
      LostCount(cap, pids, p, q);
    }
  }

  lemma AtMostOneProducer(cap: int, pids: set<nat>, steps: seq<Step>, s: State)
    requires cap > 0 && |pids| <= 1 && Reaches(cap, Init(pids), steps, s)
    ensures Quiet(s) ==> s.counter == |s.dropped|
    ensures forall p :: p in s.producers ==> !s.producers[p].pc.LoadRefused?
  {
    if pids == {} {
      NoProducerRun(cap, pids, steps, s);
    } else {
      var p :| p in pids;
      assert pids - {p} == {} by { assert |pids - {p}| == |pids| - 1; }
      assert pids == {p};
      AloneRun(cap, Init(pids), steps, s, p);
    }
  }

  lemma NoProducerRun(cap: int, pids: set<nat>, steps: seq<Step>, s: State)
    requires pids == {} && Reaches(cap, Init(pids), steps, s)
    ensures s == Init(pids)
  {
  }

  // ---- what a run loses of the count ----

  predicate MidUpdate(pc: Pc) {
    pc.StoreTaken? || pc.StoreRefused?
  }

  /** How far the counter has moved away between a producer's load and this, its store. */
  function Overwritten(s: State, step: Step): int {
    if step.Advance? && step.p in s.producers && MidUpdate(s.producers[step.p].pc)
    then s.counter - s.producers[step.p].pc.loaded
    else 0
  }

  /** What all the stores of a run overwrite. */
  function Lost(cap: int, s: State, steps: seq<Step>): int
    decreases |steps|
  {
    if |steps| == 0 || !Enabled(s, steps[0]) then 0
    else Overwritten(s, steps[0]) + Lost(cap, Apply(cap, s, steps[0]), steps[1..])
  }

  /** In every run, of any number of producers, the counter falls short of the drops by those
      still to be counted and by exactly what stores have overwritten. */
  lemma {:induction false} CountConserved(cap: int, s: State, steps: seq<Step>, t: State)
    requires Reaches(cap, s, steps, t)
    ensures t.counter + |Owing(t)| + Lost(cap, s, steps) - |t.dropped| == s.counter + |Owing(s)| - |s.dropped|
    decreases |steps|
  {
    if |steps| > 0 {
      var u := Apply(cap, s, steps[0]);
      if steps[0].Publish? {
        assert Owing(u) == Owing(s);
      } else {
        OwingUpdate(s, u, steps[0].p);
      }
      CountConserved(cap, u, steps[1..], t);
    }
  }

  /** No producer stores while another stands between its load and its store. */
  ghost predicate UpdatesApart(cap: int, s: State, steps: seq<Step>)
    decreases |steps|
  {
    |steps| > 0 && Enabled(s, steps[0]) ==>
      && (steps[0].Advance? && MidUpdate(s.producers[steps[0].p].pc) ==>
            forall q :: q in s.producers && q != steps[0].p ==> !MidUpdate(s.producers[q].pc))
      && UpdatesApart(cap, Apply(cap, s, steps[0]), steps[1..])
  }

  ghost predicate LoadsCurrent(s: State) {
    forall p :: p in s.producers && MidUpdate(s.producers[p].pc) ==> s.producers[p].pc.loaded == s.counter
  }

  lemma {:induction false} NothingOverwritten(cap: int, s: State, steps: seq<Step>, t: State)
    requires Reaches(cap, s, steps, t) && LoadsCurrent(s) && UpdatesApart(cap, s, steps)
    ensures Lost(cap, s, steps) == 0
    decreases |steps|
  {
    if |steps| > 0 {
      NothingOverwritten(cap, Apply(cap, s, steps[0]), steps[1..], t);
    }
  }

  /** Hence the count is exact in every run in which updates do not overlap, whatever else
      the threads do in between and however many they are. */
  lemma CountExactWhenUpdatesApart(cap: int, pids: set<nat>, steps: seq<Step>, s: State)
    requires Reaches(cap, Init(pids), steps, s) && UpdatesApart(cap, Init(pids), steps)
    ensures s.counter + |Owing(s)| == |s.dropped|
  {
    assert Owing(Init(pids)) == {};
    CountConserved(cap, Init(pids), steps, s);
    NothingOverwritten(cap, Init(pids), steps, s);
  }

  // ---- the run that loses a count ----

  lemma {:induction false} Extend(cap: int, s: State, steps: seq<Step>, t: State, step: Step)
    requires Reaches(cap, s, steps, t) && Enabled(t, step)
    ensures Reaches(cap, s, steps + [step], Apply(cap, t, step))
    decreases |steps|
  {
    if |steps| == 0 {
      assert (steps + [step])[1..] == [];
    } else {
      assert (steps + [step])[1..] == steps[1..] + [step];
      Extend(cap, Apply(cap, s, steps[0]), steps[1..], t, step);
    }
  }

  /** The thread of `p` runs for one step, beginning a push if it is idle. */
  lemma RunOnce(cap: int, s: State, steps: seq<Step>, t: State, p: nat) returns (steps': seq<Step>, t': State)
    requires Reaches(cap, s, steps, t) && p in t.producers
    ensures Reaches(cap, s, steps', t')
    ensures t' == Apply(cap, t, if t.producers[p].pc == Idle then Begin(p) else Advance(p))
  {
    var step := if t.producers[p].pc == Idle then Begin(p) else Advance(p);
    Extend(cap, s, steps, t, step);
    steps', t' := steps + [step], Apply(cap, t, step);
  }

  ghost predicate OthersUntouched(s: State, t: State, p: nat) {
    t.producers.Keys == s.producers.Keys && forall r :: r in s.producers && r != p ==> t.producers[r] == s.producers[r]
  }

  /** A push that finds room. */
  lemma RunPush(cap: int, s: State, steps: seq<Step>, t: State, p: nat) returns (steps': seq<Step>, t': State)
    requires Reaches(cap, s, steps, t) && p in t.producers && t.producers[p].pc == Idle && !Full(cap, t)
    ensures Reaches(cap, s, steps', t') && OthersUntouched(t, t', p)
    ensures t'.producers[p].pc == Idle && |t'.queue| == |t.queue| + 1
    ensures t'.dropped == t.dropped && t'.counter == t.counter
  {
    steps', t' := RunOnce(cap, s, steps, t, p);
    steps', t' := RunOnce(cap, s, steps', t', p);
  }

  lemma {:induction false} FillQueue(cap: int, pids: set<nat>, p: nat, k: nat) returns (steps: seq<Step>, s: State)
    requires p in pids && k <= cap
    ensures Reaches(cap, Init(pids), steps, s)
    ensures Quiet(s) && s.producers.Keys == pids && |s.queue| == k && s.dropped == [] && s.counter == 0
    decreases k
  {
    steps, s := [], Init(pids);
    if k > 0 {
      steps, s := FillQueue(cap, pids, p, k - 1);
      steps, s := RunPush(cap, Init(pids), steps, s, p);
    }
  }

  /** A push that finds the queue full drops the head and loads the counter. */
  lemma RunToLoadedCount(cap: int, s: State, steps: seq<Step>, t: State, p: nat) returns (steps': seq<Step>, t': State)
    requires Reaches(cap, s, steps, t) && p in t.producers && t.producers[p].pc == Idle
    requires cap > 0 && |t.queue| == cap
    ensures Reaches(cap, s, steps', t') && OthersUntouched(t, t', p)
    ensures t'.producers[p].pc == StoreTaken(t.counter) && |t'.queue| == cap - 1
    ensures |t'.dropped| == |t.dropped| + 1 && t'.counter == t.counter
  {
    steps', t' := RunOnce(cap, s, steps, t, p);
    steps', t' := RunOnce(cap, s, steps', t', p);
    steps', t' := RunOnce(cap, s, steps', t', p);
    steps', t' := RunOnce(cap, s, steps', t', p);
  }

  /** Storing the loaded count and finding the queue with or without room. */
  lemma RunStoreAndRetry(cap: int, s: State, steps: seq<Step>, t: State, p: nat) returns (steps': seq<Step>, t': State)
    requires Reaches(cap, s, steps, t) && p in t.producers && t.producers[p].pc.StoreTaken?
    ensures Reaches(cap, s, steps', t') && OthersUntouched(t, t', p)
    ensures t'.counter == t.producers[p].pc.loaded + 1
    ensures if Full(cap, t)
            then t'.producers[p].pc == LoadRefused && |t'.dropped| == |t.dropped| + 1
            else t'.producers[p].pc == Idle && t'.dropped == t.dropped && |t'.queue| == |t.queue| + 1
  {
    steps', t' := RunOnce(cap, s, steps, t, p);
    steps', t' := RunOnce(cap, s, steps', t', p);
  }

  /** From a full queue: `p` drops the head and loads the counter; `q` refills the queue,
      drops a head, counts it and refills again; `p` stores its stale count and, finding
      the queue full, drops its own line. */
  lemma RunOvertaken(cap: int, pids: set<nat>, p: nat, q: nat) returns (steps: seq<Step>, s: State)
    requires cap > 0 && p in pids && q in pids && p != q
    ensures Reaches(cap, Init(pids), steps, s) && s.producers.Keys == pids
    ensures s.producers[p].pc == LoadRefused && |s.dropped| == 3 && s.counter == 1
    ensures forall r :: r in pids && r != p ==> s.producers[r].pc == Idle
  {
    steps, s := FillQueue(cap, pids, p, cap);
    steps, s := RunToLoadedCount(cap, Init(pids), steps, s, p);
    steps, s := RunPush(cap, Init(pids), steps, s, q);
    steps, s := RunToLoadedCount(cap, Init(pids), steps, s, q);
    steps, s := RunStoreAndRetry(cap, Init(pids), steps, s, q);
    steps, s := RunStoreAndRetry(cap, Init(pids), steps, s, p);
  }

  /** Three drops, counted as two. */
  lemma LostCount(cap: int, pids: set<nat>, p: nat, q: nat)
    requires cap > 0 && p in pids && q in pids && p != q
    ensures !CountAlwaysExact(cap, pids) && !NewestNeverRefused(cap, pids)
  {
    var steps, s := RunOvertaken(cap, pids, p, q);
    var steps1, s1 := RunOnce(cap, Init(pids), steps, s, p);
    var steps2, s2 := RunOnce(cap, Init(pids), steps1, s1, p);
    assert s2.counter == 2 && |s2.dropped| == 3;
    assert Quiet(s2);
  }

  // ---- `_enqueue` as the code runs it, when no other thread comes between ----

  /** The queue and its drop counter. `history` is every item ever enqueued. */
  class HandOver<T> {
    const cap: int
    var queue: seq<T>
    var droppedByQueue: nat
    var published: nat
    ghost var history: seq<T>

    /** The queue is the latest part of the history, and all the rest is accounted for. */
    ghost predicate Valid()
      reads this
    {
      && (cap > 0 ==> |queue| <= cap)
      && |queue| <= |history|
      && queue == history[|history| - |queue|..]
      && droppedByQueue + published + |queue| == |history|
    }

    constructor (cap: int)
      ensures Valid() && this.cap == cap && history == [] && droppedByQueue == 0
    {
      this.cap := cap;
      queue, droppedByQueue, published, history := [], 0, 0, [];
    }

    method PutNowait(item: T) returns (ok: bool)
      modifies this`queue
      ensures ok == !(cap > 0 && |old(queue)| >= cap)
      ensures queue == if ok then old(queue) + [item] else old(queue)
    {
      if cap > 0 && |queue| >= cap {
        return false;
      }
      queue := queue + [item];
      return true;
    }

    method Enqueue(item: T)
      requires Valid()
      modifies this
      ensures Valid() && history == old(history) + [item] && published == old(published)
      ensures queue == if cap > 0 && |old(queue)| >= cap then old(queue)[1..] + [item] else old(queue) + [item]
      ensures droppedByQueue == old(droppedByQueue) + |old(queue)| + 1 - |queue|
    {
      history := history + [item];
      var ok := PutNowait(item);
      if !ok {
        if |queue| > 0 {
          queue := queue[1..];
          droppedByQueue := droppedByQueue + 1;
        }
        ok := PutNowait(item);
        if !ok {
          // Only another producer could have filled the queue again.
          assert false;
        }
      }
    }

    method Get() returns (item: Option<T>)
      requires Valid()
      modifies this`queue, this`published
      ensures Valid()
      ensures |old(queue)| == 0 ==> item == None && queue == []
      ensures |old(queue)| > 0 ==> item == Some(old(queue)[0]) && queue == old(queue)[1..]
      ensures published == old(published) + |old(queue)| - |queue|
    {
      if |queue| == 0 {
        return None;
      }
      item := Some(queue[0]);
      queue := queue[1..];
      published := published + 1;
    }
  }
}
