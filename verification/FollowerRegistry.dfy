/** The follower registry of logs_follower.py: the scan loop lists containers and spawns
    a follower for each unknown name; followers replace their closer while they run and
    remove their entry when they end. Every access to the registry is one locked step. */
module FollowerRegistry {

  type Name = string

  /** What `stop` would call for a registered follower. */
  datatype Closer = NoOp | CloseStream

  /** Where the scan loop stands. `at` indexes `names`; `known` was read under the lock. */
  datatype Scan =
    | Waiting
    | Listed(names: seq<Name>)
    | Spawning(names: seq<Name>, known: set<Name>, at: nat)
    | Registered(names: seq<Name>, known: set<Name>, at: nat)

  /** `running` has one element for each follower thread that has been started and has
      not yet removed its entry. */
  datatype State = State(registry: map<Name, Closer>, running: multiset<Name>, scan: Scan)

  /** A failed listing is a listing of no names. */
  datatype Step =
    | List(names: seq<Name>)
    | ReadKnown
    | ScanNext
    | StartThread
    | OpenStream(name: Name)
    | Exit(name: Name)

  const INIT := State(map[], multiset{}, Waiting)

  predicate Enabled(s: State, step: Step) {
    match step
    case List(_) => s.scan.Waiting?
    case ReadKnown => s.scan.Listed?
    case ScanNext => s.scan.Spawning?
    case StartThread => s.scan.Registered? && s.scan.at < |s.scan.names|
    case OpenStream(name) => name in s.running
    case Exit(name) => name in s.running
  }

  function Apply(s: State, step: Step): State
    requires Enabled(s, step)
  {
    match step
    case List(names) => s.(scan := Listed(names))
    case ReadKnown => s.(scan := Spawning(s.scan.names, s.registry.Keys, 0))
    case ScanNext =>
      var Spawning(names, known, at) := s.scan;
      if at >= |names| then s.(scan := Waiting)
      else if names[at] in known then s.(scan := Spawning(names, known, at + 1))
      else s.(registry := s.registry[names[at] := NoOp], scan := Registered(names, known, at))
    case StartThread =>
      var Registered(names, known, at) := s.scan;
      s.(running := s.running + multiset{names[at]}, scan := Spawning(names, known, at + 1))
    case OpenStream(name) => s.(registry := s.registry[name := CloseStream])
    case Exit(name) => s.(registry := s.registry - {name}, running := s.running - multiset{name})
  }

  ghost predicate Reaches(s: State, steps: seq<Step>, t: State)
    decreases |steps|
  {
    if |steps| == 0 then s == t
    else Enabled(s, steps[0]) && Reaches(Apply(s, steps[0]), steps[1..], t)
  }

  /** Followers of a name that are running, or registered and about to be started. */
  function Live(s: State, name: Name): nat {
    s.running[name]
      + if s.scan.Registered? && s.scan.at < |s.scan.names| && s.scan.names[s.scan.at] == name then 1 else 0
  }

  /** The registry names exactly the live followers, and no name has two. */
  ghost predicate Agrees(s: State) {
    forall name: Name :: Live(s, name) == if name in s.registry then 1 else 0
  }

  ghost predicate NoRepeats(names: seq<Name>) {
    forall i, j :: 0 <= i < j < |names| ==> names[i] != names[j]
  }

  /** Names still to be looked at that were unknown at the snapshot are still unregistered:
      only the scan loop adds names, so the stale snapshot can only hide exits. */
  ghost predicate SnapshotSound(s: State) {
    match s.scan
    case Waiting => true
    case Listed(names) => NoRepeats(names)
    case Spawning(names, known, at) => NoRepeats(names) && Unregistered(s, names, known, at)
    case Registered(names, known, at) => NoRepeats(names) && at < |names| && Unregistered(s, names, known, at + 1)
  }

  ghost predicate Unregistered(s: State, names: seq<Name>, known: set<Name>, from: nat) {
    forall i :: from <= i < |names| && names[i] !in known ==> names[i] !in s.registry
  }

  ghost predicate ListsWithoutRepeats(steps: seq<Step>) {
    forall i :: 0 <= i < |steps| && steps[i].List? ==> NoRepeats(steps[i].names)
  }

  lemma StepAgrees(s: State, step: Step)
    requires Enabled(s, step) && Agrees(s) && SnapshotSound(s)
    requires step.List? ==> NoRepeats(step.names)
    ensures Agrees(Apply(s, step)) && SnapshotSound(Apply(s, step))
  {
    var t := Apply(s, step);
    forall name: Name ensures Live(t, name) == if name in t.registry then 1 else 0 {
      assert Live(s, name) == if name in s.registry then 1 else 0;
      if step.OpenStream? || step.Exit? {
        assert Live(s, step.name) == if step.name in s.registry then 1 else 0;
      }
    }
    if step.OpenStream? {
      assert Live(s, step.name) == if step.name in s.registry then 1 else 0;
      assert t.registry.Keys == s.registry.Keys;
    }
  }

  /** In every interleaving of the scan loop and the followers. */
  lemma {:induction false} EveryInterleavingAgrees(s: State, steps: seq<Step>, t: State)
    requires Reaches(s, steps, t) && Agrees(s) && SnapshotSound(s) && ListsWithoutRepeats(steps)
    ensures Agrees(t)
    decreases |steps|
  {
    if |steps| > 0 {
      StepAgrees(s, steps[0]);
      EveryInterleavingAgrees(Apply(s, steps[0]), steps[1..], t);
    }
  }

  // ---- whom a scan spawns ----

  /** How often a thread for `name` is started. */
  function StartsOf(s: State, steps: seq<Step>, name: Name): nat
    decreases |steps|
  {
    if |steps| == 0 || !Enabled(s, steps[0]) then 0
    else
      (if steps[0].StartThread? && s.scan.names[s.scan.at] == name then 1 else 0)
        + StartsOf(Apply(s, steps[0]), steps[1..], name)
  }

  /** What the scan in progress still has to start for `name`. */
  function ToStart(scan: Scan, name: Name): nat {
    match scan
    case Spawning(names, known, at) =>
      if name in known || at > |names| then 0 else multiset(names[at..])[name]
    case Registered(names, known, at) =>
      if at >= |names| then 0
      else if name in known then (if names[at] == name then 1 else 0)
      else multiset(names[at..])[name]
    case _ => 0
  }

  lemma {:induction false} ScanStartsRest(s: State, steps: seq<Step>, t: State, name: Name)
    requires Reaches(s, steps, t) && t.scan.Waiting?
    requires !s.scan.Listed? && forall i :: 0 <= i < |steps| ==> !steps[i].List?
    ensures StartsOf(s, steps, name) == ToStart(s.scan, name)
    decreases |steps|
  {
    if |steps| > 0 {
      StepStarts(s, steps[0], name);
      ScanStartsRest(Apply(s, steps[0]), steps[1..], t, name);
    }
  }

  lemma StepStarts(s: State, step: Step, name: Name)
    requires Enabled(s, step) && !step.List? && !s.scan.Listed?
    ensures var now := if step.StartThread? && s.scan.names[s.scan.at] == name then 1 else 0;
      ToStart(s.scan, name) == now + ToStart(Apply(s, step).scan, name)
    ensures !Apply(s, step).scan.Listed?
  {
    if (s.scan.Spawning? || s.scan.Registered?) && s.scan.at < |s.scan.names| {
      CountFrom(s.scan.names, s.scan.at, name);
    }
  }

  lemma CountFrom(names: seq<Name>, at: nat, name: Name)
    requires at < |names|
    ensures multiset(names[at..])[name] == (if names[at] == name then 1 else 0) + multiset(names[at + 1..])[name]
  {
    assert names[at..] == [names[at]] + names[at + 1..];
  }

  /** Whatever the followers do meanwhile, one scan starts a thread for each listed name that
      is not registered when it looks, as often as it is listed, and for no other name. */
  lemma ScanSpawnsUnregistered(s: State, steps: seq<Step>, t: State, name: Name)
    requires s.scan.Listed? && |steps| > 0 && steps[0] == ReadKnown
    requires Reaches(s, steps, t) && t.scan.Waiting?
    requires forall i :: 0 <= i < |steps| ==> !steps[i].List?
    ensures StartsOf(s, steps, name) == if name in s.registry then 0 else multiset(s.scan.names)[name]
  {
    var names := s.scan.names;
    assert names[0..] == names;
    ScanStartsRest(Apply(s, ReadKnown), steps[1..], t, name);
  }

  ghost predicate OnlyLists(steps: seq<Step>, names: seq<Name>) {
    forall i :: 0 <= i < |steps| && steps[i].List? ==> steps[i].names == names
  }

  /** The code relies on a listing never repeating a name, and on nothing else. */
  lemma OneFollowerPerNameIff(names: seq<Name>)
    ensures (forall steps, s :: Reaches(INIT, steps, s) && OnlyLists(steps, names) ==> Agrees(s))
       <==> NoRepeats(names)
  {
    if NoRepeats(names) {
      forall steps, s | Reaches(INIT, steps, s) && OnlyLists(steps, names) ensures Agrees(s) {
        EveryInterleavingAgrees(INIT, steps, s);
      }
    } else {
      var i, j :| 0 <= i < j < |names| && names[i] == names[j];
      var steps, s := FirstScan(names, j + 1);
      OccursTwice(names[..j + 1], i, j);
      assert !Agrees(s) by {
        assert Live(s, names[i]) >= 2;
      }
    }
  }

  lemma OccursTwice(names: seq<Name>, i: nat, j: nat)
    requires i < j < |names| && names[i] == names[j]
    ensures multiset(names)[names[i]] >= 2
  {
    assert names == names[..i] + [names[i]] + names[i + 1..j] + [names[j]] + names[j + 1..];
  }

  /** The first scan, undisturbed, after it has spawned for the first `k` names. */
  lemma {:induction false} FirstScan(names: seq<Name>, k: nat) returns (steps: seq<Step>, s: State)
    requires k <= |names|
    ensures Reaches(INIT, steps, s) && OnlyLists(steps, names)
    ensures s.running == multiset(names[..k]) && s.scan == Spawning(names, {}, k)
    decreases k
  {
    if k == 0 {
      steps, s := Extend([], INIT, List(names));
      steps, s := Extend(steps, s, ReadKnown);
    } else {
      steps, s := FirstScan(names, k - 1);
      steps, s := Extend(steps, s, ScanNext);
      steps, s := Extend(steps, s, StartThread);
      assert names[..k] == names[..k - 1] + [names[k - 1]];
    }
  }

  lemma Extend(steps: seq<Step>, s: State, step: Step) returns (steps': seq<Step>, s': State)
    requires Reaches(INIT, steps, s) && Enabled(s, step)
    ensures steps' == steps + [step] && s' == Apply(s, step) && Reaches(INIT, steps', s')
  {
    steps', s' := steps + [step], Apply(s, step);
    ReachesStep(INIT, steps, s, step);
  }

  lemma {:induction false} ReachesStep(s: State, steps: seq<Step>, t: State, step: Step)
    requires Reaches(s, steps, t) && Enabled(t, step)
    ensures Reaches(s, steps + [step], Apply(t, step))
    decreases |steps|
  {
    if |steps| == 0 {
      assert (steps + [step])[1..] == [];
    } else {
      assert (steps + [step])[1..] == steps[1..] + [step];
      ReachesStep(Apply(s, steps[0]), steps[1..], t, step);
    }
  }
}
