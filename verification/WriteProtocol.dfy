/** Optimistic writes to the platforms repository: `handle_write_file` and
    `handle_read_file` (platform_handlers.py) with `check_base_sha` and `atomic_write`
    (platform_write.py). Any number of calls interleave, and the process may be killed
    between any two steps; nothing else writes to the tree. */
module WriteProtocol {
  import opened Common
  import opened ByteStrings
  import opened SegmentGlob
  import opened PathJail

  datatype File = File(content: Bytes, mode: nat)

  type Files = map<Path, File>

  /** SHA-256 as lowercase hex; taken to be injective and never empty. */
  type Hash = Bytes -> string

  ghost predicate SoundHash(sha: Hash) {
    && (forall x: Bytes, y: Bytes :: sha(x) == sha(y) ==> x == y)
    && (forall x: Bytes :: sha(x) != "")
  }

  /** `decide` is what the jail and the guard make of a requested path: see PathJail.Permit. */
  datatype Config = Config(decide: (Links, string) -> Option<Path>, sha: Hash)

  datatype WriteRequest = WriteRequest(path: string, base: string, content: Bytes)

  /** A call that has passed the jail and the guard. `tree` is the links it resolved against. */
  datatype Job = Job(tree: Links, request: WriteRequest, path: Path)

  datatype Pc =
    | AwaitingLock
    | HoldsLock
    | BaseChecked
    | Writing(tmp: Path, mode: nat, written: nat)
    | Ready(tmp: Path)
    | Replaced

  datatype Writer = Writer(job: Job, pc: Pc)

  /** An accepted write: the call, and the file it left at its path. */
  datatype Accept = Accept(job: Job, file: File)

  datatype TempMade = TempMade(tmp: Path, job: Job)

  /** `log` and `temps` record the accepted writes and the temporary files in order. */
  datatype State = State(
    links: Links,
    dirs: set<Path>,
    files: Files,
    writers: map<nat, Writer>,
    lock: Option<nat>,
    log: seq<Accept>,
    temps: seq<TempMade>)

  datatype Step =
    | Submit(w: nat, request: WriteRequest)
    | Acquire(w: nat)
    | CheckBase(w: nat)
    | OpenTemp(w: nat, random: string)
    | WriteMore(w: nat, upTo: nat)
    | Seal(w: nat)
    | Replace(w: nat)
    | Release(w: nat)
    | Fail(w: nat, leaveTemp: bool)
    | Crash

  /** The mode of a file that was not there before, octal 644. */
  const DEFAULT_MODE := 420

  /** The mode a temporary file is made with, octal 600. */
  const PRIVATE_MODE := 384

  function Lookup(files: Files, path: Path): Option<File> {
    if path in files then Some(files[path]) else None
  }

  /** `check_base_sha`: an empty base names absence, any other the version it hashes. */
  predicate BaseNames(sha: Hash, base: string, version: Option<File>) {
    if base == "" then version.None? else version.Some? && sha(version.value.content) == base
  }

  function PermissionBits(mode: nat): nat { mode % 512 }

  function ModeFor(version: Option<File>): nat {
    if version.Some? then PermissionBits(version.value.mode) else DEFAULT_MODE
  }

  // The nine permission bits of a mode.
  const OWNER_READ := 256
  const OWNER_WRITE := 128
  const OWNER_EXECUTE := 64
  const GROUP_READ := 32
  const GROUP_WRITE := 16
  const GROUP_EXECUTE := 8
  const OTHER_READ := 4
  const OTHER_WRITE := 2
  const OTHER_EXECUTE := 1

  const PERMISSIONS: set<nat> := {
    OWNER_READ, OWNER_WRITE, OWNER_EXECUTE, GROUP_READ, GROUP_WRITE, GROUP_EXECUTE,
    OTHER_READ, OTHER_WRITE, OTHER_EXECUTE}

  predicate Grants(mode: nat, bit: nat) {
    bit > 0 && mode / bit % 2 == 1
  }

  /** A replaced file's permissions are kept bit for bit, a new file can be read by all and
      written by its owner, and no bit above the nine is set. */
  ghost predicate KeepsMode(mode: nat, replaced: Option<File>) {
    && mode < 512
    && forall bit :: bit in PERMISSIONS ==>
      (Grants(mode, bit) <==> match replaced
        case Some(file) => Grants(file.mode, bit)
        case None => bit in {OWNER_READ, OWNER_WRITE, GROUP_READ, OTHER_READ})
  }

  lemma ModeForKeeps(replaced: Option<File>)
    ensures KeepsMode(ModeFor(replaced), replaced)
  {
    forall bit | bit in PERMISSIONS && replaced.Some?
      ensures Grants(ModeFor(replaced), bit) <==> Grants(replaced.value.mode, bit)
    {
      LowBit(replaced.value.mode, bit);
    }
    if replaced.None? {
      BitsOfDefault();
    }
  }

  lemma BitsOfDefault()
    ensures forall bit :: bit in PERMISSIONS ==>
      (Grants(DEFAULT_MODE, bit) <==> bit in {OWNER_READ, OWNER_WRITE, GROUP_READ, OTHER_READ})
    ensures forall bit :: bit in PERMISSIONS ==> (Grants(PRIVATE_MODE, bit) <==> bit in {OWNER_READ, OWNER_WRITE})
  {
  }

  lemma LowBit(mode: nat, bit: nat)
    requires bit in PERMISSIONS
    ensures Grants(mode % 512, bit) <==> Grants(mode, bit)
  {
    var half := 256 / bit;
    assert bit * (2 * half) == 512;
    BitAboveHalf(mode / 512, mode % 512, bit, half);
  }

  /** A multiple of twice the bit's weight does not touch the bit. */
  lemma BitAboveHalf(high: nat, low: nat, bit: nat, half: nat)
    requires bit > 0 && bit * (2 * half) == 512
    ensures (512 * high + low) / bit % 2 == low / bit % 2
  {
    var k, z := low / bit, half * high;
    Regrouped(bit, half, high);
    Distributed(bit, 2 * z, k);
    QuotientIs(512 * high + low, bit, 2 * z + k, low % bit);
    TwicePlus(z, k);
  }

  lemma Regrouped(bit: nat, half: nat, high: nat)
    ensures bit * (2 * (half * high)) == bit * (2 * half) * high
  {
  }

  lemma Distributed(d: nat, a: nat, b: nat)
    ensures d * (a + b) == d * a + d * b
  {
  }

  lemma TwicePlus(z: nat, k: nat)
    ensures (2 * z + k) % 2 == k % 2
  {
  }

  lemma QuotientIs(m: nat, d: nat, x: nat, e: nat)
    requires d > 0 && m == d * x + e && e < d
    ensures m / d == x
  {
    var y := m / d;
    if x < y {
      Larger(d, x + 1, y);
      Distributed(d, x, 1);
    } else if y < x {
      Larger(d, y + 1, x);
      Distributed(d, y, 1);
    }
  }

  lemma Larger(d: nat, a: nat, b: nat)
    requires a <= b
    ensures d * a <= d * b
  {
    Distributed(d, a, b - a);
  }

  function TempPath(path: Path, random: string): Path
    requires |path| > 0
  {
    Front(path) + ["." + Last(path) + "." + random + ".tmp"]
  }

  predicate AtPc(s: State, w: nat, pc: Pc) {
    w in s.writers && s.writers[w].pc == pc
  }

  predicate Enabled(cfg: Config, s: State, step: Step) {
    match step
    case Submit(w, request) =>
      w !in s.writers && cfg.decide(s.links, request.path).Some?
    case Acquire(w) => AtPc(s, w, AwaitingLock) && s.lock == None
    case CheckBase(w) => AtPc(s, w, HoldsLock)
    case OpenTemp(w, random) =>
      && AtPc(s, w, BaseChecked)
      && |s.writers[w].job.path| > 0 && Front(s.writers[w].job.path) in s.dirs
      && var tmp := TempPath(s.writers[w].job.path, random);
         tmp !in s.files && tmp !in s.dirs && tmp !in s.links
    case WriteMore(w, upTo) =>
      && w in s.writers && s.writers[w].pc.Writing?
      && s.writers[w].pc.written < upTo <= |s.writers[w].job.request.content|
    case Seal(w) =>
      && w in s.writers && s.writers[w].pc.Writing?
      && s.writers[w].pc.written == |s.writers[w].job.request.content| && s.writers[w].pc.tmp in s.files
    case Replace(w) =>
      w in s.writers && s.writers[w].pc.Ready? && s.writers[w].job.path !in s.dirs && s.writers[w].pc.tmp in s.files
    case Release(w) => AtPc(s, w, Replaced)
    case Fail(w, _) => w in s.writers && !s.writers[w].pc.AwaitingLock? && !s.writers[w].pc.Replaced?
    case Crash => true
  }

  function Move(s: State, w: nat, pc: Pc): State
    requires w in s.writers
  {
    s.(writers := s.writers[w := s.writers[w].(pc := pc)])
  }

  function Leave(s: State, w: nat): State {
    s.(writers := s.writers - {w}, lock := None)
  }

  function Apply(cfg: Config, s: State, step: Step): State
    requires Enabled(cfg, s, step)
  {
    match step
    case Submit(w, request) =>
      var path := cfg.decide(s.links, request.path).value;
      s.(writers := s.writers[w := Writer(Job(s.links, request, path), AwaitingLock)])
    case Acquire(w) => Move(s, w, HoldsLock).(lock := Some(w))
    case CheckBase(w) =>
      var job := s.writers[w].job;
      if BaseNames(cfg.sha, job.request.base, Lookup(s.files, job.path)) then Move(s, w, BaseChecked) else Leave(s, w)
    case OpenTemp(w, random) =>
      var job := s.writers[w].job;
      var tmp := TempPath(job.path, random);
      Move(s, w, Writing(tmp, ModeFor(Lookup(s.files, job.path)), 0))
        .(files := s.files[tmp := File([], PRIVATE_MODE)], temps := s.temps + [TempMade(tmp, job)])
    case WriteMore(w, upTo) =>
      var Writing(tmp, mode, _) := s.writers[w].pc;
      var content := s.writers[w].job.request.content[..upTo];
      Move(s, w, Writing(tmp, mode, upTo)).(files := s.files[tmp := File(content, PRIVATE_MODE)])
    case Seal(w) =>
      var Writing(tmp, mode, _) := s.writers[w].pc;
      Move(s, w, Ready(tmp)).(files := s.files[tmp := s.files[tmp].(mode := mode)])
    case Replace(w) =>
      var Writer(job, pc) := s.writers[w];
      Move(s, w, Replaced).(
        files := (s.files - {pc.tmp})[job.path := s.files[pc.tmp]],
        links := s.links - {job.path},
        log := s.log + [Accept(job, s.files[pc.tmp])])
    case Release(w) => Leave(s, w)
    case Fail(w, leaveTemp) =>
      var pc := s.writers[w].pc;
      if !leaveTemp && (pc.Writing? || pc.Ready?) then Leave(s, w).(files := s.files - {pc.tmp}) else Leave(s, w)
    case Crash => s.(writers := map[], lock := None)
  }

  function Init(links: Links, dirs: set<Path>, files: Files): State {
    State(links, dirs, files, map[], None, [], [])
  }

  ghost predicate Reaches(cfg: Config, s: State, steps: seq<Step>, t: State)
    decreases |steps|
  {
    if |steps| == 0 then s == t
    else Enabled(cfg, s, steps[0]) && Reaches(cfg, Apply(cfg, s, steps[0]), steps[1..], t)
  }

  // ---- versions ----

  /** What stands at `path` after the accepted writes in `log`. */
  function VersionAfter(files: Files, log: seq<Accept>, path: Path): Option<File> {
    if |log| == 0 then Lookup(files, path)
    else if Last(log).job.path == path then Some(Last(log).file)
    else VersionAfter(files, Front(log), path)
  }

  /** Which accepted write put the current version there; -1 for the version found at the start. */
  function Occurrence(log: seq<Accept>, path: Path): int {
    if |log| == 0 then -1
    else if Last(log).job.path == path then |log| - 1
    else Occurrence(Front(log), path)
  }

  /** Temporary names end in a suffix no editable file has. */
  predicate TempLike(path: Path) {
    |path| > 0 && |Last(path)| >= 4 && Last(path)[|Last(path)| - 4..] == ".tmp"
  }

  lemma TempIsTempLike(path: Path, random: string)
    requires |path| > 0
    ensures TempLike(TempPath(path, random)) && Front(TempPath(path, random)) == Front(path)
  {
    var stem := "." + Last(path) + "." + random;
    assert (stem + ".tmp")[|stem|..] == ".tmp";
  }

  lemma TempIsNotEditable(path: Path)
    requires TempLike(path) || |path| == 0
    ensures !IsAllowedName(NameOf(path))
  {
    var name := NameOf(path);
    AllowedNameIff(name);
    if |path| > 0 {
      assert name[|name| - 1] == name[|name| - 4..][3] == 'p';
      forall suffix | suffix in ALLOWED_SUFFIXES ensures !EndsLike(name, suffix) {
        NotLikeTmp(name, suffix);
      }
    }
  }

  lemma NotLikeTmp(name: string, suffix: string)
    requires suffix in ALLOWED_SUFFIXES && |name| >= 4 && name[|name| - 4..] == ".tmp"
    ensures !EndsLike(name, suffix)
  {
    var last := name[|name| - 1];
    assert last == name[|name| - 4..][3] == 'p';
    assert EndsLike(name, suffix) ==> IsLetterOf(name[|name| - |suffix| + (|suffix| - 1)], suffix[|suffix| - 1]);
  }

  // ---- the invariant ----

  /** The decision only ever lets through names that may be edited. */
  ghost predicate EditableOnly(cfg: Config) {
    forall tree, asked :: cfg.decide(tree, asked).Some? ==> IsAllowedName(NameOf(cfg.decide(tree, asked).value))
  }

  ghost predicate JobPermitted(cfg: Config, job: Job) {
    && cfg.decide(job.tree, job.request.path) == Some(job.path)
    && !TempLike(job.path) && |job.path| > 0
  }

  ghost predicate OwnTemp(init: Files, files: Files, tmp: Path) {
    TempLike(tmp) && tmp in files && tmp !in init
  }

  /** A writer past the lock holds it, and what it has checked and written still stands. */
  ghost predicate WriterInv(cfg: Config, init: Files, files: Files, lock: Option<nat>, w: nat, writer: Writer) {
    var Writer(job, pc) := writer;
    var now := Lookup(files, job.path);
    && JobPermitted(cfg, job)
    && (!pc.AwaitingLock? ==> lock == Some(w))
    && (pc.BaseChecked? || pc.Writing? || pc.Ready? ==> BaseNames(cfg.sha, job.request.base, now))
    && (pc.Writing? ==> OwnTemp(init, files, pc.tmp) && pc.mode == ModeFor(now))
    && (pc.Writing? ==> pc.written <= |job.request.content|)
    && (pc.Writing? ==> files[pc.tmp] == File(job.request.content[..pc.written], PRIVATE_MODE))
    && (pc.Ready? ==> OwnTemp(init, files, pc.tmp) && files[pc.tmp] == File(job.request.content, ModeFor(now)))
  }

  ghost predicate WritersInv(cfg: Config, init: Files, s: State) {
    forall w :: w in s.writers ==> WriterInv(cfg, init, s.files, s.lock, w, s.writers[w])
  }

  /** Every path that is not a temporary name holds the version its accepted writes left. */
  ghost predicate TargetsInv(init: Files, files: Files, log: seq<Accept>) {
    forall p :: !TempLike(p) ==> Lookup(files, p) == VersionAfter(init, log, p)
  }

  /** Files found with a temporary name stay; all others were made by a call. */
  ghost predicate TempFilesInv(init: Files, files: Files, temps: seq<TempMade>) {
    && (forall p :: TempLike(p) && p in init ==> Lookup(files, p) == Some(init[p]))
    && (forall p :: TempLike(p) && p in files && p !in init ==> exists i :: 0 <= i < |temps| && temps[i].tmp == p)
  }

  /** An accepted write replaced the version its base names, with the whole of its content
      and the permission bits of what it replaced. */
  ghost predicate EntryInv(cfg: Config, init: Files, log: seq<Accept>, i: nat)
    requires i < |log|
  {
    var Accept(job, file) := log[i];
    var replaced := VersionAfter(init, log[..i], job.path);
    && JobPermitted(cfg, job)
    && BaseNames(cfg.sha, job.request.base, replaced)
    && file == File(job.request.content, ModeFor(replaced))
  }

  /** Temporary files lie beside a permitted path and are new to the tree. */
  ghost predicate TempInv(cfg: Config, init: Files, temp: TempMade) {
    && TempLike(temp.tmp) && temp.tmp !in init && JobPermitted(cfg, temp.job)
    && |temp.tmp| > 0 && |temp.job.path| > 0 && Front(temp.tmp) == Front(temp.job.path)
  }

  ghost predicate Inv(cfg: Config, init: Files, s: State) {
    && WritersInv(cfg, init, s)
    && TargetsInv(init, s.files, s.log)
    && TempFilesInv(init, s.files, s.temps)
    && (forall i :: 0 <= i < |s.log| ==> EntryInv(cfg, init, s.log, i))
    && (forall i :: 0 <= i < |s.temps| ==> TempInv(cfg, init, s.temps[i]))
  }

  /** While one writer is past the lock, the others have nothing that its steps could break. */
  lemma OthersAwaitLock(cfg: Config, init: Files, s: State, t: State, w: nat)
    requires WritersInv(cfg, init, s) && w in s.writers && !s.writers[w].pc.AwaitingLock?
    requires forall v :: v in t.writers && v != w ==> v in s.writers && t.writers[v] == s.writers[v]
    requires w in t.writers ==> WriterInv(cfg, init, t.files, t.lock, w, t.writers[w])
    ensures WritersInv(cfg, init, t)
  {
    assert WriterInv(cfg, init, s.files, s.lock, w, s.writers[w]);
    forall v | v in t.writers && v != w ensures WriterInv(cfg, init, t.files, t.lock, v, t.writers[v]) {
      assert WriterInv(cfg, init, s.files, s.lock, v, s.writers[v]);
    }
  }

  ghost predicate DifferOnlyAt(a: Files, b: Files, p: Path) {
    forall q :: q != p ==> Lookup(a, q) == Lookup(b, q)
  }

  /** Work on a temporary file of its own disturbs no target and no file that was found. */
  lemma TempWorkKeepsFiles(init: Files, s: State, t: State, tmp: Path)
    requires TargetsInv(init, s.files, s.log) && TempFilesInv(init, s.files, s.temps)
    requires DifferOnlyAt(s.files, t.files, tmp) && TempLike(tmp) && tmp !in init && t.log == s.log
    requires s.temps <= t.temps
    requires tmp in t.files && tmp !in s.files ==> exists i :: 0 <= i < |t.temps| && t.temps[i].tmp == tmp
    ensures TargetsInv(init, t.files, t.log) && TempFilesInv(init, t.files, t.temps)
  {
    forall p | TempLike(p) && p in t.files && p !in init
      ensures exists i :: 0 <= i < |t.temps| && t.temps[i].tmp == p
    {
      if p != tmp || tmp in s.files {
        assert Lookup(s.files, p) == Lookup(t.files, p) || p == tmp;
        var i :| 0 <= i < |s.temps| && s.temps[i].tmp == p;
        assert t.temps[i].tmp == p;
      }
    }
  }

  lemma OpenTempKeepsInv(cfg: Config, init: Files, s: State, w: nat, random: string)
    requires Inv(cfg, init, s) && Enabled(cfg, s, OpenTemp(w, random))
    ensures Inv(cfg, init, Apply(cfg, s, OpenTemp(w, random)))
  {
    var t := Apply(cfg, s, OpenTemp(w, random));
    var job := s.writers[w].job;
    var tmp := TempPath(job.path, random);
    assert WriterInv(cfg, init, s.files, s.lock, w, s.writers[w]);
    TempIsTempLike(job.path, random);
    OpenTempKeepsFiles(init, s, t, job, tmp);
    OthersAwaitLock(cfg, init, s, t, w);
    assert TempInv(cfg, init, TempMade(tmp, job));
  }

  lemma OpenTempKeepsFiles(init: Files, s: State, t: State, job: Job, tmp: Path)
    requires TargetsInv(init, s.files, s.log) && TempFilesInv(init, s.files, s.temps)
    requires TempLike(tmp) && tmp !in s.files && !TempLike(job.path)
    requires tmp in t.files && t.files == s.files[tmp := t.files[tmp]]
    requires t.temps == s.temps + [TempMade(tmp, job)] && t.log == s.log
    ensures TargetsInv(init, t.files, t.log) && TempFilesInv(init, t.files, t.temps)
    ensures tmp !in init && Lookup(t.files, job.path) == Lookup(s.files, job.path)
  {
    assert Lookup(s.files, tmp) == None;
    assert t.temps[|s.temps|].tmp == tmp;
    TempWorkKeepsFiles(init, s, t, tmp);
  }

  lemma WriteMoreKeepsInv(cfg: Config, init: Files, s: State, w: nat, upTo: nat)
    requires Inv(cfg, init, s) && Enabled(cfg, s, WriteMore(w, upTo))
    ensures Inv(cfg, init, Apply(cfg, s, WriteMore(w, upTo)))
  {
    TempRewriteKeepsInv(cfg, init, s, Apply(cfg, s, WriteMore(w, upTo)), w);
  }

  lemma SealKeepsInv(cfg: Config, init: Files, s: State, w: nat)
    requires Inv(cfg, init, s) && Enabled(cfg, s, Seal(w))
    ensures Inv(cfg, init, Apply(cfg, s, Seal(w)))
  {
    var job := s.writers[w].job;
    assert WriterInv(cfg, init, s.files, s.lock, w, s.writers[w]);
    assert job.request.content[..|job.request.content|] == job.request.content;
    TempRewriteKeepsInv(cfg, init, s, Apply(cfg, s, Seal(w)), w);
  }

  /** A step that only rewrites the writer's own temporary file. */
  lemma TempRewriteKeepsInv(cfg: Config, init: Files, s: State, t: State, w: nat)
    requires Inv(cfg, init, s) && w in s.writers && s.writers[w].pc.Writing?
    requires var tmp := s.writers[w].pc.tmp; tmp in t.files && t.files == s.files[tmp := t.files[tmp]]
    requires w in t.writers && t.writers == s.writers[w := t.writers[w]] && t.writers[w].job == s.writers[w].job
    requires t.lock == s.lock && t.log == s.log && t.temps == s.temps
    requires TempHolds(t, w, s.writers[w].pc.tmp, s.writers[w].pc.mode)
    ensures Inv(cfg, init, t)
  {
    var Writer(job, pc) := s.writers[w];
    assert WriterInv(cfg, init, s.files, s.lock, w, s.writers[w]);
    assert DifferOnlyAt(s.files, t.files, pc.tmp);
    assert Lookup(t.files, job.path) == Lookup(s.files, job.path);
    TempWorkKeepsFiles(init, s, t, pc.tmp);
    OthersAwaitLock(cfg, init, s, t, w);
  }

  ghost predicate TempHolds(t: State, w: nat, tmp: Path, mode: nat)
    requires w in t.writers && tmp in t.files
  {
    var Writer(job, pc) := t.writers[w];
    || (pc.Ready? && pc.tmp == tmp && t.files[tmp] == File(job.request.content, mode))
    || (pc.Writing? && pc.tmp == tmp && pc.mode == mode && pc.written <= |job.request.content|
        && t.files[tmp] == File(job.request.content[..pc.written], PRIVATE_MODE))
  }

  lemma FailKeepsInv(cfg: Config, init: Files, s: State, step: Step)
    requires Inv(cfg, init, s) && Enabled(cfg, s, step) && step.Fail?
    ensures Inv(cfg, init, Apply(cfg, s, step))
  {
    var t := Apply(cfg, s, step);
    var pc := s.writers[step.w].pc;
    assert WriterInv(cfg, init, s.files, s.lock, step.w, s.writers[step.w]);
    if pc.Writing? || pc.Ready? {
      assert DifferOnlyAt(s.files, t.files, pc.tmp);
      TempWorkKeepsFiles(init, s, t, pc.tmp);
    }
    OthersAwaitLock(cfg, init, s, t, step.w);
  }

  lemma ReplaceKeepsInv(cfg: Config, init: Files, s: State, w: nat)
    requires Inv(cfg, init, s) && Enabled(cfg, s, Replace(w))
    ensures Inv(cfg, init, Apply(cfg, s, Replace(w)))
  {
    var t := Apply(cfg, s, Replace(w));
    var Writer(job, pc) := s.writers[w];
    var file := s.files[pc.tmp];
    assert WriterInv(cfg, init, s.files, s.lock, w, s.writers[w]);
    assert t.files == (s.files - {pc.tmp})[job.path := file] && t.log == s.log + [Accept(job, file)];
    ReplaceKeepsFiles(init, s, t, job, pc.tmp);
    LogGrows(cfg, init, s.log, Accept(job, file));
    OthersAwaitLock(cfg, init, s, t, w);
  }

  lemma ReplaceKeepsFiles(init: Files, s: State, t: State, job: Job, tmp: Path)
    requires TargetsInv(init, s.files, s.log) && TempFilesInv(init, s.files, s.temps)
    requires OwnTemp(init, s.files, tmp) && !TempLike(job.path) && t.temps == s.temps
    requires t.files == (s.files - {tmp})[job.path := s.files[tmp]] && t.log == s.log + [Accept(job, s.files[tmp])]
    ensures TargetsInv(init, t.files, t.log) && TempFilesInv(init, t.files, t.temps)
  {
    assert Front(t.log) == s.log;
    forall p | !TempLike(p) ensures Lookup(t.files, p) == VersionAfter(init, t.log, p) {
      assert Lookup(s.files, p) == VersionAfter(init, s.log, p);
    }
    forall p | TempLike(p) && p in init ensures Lookup(t.files, p) == Some(init[p]) {
      assert Lookup(s.files, p) == Some(init[p]);
    }
    forall p | TempLike(p) && p in t.files && p !in init
      ensures exists i :: 0 <= i < |t.temps| && t.temps[i].tmp == p
    {
      assert p in s.files;
    }
  }

  lemma LogGrows(cfg: Config, init: Files, log: seq<Accept>, accept: Accept)
    requires forall i :: 0 <= i < |log| ==> EntryInv(cfg, init, log, i)
    requires var replaced := VersionAfter(init, log, accept.job.path);
      && JobPermitted(cfg, accept.job)
      && BaseNames(cfg.sha, accept.job.request.base, replaced)
      && accept.file == File(accept.job.request.content, ModeFor(replaced))
    ensures var longer := log + [accept]; forall i :: 0 <= i < |longer| ==> EntryInv(cfg, init, longer, i)
  {
    var longer := log + [accept];
    forall i | 0 <= i < |longer| ensures EntryInv(cfg, init, longer, i) {
      assert longer[..i] == log[..i];
      if i < |log| {
        assert EntryInv(cfg, init, log, i);
      } else {
        assert log[..i] == log;
      }
    }
  }

  lemma LockStepKeepsInv(cfg: Config, init: Files, s: State, step: Step)
    requires Inv(cfg, init, s) && Enabled(cfg, s, step) && (step.Acquire? || step.CheckBase? || step.Release?)
    ensures Inv(cfg, init, Apply(cfg, s, step))
  {
    var t := Apply(cfg, s, step);
    assert WriterInv(cfg, init, s.files, s.lock, step.w, s.writers[step.w]);
    forall v | v in t.writers ensures WriterInv(cfg, init, t.files, t.lock, v, t.writers[v]) {
      assert WriterInv(cfg, init, s.files, s.lock, v, s.writers[v]);
    }
  }

  lemma SubmitKeepsInv(cfg: Config, init: Files, s: State, w: nat, request: WriteRequest)
    requires EditableOnly(cfg) && Inv(cfg, init, s) && Enabled(cfg, s, Submit(w, request))
    ensures Inv(cfg, init, Apply(cfg, s, Submit(w, request)))
  {
    var t := Apply(cfg, s, Submit(w, request));
    var path := t.writers[w].job.path;
    if TempLike(path) || |path| == 0 {
      TempIsNotEditable(path);
    }
    forall v | v in t.writers ensures WriterInv(cfg, init, t.files, t.lock, v, t.writers[v]) {
      assert v != w ==> WriterInv(cfg, init, s.files, s.lock, v, s.writers[v]);
    }
  }

  lemma StepKeepsInv(cfg: Config, init: Files, s: State, step: Step)
    requires EditableOnly(cfg) && Enabled(cfg, s, step) && Inv(cfg, init, s)
    ensures Inv(cfg, init, Apply(cfg, s, step))
  {
    match step
    case Submit(w, request) => SubmitKeepsInv(cfg, init, s, w, request);
    case Acquire(_) => LockStepKeepsInv(cfg, init, s, step);
    case CheckBase(_) => LockStepKeepsInv(cfg, init, s, step);
    case OpenTemp(w, random) => OpenTempKeepsInv(cfg, init, s, w, random);
    case WriteMore(w, upTo) => WriteMoreKeepsInv(cfg, init, s, w, upTo);
    case Seal(w) => SealKeepsInv(cfg, init, s, w);
    case Replace(w) => ReplaceKeepsInv(cfg, init, s, w);
    case Release(_) => LockStepKeepsInv(cfg, init, s, step);
    case Fail(_, _) => FailKeepsInv(cfg, init, s, step);
    case Crash =>
  }

  lemma {:induction false} EveryRunKeepsInv(cfg: Config, init: Files, s: State, steps: seq<Step>, t: State)
    requires EditableOnly(cfg) && Reaches(cfg, s, steps, t) && Inv(cfg, init, s)
    ensures Inv(cfg, init, t)
    decreases |steps|
  {
    if |steps| > 0 {
      StepKeepsInv(cfg, init, s, steps[0]);
      EveryRunKeepsInv(cfg, init, Apply(cfg, s, steps[0]), steps[1..], t);
    }
  }

  // ---- what every run guarantees ----

  lemma InitInv(cfg: Config, links: Links, dirs: set<Path>, files: Files)
    ensures Inv(cfg, files, Init(links, dirs, files))
  {
  }

  /** No lost update, over every interleaving and every crash: each accepted write directly
      replaced the version its base hash names (absence, for an empty base), left exactly
      its content with the permission bits of what it replaced, and every path always
      holds the version its accepted writes left, complete. */
  lemma NoLostUpdate(cfg: Config, links: Links, dirs: set<Path>, files: Files, steps: seq<Step>, s: State)
    requires EditableOnly(cfg) && Reaches(cfg, Init(links, dirs, files), steps, s)
    ensures forall i :: 0 <= i < |s.log| ==>
      var replaced := VersionAfter(files, s.log[..i], s.log[i].job.path);
      && (s.log[i].job.request.base == "" ==> replaced.None?)
      && (s.log[i].job.request.base != "" ==>
            replaced.Some? && cfg.sha(replaced.value.content) == s.log[i].job.request.base)
      && s.log[i].file.content == s.log[i].job.request.content && KeepsMode(s.log[i].file.mode, replaced)
    ensures forall p :: !TempLike(p) ==> Lookup(s.files, p) == VersionAfter(files, s.log, p)
  {
    InitInv(cfg, links, dirs, files);
    EveryRunKeepsInv(cfg, files, Init(links, dirs, files), steps, s);
    forall i | 0 <= i < |s.log|
      ensures var replaced := VersionAfter(files, s.log[..i], s.log[i].job.path);
        && (s.log[i].job.request.base == "" ==> replaced.None?)
        && (s.log[i].job.request.base != "" ==>
              replaced.Some? && cfg.sha(replaced.value.content) == s.log[i].job.request.base)
        && s.log[i].file.content == s.log[i].job.request.content && KeepsMode(s.log[i].file.mode, replaced)
    {
      assert EntryInv(cfg, files, s.log, i);
      ModeForKeeps(VersionAfter(files, s.log[..i], s.log[i].job.path));
    }
  }

  /** Until it is whole a temporary file is its owner's alone, at every point of every run. */
  lemma UnfinishedIsPrivate(cfg: Config, links: Links, dirs: set<Path>, files: Files, steps: seq<Step>, s: State,
                            w: nat)
    requires EditableOnly(cfg) && Reaches(cfg, Init(links, dirs, files), steps, s)
    requires w in s.writers && s.writers[w].pc.Writing?
    ensures var Writer(job, pc) := s.writers[w];
      && pc.tmp in s.files && pc.tmp !in files && s.files[pc.tmp].content <= job.request.content
      && forall bit :: bit in PERMISSIONS ==> (Grants(s.files[pc.tmp].mode, bit) <==> bit in {OWNER_READ, OWNER_WRITE})
  {
    InitInv(cfg, links, dirs, files);
    EveryRunKeepsInv(cfg, files, Init(links, dirs, files), steps, s);
    assert WriterInv(cfg, files, s.files, s.lock, w, s.writers[w]);
    BitsOfDefault();
  }

  /** A file changes or appears only where a call was let through, or as the temporary
      file of such a call, beside its target; files found with temporary names never change. */
  lemma OnlyPermittedPathsChange(cfg: Config, links: Links, dirs: set<Path>, files: Files, steps: seq<Step>, s: State,
                                 p: Path)
    requires EditableOnly(cfg) && Reaches(cfg, Init(links, dirs, files), steps, s)
    requires Lookup(s.files, p) != Lookup(files, p)
    ensures
      || (exists i :: 0 <= i < |s.log| && s.log[i].job.path == p && JobPermitted(cfg, s.log[i].job))
      || (p !in files && exists i :: 0 <= i < |s.temps| && s.temps[i].tmp == p && TempInv(cfg, files, s.temps[i]))
  {
    InitInv(cfg, links, dirs, files);
    EveryRunKeepsInv(cfg, files, Init(links, dirs, files), steps, s);
    if TempLike(p) {
      assert p !in files && p in s.files;
    } else {
      var i := LastWriter(files, s.log, p);
      assert EntryInv(cfg, files, s.log, i);
    }
  }

  lemma {:induction false} LastWriter(files: Files, log: seq<Accept>, p: Path) returns (i: nat)
    requires VersionAfter(files, log, p) != Lookup(files, p)
    ensures i < |log| && log[i].job.path == p && Occurrence(log, p) == i
    ensures VersionAfter(files, log, p) == Some(log[i].file)
  {
    if Last(log).job.path == p {
      i := |log| - 1;
    } else {
      i := LastWriter(files, Front(log), p);
    }
  }

  lemma {:induction false} OccurrenceBounds(log: seq<Accept>, i: nat, j: nat)
    requires i <= j <= |log|
    ensures forall p :: Occurrence(log[..i], p) <= Occurrence(log[..j], p) < j
    decreases j - i, j
  {
    if i < j {
      OccurrenceBounds(log, i, j - 1);
      assert Front(log[..j]) == log[..j - 1];
    } else if i > 0 {
      OccurrenceBounds(log, i - 1, i - 1);
      assert Front(log[..i]) == log[..i - 1];
    }
  }

  lemma OccurrenceAdvances(log: seq<Accept>, i: nat, j: nat)
    requires i < j < |log| && log[i].job.path == log[j].job.path
    ensures Occurrence(log[..i], log[i].job.path) < i <= Occurrence(log[..j], log[j].job.path)
  {
    OccurrenceBounds(log, i, i);
    OccurrenceBounds(log, i + 1, j);
    assert Front(log[..i + 1]) == log[..i];
    assert Occurrence(log[..i + 1], log[i].job.path) == i;
  }

  lemma {:induction false} VersionIsOccurrence(files: Files, log: seq<Accept>, p: Path)
    ensures -1 <= Occurrence(log, p) < |log|
    ensures VersionAfter(files, log, p)
         == if Occurrence(log, p) < 0 then Lookup(files, p) else Some(log[Occurrence(log, p)].file)
  {
    if |log| > 0 && Last(log).job.path != p {
      VersionIsOccurrence(files, Front(log), p);
    }
  }

  /** The accepted writes to one path form a chain over every run: each names by its base
      hash the content of the accepted write just before it, so no two ever replace the
      same version occurrence. */
  lemma VersionReplacedOnce(cfg: Config, links: Links, dirs: set<Path>, files: Files, steps: seq<Step>, s: State,
                            i: nat, j: nat)
    requires EditableOnly(cfg) && Reaches(cfg, Init(links, dirs, files), steps, s)
    requires i < j < |s.log| && s.log[i].job.path == s.log[j].job.path
    ensures var p := s.log[j].job.path; var m := Occurrence(s.log[..j], p);
      && Occurrence(s.log[..i], p) < i <= m < j
      && s.log[m].job.path == p && (forall k :: m < k < j ==> s.log[k].job.path != p)
      && s.log[j].job.request.base == cfg.sha(s.log[m].job.request.content) != ""
  {
    var p := s.log[j].job.path;
    NoLostUpdate(cfg, links, dirs, files, steps, s);
    OccurrenceAdvances(s.log, i, j);
    VersionIsOccurrence(files, s.log[..j], p);
    OccurrenceNames(s.log[..j], p);
    var m := Occurrence(s.log[..j], p);
    assert s.log[..j][m] == s.log[m];
    forall k | m < k < j ensures s.log[k].job.path != p {
      assert s.log[..j][k] == s.log[k];
    }
  }

  /** Of several writes based on the same version, one wins: a later one is accepted only
      if a write in between put the very same content back. An absent file is created once. */
  lemma SameBaseTwice(cfg: Config, links: Links, dirs: set<Path>, files: Files, steps: seq<Step>, s: State,
                      i: nat, j: nat)
    requires EditableOnly(cfg) && SoundHash(cfg.sha) && Reaches(cfg, Init(links, dirs, files), steps, s)
    requires i < j < |s.log| && s.log[i].job.path == s.log[j].job.path
    requires s.log[i].job.request.base == s.log[j].job.request.base
    ensures s.log[j].job.request.base != ""
    ensures var based := VersionAfter(files, s.log[..i], s.log[i].job.path);
      && based.Some?
      && (exists m :: i <= m < j && s.log[m].job.path == s.log[j].job.path
                     && s.log[m].job.request.content == based.value.content)
  {
    NoLostUpdate(cfg, links, dirs, files, steps, s);
    VersionReplacedOnce(cfg, links, dirs, files, steps, s, i, j);
    var m := Occurrence(s.log[..j], s.log[j].job.path);
    assert BaseNames(cfg.sha, s.log[i].job.request.base, VersionAfter(files, s.log[..i], s.log[i].job.path));
    assert s.log[m].job.path == s.log[j].job.path;
  }

  lemma {:induction false} OccurrenceNames(log: seq<Accept>, p: Path)
    requires Occurrence(log, p) >= 0
    ensures Occurrence(log, p) < |log| && log[Occurrence(log, p)].job.path == p
    ensures forall k :: Occurrence(log, p) < k < |log| ==> log[k].job.path != p
  {
    if Last(log).job.path != p {
      OccurrenceNames(Front(log), p);
      assert forall k :: 0 <= k < |log| - 1 ==> Front(log)[k] == log[k];
    }
  }

  // ---- what a caller holds ----

  /** The hash a write returns is the base for the next edit of the same path, for as long
      as no other write to it is accepted. */
  lemma ReturnedHashIsNextBase(cfg: Config, links: Links, dirs: set<Path>, files: Files, steps: seq<Step>, s: State,
                               i: nat)
    requires EditableOnly(cfg) && SoundHash(cfg.sha) && Reaches(cfg, Init(links, dirs, files), steps, s)
    requires i < |s.log| && Occurrence(s.log, s.log[i].job.path) == i
    ensures BaseNames(cfg.sha, cfg.sha(s.log[i].job.request.content), Lookup(s.files, s.log[i].job.path))
  {
    NoLostUpdate(cfg, links, dirs, files, steps, s);
    InitInv(cfg, links, dirs, files);
    EveryRunKeepsInv(cfg, files, Init(links, dirs, files), steps, s);
    assert EntryInv(cfg, files, s.log, i);
    VersionIsOccurrence(files, s.log, s.log[i].job.path);
  }

  const MAX_FILE_BYTES := 1048576

  datatype ReadReply = ReadReply(content: Bytes, sha256: string, size: nat, truncated: bool)

  /** `read_bytes` and the reply built on it; the hash is that of the bytes returned. The size
      is asked for afterwards, when the file may already be another version, `later`. */
  function ReadFile(sha: Hash, file: File, later: File): ReadReply {
    var content := if |file.content| > MAX_FILE_BYTES then file.content[..MAX_FILE_BYTES] else file.content;
    ReadReply(content, sha(content), |later.content|, |file.content| > MAX_FILE_BYTES)
  }

  /** A reader gets one whole version or, of one longer than 1 MiB, the flagged first MiB,
      never a mixture; and while the file stays as it was the hash it got passes the check
      exactly when nothing was cut. */
  lemma ReadHashAcceptedIffWhole(cfg: Config, links: Links, dirs: set<Path>, files: Files, steps: seq<Step>, s: State,
                                 p: Path, later: File)
    requires EditableOnly(cfg) && SoundHash(cfg.sha) && Reaches(cfg, Init(links, dirs, files), steps, s)
    requires !TempLike(p) && p in s.files
    ensures var reply, whole := ReadFile(cfg.sha, s.files[p], later), s.files[p].content;
      && VersionAfter(files, s.log, p) == Some(s.files[p])
      && reply.content <= whole
      && |reply.content| == (if reply.truncated then 1024 * 1024 else |whole|)
      && (reply.truncated <==> |whole| > 1024 * 1024)
      && reply.size == |later.content|
      && (BaseNames(cfg.sha, reply.sha256, Lookup(s.files, p)) <==> !reply.truncated)
  {
    NoLostUpdate(cfg, links, dirs, files, steps, s);
    var reply := ReadFile(cfg.sha, s.files[p], later);
    assert |reply.content| < |s.files[p].content| <==> reply.truncated;
  }

  // ---- under the real jail ----

  function Jail(glob: SegmentMatcher, guard: FileGuard, root: Path): (Links, string) -> Option<Path> {
    (tree, asked) => Permit(glob, guard, tree, root, asked)
  }

  lemma JailIsEditableOnly(glob: SegmentMatcher, guard: FileGuard, root: Path, sha: Hash)
    requires PlainPath(root)
    ensures EditableOnly(Config(Jail(glob, guard, root), sha))
  {
    var cfg := Config(Jail(glob, guard, root), sha);
    forall tree, asked | cfg.decide(tree, asked).Some?
      ensures IsAllowedName(NameOf(cfg.decide(tree, asked).value))
    {
      PermitIsJailed(glob, guard, tree, root, asked, cfg.decide(tree, asked).value);
    }
  }

  ghost predicate Sub(a: Links, b: Links) {
    forall p :: p in a ==> p in b && a[p] == b[p]
  }

  /** Every call resolved its path against links that the tree had at the start. */
  ghost predicate ResolvedIn(links: Links, s: State) {
    && (forall w :: w in s.writers ==> Sub(s.writers[w].job.tree, links))
    && (forall i :: 0 <= i < |s.log| ==> Sub(s.log[i].job.tree, links))
    && (forall i :: 0 <= i < |s.temps| ==> Sub(s.temps[i].job.tree, links))
  }

  lemma {:induction false} ResolvedAsFound(cfg: Config, links: Links, s: State, steps: seq<Step>, t: State)
    requires Reaches(cfg, s, steps, t) && Sub(s.links, links) && ResolvedIn(links, s)
    ensures ResolvedIn(links, t)
    decreases |steps|
  {
    if |steps| > 0 {
      StepResolvesAsFound(cfg, links, s, steps[0]);
      ResolvedAsFound(cfg, links, Apply(cfg, s, steps[0]), steps[1..], t);
    }
  }

  lemma StepResolvesAsFound(cfg: Config, links: Links, s: State, step: Step)
    requires Enabled(cfg, s, step) && Sub(s.links, links) && ResolvedIn(links, s)
    ensures Sub(Apply(cfg, s, step).links, links) && ResolvedIn(links, Apply(cfg, s, step))
  {
  }

  /** Over every run, whatever the links and even if calls replace some of them: a file whose
      bytes differ from those found is the target of a call that the jail and the guard let
      through, or its new temporary file beside that target. With the links the call saw, the
      target lies under the real root, has an editable name, and leads, when resolved once
      more, to a place that matches a write glob; if the call met no link loop, that place is
      the target itself. */
  lemma ChangesStayInJail(glob: SegmentMatcher, guard: FileGuard, root: Path, sha: Hash,
                          links: Links, dirs: set<Path>, files: Files, steps: seq<Step>, s: State, p: Path)
    returns (job: Job)
    requires PlainPath(root)
    requires Reaches(Config(Jail(glob, guard, root), sha), Init(links, dirs, files), steps, s)
    requires Lookup(s.files, p) != Lookup(files, p)
    ensures Sub(job.tree, links) && Resolve(job.tree, root, job.request.path) == Resolved(job.path)
    ensures Permitted(glob, guard, job.tree, root, job.path)
    ensures job.path == p || (p !in files && TempLike(p) && |job.path| > 0 && Front(p) == Front(job.path))
    ensures
      || (exists i :: 0 <= i < |s.log| && s.log[i].job == job && job.path == p)
      || (TempLike(p) && exists i :: 0 <= i < |s.temps| && s.temps[i] == TempMade(p, job))
    ensures !RequestMeetsLoop(job.tree, root, job.request.path) ==>
      MatchesWriteGlob(glob, guard, job.path[|Realpath(job.tree, root)|..])
  {
    var cfg := Config(Jail(glob, guard, root), sha);
    JailIsEditableOnly(glob, guard, root, sha);
    OnlyPermittedPathsChange(cfg, links, dirs, files, steps, s, p);
    ResolvedAsFound(cfg, links, Init(links, dirs, files), steps, s);
    if i :| 0 <= i < |s.log| && s.log[i].job.path == p && JobPermitted(cfg, s.log[i].job) {
      job := s.log[i].job;
    } else {
      var i :| 0 <= i < |s.temps| && s.temps[i].tmp == p && TempInv(cfg, files, s.temps[i]);
      job := s.temps[i].job;
    }
    PermitIsJailed(glob, guard, job.tree, root, job.request.path, job.path);
    if !RequestMeetsLoop(job.tree, root, job.request.path) {
      NoLoopSettles(job.tree, root, job.request.path, job.path);
    }
  }

  /** While no accepted call's request meets a link loop, the links stay as they were and a
      changed file's own components match a write glob. Which other calls keep to the globs
      is settled by PathJail.GlobIsAboutWrittenPathIff. */
  lemma ChangesMatchGlobs(glob: SegmentMatcher, guard: FileGuard, root: Path, sha: Hash,
                          links: Links, dirs: set<Path>, files: Files, steps: seq<Step>, s: State, p: Path)
    requires PlainPath(root) && !TempLike(p)
    requires Reaches(Config(Jail(glob, guard, root), sha), Init(links, dirs, files), steps, s)
    requires Lookup(s.files, p) != Lookup(files, p)
    requires forall i :: 0 <= i < |s.log| ==> !RequestMeetsLoop(links, root, s.log[i].job.request.path)
    ensures s.links == links
    ensures Realpath(links, root) <= p && IsAllowedName(NameOf(p)) && guard.writeEnabled
    ensures MatchesWriteGlob(glob, guard, p[|Realpath(links, root)|..])
  {
    var cfg := Config(Jail(glob, guard, root), sha);
    var job := ChangesStayInJail(glob, guard, root, sha, links, dirs, files, steps, s, p);
    NoLoopKeepsLinks(glob, guard, root, sha, links, Init(links, dirs, files), steps, s);
    assert JobHere(cfg, links, job) && job.path == p;
  }

  /** A call whose request meets no loop lands on no link, so it replaces none. */
  lemma {:induction false} NoLoopKeepsLinks(glob: SegmentMatcher, guard: FileGuard, root: Path, sha: Hash,
                                            links: Links, s: State, steps: seq<Step>, t: State)
    requires PlainPath(root) && Reaches(Config(Jail(glob, guard, root), sha), s, steps, t)
    requires s.links == links && ResolvedHere(Config(Jail(glob, guard, root), sha), links, s)
    requires forall i :: 0 <= i < |t.log| ==> !RequestMeetsLoop(links, root, t.log[i].job.request.path)
    ensures t.links == links && ResolvedHere(Config(Jail(glob, guard, root), sha), links, t)
    decreases |steps|
  {
    if |steps| > 0 {
      var cfg := Config(Jail(glob, guard, root), sha);
      var u := Apply(cfg, s, steps[0]);
      LogOnlyGrows(cfg, u, steps[1..], t);
      if steps[0].Replace? {
        var job := s.writers[steps[0].w].job;
        assert t.log[|s.log|] == u.log[|s.log|];
        assert JobHere(cfg, links, job);
        LandsOnNoLink(glob, guard, root, links, job.request.path, job.path);
      }
      StepStaysHere(cfg, links, s, steps[0]);
      NoLoopKeepsLinks(glob, guard, root, sha, links, u, steps[1..], t);
    }
  }

  ghost predicate JobHere(cfg: Config, links: Links, job: Job) {
    job.tree == links && cfg.decide(links, job.request.path) == Some(job.path)
  }

  ghost predicate ResolvedHere(cfg: Config, links: Links, s: State) {
    && (forall w :: w in s.writers ==> JobHere(cfg, links, s.writers[w].job))
    && (forall i :: 0 <= i < |s.log| ==> JobHere(cfg, links, s.log[i].job))
  }

  lemma StepStaysHere(cfg: Config, links: Links, s: State, step: Step)
    requires Enabled(cfg, s, step) && s.links == links && ResolvedHere(cfg, links, s)
    requires step.Replace? ==> s.writers[step.w].job.path !in links
    ensures Apply(cfg, s, step).links == links && ResolvedHere(cfg, links, Apply(cfg, s, step))
  {
  }

  lemma LandsOnNoLink(glob: SegmentMatcher, guard: FileGuard, root: Path, links: Links, asked: string, path: Path)
    requires PlainPath(root) && !RequestMeetsLoop(links, root, asked)
    requires Permit(glob, guard, links, root, asked) == Some(path)
    ensures path !in links
  {
    PermitIsJailed(glob, guard, links, root, asked, path);
    NoLoopSettles(links, root, asked, path);
    if |path| == 0 {
      TempIsNotEditable(path);
    } else {
      assert path[..|path|] == path;
    }
  }

  lemma {:induction false} LogOnlyGrows(cfg: Config, s: State, steps: seq<Step>, t: State)
    requires Reaches(cfg, s, steps, t)
    ensures s.log <= t.log
    decreases |steps|
  {
    if |steps| > 0 {
      LogOnlyGrows(cfg, Apply(cfg, s, steps[0]), steps[1..], t);
    }
  }

  // ---- one call as the code runs it, holding the lock from check to replace ----

  datatype WriteError = Denied | AlreadyExists | NoLongerExists | ChangedOnDisk | NoSuchDirectory | IoFailure

  datatype WriteReply = Written(sha256: string) | NotWritten(why: WriteError)

  /** The random part of the temporary name, and which calls to the system fail. */
  datatype Weather = Weather(random: string, writeFails: bool, replaceFails: bool, unlinkFails: bool)

  /** What the system goes along with once the base is checked. */
  predicate CanReplace(dirs: set<Path>, path: Path, weather: Weather) {
    |path| > 0 && Front(path) in dirs && path !in dirs && !weather.writeFails && !weather.replaceFails
  }

  lemma {:induction false} Extend(cfg: Config, s: State, steps: seq<Step>, t: State, step: Step)
    requires Reaches(cfg, s, steps, t) && Enabled(cfg, t, step)
    ensures Reaches(cfg, s, steps + [step], Apply(cfg, t, step))
    decreases |steps|
  {
    if |steps| == 0 {
      assert (steps + [step])[1..] == [];
    } else {
      assert (steps + [step])[1..] == steps[1..] + [step];
      Extend(cfg, Apply(cfg, s, steps[0]), steps[1..], t, step);
    }
  }

  /** The tree as one process changes it. Beside it runs the protocol above: `now` is where
      `steps` have led from `start`, and every change to the tree is one step of it. */
  class WorkingTree {
    const cfg: Config
    const dirs: set<Path>
    var links: Links
    var files: Files
    ghost var start: State
    ghost var steps: seq<Step>
    ghost var now: State

    ghost predicate OnCourse()
      reads this
    {
      Reaches(cfg, start, steps, now) && start == Init(start.links, dirs, start.files) && now.dirs == dirs
    }

    /** The tree is what the steps so far have made of it. */
    ghost predicate Mirrors()
      reads this
    {
      OnCourse() && now.links == links && now.files == files
    }

    /** ... and no call is under way. */
    ghost predicate Valid()
      reads this
    {
      Mirrors() && now.writers == map[] && now.lock == None
    }

    /** One call is under way and stands at `pc`. */
    ghost predicate InCall(job: Job, pc: Pc)
      reads this
    {
      now.writers == map[0 := Writer(job, pc)] && now.lock == Some(0)
    }

    constructor (cfg: Config, links: Links, dirs: set<Path>, files: Files)
      ensures this.cfg == cfg && this.links == links && this.dirs == dirs && this.files == files
      ensures Valid() && start == now == Init(links, dirs, files)
    {
      this.cfg, this.links, this.dirs, this.files := cfg, links, dirs, files;
      start, steps, now := Init(links, dirs, files), [], Init(links, dirs, files);
    }

    ghost method Take(step: Step)
      requires OnCourse() && Enabled(cfg, now, step)
      modifies this`steps, this`now
      ensures OnCourse() && old(steps) <= steps && now == Apply(cfg, old(now), step)
    {
      Extend(cfg, start, steps, now, step);
      steps, now := steps + [step], Apply(cfg, now, step);
    }

    ghost method TakeOpenTemp(job: Job, random: string)
      requires OnCourse() && InCall(job, BaseChecked)
      requires |job.path| > 0 && Front(job.path) in dirs
      requires var tmp := TempPath(job.path, random); tmp !in now.files && tmp !in dirs && tmp !in now.links
      modifies this`steps, this`now
      ensures var tmp := TempPath(job.path, random);
        && OnCourse() && old(steps) <= steps
        && InCall(job, Writing(tmp, ModeFor(Lookup(old(now).files, job.path)), 0))
        && now.files == old(now).files[tmp := File([], PRIVATE_MODE)]
        && now.links == old(now).links && now.log == old(now).log
    {
      Take(OpenTemp(0, random));
    }

    ghost method TakeContent(job: Job, tmp: Path, mode: nat)
      requires OnCourse() && InCall(job, Writing(tmp, mode, 0)) && tmp in now.files
      requires now.files[tmp] == File([], PRIVATE_MODE)
      modifies this`steps, this`now
      ensures OnCourse() && old(steps) <= steps && InCall(job, Ready(tmp))
      ensures now.files == old(now).files[tmp := File(job.request.content, mode)]
      ensures now.links == old(now).links && now.log == old(now).log
    {
      var content := job.request.content;
      if |content| > 0 {
        assert content[..|content|] == content;
        Take(WriteMore(0, |content|));
      }
      Take(Seal(0));
    }

    ghost method TakeReplace(job: Job, tmp: Path)
      requires OnCourse() && InCall(job, Ready(tmp)) && tmp in now.files && job.path !in dirs
      modifies this`steps, this`now
      ensures OnCourse() && old(steps) <= steps && InCall(job, Replaced)
      ensures now.files == (old(now).files - {tmp})[job.path := old(now).files[tmp]]
      ensures now.links == old(now).links - {job.path}
      ensures now.log == old(now).log + [Accept(job, old(now).files[tmp])]
    {
      Take(Replace(0));
    }

    ghost method TakeFail(job: Job, pc: Pc, leaveTemp: bool)
      requires OnCourse() && InCall(job, pc) && !pc.AwaitingLock? && !pc.Replaced?
      modifies this`steps, this`now
      ensures OnCourse() && old(steps) <= steps && now.writers == map[] && now.lock == None
      ensures now.files == old(now).files - if !leaveTemp && (pc.Writing? || pc.Ready?) then {pc.tmp} else {}
      ensures now.links == old(now).links && now.log == old(now).log
    {
      Take(Fail(0, leaveTemp));
    }

    /** From idle to the base check and its answer. */
    ghost method TakeCheck(request: WriteRequest)
      requires OnCourse() && now.writers == map[] && now.lock == None
      requires cfg.decide(now.links, request.path).Some?
      modifies this`steps, this`now
      ensures OnCourse() && old(steps) <= steps
      ensures now.files == old(now).files && now.links == old(now).links && now.log == old(now).log
      ensures var path := cfg.decide(old(now).links, request.path).value;
        if BaseNames(cfg.sha, request.base, Lookup(old(now).files, path))
        then InCall(Job(old(now).links, request, path), BaseChecked)
        else now.writers == map[] && now.lock == None
    {
      Take(Submit(0, request));
      Take(Acquire(0));
      Take(CheckBase(0));
    }

    /** `mkstemp` only returns names that nothing else has. */
    predicate NameIsFree(path: Path, random: string)
      reads this
    {
      |path| > 0 ==> var tmp := TempPath(path, random); tmp !in files && tmp !in dirs && tmp !in links
    }

    method CheckBaseSha(path: Path, base: string) returns (error: Option<WriteError>)
      ensures error == None <==> BaseNames(cfg.sha, base, Lookup(files, path))
      ensures error.Some? ==> error.value in {AlreadyExists, NoLongerExists, ChangedOnDisk}
      ensures error == Some(AlreadyExists) <==> base == "" && path in files
      ensures error == Some(NoLongerExists) <==> base != "" && path !in files
      ensures error == Some(ChangedOnDisk) <==> base != "" && path in files && cfg.sha(files[path].content) != base
    {
      var present := path in files;
      if base == "" {
        return if present then Some(AlreadyExists) else None;
      }
      if !present {
        return Some(NoLongerExists);
      }
      if cfg.sha(files[path].content) != base {
        return Some(ChangedOnDisk);
      }
      return None;
    }

    /** Either the path changes from the one version to the other and nothing else does,
        or the path keeps its version and at most the temporary file is left behind. */
    method AtomicWrite(path: Path, content: Bytes, weather: Weather, ghost job: Job)
      returns (error: Option<WriteError>)
      requires |path| > 0 && NameIsFree(path, weather.random)
      requires Mirrors() && InCall(job, BaseChecked) && job.path == path && job.request.content == content
      modifies this`links, this`files, this`steps, this`now
      ensures Mirrors() && old(steps) <= steps
      ensures error == None <==> CanReplace(dirs, path, weather)
      ensures error == Some(NoSuchDirectory) <==> Front(path) !in dirs
      ensures error in {None, Some(NoSuchDirectory), Some(IoFailure)}
      ensures error == None ==>
        && files == old(files)[path := File(content, ModeFor(Lookup(old(files), path)))]
        && KeepsMode(files[path].mode, Lookup(old(files), path))
        && links == old(links) - {path}
        && InCall(job, Replaced) && now.log == old(now).log + [Accept(job, files[path])]
      ensures error != None ==>
        && files - {TempPath(path, weather.random)} == old(files) && links == old(links)
        && (!weather.unlinkFails ==> files == old(files))
        && now.writers == map[] && now.lock == None && now.log == old(now).log
    {
      if Front(path) !in dirs {
        TakeFail(job, BaseChecked, false);
        return Some(NoSuchDirectory);
      }
      ModeForKeeps(Lookup(files, path));
      var tmp, mode := MakeTemp(path, weather.random, job);
      var ok, pc := FillAndReplace(path, tmp, content, mode, weather, job);
      if ok {
        return None;
      }
      CleanUp(tmp, weather, job, pc);
      return Some(IoFailure);
    }

    /** What is done about the temporary file when anything fails. */
    method CleanUp(tmp: Path, weather: Weather, ghost job: Job, ghost pc: Pc)
      requires Mirrors() && InCall(job, pc) && (pc.Writing? || pc.Ready?) && pc.tmp == tmp
      modifies this`files, this`steps, this`now
      ensures Mirrors() && old(steps) <= steps && now.writers == map[] && now.lock == None
      ensures files == if weather.unlinkFails then old(files) else old(files) - {tmp}
      ensures now.log == old(now).log
    {
      if !weather.unlinkFails {
        files := files - {tmp};
      }
      TakeFail(job, pc, weather.unlinkFails);
    }

    /** `mkstemp` beside the target, whose permission bits are noted. */
    method MakeTemp(path: Path, random: string, ghost job: Job) returns (tmp: Path, mode: nat)
      requires |path| > 0 && Front(path) in dirs && NameIsFree(path, random)
      requires Mirrors() && InCall(job, BaseChecked) && job.path == path
      modifies this`files, this`steps, this`now
      ensures Mirrors() && old(steps) <= steps && InCall(job, Writing(tmp, mode, 0)) && now.log == old(now).log
      ensures tmp == TempPath(path, random) != path && mode == ModeFor(Lookup(old(files), path))
      ensures files == old(files)[tmp := File([], PRIVATE_MODE)] && files - {tmp} == old(files)
    {
      mode := if path in files then PermissionBits(files[path].mode) else DEFAULT_MODE;
      tmp := TempPath(path, random);
      TempDiffers(path, random);
      TempComesAndGoes(files, tmp, File([], PRIVATE_MODE));
      files := files[tmp := File([], PRIVATE_MODE)];
      TakeOpenTemp(job, random);
    }

    /** What is done between making the temporary file and, should it fail, removing it. */
    method FillAndReplace(path: Path, tmp: Path, content: Bytes, mode: nat, weather: Weather, ghost job: Job)
      returns (ok: bool, ghost pc: Pc)
      requires Mirrors() && InCall(job, Writing(tmp, mode, 0)) && tmp in files && tmp != path
      requires job.path == path && job.request.content == content && files[tmp] == File([], PRIVATE_MODE)
      modifies this`links, this`files, this`steps, this`now
      ensures Mirrors() && old(steps) <= steps
      ensures ok <==> !weather.writeFails && !weather.replaceFails && path !in dirs
      ensures ok ==>
        && files == (old(files) - {tmp})[path := File(content, mode)] && links == old(links) - {path}
        && InCall(job, Replaced) && now.log == old(now).log + [Accept(job, files[path])]
      ensures !ok ==>
        && files - {tmp} == old(files) - {tmp} && links == old(links) && now.log == old(now).log
        && InCall(job, pc) && (pc.Writing? || pc.Ready?) && pc.tmp == tmp
    {
      pc := Writing(tmp, mode, 0);
      if weather.writeFails {
        return false, pc;
      }
      TempRewritten(files, tmp, File(content, PRIVATE_MODE), File(content, mode));
      files := files[tmp := File(content, PRIVATE_MODE)];
      files := files[tmp := files[tmp].(mode := mode)];
      TakeContent(job, tmp, mode);
      pc := Ready(tmp);
      if weather.replaceFails || path in dirs {
        return false, pc;
      }
      files := (files - {tmp})[path := files[tmp]];
      links := links - {path};
      TakeReplace(job, tmp);
      return true, pc;
    }

    /** Written exactly when the jail and the guard let the path through, the base names
        what is there, and the system goes along; and then the hash is that of the content.
        Whatever happens, the call is some steps of the protocol. */
    method HandleWriteFile(request: WriteRequest, weather: Weather) returns (reply: WriteReply)
      requires Valid() && EditableOnly(cfg)
      requires cfg.decide(links, request.path).Some? ==>
        NameIsFree(cfg.decide(links, request.path).value, weather.random)
      modifies this
      ensures Valid() && start == old(start) && old(steps) <= steps
      ensures reply == NotWritten(Denied) <==> cfg.decide(old(links), request.path).None?
      ensures cfg.decide(old(links), request.path).Some? ==>
        var path := cfg.decide(old(links), request.path).value; var before := Lookup(old(files), path);
        var current, possible := BaseNames(cfg.sha, request.base, before), CanReplace(dirs, path, weather);
        && (reply.Written? <==> current && possible)
        && (reply == NotWritten(AlreadyExists) <==> before.Some? && request.base == "")
        && (reply == NotWritten(NoLongerExists) <==> before.None? && request.base != "")
        && (reply == NotWritten(ChangedOnDisk) <==>
              before.Some? && request.base != "" && cfg.sha(before.value.content) != request.base)
        && (reply == NotWritten(NoSuchDirectory) <==> current && Front(path) !in dirs)
        && (reply == NotWritten(IoFailure) <==> current && !possible && Front(path) in dirs)
        && (reply.Written? ==>
              && reply.sha256 == cfg.sha(request.content)
              && files == old(files)[path := File(request.content, ModeFor(before))]
              && KeepsMode(files[path].mode, before)
              && now.log == old(now).log + [Accept(Job(old(links), request, path), files[path])])
      ensures reply.NotWritten? ==>
        now.log == old(now).log && forall p :: !TempLike(p) ==> Lookup(files, p) == Lookup(old(files), p)
    {
      var decided := cfg.decide(links, request.path);
      if decided.None? {
        return NotWritten(Denied);
      }
      var path := decided.value;
      if |path| == 0 {
        TempIsNotEditable(path);
      }
      ghost var job := Job(links, request, path);
      TakeCheck(request);
      var error := CheckBaseSha(path, request.base);
      if error.Some? {
        return NotWritten(error.value);
      }
      error := AtomicWrite(path, request.content, weather, job);
      if error.Some? {
        TempIsTempLike(path, weather.random);
        KeptBesideTemp(files, old(files), TempPath(path, weather.random));
        return NotWritten(error.value);
      }
      Take(Release(0));
      return Written(cfg.sha(request.content));
    }
  }

  lemma TempComesAndGoes(files: Files, tmp: Path, made: File)
    requires tmp !in files
    ensures files[tmp := made] - {tmp} == files == files - {tmp}
  {
  }

  lemma TempRewritten(files: Files, tmp: Path, first: File, second: File)
    ensures files[tmp := first][tmp := second] == files[tmp := second]
    ensures files[tmp := second] - {tmp} == files - {tmp}
  {
  }

  lemma TempDiffers(path: Path, random: string)
    requires |path| > 0
    ensures TempPath(path, random) != path
  {
    assert |Last(TempPath(path, random))| > |Last(path)|;
  }

  lemma KeptBesideTemp(a: Files, b: Files, tmp: Path)
    requires a - {tmp} == b && TempLike(tmp)
    ensures forall p :: !TempLike(p) ==> Lookup(a, p) == Lookup(b, p)
  {
    forall p | !TempLike(p) ensures Lookup(a, p) == Lookup(b, p) {
      assert p in a <==> p in a - {tmp};
    }
  }
}
