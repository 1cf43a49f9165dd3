/**
 ADR number allocation as a protocol between threads and Core processes.

 Each call of the allocator scans the ADR directory without any lock, takes its process's thread lock,
 then the ledger's file lock, reads the ledger, computes a start number, raises the process memory,
 stores the ledger and returns.  Every one of these is one step of the machine; steps of different calls
 interleave freely.  People approve the returned proposals at any later time.
 */
module AdrLedger {
  import opened Wrappers

  type Workspace = string
  type Tid = nat
  /** One life of one Core process; a restarted Core is a new `Pid`. */
  type Pid = nat

  /** A ledger value: something `int(...)` accepts, or something it rejects. */
  datatype Entry = Number(n: int) | Junk

  datatype Disk = Missing | Corrupt | Dict(entries: map<Workspace, Entry>)

  /** What a call works with after its read: the dictionary it will write back, and the reserved number. */
  datatype View = View(data: map<Workspace, Entry>, reserved: nat)

  datatype Phase =
    | Waiting
    | Scanned
    | InProcess
    | Locked(file: bool)
    | Loaded(file: bool, view: View)
    | Numbered(file: bool, view: View, start: nat)
    | Raised(file: bool, data: map<Workspace, Entry>, start: nat)
    | Stored(file: bool, start: nat)

  datatype Call = Call(pid: Pid, key: Workspace, count: nat, seen: set<nat>, phase: Phase)

  datatype Grant = Grant(pid: Pid, key: Workspace, start: nat, count: nat, seen: set<nat>)
  {
    function End(): int { start + count - 1 }
    predicate Covers(n: nat) { start <= n < start + count }
  }

  datatype Author = External | By(grant: nat)

  datatype World = World(
    files: map<(Workspace, nat), Author>,
    disk: Disk,
    fileLock: Option<Tid>,
    threadLock: map<Pid, Tid>,
    memory: map<(Pid, Workspace), nat>,
    calls: map<Tid, Call>,
    granted: seq<Grant>,
    dead: set<Pid>)

  datatype Label =
    | Begin(t: Tid, p: Pid, key: Workspace, count: nat)
    | Scan(t: Tid)
    | LockThread(t: Tid)
    | LockFile(t: Tid, ok: bool)
    | Load(t: Tid, ok: bool)
    | Compute(t: Tid)
    | Raise(t: Tid)
    | Store(t: Tid, ok: bool)
    | Return(t: Tid)
    | Approve(grant: nat, number: nat)
    | AddFile(key: Workspace, number: nat)
    | Crash(p: Pid)
    | Tamper(disk: Disk)

  // ---------------------------------------------------------------------------------------------
  // The code's own computations
  // ---------------------------------------------------------------------------------------------

  function Max(a: int, b: int): int {
    if a < b then b else a
  }

  /** The largest number in a directory listing, 0 when there is none. */
  ghost function ScannedMax(seen: set<nat>): (m: nat)
    ensures m == 0 || m in seen
    ensures forall n :: n in seen ==> n <= m
  {
    if seen == {} then 0
    else
      var n :| n in seen;
      var rest := ScannedMax(seen - {n});
      assert forall x :: x in seen ==> x == n || x in seen - {n};
      if n < rest then rest else n
  }

  function ReadLedger(disk: Disk, ok: bool): map<Workspace, Entry> {
    if ok && disk.Dict? then disk.entries else map[]
  }

  /** A value `int(...)` rejects empties the whole dictionary, not only this workspace's entry. */
  function ViewOf(data: map<Workspace, Entry>, key: Workspace): View {
    if key !in data then View(data, 0)
    else if data[key].Junk? then View(map[], 0)
    else View(data, Max(0, data[key].n))
  }

  function NextStart(scanned: nat, reserved: nat, memory: nat): (start: nat)
    ensures start > scanned && start > reserved && start > memory
    ensures start - 1 in {scanned, reserved, memory}
  {
    Max(scanned, Max(reserved, memory)) + 1
  }

  function Memory(w: World, p: Pid, key: Workspace): nat {
    if (p, key) in w.memory then w.memory[(p, key)] else 0
  }

  // ---------------------------------------------------------------------------------------------
  // Steps
  // ---------------------------------------------------------------------------------------------

  ghost predicate Enabled(w: World, l: Label) {
    match l
    case Begin(t, p, _, count) => t !in w.calls && p !in w.dead && count >= 1
    case Scan(t) => t in w.calls && w.calls[t].phase.Waiting?
    case LockThread(t) => t in w.calls && w.calls[t].phase.Scanned? && w.calls[t].pid !in w.threadLock
    case LockFile(t, ok) => t in w.calls && w.calls[t].phase.InProcess? && (ok ==> w.fileLock.None?)
    case Load(t, _) => t in w.calls && w.calls[t].phase.Locked?
    case Compute(t) => t in w.calls && w.calls[t].phase.Loaded?
    case Raise(t) => t in w.calls && w.calls[t].phase.Numbered?
    case Store(t, _) => t in w.calls && w.calls[t].phase.Raised?
    case Return(t) => t in w.calls && w.calls[t].phase.Stored?
    case Approve(g, n) => g < |w.granted| && w.granted[g].Covers(n)
    case AddFile(_, _) => true
    case Crash(p) => p !in w.dead
    case Tamper(_) => true
  }

  ghost function Apply(w: World, l: Label): World
    requires Enabled(w, l)
  {
    match l
    case Begin(t, p, key, count) => w.(calls := w.calls[t := Call(p, key, count, {}, Waiting)])
    case Scan(t) =>
      var c := w.calls[t];
      var seen := set f | f in w.files.Keys && f.0 == c.key :: f.1;
      w.(calls := w.calls[t := c.(seen := seen, phase := Scanned)])
    case LockThread(t) =>
      Move(w, t, InProcess).(threadLock := w.threadLock[w.calls[t].pid := t])
    case LockFile(t, ok) =>
      Move(w, t, Locked(ok)).(fileLock := if ok then Some(t) else w.fileLock)
    case Load(t, ok) =>
      var c := w.calls[t];
      Move(w, t, Loaded(c.phase.file, ViewOf(ReadLedger(w.disk, ok), c.key)))
    case Compute(t) =>
      var c := w.calls[t];
      var start := NextStart(ScannedMax(c.seen), c.phase.view.reserved, Memory(w, c.pid, c.key));
      Move(w, t, Numbered(c.phase.file, c.phase.view, start))
    case Raise(t) =>
      var c := w.calls[t];
      var high := Max(0, c.phase.start + c.count - 1);
      Move(w, t, Raised(c.phase.file, c.phase.view.data[c.key := Number(high)], c.phase.start))
        .(memory := w.memory[(c.pid, c.key) := high])
    case Store(t, ok) =>
      var c := w.calls[t];
      Move(w, t, Stored(c.phase.file, c.phase.start))
        .(disk := if ok then Dict(c.phase.data) else w.disk)
    case Return(t) =>
      var c := w.calls[t];
      w.(calls := w.calls - {t},
         fileLock := if c.phase.file then None else w.fileLock,
         threadLock := w.threadLock - {c.pid},
         granted := w.granted + [Grant(c.pid, c.key, c.phase.start, c.count, c.seen)])
    case Approve(g, n) => w.(files := w.files[(w.granted[g].key, n) := By(g)])
    case AddFile(key, n) => w.(files := w.files[(key, n) := External])
    case Crash(p) =>
      w.(dead := w.dead + {p},
         threadLock := w.threadLock - {p},
         fileLock := if w.fileLock.Some? && w.fileLock.value in w.calls && w.calls[w.fileLock.value].pid == p
                     then None else w.fileLock,
         calls := map t | t in w.calls && w.calls[t].pid != p :: w.calls[t])
    case Tamper(disk) => w.(disk := disk)
  }

  ghost function Move(w: World, t: Tid, phase: Phase): World
    requires t in w.calls
  {
    w.(calls := w.calls[t := w.calls[t].(phase := phase)])
  }

  /** The call a step belongs to; the other steps belong to no call. */
  function Actor(l: Label): Option<Tid> {
    match l
    case Approve(_, _) => None
    case AddFile(_, _) => None
    case Crash(_) => None
    case Tamper(_) => None
    case _ => Some(l.t)
  }

  lemma OthersKeepTheirPhase(w: World, l: Label, t: Tid)
    requires Enabled(w, l) && t in Apply(w, l).calls && Actor(l) != Some(t)
    ensures t in w.calls && Apply(w, l).calls[t] == w.calls[t]
  {
  }

  ghost predicate Init(w: World) {
    && w.fileLock.None? && w.threadLock == map[] && w.memory == map[] && w.calls == map[]
    && w.granted == [] && (forall f :: f in w.files ==> w.files[f] == External)
  }

  /** `w'` is reached from `w` by the steps `ls`, in order. */
  ghost predicate Run(w: World, ls: seq<Label>, w': World)
    decreases |ls|
  {
    if ls == [] then w == w'
    else Enabled(w, ls[0]) && Run(Apply(w, ls[0]), ls[1..], w')
  }

  lemma RunCons(w: World, l: Label, ls: seq<Label>, w': World)
    requires Enabled(w, l) && Run(Apply(w, l), ls, w')
    ensures Run(w, [l] + ls, w')
  {
    assert ([l] + ls)[1..] == ls;
  }

  lemma RunFour(w: World, a: Label, b: Label, c: Label, d: Label, w1: World, w2: World, w3: World, w4: World)
    requires Enabled(w, a) && Apply(w, a) == w1 && Enabled(w1, b) && Apply(w1, b) == w2
    requires Enabled(w2, c) && Apply(w2, c) == w3 && Enabled(w3, d) && Apply(w3, d) == w4
    ensures Run(w, [a, b, c, d], w4)
  {
    RunCons(w3, d, [], w4);
    RunCons(w2, c, [d], w4);
    RunCons(w1, b, [c, d], w4);
    RunCons(w, a, [b, c, d], w4);
    assert [d] + [] == [d] && [c] + [d] == [c, d] && [b] + [c, d] == [b, c, d] && [a] + [b, c, d] == [a, b, c, d];
  }
}
