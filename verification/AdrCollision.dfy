/** What a missing file lock, a failed read, a failed store and a ledger entry that is no number can do, exactly. */
module AdrCollision {
  import opened Wrappers
  import opened AdrLedger
  import opened AdrShared
  import opened AdrOps

  /** Two Cores, 1 and 2, run in step; neither gets the file lock. */
  function Lockstep(stage: nat, t: Tid, key: Workspace): Label
    requires t < 2
  {
    match stage
    case 0 => Begin(t, t + 1, key, 1)
    case 1 => Scan(t)
    case 2 => LockThread(t)
    case 3 => LockFile(t, false)
    case 4 => Load(t, true)
    case 5 => Compute(t)
    case 6 => Raise(t)
    case 7 => Store(t, true)
    case _ => Return(t)
  }

  function LockstepLabels(stage: nat, key: Workspace): seq<Label>
    requires stage <= 9
    decreases 9 - stage
  {
    if stage == 9 then [] else [Lockstep(stage, 0, key), Lockstep(stage, 1, key)] + LockstepLabels(stage + 1, key)
  }

  function LockstepPhase(stage: nat, key: Workspace): Phase {
    match stage
    case 1 => Waiting
    case 2 => Scanned
    case 3 => InProcess
    case 4 => Locked(false)
    case 5 => Loaded(false, View(map[], 0))
    case 6 => Numbered(false, View(map[], 0), 1)
    case 7 => Raised(false, map[key := Number(1)], 1)
    case _ => Stored(false, 1)
  }

  function LockstepWorld(stage: nat, key: Workspace): World {
    var ph := LockstepPhase(stage, key);
    World(
      map[],
      if stage < 8 then Missing else Dict(map[key := Number(1)]),
      None,
      if 3 <= stage < 9 then map[1 := 0, 2 := 1] else map[],
      if stage < 7 then map[] else map[(1, key) := 1, (2, key) := 1],
      if stage == 0 || stage >= 9 then map[] else map[0 := Call(1, key, 1, {}, ph), 1 := Call(2, key, 1, {}, ph)],
      if stage < 9 then [] else [Grant(1, key, 1, 1, {}), Grant(2, key, 1, 1, {})],
      {})
  }

  ghost predicate Advances(stage: nat, key: Workspace) {
    var w, l, m := LockstepWorld(stage, key), Lockstep(stage, 0, key), Lockstep(stage, 1, key);
    Enabled(w, l) && Enabled(Apply(w, l), m) && Apply(Apply(w, l), m) == LockstepWorld(stage + 1, key)
  }

  lemma LockstepBegins(stage: nat, key: Workspace)
    requires stage < 5
    ensures Advances(stage, key)
  {
    var w, l, m := LockstepWorld(stage, key), Lockstep(stage, 0, key), Lockstep(stage, 1, key);
    var w', next := Apply(Apply(w, l), m), LockstepWorld(stage + 1, key);
    if stage == 1 {
      assert w'.calls[0].seen == {} && w'.calls[1].seen == {};
    }
    assert w'.calls == next.calls;
    assert w'.threadLock == next.threadLock;
  }

  lemma LockstepNumbers(stage: nat, key: Workspace)
    requires 5 <= stage < 7
    ensures Advances(stage, key)
  {
  }

  lemma LockstepEnds(stage: nat, key: Workspace)
    requires 7 <= stage < 9
    ensures Advances(stage, key)
  {
  }

  lemma {:induction false} LockstepRun(stage: nat, key: Workspace)
    requires stage <= 9
    ensures Run(LockstepWorld(stage, key), LockstepLabels(stage, key), LockstepWorld(9, key))
    decreases 9 - stage
  {
    if stage < 9 {
      if stage < 5 {
        LockstepBegins(stage, key);
      } else if stage < 7 {
        LockstepNumbers(stage, key);
      } else {
        LockstepEnds(stage, key);
      }
      LockstepRun(stage + 1, key);
      var w, l, m := LockstepWorld(stage, key), Lockstep(stage, 0, key), Lockstep(stage, 1, key);
      var rest := LockstepLabels(stage + 1, key);
      RunCons(Apply(w, l), m, rest, LockstepWorld(9, key));
      RunCons(w, l, [m] + rest, LockstepWorld(9, key));
      assert [l] + ([m] + rest) == LockstepLabels(stage, key);
    }
  }

  /** When the file lock cannot be had, two Cores can be given the same number. */
  lemma UnlockedCoresCollide(key: Workspace) returns (w: World, ls: seq<Label>, w': World)
    ensures Init(w) && Readable(w.disk) && Run(w, ls, w')
    ensures w'.granted == [Grant(1, key, 1, 1, {}), Grant(2, key, 1, 1, {})]
  {
    w, ls, w' := LockstepWorld(0, key), LockstepLabels(0, key), LockstepWorld(9, key);
    LockstepRun(0, key);
  }

  // ---------------------------------------------------------------------------------------------
  // An entry that is no number
  // ---------------------------------------------------------------------------------------------

  /** The entries of the other workspaces are in the new dictionary as they were. */
  predicate KeepsOthers(was: map<Workspace, Entry>, now: map<Workspace, Entry>, key: Workspace) {
    forall k :: k in was && k != key ==> k in now && now[k] == was[k]
  }

  /** Nothing is under way, and the ledger is a dictionary. */
  ghost predicate Idle(w: World) {
    w.calls == map[] && w.threadLock == map[] && w.fileLock.None? && w.disk.Dict?
  }

  /** A whole call, from its beginning to its return, with its faults. */
  function CallWith(t: Tid, p: Pid, key: Workspace, count: nat, readOk: bool, storeOk: bool): seq<Label> {
    [Begin(t, p, key, count)] + (LoadSteps(t, true, readOk) + StoreSteps(t, storeOk))
  }

  function WholeCall(t: Tid, p: Pid, key: Workspace): seq<Label> {
    CallWith(t, p, key, 1, true, true)
  }

  lemma NoFault(t: Tid, p: Pid, key: Workspace)
    ensures AllClean(WholeCall(t, p, key))
  {
  }

  lemma CallWithFaults(w: World, t: Tid, p: Pid, key: Workspace, count: nat, readOk: bool, storeOk: bool) returns (w': World)
    requires Idle(w) && p !in w.dead && count >= 1
    ensures Run(w, CallWith(t, p, key, count, readOk, storeOk), w') && Idle(w')
    ensures Allocated(w, t, Call(p, key, count, {}, Waiting), readOk, storeOk, w')
  {
    var c := Call(p, key, count, {}, Waiting);
    var w1 := Apply(w, Begin(t, p, key, count));
    w' := UninterruptedCall(w1, t, c, true, readOk, storeOk);
    RunCons(w, Begin(t, p, key, count), LoadSteps(t, true, readOk) + StoreSteps(t, storeOk), w');
    assert Listed(w1, key) == Listed(w, key) && w1.calls - {t} == w.calls;
  }

  lemma CallFromIdle(w: World, t: Tid, p: Pid, key: Workspace) returns (w': World)
    requires Idle(w) && p !in w.dead
    ensures Run(w, WholeCall(t, p, key), w') && AllClean(WholeCall(t, p, key)) && Idle(w')
    ensures Allocated(w, t, Call(p, key, 1, {}, Waiting), true, true, w')
  {
    NoFault(t, p, key);
    w' := CallWithFaults(w, t, p, key, 1, true, true);
  }

  /**
   A call without faults keeps the recorded numbers of all other workspaces if and only if its own entry is absent or
   a number, or there is no other entry.
   */
  lemma OthersKeptExactly(w: World, t: Tid, p: Pid, key: Workspace) returns (w': World)
    requires Idle(w) && p !in w.dead
    ensures Run(w, WholeCall(t, p, key), w') && Idle(w')
    ensures var was := w.disk.entries;
            KeepsOthers(was, w'.disk.entries, key) <==> key !in was || was[key].Number? || was.Keys == {key}
  {
    w' := CallFromIdle(w, t, p, key);
    var was := w.disk.entries;
    if key in was && was[key].Junk? && was.Keys != {key} {
      var k :| k in was && k != key;
      assert k !in w'.disk.entries;
    }
  }

  function Ledger(a: Workspace): World {
    World(map[], Dict(map[a := Junk]), None, map[], map[], map[], [], {})
  }

  /**
   One entry that is no number: process 1 reserves number 1 for workspace b, then a number for workspace a, which
   empties the dictionary; process 2 is granted number 1 for b again.  No step of the run has a fault.
   */
  lemma JunkEntryForgets(a: Workspace, b: Workspace) returns (ls: seq<Label>, w': World)
    requires a != b
    ensures Init(Ledger(a)) && AllClean(ls) && Run(Ledger(a), ls, w')
    ensures w'.granted == [Grant(1, b, 1, 1, {}), Grant(1, a, 1, 1, {}), Grant(2, b, 1, 1, {})]
  {
    var w := Ledger(a);
    var w1 := CallFromIdle(w, 0, 1, b);
    NothingListed(w, b);
    assert w1.disk == Dict(map[a := Junk, b := Number(1)]);
    var w2 := CallFromIdle(w1, 0, 1, a);
    NothingListed(w1, a);
    assert w2.disk == Dict(map[a := Number(1)]);
    w' := CallFromIdle(w2, 0, 2, b);
    NothingListed(w2, b);
    ls := WholeCall(0, 1, b) + WholeCall(0, 1, a) + WholeCall(0, 2, b);
    RunAppend(w, WholeCall(0, 1, b), w1, WholeCall(0, 1, a), w2);
    RunAppend(w, WholeCall(0, 1, b) + WholeCall(0, 1, a), w2, WholeCall(0, 2, b), w');
  }

  lemma NothingListed(w: World, key: Workspace)
    requires w.files == map[]
    ensures Listed(w, key) == {}
  {
  }

  // ---------------------------------------------------------------------------------------------
  // A failed read
  // ---------------------------------------------------------------------------------------------

  /** The largest number a call can know of: from the directory, from the ledger and from its process's memory. */
  ghost function Known(w: World, p: Pid, key: Workspace): nat
    requires Readable(w.disk)
  {
    Max(ScannedMax(Listed(w, key)), Max(OnDisk(w.disk, key), Memory(w, p, key)))
  }

  /**
   A call that can not read the ledger keeps the recorded numbers of other workspaces if and only if there are none,
   and goes above the recorded number of its own if and only if the directory or its memory shows as much.
   */
  lemma FailedReadExactly(w: World, t: Tid, p: Pid, key: Workspace, count: nat) returns (w': World)
    requires Idle(w) && Readable(w.disk) && p !in w.dead && count >= 1
    ensures Run(w, CallWith(t, p, key, count, false, true), w') && Idle(w') && |w'.granted| == |w.granted| + 1
    ensures KeepsOthers(w.disk.entries, w'.disk.entries, key) <==> w.disk.entries.Keys <= {key}
    ensures w'.granted[|w.granted|].start > OnDisk(w.disk, key)
            <==> OnDisk(w.disk, key) <= Max(ScannedMax(Listed(w, key)), Memory(w, p, key))
  {
    w' := CallWithFaults(w, t, p, key, count, false, true);
    if !(w.disk.entries.Keys <= {key}) {
      var k :| k in w.disk.entries && k != key;
      assert k !in w'.disk.entries;
    }
  }

  // ---------------------------------------------------------------------------------------------
  // A failed store, and a missing lock
  // ---------------------------------------------------------------------------------------------

  /** Some number of this workspace is in both grants. */
  ghost predicate ShareNumber(a: Grant, b: Grant) {
    a.key == b.key && exists n: nat :: a.Covers(n) && b.Covers(n)
  }

  /** Two ranges that start above what their processes know of have a number in common. */
  predicate Meet(knownA: nat, countA: nat, knownB: nat, countB: nat) {
    knownA < knownB + countB && knownB < knownA + countA
  }

  lemma MeetExactly(a: Grant, b: Grant, knownA: nat, knownB: nat)
    requires a.key == b.key && a.start == knownA + 1 && b.start == knownB + 1 && a.count >= 1 && b.count >= 1
    ensures ShareNumber(a, b) <==> Meet(knownA, a.count, knownB, b.count)
  {
    if Meet(knownA, a.count, knownB, b.count) {
      var n: nat := Max(a.start, b.start);
      assert a.Covers(n) && b.Covers(n);
    }
  }

  lemma ReadableView(disk: Disk, key: Workspace)
    requires disk.Dict? && Readable(disk)
    ensures ViewOf(ReadLedger(disk, true), key) == View(disk.entries, OnDisk(disk, key))
  {
  }

  /**
   After a call whose store failed, the next call of another process for the workspace is given one of its numbers
   again if and only if the one that knows less asks for more numbers than the other is ahead: always, if neither
   remembers more than directory and ledger show.
   */
  lemma FailedStoreExactly(w: World, p: Pid, n: nat, q: Pid, m: nat, key: Workspace) returns (w': World)
    requires Idle(w) && Readable(w.disk) && p != q && p !in w.dead && q !in w.dead && n >= 1 && m >= 1
    ensures Run(w, CallWith(0, p, key, n, true, false) + CallWith(0, q, key, m, true, true), w')
    ensures |w'.granted| == |w.granted| + 2
    ensures ShareNumber(w'.granted[|w.granted|], w'.granted[|w.granted| + 1])
            <==> Meet(Known(w, p, key), n, Known(w, q, key), m)
  {
    var v := CallWithFaults(w, 0, p, key, n, true, false);
    w' := CallWithFaults(v, 0, q, key, m, true, true);
    RunAppend(w, CallWith(0, p, key, n, true, false), v, CallWith(0, q, key, m, true, true), w');
    ReadableView(w.disk, key);
    assert Listed(v, key) == Listed(w, key) && Memory(v, q, key) == Memory(w, q, key);
    MeetExactly(w'.granted[|w.granted|], w'.granted[|w.granted| + 1], Known(w, p, key), Known(w, q, key));
  }

  /** Two calls without the file lock: both read the ledger before either stores it. */
  function Overlapping(p: Pid, n: nat, a: Workspace, q: Pid, m: nat, b: Workspace): seq<Label> {
    [Begin(0, p, a, n)] + ([Begin(1, q, b, m)] +
      ((LoadSteps(0, false, true) + LoadSteps(1, false, true)) + (StoreSteps(0, true) + StoreSteps(1, true))))
  }

  /** What the later store leaves. */
  ghost predicate Overlapped(w: World, p: Pid, n: nat, a: Workspace, q: Pid, m: nat, b: Workspace, w': World)
    requires Idle(w) && Readable(w.disk) && n >= 1 && m >= 1
  {
    var first := Grant(p, a, Known(w, p, a) + 1, n, Listed(w, a));
    var second := Grant(q, b, Known(w, q, b) + 1, m, Listed(w, b));
    w'.granted == w.granted + [first, second] && w'.disk == Dict(w.disk.entries[b := Number(second.End())])
  }

  lemma BothBegin(w: World, p: Pid, n: nat, a: Workspace, q: Pid, m: nat, b: Workspace) returns (v: World)
    requires Idle(w) && p != q && p !in w.dead && q !in w.dead && n >= 1 && m >= 1
    ensures Enabled(w, Begin(0, p, a, n)) && Enabled(Apply(w, Begin(0, p, a, n)), Begin(1, q, b, m))
    ensures v == Apply(Apply(w, Begin(0, p, a, n)), Begin(1, q, b, m))
    ensures v == w.(calls := map[0 := Call(p, a, n, {}, Waiting), 1 := Call(q, b, m, {}, Waiting)])
  {
    v := Apply(Apply(w, Begin(0, p, a, n)), Begin(1, q, b, m));
    assert v.calls == map[0 := Call(p, a, n, {}, Waiting), 1 := Call(q, b, m, {}, Waiting)];
  }

  lemma BothLoad(w: World, v: World, p: Pid, n: nat, a: Workspace, q: Pid, m: nat, b: Workspace) returns (u: World)
    requires Idle(w) && Readable(w.disk) && p != q
    requires v == w.(calls := map[0 := Call(p, a, n, {}, Waiting), 1 := Call(q, b, m, {}, Waiting)])
    ensures Run(v, LoadSteps(0, false, true) + LoadSteps(1, false, true), u)
    ensures u.disk == w.disk && u.memory == w.memory && u.granted == w.granted && u.calls.Keys == {0, 1}
    ensures u.calls[0] == Call(p, a, n, Listed(w, a), Loaded(false, View(w.disk.entries, OnDisk(w.disk, a))))
    ensures u.calls[1] == Call(q, b, m, Listed(w, b), Loaded(false, View(w.disk.entries, OnDisk(w.disk, b))))
  {
    var v1 := LoadsAlone(v, 0, v.calls[0], false, true);
    u := LoadsAlone(v1, 1, v1.calls[1], false, true);
    RunAppend(v, LoadSteps(0, false, true), v1, LoadSteps(1, false, true), u);
    ReadableView(w.disk, a);
    ReadableView(w.disk, b);
    assert Listed(v, a) == Listed(w, a) && Listed(v1, b) == Listed(w, b);
  }

  ghost function GrantOf(c: Call, reserved: nat, memory: nat): Grant
    requires c.count >= 1
  {
    Grant(c.pid, c.key, NextStart(ScannedMax(c.seen), reserved, memory), c.count, c.seen)
  }

  /** One of the two stores: what it grants, remembers and writes, and what it leaves of the other call. */
  lemma StoresOne(u: World, t: Tid, c: Call, entries: map<Workspace, Entry>, reserved: nat, g: Grant) returns (v: World)
    requires t in u.calls && u.calls[t] == c && c.count >= 1 && c.phase == Loaded(false, View(entries, reserved))
    requires g == GrantOf(c, reserved, Memory(u, c.pid, c.key))
    ensures Run(u, StoreSteps(t, true), v)
    ensures v.granted == u.granted + [g] && v.disk == Dict(entries[c.key := Number(g.End())])
    ensures v.calls == u.calls - {t} && forall p, key :: p != c.pid ==> Memory(v, p, key) == Memory(u, p, key)
  {
    v := StoresAlone(u, t, c, true);
  }

  lemma StoresBoth(u: World, entries: map<Workspace, Entry>, c: Call, rc: nat, g: Grant, d: Call, rd: nat, h: Grant)
    returns (w': World)
    requires u.calls.Keys == {0, 1} && u.calls[0] == c && u.calls[1] == d && c.pid != d.pid && c.count >= 1 && d.count >= 1
    requires c.phase == Loaded(false, View(entries, rc)) && d.phase == Loaded(false, View(entries, rd))
    requires g == GrantOf(c, rc, Memory(u, c.pid, c.key)) && h == GrantOf(d, rd, Memory(u, d.pid, d.key))
    ensures Run(u, StoreSteps(0, true) + StoreSteps(1, true), w')
    ensures w'.granted == u.granted + [g, h] && w'.disk == Dict(entries[d.key := Number(h.End())])
  {
    var u1 := StoresOne(u, 0, c, entries, rc, g);
    w' := StoresOne(u1, 1, d, entries, rd, h);
    RunAppend(u, StoreSteps(0, true), u1, StoreSteps(1, true), w');
    assert u.granted + [g, h] == u.granted + [g] + [h];
  }

  lemma BothStore(w: World, u: World, p: Pid, n: nat, a: Workspace, q: Pid, m: nat, b: Workspace) returns (w': World)
    requires Idle(w) && Readable(w.disk) && p != q && n >= 1 && m >= 1
    requires u.disk == w.disk && u.memory == w.memory && u.granted == w.granted && u.calls.Keys == {0, 1}
    requires u.calls[0] == Call(p, a, n, Listed(w, a), Loaded(false, View(w.disk.entries, OnDisk(w.disk, a))))
    requires u.calls[1] == Call(q, b, m, Listed(w, b), Loaded(false, View(w.disk.entries, OnDisk(w.disk, b))))
    ensures Run(u, StoreSteps(0, true) + StoreSteps(1, true), w')
    ensures Overlapped(w, p, n, a, q, m, b, w')
  {
    var first := Grant(p, a, Known(w, p, a) + 1, n, Listed(w, a));
    var second := Grant(q, b, Known(w, q, b) + 1, m, Listed(w, b));
    w' := StoresBoth(u, w.disk.entries, u.calls[0], OnDisk(w.disk, a), first, u.calls[1], OnDisk(w.disk, b), second);
  }

  lemma OverlappingRun(w: World, p: Pid, n: nat, a: Workspace, q: Pid, m: nat, b: Workspace) returns (w': World)
    requires Idle(w) && Readable(w.disk) && p != q && p !in w.dead && q !in w.dead && n >= 1 && m >= 1
    ensures Run(w, Overlapping(p, n, a, q, m, b), w') && Overlapped(w, p, n, a, q, m, b, w')
  {
    var v := BothBegin(w, p, n, a, q, m, b);
    var u := BothLoad(w, v, p, n, a, q, m, b);
    w' := BothStore(w, u, p, n, a, q, m, b);
    var loads, stores := LoadSteps(0, false, true) + LoadSteps(1, false, true), StoreSteps(0, true) + StoreSteps(1, true);
    RunAppend(v, loads, u, stores, w');
    RunCons(Apply(w, Begin(0, p, a, n)), Begin(1, q, b, m), loads + stores, w');
    RunCons(w, Begin(0, p, a, n), [Begin(1, q, b, m)] + (loads + stores), w');
  }

  /**
   Two overlapping calls without the file lock are given a number in common if and only if they are for one workspace
   and the process that knows less asks for more numbers than the other is ahead; and the ledger still holds the first
   reservation if and only if the second is for the same workspace and reaches as far.
   */
  lemma MissingLockExactly(w: World, p: Pid, n: nat, a: Workspace, q: Pid, m: nat, b: Workspace) returns (w': World)
    requires Idle(w) && Readable(w.disk) && p != q && p !in w.dead && q !in w.dead && n >= 1 && m >= 1
    ensures Run(w, Overlapping(p, n, a, q, m, b), w') && |w'.granted| == |w.granted| + 2 && Readable(w'.disk)
    ensures ShareNumber(w'.granted[|w.granted|], w'.granted[|w.granted| + 1])
            <==> a == b && Meet(Known(w, p, a), n, Known(w, q, b), m)
    ensures OnDisk(w'.disk, a) >= Known(w, p, a) + n <==> a == b && Known(w, q, b) + m >= Known(w, p, a) + n
  {
    w' := OverlappingRun(w, p, n, a, q, m, b);
    if a == b {
      MeetExactly(w'.granted[|w.granted|], w'.granted[|w.granted| + 1], Known(w, p, a), Known(w, q, b));
    }
  }
}
