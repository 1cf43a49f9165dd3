/** What every history of the allocator leads to: calls that end, files that stay, and numbers above all that was seen. */
module AdrProgress {
  import opened Wrappers
  import opened AdrLedger
  import opened AdrProcess
  import opened AdrShared
  import opened AdrOps
  import opened AdrCollision

  // ---------------------------------------------------------------------------------------------
  // Every call can end
  // ---------------------------------------------------------------------------------------------

  /** Steps left until the call returns. */
  function StepsLeft(ph: Phase): nat {
    match ph
    case Waiting => 8
    case Scanned => 7
    case InProcess => 6
    case Locked(_) => 5
    case Loaded(_, _) => 4
    case Numbered(_, _, _) => 3
    case Raised(_, _, _) => 2
    case Stored(_, _) => 1
  }

  /** The call holds all locks it needs, or they are free. */
  predicate CanGoOn(w: World, t: Tid) {
    && t in w.calls
    && (HoldsFile(w.calls[t].phase) || w.fileLock.None?)
    && (InCritical(w.calls[t].phase) || w.calls[t].pid !in w.threadLock)
  }

  function NextLabel(t: Tid, ph: Phase): Label {
    match ph
    case Waiting => Scan(t)
    case Scanned => LockThread(t)
    case InProcess => LockFile(t, true)
    case Locked(_) => Load(t, true)
    case Loaded(_, _) => Compute(t)
    case Numbered(_, _, _) => Raise(t)
    case Raised(_, _, _) => Store(t, true)
    case Stored(_, _) => Return(t)
  }

  lemma NextGoesOn(w: World, t: Tid)
    requires CanGoOn(w, t) && StepsLeft(w.calls[t].phase) > 1
    ensures var l := NextLabel(t, w.calls[t].phase);
            && Enabled(w, l) && Clean(l) && Apply(w, l).granted == w.granted && t in Apply(w, l).calls
            && StepsLeft(Apply(w, l).calls[t].phase) == StepsLeft(w.calls[t].phase) - 1
            && Apply(w, l).calls == w.calls[t := Apply(w, l).calls[t]] && CanGoOn(Apply(w, l), t)
  {
  }

  lemma NextReturns(w: World, t: Tid)
    requires CanGoOn(w, t) && StepsLeft(w.calls[t].phase) == 1
    ensures var l := NextLabel(t, w.calls[t].phase);
            Enabled(w, l) && Clean(l) && Apply(w, l).calls == w.calls - {t} && |Apply(w, l).granted| == |w.granted| + 1
  {
  }

  lemma OthersKept(calls: map<Tid, Call>, t: Tid, c: Call)
    ensures calls[t := c] - {t} == calls - {t}
  {
  }

  lemma CleanCons(l: Label, ls: seq<Label>)
    requires Clean(l) && AllClean(ls)
    ensures AllClean([l] + ls)
  {
  }

  /** A call that holds its locks, or finds them free, runs to its end. */
  lemma {:induction false} Finish(w: World, t: Tid) returns (ls: seq<Label>, w': World)
    requires SharedInvariant(w) && CanGoOn(w, t)
    ensures AllClean(ls) && Run(w, ls, w') && SharedInvariant(w')
    ensures w'.calls == w.calls - {t} && |w'.granted| == |w.granted| + 1
    decreases StepsLeft(w.calls[t].phase)
  {
    var l := NextLabel(t, w.calls[t].phase);
    if StepsLeft(w.calls[t].phase) == 1 {
      NextReturns(w, t);
      var w1 := Apply(w, l);
      SharedStep(w, l);
      RunCons(w, l, [], w1);
      assert [l] + [] == [l];
      ls, w' := [l], w1;
    } else {
      NextGoesOn(w, t);
      var w1, rest := Apply(w, l), [];
      SharedStep(w, l);
      OthersKept(w.calls, t, w1.calls[t]);
      rest, w' := Finish(w1, t);
      RunCons(w, l, rest, w');
      CleanCons(l, rest);
      ls := [l] + rest;
    }
  }

  /** Locks are taken in one order, so some call can always go on. */
  lemma SomeCallCanGoOn(w: World) returns (t: Tid)
    requires SharedInvariant(w) && w.calls != map[]
    ensures CanGoOn(w, t)
  {
    if w.fileLock.Some? {
      t := w.fileLock.value;
      assert FileLockMatches(w, t);
    } else {
      var u :| u in w.calls;
      assert LockMatchesPhase(w, u) && FileLockMatches(w, u);
      var p := w.calls[u].pid;
      if !InCritical(w.calls[u].phase) && p in w.threadLock {
        assert OwnerIsLive(w, p);
        t := w.threadLock[p];
        assert LockMatchesPhase(w, t) && FileLockMatches(w, t);
      } else {
        t := u;
      }
    }
  }

  /** No history without faults leads to a deadlock: all calls under way can return, and each is granted its numbers. */
  lemma {:induction false} AllCanReturn(w: World) returns (ls: seq<Label>, w': World)
    requires SharedInvariant(w)
    ensures AllClean(ls) && Run(w, ls, w') && SharedInvariant(w')
    ensures w'.calls == map[] && |w'.granted| == |w.granted| + |w.calls|
    decreases |w.calls|
  {
    if w.calls == map[] {
      ls, w' := [], w;
    } else {
      var t := SomeCallCanGoOn(w);
      var front, back, mid;
      front, mid := Finish(w, t);
      OneLess(w.calls, t);
      back, w' := AllCanReturn(mid);
      RunAppend(w, front, mid, back, w');
      ls := front + back;
    }
  }

  lemma OneLess(calls: map<Tid, Call>, t: Tid)
    requires t in calls
    ensures |calls - {t}| == |calls| - 1
  {
    assert (calls - {t}).Keys == calls.Keys - {t};
    assert |calls| == |calls.Keys| && |calls - {t}| == |(calls - {t}).Keys|;
  }

  /**
   A process that dies takes its calls and its locks with it, and nothing else; all calls of the others can still
   return, and nothing that was granted is lost.
   */
  lemma OthersOutliveACrash(w: World, p: Pid) returns (ls: seq<Label>, w': World)
    requires SharedInvariant(w) && p !in w.dead
    ensures Enabled(w, Crash(p))
    ensures var c := Apply(w, Crash(p));
            && (forall t :: t in c.calls <==> t in w.calls && w.calls[t].pid != p)
            && (forall t :: t in c.calls ==> c.calls[t] == w.calls[t])
            && p !in c.threadLock && c.disk == w.disk && c.files == w.files && c.granted == w.granted && c.memory == w.memory
    ensures AllClean(ls) && Run(w, [Crash(p)] + ls, w') && w'.calls == map[]
    ensures |w'.granted| == |w.granted| + |Apply(w, Crash(p)).calls|
  {
    var c := Apply(w, Crash(p));
    SharedStep(w, Crash(p));
    ls, w' := AllCanReturn(c);
    RunCons(w, Crash(p), ls, w');
  }

  // ---------------------------------------------------------------------------------------------
  // Files stay, and later numbers are larger
  // ---------------------------------------------------------------------------------------------

  /** No call for the workspace has listed its directory yet. */
  ghost predicate Unscanned(w: World, key: Workspace) {
    forall t :: t in w.calls && w.calls[t].key == key ==> w.calls[t].phase.Waiting?
  }

  /** The file is there, and every call for its workspace that has listed the directory since has seen it. */
  ghost predicate Seen(w: World, key: Workspace, n: nat, from: nat) {
    && (key, n) in w.files
    && (forall t :: t in w.calls && w.calls[t].key == key && !w.calls[t].phase.Waiting? ==> n in w.calls[t].seen)
    && from <= |w.granted|
    && forall i :: from <= i < |w.granted| && w.granted[i].key == key ==> n in w.granted[i].seen
  }

  lemma SeenStep(w: World, l: Label, key: Workspace, n: nat, from: nat)
    requires Seen(w, key, n, from) && Enabled(w, l)
    ensures Seen(Apply(w, l), key, n, from)
  {
    var w' := Apply(w, l);
    forall t | t in w'.calls && w'.calls[t].key == key && !w'.calls[t].phase.Waiting? ensures n in w'.calls[t].seen {
      if Actor(l) != Some(t) {
        OthersKeepTheirPhase(w, l, t);
      } else if l.Scan? {
        assert (key, n) in w.files.Keys && (key, n).1 == n;
      }
    }
  }

  lemma {:induction false} SeenRun(w: World, ls: seq<Label>, w': World, key: Workspace, n: nat, from: nat)
    requires Seen(w, key, n, from) && Run(w, ls, w')
    ensures Seen(w', key, n, from)
    decreases |ls|
  {
    if ls != [] {
      SeenStep(w, ls[0], key, n, from);
      SeenRun(Apply(w, ls[0]), ls[1..], w', key, n, from);
    }
  }

  /**
   Once a file is in the directory it stays, and whatever faults, every number granted to a call that lists the
   directory afterwards is larger than the file's.
   */
  lemma LaterNumbersExceedFiles(w: World, ls: seq<Label>, w': World, key: Workspace, n: nat, i: nat)
    requires ProcessInvariant(w) && Unscanned(w, key) && (key, n) in w.files && Run(w, ls, w')
    ensures (key, n) in w'.files && |w.granted| <= |w'.granted|
    ensures |w.granted| <= i < |w'.granted| && w'.granted[i].key == key ==> w'.granted[i].start > n
  {
    SeenRun(w, ls, w', key, n, |w.granted|);
    GrantsOfOneProcessIncrease(w, ls, w');
    if |w.granted| <= i < |w'.granted| && w'.granted[i].key == key {
      assert w'.granted[i] in w'.granted;
    }
  }

  /** An approval writes the file of its number, and so does whoever adds one by hand; nothing else is written. */
  lemma ApprovalWrites(w: World, g: nat, n: nat)
    requires Enabled(w, Approve(g, n))
    ensures var w' := Apply(w, Approve(g, n));
            && (w.granted[g].key, n) in w'.files && w'.files[(w.granted[g].key, n)] == By(g)
            && (forall f :: f != (w.granted[g].key, n) ==>
                  (f in w'.files <==> f in w.files) && (f in w.files ==> w'.files[f] == w.files[f]))
  {
  }

  lemma OtherStepsWriteNothing(w: World, l: Label)
    requires Enabled(w, l) && !l.Approve?
    ensures l.AddFile? ==> forall f :: f in Apply(w, l).files <==> f in w.files || f == (l.key, l.number)
    ensures !l.AddFile? ==> Apply(w, l).files == w.files
  {
  }

  /** So a proposal that is made after an approval never has the approved number, or a smaller one. */
  lemma ApprovedNumbersAreBehind(w: World, g: nat, n: nat, ls: seq<Label>, w': World, i: nat)
    requires ProcessInvariant(w) && Enabled(w, Approve(g, n)) && Unscanned(w, w.granted[g].key)
    requires Run(Apply(w, Approve(g, n)), ls, w')
    requires |w.granted| <= i < |w'.granted| && w'.granted[i].key == w.granted[g].key
    ensures w'.granted[i].start > n
  {
    ProcessStep(w, Approve(g, n));
    ApprovalWrites(w, g, n);
    LaterNumbersExceedFiles(Apply(w, Approve(g, n)), ls, w', w.granted[g].key, n, i);
  }

  // ---------------------------------------------------------------------------------------------
  // A ledger that somebody takes away
  // ---------------------------------------------------------------------------------------------

  function Bare(): World {
    World(map[], Dict(map[]), None, map[], map[], map[], [], {})
  }

  /** A ledger emptied between the calls of two processes: both are granted number 1. */
  lemma LostLedgerForgets(key: Workspace) returns (ls: seq<Label>, w': World)
    ensures Init(Bare()) && Run(Bare(), ls, w')
    ensures w'.granted == [Grant(1, key, 1, 1, {}), Grant(2, key, 1, 1, {})]
  {
    var w := Bare();
    var w1 := CallFromIdle(w, 0, 1, key);
    NothingListed(w, key);
    var w2 := Apply(w1, Tamper(Dict(map[])));
    RunCons(w1, Tamper(Dict(map[])), [], w2);
    w' := CallFromIdle(w2, 0, 2, key);
    NothingListed(w2, key);
    assert [Tamper(Dict(map[]))] + [] == [Tamper(Dict(map[]))];
    RunAppend(w, WholeCall(0, 1, key), w1, [Tamper(Dict(map[]))], w2);
    RunAppend(w, WholeCall(0, 1, key) + [Tamper(Dict(map[]))], w2, WholeCall(0, 2, key), w');
    ls := WholeCall(0, 1, key) + [Tamper(Dict(map[]))] + WholeCall(0, 2, key);
  }
}
