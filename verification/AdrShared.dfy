/** What all Core processes together keep while locks, ledger reads and ledger stores succeed. */
module AdrShared {
  import opened Wrappers
  import opened AdrLedger
  import opened AdrProcess

  /** Steps without a fault.  Crashes, approvals and files added by hand are not faults of the ledger. */
  predicate Clean(l: Label) {
    match l
    case LockFile(_, ok) => ok
    case Load(_, ok) => ok
    case Store(_, ok) => ok
    case Tamper(_) => false
    case _ => true
  }

  predicate AllClean(ls: seq<Label>) {
    forall i :: 0 <= i < |ls| ==> Clean(ls[i])
  }

  predicate Readable(disk: Disk) {
    !disk.Corrupt? && (disk.Dict? ==> forall k :: k in disk.entries ==> disk.entries[k].Number?)
  }

  function OnDisk(disk: Disk, key: Workspace): nat
    requires Readable(disk)
  {
    if disk.Dict? && key in disk.entries then Max(0, disk.entries[key].n) else 0
  }

  predicate HoldsFile(ph: Phase) {
    InCritical(ph) && !ph.InProcess?
  }

  predicate UsesFile(ph: Phase) {
    match ph
    case Waiting => false
    case Scanned => false
    case InProcess => false
    case _ => ph.file
  }

  predicate FileLockMatches(w: World, t: Tid)
    requires t in w.calls
  {
    var ph := w.calls[t].phase;
    (HoldsFile(ph) <==> w.fileLock == Some(t)) && (HoldsFile(ph) ==> UsesFile(ph))
  }

  ghost predicate AboveAllGrants(w: World, key: Workspace, start: nat) {
    forall g :: g in w.granted && g.key == key ==> g.End() < start
  }

  /** What the holder of the file lock knows about the ledger on disk. */
  ghost predicate InStep(w: World, c: Call)
    requires Readable(w.disk)
  {
    var entries := ReadLedger(w.disk, true);
    match c.phase
    case Loaded(_, view) => view == View(entries, OnDisk(w.disk, c.key))
    case Numbered(_, view, start) => view.data == entries && start > OnDisk(w.disk, c.key)
    case Raised(_, data, start) =>
      data == entries[c.key := Number(start + c.count - 1)] && start > OnDisk(w.disk, c.key)
    case Stored(_, start) =>
      OnDisk(w.disk, c.key) == start + c.count - 1 && AboveAllGrants(w, c.key, start)
    case _ => true
  }

  ghost predicate Increasing(gs: seq<Grant>) {
    forall i, j :: 0 <= i < j < |gs| && gs[i].key == gs[j].key ==> gs[i].End() < gs[j].start
  }

  predicate AuthorOk(w: World, f: (Workspace, nat))
    requires f in w.files
  {
    match w.files[f]
    case External => true
    case By(g) => g < |w.granted| && w.granted[g].key == f.0 && w.granted[g].Covers(f.1)
  }

  ghost predicate LedgerHolds(w: World)
    requires Readable(w.disk)
  {
    && (w.fileLock.Some? ==> w.fileLock.value in w.calls)
    && (forall t :: t in w.calls ==> FileLockMatches(w, t) && InStep(w, w.calls[t]))
    && (forall g :: g in w.granted ==> g.End() <= OnDisk(w.disk, g.key))
    && Increasing(w.granted)
    && (forall f :: f in w.files ==> AuthorOk(w, f))
  }

  ghost predicate SharedInvariant(w: World) {
    ProcessInvariant(w) && Readable(w.disk) && LedgerHolds(w)
  }

  lemma LedgerStaysReadable(w: World, l: Label)
    requires SharedInvariant(w) && Enabled(w, l) && Clean(l)
    ensures Readable(Apply(w, l).disk)
  {
    if l.Store? {
      assert InStep(w, w.calls[l.t]);
    }
  }

  lemma OwnInStep(w: World, l: Label, t: Tid)
    requires SharedInvariant(w) && Enabled(w, l) && Clean(l) && Readable(Apply(w, l).disk)
    requires Actor(l) == Some(t) && t in Apply(w, l).calls
    ensures InStep(Apply(w, l), Apply(w, l).calls[t])
  {
    if !l.Begin? {
      assert InStep(w, w.calls[t]);
    }
    if l.Raise? || l.Store? {
      assert NumberIsNew(w, w.calls[t]) && LockMatchesPhase(w, t);
    }
  }

  lemma OtherInStep(w: World, l: Label, t: Tid)
    requires SharedInvariant(w) && Enabled(w, l) && Clean(l) && Readable(Apply(w, l).disk)
    requires Actor(l) != Some(t) && t in Apply(w, l).calls
    ensures InStep(Apply(w, l), Apply(w, l).calls[t])
  {
    OthersKeepTheirPhase(w, l, t);
    assert InStep(w, w.calls[t]) && FileLockMatches(w, t);
    if l.Store? || l.Return? {
      assert FileLockMatches(w, l.t);
    }
  }

  lemma InStepStep(w: World, l: Label)
    requires SharedInvariant(w) && Enabled(w, l) && Clean(l) && Readable(Apply(w, l).disk)
    ensures forall t :: t in Apply(w, l).calls ==> InStep(Apply(w, l), Apply(w, l).calls[t])
  {
    forall t | t in Apply(w, l).calls ensures InStep(Apply(w, l), Apply(w, l).calls[t]) {
      if Actor(l) == Some(t) { OwnInStep(w, l, t); } else { OtherInStep(w, l, t); }
    }
  }

  lemma OneMoreGrant(gs: seq<Grant>, g: Grant)
    requires Increasing(gs) && forall h :: h in gs && h.key == g.key ==> h.End() < g.start
    ensures Increasing(gs + [g])
  {
  }

  lemma ReturnGrants(w: World, l: Label)
    requires SharedInvariant(w) && Enabled(w, l) && l.Return?
    ensures Apply(w, l).disk == w.disk && Increasing(Apply(w, l).granted)
    ensures forall g :: g in Apply(w, l).granted ==> g.End() <= OnDisk(w.disk, g.key)
  {
    var c := w.calls[l.t];
    assert InStep(w, c);
    OneMoreGrant(w.granted, Grant(c.pid, c.key, c.phase.start, c.count, c.seen));
  }

  lemma SharedGrantsStep(w: World, l: Label)
    requires SharedInvariant(w) && Enabled(w, l) && Clean(l) && Readable(Apply(w, l).disk)
    ensures forall g :: g in Apply(w, l).granted ==> g.End() <= OnDisk(Apply(w, l).disk, g.key)
    ensures Increasing(Apply(w, l).granted)
  {
    var w' := Apply(w, l);
    if l.Store? {
      StoreRaisesLedger(w, l);
    } else if l.Return? {
      ReturnGrants(w, l);
    } else {
      assert w'.disk == w.disk && w'.granted == w.granted;
    }
  }

  lemma StoreRaisesLedger(w: World, l: Label)
    requires SharedInvariant(w) && Enabled(w, l) && Clean(l) && l.Store?
    ensures Apply(w, l).granted == w.granted && Readable(Apply(w, l).disk)
    ensures forall k :: OnDisk(w.disk, k) <= OnDisk(Apply(w, l).disk, k)
  {
    var c := w.calls[l.t];
    assert InStep(w, c) && NumberIsNew(w, c) && LockMatchesPhase(w, l.t);
  }

  lemma AuthorsStep(w: World, l: Label)
    requires SharedInvariant(w) && Enabled(w, l)
    ensures forall f :: f in Apply(w, l).files ==> AuthorOk(Apply(w, l), f)
  {
    var w' := Apply(w, l);
    forall f | f in w'.files ensures AuthorOk(w', f) {
      if f in w.files {
        assert AuthorOk(w, f);
      }
    }
  }

  lemma OwnFileLock(w: World, l: Label, t: Tid)
    requires SharedInvariant(w) && Enabled(w, l) && Clean(l) && t in Apply(w, l).calls && Actor(l) == Some(t)
    ensures FileLockMatches(Apply(w, l), t)
  {
    if t in w.calls {
      assert FileLockMatches(w, t);
    }
  }

  lemma OtherFileLock(w: World, l: Label, t: Tid)
    requires SharedInvariant(w) && Enabled(w, l) && Clean(l) && t in Apply(w, l).calls && Actor(l) != Some(t)
    ensures FileLockMatches(Apply(w, l), t)
  {
    OthersKeepTheirPhase(w, l, t);
    assert FileLockMatches(w, t);
    if l.Return? {
      assert FileLockMatches(w, l.t);
    }
  }

  lemma FileLockHolds(w: World, l: Label)
    requires SharedInvariant(w) && Enabled(w, l) && Clean(l)
    ensures var w' := Apply(w, l);
            && (w'.fileLock.Some? ==> w'.fileLock.value in w'.calls)
            && forall t :: t in w'.calls ==> FileLockMatches(w', t)
  {
    forall t | t in Apply(w, l).calls ensures FileLockMatches(Apply(w, l), t) {
      if Actor(l) == Some(t) { OwnFileLock(w, l, t); } else { OtherFileLock(w, l, t); }
    }
    if l.Return? {
      assert FileLockMatches(w, l.t);
    }
  }

  lemma SharedStep(w: World, l: Label)
    requires SharedInvariant(w) && Enabled(w, l) && Clean(l)
    ensures SharedInvariant(Apply(w, l))
  {
    ProcessStep(w, l);
    LedgerStaysReadable(w, l);
    FileLockHolds(w, l);
    InStepStep(w, l);
    SharedGrantsStep(w, l);
    AuthorsStep(w, l);
  }

  lemma {:induction false} SharedRun(w: World, ls: seq<Label>, w': World)
    requires SharedInvariant(w) && AllClean(ls) && Run(w, ls, w')
    ensures SharedInvariant(w')
    decreases |ls|
  {
    if ls != [] {
      assert Clean(ls[0]);
      SharedStep(w, ls[0]);
      SharedRun(Apply(w, ls[0]), ls[1..], w');
    }
  }

  /** Two grants of one workspace never share a number, whichever processes they came from. */
  lemma GrantsAreDisjoint(w: World, ls: seq<Label>, w': World, i: nat, j: nat, n: nat)
    requires Init(w) && Readable(w.disk) && AllClean(ls) && Run(w, ls, w')
    requires i < |w'.granted| && j < |w'.granted| && w'.granted[i].key == w'.granted[j].key
    requires w'.granted[i].Covers(n) && w'.granted[j].Covers(n)
    ensures i == j
  {
    SharedRun(w, ls, w');
  }

  /** Approving a proposal overwrites neither another proposal's ADR nor one the allocating scan saw. */
  lemma ApprovalNeverOverwrites(w: World, ls: seq<Label>, w': World, g: nat, n: nat)
    requires Init(w) && Readable(w.disk) && AllClean(ls) && Run(w, ls, w')
    requires Enabled(w', Approve(g, n))
    ensures n !in w'.granted[g].seen
    ensures (w'.granted[g].key, n) in w'.files ==>
              w'.files[(w'.granted[g].key, n)] == By(g) || w'.files[(w'.granted[g].key, n)] == External
  {
    SharedRun(w, ls, w');
    assert w'.granted[g] in w'.granted;
    var f := (w'.granted[g].key, n);
    if f in w'.files && w'.files[f].By? {
      assert AuthorOk(w', f);
      GrantsAreDisjoint(w, ls, w', g, w'.files[f].grant, n);
    }
  }
}
