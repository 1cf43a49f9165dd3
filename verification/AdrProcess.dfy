/** What one Core process keeps under any faults: its locks, its memory and the numbers it has granted. */
module AdrProcess {
  import opened Wrappers
  import opened AdrLedger

  predicate InCritical(ph: Phase) {
    !ph.Waiting? && !ph.Scanned?
  }

  /** A call is past its thread lock exactly while it owns its process's lock. */
  ghost predicate LockMatchesPhase(w: World, t: Tid)
    requires t in w.calls
  {
    var c := w.calls[t];
    c.count >= 1 && (InCritical(c.phase) <==> c.pid in w.threadLock && w.threadLock[c.pid] == t)
  }

  ghost predicate OwnerIsLive(w: World, p: Pid)
    requires p in w.threadLock
  {
    w.threadLock[p] in w.calls && w.calls[w.threadLock[p]].pid == p
  }

  ghost predicate ThreadLocks(w: World) {
    && (forall p :: p in w.threadLock ==> OwnerIsLive(w, p))
    && (forall t :: t in w.calls ==> LockMatchesPhase(w, t))
  }

  ghost predicate AboveGrants(w: World, c: Call, start: nat) {
    forall g :: g in w.granted && g.pid == c.pid && g.key == c.key ==> g.End() < start
  }

  /** A call that holds a number knows how it stands to its process's memory and grants. */
  ghost predicate NumberIsNew(w: World, c: Call) {
    match c.phase
    case Numbered(_, _, start) => start > Memory(w, c.pid, c.key) && start > ScannedMax(c.seen)
    case Raised(_, _, start) =>
      Memory(w, c.pid, c.key) == start + c.count - 1 && start > ScannedMax(c.seen) && AboveGrants(w, c, start)
    case Stored(_, start) =>
      Memory(w, c.pid, c.key) == start + c.count - 1 && start > ScannedMax(c.seen) && AboveGrants(w, c, start)
    case _ => true
  }

  ghost predicate NumbersAreNew(w: World) {
    forall t :: t in w.calls ==> NumberIsNew(w, w.calls[t])
  }

  ghost predicate GrantsRemembered(w: World) {
    forall g :: g in w.granted ==>
      && g.count >= 1 && g.End() <= Memory(w, g.pid, g.key) && g.start > ScannedMax(g.seen)
  }

  ghost predicate IncreasingPerProcess(gs: seq<Grant>) {
    forall i, j :: 0 <= i < j < |gs| && gs[i].pid == gs[j].pid && gs[i].key == gs[j].key ==> gs[i].End() < gs[j].start
  }

  ghost predicate ProcessInvariant(w: World) {
    ThreadLocks(w) && NumbersAreNew(w) && GrantsRemembered(w) && IncreasingPerProcess(w.granted)
  }

  lemma OwnLockStep(w: World, l: Label, t: Tid)
    requires ProcessInvariant(w) && Enabled(w, l) && t in Apply(w, l).calls && Actor(l) == Some(t)
    ensures LockMatchesPhase(Apply(w, l), t)
  {
    if t in w.calls {
      assert LockMatchesPhase(w, t);
    }
  }

  lemma OtherLockStep(w: World, l: Label, t: Tid)
    requires ProcessInvariant(w) && Enabled(w, l) && t in Apply(w, l).calls && Actor(l) != Some(t)
    ensures LockMatchesPhase(Apply(w, l), t)
  {
    OthersKeepTheirPhase(w, l, t);
    assert LockMatchesPhase(w, t);
    if l.Return? || l.LockThread? {
      assert LockMatchesPhase(w, l.t);
    }
  }

  lemma ThreadLocksStep(w: World, l: Label)
    requires ProcessInvariant(w) && Enabled(w, l)
    ensures ThreadLocks(Apply(w, l))
  {
    forall t | t in Apply(w, l).calls ensures LockMatchesPhase(Apply(w, l), t) {
      if Actor(l) == Some(t) { OwnLockStep(w, l, t); } else { OtherLockStep(w, l, t); }
    }
  }

  lemma OwnNumberStep(w: World, l: Label, t: Tid)
    requires ProcessInvariant(w) && Enabled(w, l) && Actor(l) == Some(t) && t in Apply(w, l).calls
    ensures NumberIsNew(Apply(w, l), Apply(w, l).calls[t])
  {
    if !l.Begin? {
      assert NumberIsNew(w, w.calls[t]);
    }
  }

  /** Steps other than raising the memory and returning leave memory and grants alone. */
  lemma QuietStep(w: World, l: Label)
    requires Enabled(w, l) && !l.Raise? && !l.Return?
    ensures Apply(w, l).memory == w.memory && Apply(w, l).granted == w.granted
  {
  }

  lemma OtherNumberStep(w: World, l: Label, t: Tid)
    requires ProcessInvariant(w) && Enabled(w, l) && Actor(l) != Some(t) && t in Apply(w, l).calls
    ensures NumberIsNew(Apply(w, l), Apply(w, l).calls[t])
  {
    OthersKeepTheirPhase(w, l, t);
    assert NumberIsNew(w, w.calls[t]) && LockMatchesPhase(w, t);
    if l.Raise? || l.Return? {
      LoudStep(w, l, t);
    } else {
      QuietStep(w, l);
    }
  }

  lemma LoudStep(w: World, l: Label, t: Tid)
    requires ProcessInvariant(w) && Enabled(w, l) && (l.Raise? || l.Return?) && l.t != t && t in w.calls
    requires NumberIsNew(w, w.calls[t]) && LockMatchesPhase(w, t)
    ensures NumberIsNew(Apply(w, l), w.calls[t])
  {
    assert LockMatchesPhase(w, l.t);
  }

  lemma NumbersStep(w: World, l: Label)
    requires ProcessInvariant(w) && Enabled(w, l)
    ensures NumbersAreNew(Apply(w, l))
  {
    forall t | t in Apply(w, l).calls ensures NumberIsNew(Apply(w, l), Apply(w, l).calls[t]) {
      if Actor(l) == Some(t) { OwnNumberStep(w, l, t); } else { OtherNumberStep(w, l, t); }
    }
  }

  lemma GrantsStep(w: World, l: Label)
    requires ProcessInvariant(w) && Enabled(w, l)
    ensures GrantsRemembered(Apply(w, l)) && IncreasingPerProcess(Apply(w, l).granted)
  {
    if l.Raise? || l.Return? {
      assert NumberIsNew(w, w.calls[l.t]) && LockMatchesPhase(w, l.t);
    } else {
      QuietStep(w, l);
    }
  }

  lemma ProcessStep(w: World, l: Label)
    requires ProcessInvariant(w) && Enabled(w, l)
    ensures ProcessInvariant(Apply(w, l))
  {
    ThreadLocksStep(w, l);
    NumbersStep(w, l);
    GrantsStep(w, l);
  }

  /** Any failed ledger read, corrupt ledger, failed store, failed file lock or crash is allowed in `ls`. */
  lemma {:induction false} GrantsOfOneProcessIncrease(w: World, ls: seq<Label>, w': World)
    requires ProcessInvariant(w) && Run(w, ls, w')
    ensures ProcessInvariant(w')
    ensures IncreasingPerProcess(w'.granted)
    decreases |ls|
  {
    if ls != [] {
      ProcessStep(w, ls[0]);
      GrantsOfOneProcessIncrease(Apply(w, ls[0]), ls[1..], w');
    }
  }
}
