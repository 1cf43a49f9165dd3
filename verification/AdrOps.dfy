/** ADR file names, the directory scan, the allocator of one Core, and the operations built from its numbers. */
module AdrOps {
  import opened Wrappers
  import opened AdrLedger
  import opened AdrShared
  import Decimal

  // ---------------------------------------------------------------------------------------------
  // File names and the scan
  // ---------------------------------------------------------------------------------------------

  function FileName(n: nat, slug: string): string {
    "ADR-" + Decimal.Format3(n) + "-" + slug + ".md"
  }

  function DigitPrefix(s: string): (d: string)
    ensures Decimal.AllDigits(d)
  {
    if s != [] && Decimal.IsDigit(s[0]) then [s[0]] + DigitPrefix(s[1..]) else []
  }

  /** The glob `ADR-*.md` followed by the match of `ADR-(\d+)`. */
  function IndexOf(name: string): Option<nat> {
    if |name| >= 7 && name[..4] == "ADR-" && name[|name| - 3..] == ".md" && DigitPrefix(name[4..]) != []
    then Some(Decimal.Parse(DigitPrefix(name[4..])))
    else None
  }

  lemma {:induction false} DigitPrefixOfNumeral(d: string, rest: string)
    requires Decimal.AllDigits(d) && (rest == [] || !Decimal.IsDigit(rest[0]))
    ensures DigitPrefix(d + rest) == d
  {
    if d == [] {
      assert d + rest == rest;
    } else {
      assert (d + rest)[1..] == d[1..] + rest;
      DigitPrefixOfNumeral(d[1..], rest);
    }
  }

  lemma NameParts(numeral: string, slug: string)
    requires numeral != ""
    ensures var name := "ADR-" + numeral + "-" + slug + ".md";
            && |name| >= 7 && name[..4] == "ADR-" && name[|name| - 3..] == ".md"
            && name[4..] == numeral + ("-" + slug + ".md")
  {
  }

  lemma {:induction false} DigitPrefixSplits(s: string)
    ensures var d := DigitPrefix(s);
            |d| <= |s| && s == d + s[|d|..] && (s[|d|..] == [] || !Decimal.IsDigit(s[|d|..][0]))
  {
    if s != [] && Decimal.IsDigit(s[0]) {
      DigitPrefixSplits(s[1..]);
      assert s == [s[0]] + s[1..];
    }
  }

  /** `ADR-`, a numeral of any length, anything, and `.md`. */
  predicate IsName(name: string, d: string, rest: string) {
    && name == "ADR-" + d + rest && d != "" && Decimal.AllDigits(d)
    && |rest| >= 3 && rest[|rest| - 3..] == ".md" && !Decimal.IsDigit(rest[0])
  }

  lemma FrontAndEnd(front: string, d: string, rest: string)
    requires |front| == 4 && |rest| >= 3
    ensures var name := front + d + rest;
            name[..4] == front && name[4..] == d + rest && name[|name| - 3..] == rest[|rest| - 3..]
  {
  }

  lemma IndexParts(name: string, d: string, rest: string)
    requires IsName(name, d, rest)
    ensures IndexOf(name) == Some(Decimal.Parse(d))
  {
    FrontAndEnd("ADR-", d, rest);
    DigitPrefixOfNumeral(d, rest);
  }

  lemma Cuts(name: string, k: nat)
    requires k + 3 <= |name|
    ensures name == name[..k] + name[k..] && name[k..][|name| - k - 3..] == name[|name| - 3..]
  {
  }

  lemma ThreeParts(name: string, a: string, d: string, rest: string)
    requires name == a + (d + rest)
    ensures name == a + d + rest
  {
  }

  lemma PartsOfIndex(name: string) returns (d: string, rest: string)
    requires IndexOf(name).Some?
    ensures IsName(name, d, rest) && IndexOf(name) == Some(Decimal.Parse(d))
  {
    var tail := name[4..];
    DigitPrefixSplits(tail);
    d := DigitPrefix(tail);
    rest := tail[|d|..];
    Cuts(name, 4);
    ThreeParts(name, "ADR-", d, rest);
    EndsBehindDigits(tail, d, rest);
  }

  /** The scan counts a file exactly if its name is of that form. */
  lemma IndexExactly(name: string, n: nat)
    ensures IndexOf(name) == Some(n) <==> exists d, rest :: IsName(name, d, rest) && Decimal.Parse(d) == n
  {
    if IndexOf(name) == Some(n) {
      var d, rest := PartsOfIndex(name);
    }
    if d, rest :| IsName(name, d, rest) && Decimal.Parse(d) == n {
      IndexParts(name, d, rest);
    }
  }

  /** No digit is part of the ending. */
  lemma EndsBehindDigits(tail: string, d: string, rest: string)
    requires tail == d + rest && Decimal.AllDigits(d) && |tail| >= 3 && tail[|tail| - 3..] == ".md"
    ensures |rest| >= 3 && rest[|rest| - 3..] == ".md"
  {
    var k := |tail| - 3;
    assert tail[k] == tail[k..][0] == '.';
    assert forall i :: 0 <= i < |d| ==> tail[i] == d[i];
    assert rest[|rest| - 3..] == tail[k..];
  }

  /** A name starts with `ADR-` and the number in at least three digits, no more than needed, and ends with the slug. */
  lemma FileNameShape(n: nat, slug: string)
    ensures exists d :: FileName(n, slug) == "ADR-" + d + "-" + slug + ".md" && Decimal.AllDigits(d) && Decimal.Parse(d) == n
                        && |d| >= 3 && (|d| > 3 ==> d[0] != '0')
  {
    Decimal.ParseFormat3(n);
    Decimal.NoLeadingZero(n);
    assert FileName(n, slug) == "ADR-" + Decimal.Format3(n) + "-" + slug + ".md";
  }

  /** A written ADR is found by every later scan under the number it was given. */
  lemma ScanFindsFile(n: nat, slug: string)
    ensures IndexOf(FileName(n, slug)) == Some(n)
  {
    NameParts(Decimal.Format3(n), slug);
    DigitPrefixOfNumeral(Decimal.Format3(n), "-" + slug + ".md");
    Decimal.ParseFormat3(n);
  }

  lemma FileNamesDiffer(m: nat, a: string, n: nat, b: string)
    requires FileName(m, a) == FileName(n, b)
    ensures m == n
  {
    ScanFindsFile(m, a);
    ScanFindsFile(n, b);
  }

  ghost function Indexes(names: seq<string>): set<nat> {
    set i | 0 <= i < |names| && IndexOf(names[i]).Some? :: IndexOf(names[i]).value
  }

  method ScanMax(names: seq<string>) returns (m: nat)
    ensures m == ScannedMax(Indexes(names))
  {
    m := 0;
    for i := 0 to |names|
      invariant m == 0 || m in Indexes(names[..i])
      invariant forall j :: 0 <= j < i && IndexOf(names[j]).Some? ==> IndexOf(names[j]).value <= m
    {
      var index := IndexOf(names[i]);
      assert forall n :: n in Indexes(names[..i]) ==> n in Indexes(names[..i + 1]) by {
        forall n | n in Indexes(names[..i]) ensures n in Indexes(names[..i + 1]) {
          var j :| 0 <= j < i && IndexOf(names[..i][j]) == Some(n);
          assert names[..i + 1][j] == names[..i][j];
        }
      }
      if index.Some? {
        assert names[..i + 1][i] == names[i];
        m := Max(m, index.value);
      }
    }
    assert names[..|names|] == names;
  }

  // ---------------------------------------------------------------------------------------------
  // One Core
  // ---------------------------------------------------------------------------------------------

  class Core {
    /** The module dictionary kept while this Core lives. */
    var memory: map<Workspace, nat>

    constructor ()
      ensures memory == map[]
    {
      memory := map[];
    }

    function Remembered(key: Workspace): nat
      reads this
    {
      if key in memory then memory[key] else 0
    }

    /** Numbers for `count` ADRs; a query that reserves nothing when `count` is not positive. */
    method Allocate(key: Workspace, names: seq<string>, disk: Disk, count: int, readOk: bool, storeOk: bool)
      returns (start: nat, disk': Disk)
      modifies this
      ensures var view := ViewOf(ReadLedger(disk, readOk), key);
              && start == NextStart(ScannedMax(Indexes(names)), view.reserved, old(Remembered(key)))
              && (count <= 0 ==> memory == old(memory) && disk' == disk)
              && (count > 0 ==>
                    && memory == old(memory)[key := start + count - 1]
                    && disk' == if storeOk then Dict(view.data[key := Number(start + count - 1)]) else disk)
    {
      var scanned := ScanMax(names);
      var view := ViewOf(ReadLedger(disk, readOk), key);
      start := NextStart(scanned, view.reserved, Remembered(key));
      disk' := disk;
      if count > 0 {
        var high := start + count - 1;
        memory := memory[key := high];
        var data := view.data[key := Number(high)];
        if storeOk {
          disk' := Dict(data);
        }
      }
    }
  }

  function LoadSteps(t: Tid, lockOk: bool, readOk: bool): seq<Label> {
    [Scan(t), LockThread(t), LockFile(t, lockOk), Load(t, readOk)]
  }

  function StoreSteps(t: Tid, storeOk: bool): seq<Label> {
    [Compute(t), Raise(t), Store(t, storeOk), Return(t)]
  }

  ghost function Listed(w: World, key: Workspace): set<nat> {
    set f | f in w.files.Keys && f.0 == key :: f.1
  }

  lemma LoadsAlone(w: World, t: Tid, c: Call, lockOk: bool, readOk: bool) returns (w': World)
    requires t in w.calls && w.calls[t] == c && c.phase.Waiting? && c.pid !in w.threadLock && w.fileLock.None?
    ensures Run(w, LoadSteps(t, lockOk, readOk), w')
    ensures var view := ViewOf(ReadLedger(w.disk, readOk), c.key);
            w' == w.(calls := w.calls[t := c.(seen := Listed(w, c.key), phase := Loaded(lockOk, view))],
                     threadLock := w.threadLock[c.pid := t],
                     fileLock := if lockOk then Some(t) else None)
  {
    var w1 := Apply(w, Scan(t));
    var w2 := Apply(w1, LockThread(t));
    var w3 := Apply(w2, LockFile(t, lockOk));
    w' := Apply(w3, Load(t, readOk));
    assert w'.calls == w.calls[t := w'.calls[t]];
    RunFour(w, Scan(t), LockThread(t), LockFile(t, lockOk), Load(t, readOk), w1, w2, w3, w');
  }

  lemma StoresAlone(w: World, t: Tid, c: Call, storeOk: bool) returns (w': World)
    requires t in w.calls && w.calls[t] == c && c.phase.Loaded? && c.count >= 1
    ensures Run(w, StoreSteps(t, storeOk), w')
    ensures var start := NextStart(ScannedMax(c.seen), c.phase.view.reserved, Memory(w, c.pid, c.key));
            w' == w.(calls := w.calls - {t},
                     threadLock := w.threadLock - {c.pid},
                     fileLock := if c.phase.file then None else w.fileLock,
                     memory := w.memory[(c.pid, c.key) := start + c.count - 1],
                     disk := if storeOk then Dict(c.phase.view.data[c.key := Number(start + c.count - 1)]) else w.disk,
                     granted := w.granted + [Grant(c.pid, c.key, start, c.count, c.seen)])
  {
    var w1 := Apply(w, Compute(t));
    var w2 := Apply(w1, Raise(t));
    var w3 := Apply(w2, Store(t, storeOk));
    w' := Apply(w3, Return(t));
    assert w'.calls == w.calls - {t};
    RunFour(w, Compute(t), Raise(t), Store(t, storeOk), Return(t), w1, w2, w3, w');
  }

  lemma {:induction false} RunAppend(w: World, ls: seq<Label>, v: World, ms: seq<Label>, u: World)
    requires Run(w, ls, v) && Run(v, ms, u)
    ensures Run(w, ls + ms, u)
    decreases |ls|
  {
    if ls == [] {
      assert ls + ms == ms;
    } else {
      RunAppend(Apply(w, ls[0]), ls[1..], v, ms, u);
      RunCons(w, ls[0], ls[1..] + ms, u);
      assert [ls[0]] + (ls[1..] + ms) == ls + ms;
    }
  }

  /** What a call that no other call interrupts leaves: as `Core.Allocate` says. */
  ghost predicate Allocated(w: World, t: Tid, c: Call, readOk: bool, storeOk: bool, w': World)
    requires c.count >= 1
  {
    var view := ViewOf(ReadLedger(w.disk, readOk), c.key);
    var start := NextStart(ScannedMax(Listed(w, c.key)), view.reserved, Memory(w, c.pid, c.key));
    && w'.granted == w.granted + [Grant(c.pid, c.key, start, c.count, Listed(w, c.key))]
    && w'.memory == w.memory[(c.pid, c.key) := start + c.count - 1]
    && w'.disk == (if storeOk then Dict(view.data[c.key := Number(start + c.count - 1)]) else w.disk)
    && w'.fileLock == w.fileLock && w'.threadLock == w.threadLock && w'.calls == w.calls - {t} && w'.files == w.files
    && w'.dead == w.dead
  }

  lemma BothHalves(w: World, t: Tid, c: Call, lockOk: bool, readOk: bool, storeOk: bool, v: World, w': World)
    requires t in w.calls && w.calls[t] == c && c.count >= 1 && c.pid !in w.threadLock && w.fileLock.None?
    requires v == w.(calls := w.calls[t := c.(seen := Listed(w, c.key),
                                              phase := Loaded(lockOk, ViewOf(ReadLedger(w.disk, readOk), c.key)))],
                     threadLock := w.threadLock[c.pid := t],
                     fileLock := if lockOk then Some(t) else None)
    requires var c1 := v.calls[t];
             var start := NextStart(ScannedMax(c1.seen), c1.phase.view.reserved, Memory(v, c1.pid, c1.key));
             w' == v.(calls := v.calls - {t},
                      threadLock := v.threadLock - {c1.pid},
                      fileLock := if c1.phase.file then None else v.fileLock,
                      memory := v.memory[(c1.pid, c1.key) := start + c1.count - 1],
                      disk := if storeOk then Dict(c1.phase.view.data[c1.key := Number(start + c1.count - 1)]) else v.disk,
                      granted := v.granted + [Grant(c1.pid, c1.key, start, c1.count, c1.seen)])
    ensures Allocated(w, t, c, readOk, storeOk, w')
  {
    assert w'.threadLock == w.threadLock;
    assert w'.calls == w.calls - {t};
  }

  /** A call that no other call interrupts grants what `Core.Allocate` returns and leaves its memory and ledger. */
  lemma UninterruptedCall(w: World, t: Tid, c: Call, lockOk: bool, readOk: bool, storeOk: bool) returns (w': World)
    requires t in w.calls && w.calls[t] == c && c.phase.Waiting? && c.count >= 1
    requires c.pid !in w.threadLock && w.fileLock.None?
    ensures Run(w, LoadSteps(t, lockOk, readOk) + StoreSteps(t, storeOk), w')
    ensures Allocated(w, t, c, readOk, storeOk, w')
  {
    var v := LoadsAlone(w, t, c, lockOk, readOk);
    w' := StoresAlone(v, t, v.calls[t], storeOk);
    BothHalves(w, t, c, lockOk, readOk, storeOk, v, w');
    RunAppend(w, LoadSteps(t, lockOk, readOk), v, StoreSteps(t, storeOk), w');
  }

  // ---------------------------------------------------------------------------------------------
  // Operations
  // ---------------------------------------------------------------------------------------------

  datatype Op = Op(file: string, number: nat)

  /** One operation for each decision, numbered on from the start. */
  function OpsFrom(slugs: seq<string>, start: nat): seq<Op> {
    seq(|slugs|, i requires 0 <= i < |slugs| => Op(FileName(start + i, slugs[i]), start + i))
  }

  lemma NextTaken(all: seq<Op>, i: nat)
    requires i < |all|
    ensures all[..i + 1] == all[..i] + [all[i]]
  {
  }

  method BuildOps(slugs: seq<string>, start: nat) returns (ops: seq<Op>)
    ensures ops == OpsFrom(slugs, start)
  {
    ghost var all := OpsFrom(slugs, start);
    ops := [];
    var n := start;
    for i := 0 to |slugs|
      invariant n == start + i && ops == all[..i]
    {
      var op := Op(FileName(n, slugs[i]), n);
      NextTaken(all, i);
      ops := ops + [op];
      n := n + 1;
    }
    assert all[..|slugs|] == all;
  }

  /** In a run without ledger faults, files of two different proposals never have the same name. */
  lemma ProposalsNeverShareAFile(w: World, ls: seq<Label>, w': World, i: nat, j: nat, m: nat, a: string, n: nat, b: string)
    requires Init(w) && Readable(w.disk) && AllClean(ls) && Run(w, ls, w')
    requires i < |w'.granted| && j < |w'.granted| && w'.granted[i].key == w'.granted[j].key && i != j
    requires w'.granted[i].Covers(m) && w'.granted[j].Covers(n)
    ensures FileName(m, a) != FileName(n, b)
  {
    if FileName(m, a) == FileName(n, b) {
      FileNamesDiffer(m, a, n, b);
      GrantsAreDisjoint(w, ls, w', i, j, m);
    }
  }
}
