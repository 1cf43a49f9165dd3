/**
 How many rounds a name takes to become known.

 One round is a sequence of instructions.  Each reads names from a copy of the tables, taken at some place of the
 round, and everything else from the tables as they are.  A name is known once a chain of instructions leads to it;
 the chain takes one round more for each link that reads what was written only after its copy was taken.
 */
module ClientHeights {
  import opened Wrappers
  import opened ClientTracking

  /** A rule, and the place in the round at which the copy that it reads names from was taken. */
  datatype Ins = Ins(rule: Rule, seen: nat)

  // ---------------------------------------------------------------------------------------------
  // A round as a sequence of instructions
  // ---------------------------------------------------------------------------------------------

  /** Parameters are installed one by one, and each reads the tables as they are. */
  function InstallIns(rules: seq<Rule>, at: nat): (p: seq<Ins>)
    ensures |p| == |rules| && forall j :: 0 <= j < |p| ==> p[j] == Ins(rules[j], at + j)
  {
    seq(|rules|, j requires 0 <= j < |rules| => Ins(rules[j], at + j))
  }

  /** The rules of a body read names as they were before the first of them. */
  function BodyIns(rules: seq<Rule>, at: nat): (p: seq<Ins>)
    ensures |p| == |rules| && forall j :: 0 <= j < |p| ==> p[j] == Ins(rules[j], at)
  {
    seq(|rules|, j requires 0 <= j < |rules| => Ins(rules[j], at))
  }

  function BlockIns(b: Block, at: nat): seq<Ins> {
    InstallIns(b.install, at) + BodyIns(b.body, at + |b.install|)
  }

  function Program(blocks: seq<Block>): seq<Ins> {
    if blocks == [] then []
    else
      var p := Program(blocks[..|blocks| - 1]);
      p + BlockIns(blocks[|blocks| - 1], |p|)
  }

  predicate Ordered(p: seq<Ins>) {
    forall i :: 0 <= i < |p| ==> p[i].seen <= i
  }

  lemma {:induction false} ProgramIsOrdered(blocks: seq<Block>)
    ensures Ordered(Program(blocks))
  {
    if blocks != [] {
      ProgramIsOrdered(blocks[..|blocks| - 1]);
    }
  }

  // ---------------------------------------------------------------------------------------------
  // What an instruction reads
  // ---------------------------------------------------------------------------------------------

  /** The source is a client by itself. */
  predicate Starts(r: Rule) {
    r.source.From? && r.source.e.Client? && r.source.e.literal != ""
  }

  /** Names read from the copy. */
  function CopyReads(r: Rule): set<Entry> {
    match r.source
    case From(Name(n)) => {Local(r.at.scope, n), Global(n)}
    case _ => {}
  }

  /** Entries read from the tables as they are. */
  function LiveReads(r: Rule): set<Entry> {
    match r.source
    case Copy(entry) => {entry}
    case From(Client(literal)) => if literal == "" then {Factory("client")} else {}
    case From(Name(n)) => {Dotted(r.at.cls, n), Dotted(None, n)}
    case From(Call(callee)) => if callee.Some? then {Factory(callee.value)} else {}
    case From(Constant) => {}
    case From(Unknown) => {}
  }

  ghost predicate Meets(wanted: set<Entry>, known: set<Entry>) {
    exists x :: x in wanted && x in known
  }

  ghost predicate Yields(r: Rule, copy: set<Entry>, live: set<Entry>) {
    Starts(r) || Meets(CopyReads(r), copy) || Meets(LiveReads(r), live)
  }

  lemma EvalYields(r: Rule, view: Tables, t: Tables)
    ensures Eval(r, view, t).Some? <==> Yields(r, view.Keys, t.Keys)
  {
    match r.source
    case Copy(entry) =>
      assert entry in LiveReads(r);
    case From(Client(literal)) =>
      assert literal == "" ==> Factory("client") in LiveReads(r);
    case From(Name(n)) =>
      assert Local(r.at.scope, n) in CopyReads(r) && Global(n) in CopyReads(r);
      assert Dotted(r.at.cls, n) in LiveReads(r) && Dotted(None, n) in LiveReads(r);
    case From(Call(callee)) =>
      assert callee.Some? ==> Factory(callee.value) in LiveReads(r);
    case From(Constant) =>
    case From(Unknown) =>
  }

  /** The names known after `n` rounds and the first `i` instructions of the next one. */
  ghost function KeysAfter(p: seq<Ins>, n: nat, i: nat): set<Entry>
    requires Ordered(p) && i <= |p|
    decreases n, i
  {
    if i == 0 then if n == 0 then {} else KeysAfter(p, n - 1, |p|)
    else
      var before := KeysAfter(p, n, i - 1);
      if Yields(p[i - 1].rule, KeysAfter(p, n, p[i - 1].seen), before) then before + {p[i - 1].rule.target} else before
  }

  lemma FireKeys(t: Tables, r: Rule, view: Tables)
    ensures Fire(t, r, view).Keys == if Yields(r, view.Keys, t.Keys) then t.Keys + {r.target} else t.Keys
  {
    EvalYields(r, view, t);
  }

  /** These instructions stand in the program from this place on. */
  predicate Stands(p: seq<Ins>, at: nat, q: seq<Ins>) {
    at + |q| <= |p| && forall j :: 0 <= j < |q| ==> p[at + j] == q[j]
  }

  lemma StandsBefore(p: seq<Ins>, at: nat, q: seq<Ins>, front: seq<Ins>)
    requires Stands(p, at, q) && front <= q
    ensures Stands(p, at, front)
  {
  }

  lemma StandsInFront(p: seq<Ins>, at: nat, front: seq<Ins>, back: seq<Ins>)
    requires Stands(p, at, front + back)
    ensures Stands(p, at, front)
  {
    StandsBefore(p, at, front + back, front);
  }

  lemma StandsBehind(p: seq<Ins>, at: nat, front: seq<Ins>, back: seq<Ins>)
    requires Stands(p, at, front + back)
    ensures Stands(p, at + |front|, back)
  {
    forall j | 0 <= j < |back| ensures p[at + |front| + j] == back[j] {
      assert p[at + (|front| + j)] == (front + back)[|front| + j] == back[j];
    }
  }

  lemma {:induction false} InstallKeys(p: seq<Ins>, n: nat, rules: seq<Rule>, at: nat, t: Tables)
    requires Ordered(p) && Stands(p, at, InstallIns(rules, at)) && t.Keys == KeysAfter(p, n, at)
    ensures Install(rules, t).Keys == KeysAfter(p, n, at + |rules|)
  {
    if rules != [] {
      var front, r := rules[..|rules| - 1], rules[|rules| - 1];
      StandsBefore(p, at, InstallIns(rules, at), InstallIns(front, at));
      InstallKeys(p, n, front, at, t);
      assert p[at + |front|] == InstallIns(rules, at)[|front|] == Ins(r, at + |front|);
      FireKeys(Install(front, t), r, Install(front, t));
    }
  }

  lemma {:induction false} ReadKeys(p: seq<Ins>, n: nat, rules: seq<Rule>, at: nat, t: Tables)
    requires Ordered(p) && Stands(p, at, BodyIns(rules, at)) && t.Keys == KeysAfter(p, n, at)
    ensures Read(rules, t, t).Keys == KeysAfter(p, n, at + |rules|)
  {
    if rules != [] {
      var front, r := rules[..|rules| - 1], rules[|rules| - 1];
      StandsBefore(p, at, BodyIns(rules, at), BodyIns(front, at));
      ReadKeys(p, n, front, at, t);
      assert p[at + |front|] == BodyIns(rules, at)[|front|] == Ins(r, at);
      FireKeys(Read(front, t, t), r, t);
    }
  }

  lemma BlockKeys(p: seq<Ins>, n: nat, b: Block, at: nat, t: Tables)
    requires Ordered(p) && Stands(p, at, BlockIns(b, at)) && t.Keys == KeysAfter(p, n, at)
    ensures Visit(b, t).Keys == KeysAfter(p, n, at + |BlockIns(b, at)|)
  {
    StandsInFront(p, at, InstallIns(b.install, at), BodyIns(b.body, at + |b.install|));
    StandsBehind(p, at, InstallIns(b.install, at), BodyIns(b.body, at + |b.install|));
    InstallKeys(p, n, b.install, at, t);
    ReadKeys(p, n, b.body, at + |b.install|, Install(b.install, t));
  }

  lemma {:induction false} BlocksKeys(p: seq<Ins>, blocks: seq<Block>, n: nat, t: Tables)
    requires Stands(p, 0, Program(blocks)) && Ordered(p) && t.Keys == KeysAfter(p, n, 0)
    ensures Round(blocks, t).Keys == KeysAfter(p, n, |Program(blocks)|)
  {
    if blocks != [] {
      var front, b := Program(blocks[..|blocks| - 1]), blocks[|blocks| - 1];
      StandsInFront(p, 0, front, BlockIns(b, |front|));
      StandsBehind(p, 0, front, BlockIns(b, |front|));
      BlocksKeys(p, blocks[..|blocks| - 1], n, t);
      BlockKeys(p, n, b, |front|, Round(blocks[..|blocks| - 1], t));
    }
  }

  /** The names known after some rounds. */
  lemma {:induction false} RoundsKeys(blocks: seq<Block>, n: nat)
    ensures Ordered(Program(blocks)) && Rounds(blocks, n).Keys == KeysAfter(Program(blocks), n, 0)
  {
    ProgramIsOrdered(blocks);
    if n > 0 {
      RoundsKeys(blocks, n - 1);
      BlocksKeys(Program(blocks), blocks, n - 1, Rounds(blocks, n - 1));
    }
  }

  // ---------------------------------------------------------------------------------------------
  // Chains
  // ---------------------------------------------------------------------------------------------

  predicate Linked(p: seq<Ins>, i: nat, j: nat)
    requires i < |p| && j < |p|
  {
    p[i].rule.target in CopyReads(p[j].rule) + LiveReads(p[j].rule)
  }

  /** Instructions that lead from a client to a name, each reading what the one before it writes. */
  predicate IsChain(p: seq<Ins>, c: seq<nat>) {
    && c != [] && (forall k :: 0 <= k < |c| ==> c[k] < |p|)
    && Starts(p[c[0]].rule) && forall k :: 0 < k < |c| ==> Linked(p, c[k - 1], c[k])
  }

  /** The link reads what is written only after its copy was taken, or after its place in the round. */
  predicate Late(p: seq<Ins>, i: nat, j: nat)
    requires i < |p| && j < |p|
  {
    i >= if p[i].rule.target in LiveReads(p[j].rule) then j else p[j].seen
  }

  function LateLinks(p: seq<Ins>, c: seq<nat>): nat
    requires IsChain(p, c)
  {
    if |c| == 1 then 0
    else LateLinks(p, c[..|c| - 1]) + if Late(p, c[|c| - 2], c[|c| - 1]) then 1 else 0
  }

  function EndOf(p: seq<Ins>, c: seq<nat>): Entry
    requires IsChain(p, c)
  {
    p[c[|c| - 1]].rule.target
  }

  /** Some chain leads to the name with so many late links, or fewer; its height is one more than the least number. */
  ghost predicate HeightAtMost(p: seq<Ins>, e: Entry, n: nat) {
    exists c :: IsChain(p, c) && EndOf(p, c) == e && LateLinks(p, c) < n
  }

  ghost predicate Derivable(p: seq<Ins>, e: Entry) {
    exists c :: IsChain(p, c) && EndOf(p, c) == e
  }

  lemma {:induction false} LaterInRound(p: seq<Ins>, n: nat, i: nat, j: nat)
    requires Ordered(p) && i <= j <= |p|
    ensures KeysAfter(p, n, i) <= KeysAfter(p, n, j)
  {
    if i < j {
      LaterInRound(p, n, i, j - 1);
    }
  }

  lemma {:induction false} LaterRounds(p: seq<Ins>, n: nat, m: nat)
    requires Ordered(p) && n <= m
    ensures KeysAfter(p, n, 0) <= KeysAfter(p, m, 0)
  {
    if n < m {
      LaterRounds(p, n, m - 1);
      LaterInRound(p, m - 1, 0, |p|);
    }
  }

  lemma NextRound(p: seq<Ins>, n: nat, i: nat, j: nat)
    requires Ordered(p) && i <= |p| && j <= |p|
    ensures KeysAfter(p, n, i) <= KeysAfter(p, n + 1, j)
  {
    LaterInRound(p, n, i, |p|);
    LaterInRound(p, n + 1, 0, j);
  }

  lemma ChainExtends(p: seq<Ins>, c: seq<nat>, j: nat)
    requires IsChain(p, c) && j < |p| && Linked(p, c[|c| - 1], j)
    ensures IsChain(p, c + [j]) && EndOf(p, c + [j]) == p[j].rule.target
    ensures LateLinks(p, c + [j]) == LateLinks(p, c) + if Late(p, c[|c| - 1], j) then 1 else 0
  {
    assert (c + [j])[..|c|] == c;
  }

  lemma ChainFront(p: seq<Ins>, c: seq<nat>)
    requires IsChain(p, c) && |c| > 1
    ensures IsChain(p, c[..|c| - 1]) && Linked(p, c[|c| - 2], c[|c| - 1])
  {
  }

  /** The round and the place at which a chain has been read. */
  predicate InTime(p: seq<Ins>, c: seq<nat>, n: nat, i: nat)
    requires IsChain(p, c)
  {
    LateLinks(p, c) < n || (LateLinks(p, c) == n && c[|c| - 1] < i)
  }

  /** Every known name has a chain that has been read in time. */
  lemma {:induction false} KnownHasChain(p: seq<Ins>, n: nat, i: nat, e: Entry) returns (c: seq<nat>)
    requires Ordered(p) && i <= |p| && e in KeysAfter(p, n, i)
    ensures IsChain(p, c) && EndOf(p, c) == e && InTime(p, c, n, i)
    decreases n, i
  {
    if i == 0 {
      c := KnownHasChain(p, n - 1, |p|, e);
    } else if e in KeysAfter(p, n, i - 1) {
      c := KnownHasChain(p, n, i - 1, e);
    } else {
      var r, copy, live := p[i - 1].rule, KeysAfter(p, n, p[i - 1].seen), KeysAfter(p, n, i - 1);
      if Starts(r) {
        c := [i - 1];
      } else if Meets(LiveReads(r), live) {
        var x :| x in LiveReads(r) && x in live;
        var d := KnownHasChain(p, n, i - 1, x);
        ChainExtends(p, d, i - 1);
        c := d + [i - 1];
      } else {
        var x :| x in CopyReads(r) && x in copy;
        var d := KnownHasChain(p, n, p[i - 1].seen, x);
        ChainExtends(p, d, i - 1);
        c := d + [i - 1];
      }
    }
  }

  /** A link that is not late is read in the same round, a late one in the next. */
  lemma LinkIsRead(p: seq<Ins>, n: nat, i: nat, j: nat)
    requires Ordered(p) && i < |p| && j < |p| && Linked(p, i, j) && p[i].rule.target in KeysAfter(p, n, i + 1)
    ensures p[j].rule.target in KeysAfter(p, if Late(p, i, j) then n + 1 else n, j + 1)
  {
    var m := if Late(p, i, j) then n + 1 else n;
    var x := p[i].rule.target;
    if Late(p, i, j) {
      NextRound(p, n, i + 1, j);
      NextRound(p, n, i + 1, p[j].seen);
    } else if x in LiveReads(p[j].rule) {
      LaterInRound(p, n, i + 1, j);
    } else {
      LaterInRound(p, n, i + 1, p[j].seen);
    }
    assert Yields(p[j].rule, KeysAfter(p, m, p[j].seen), KeysAfter(p, m, j));
  }

  /** What a chain leads to is known once it has been read. */
  lemma {:induction false} ChainIsKnown(p: seq<Ins>, c: seq<nat>)
    requires Ordered(p) && IsChain(p, c)
    ensures EndOf(p, c) in KeysAfter(p, LateLinks(p, c), c[|c| - 1] + 1)
    decreases |c|
  {
    if |c| > 1 {
      ChainFront(p, c);
      ChainIsKnown(p, c[..|c| - 1]);
      LinkIsRead(p, LateLinks(p, c[..|c| - 1]), c[|c| - 2], c[|c| - 1]);
    }
  }

  lemma LowIsKnown(p: seq<Ins>, c: seq<nat>, n: nat)
    requires Ordered(p) && IsChain(p, c) && LateLinks(p, c) < n
    ensures EndOf(p, c) in KeysAfter(p, n, 0)
  {
    ChainIsKnown(p, c);
    NextRound(p, LateLinks(p, c), c[|c| - 1] + 1, 0);
    LaterRounds(p, LateLinks(p, c) + 1, n);
  }

  /** A name is known after `n` rounds if and only if its height is at most `n`. */
  lemma KnownExactly(blocks: seq<Block>, n: nat, e: Entry)
    ensures e in Rounds(blocks, n) <==> HeightAtMost(Program(blocks), e, n)
  {
    var p := Program(blocks);
    RoundsKeys(blocks, n);
    if e in KeysAfter(p, n, 0) {
      var c := KnownHasChain(p, n, 0, e);
      assert LateLinks(p, c) < n;
    }
    if HeightAtMost(p, e, n) {
      var c :| IsChain(p, c) && EndOf(p, c) == e && LateLinks(p, c) < n;
      LowIsKnown(p, c, n);
    }
  }

  // ---------------------------------------------------------------------------------------------
  // When the rounds settle
  // ---------------------------------------------------------------------------------------------

  /** No name that can be derived is higher than this. */
  ghost predicate NoneHigher(p: seq<Ins>, n: nat) {
    forall e :: Derivable(p, e) ==> HeightAtMost(p, e, n)
  }

  lemma DerivableHasHeight(p: seq<Ins>, e: Entry) returns (n: nat)
    requires Derivable(p, e)
    ensures HeightAtMost(p, e, n)
  {
    var c :| IsChain(p, c) && EndOf(p, c) == e;
    n := LateLinks(p, c) + 1;
  }

  lemma ClosedIsNoneHigher(blocks: seq<Block>, n: nat)
    requires Closed(blocks, Rounds(blocks, n))
    ensures NoneHigher(Program(blocks), n)
  {
    forall e | Derivable(Program(blocks), e) ensures HeightAtMost(Program(blocks), e, n) {
      var m := DerivableHasHeight(Program(blocks), e);
      KnownExactly(blocks, m, e);
      KnownExactly(blocks, n, e);
      if m <= n {
        RoundsKeys(blocks, m);
        RoundsKeys(blocks, n);
        LaterRounds(Program(blocks), m, n);
      } else {
        ClosedStays(blocks, n, m);
      }
    }
  }

  lemma OpenIsHigher(blocks: seq<Block>, truth: Tables, n: nat)
    requires NoConflict(blocks, truth) && !Closed(blocks, Rounds(blocks, n))
    ensures !NoneHigher(Program(blocks), n)
  {
    RoundLearns(blocks, truth, n);
    var e :| e in KnownAfter(blocks, n + 1) && e !in KnownAfter(blocks, n);
    KnownExactly(blocks, n + 1, e);
    KnownExactly(blocks, n, e);
    assert Derivable(Program(blocks), e);
  }

  /** Without conflicts, `n` rounds settle a module if and only if no name of it is higher than `n`. */
  lemma SettledExactly(blocks: seq<Block>, truth: Tables, n: nat)
    requires NoConflict(blocks, truth)
    ensures Closed(blocks, Rounds(blocks, n)) <==> NoneHigher(Program(blocks), n)
  {
    if Closed(blocks, Rounds(blocks, n)) {
      ClosedIsNoneHigher(blocks, n);
    } else {
      OpenIsHigher(blocks, truth, n);
    }
  }

  /** The eight rounds of the code settle exactly the modules in which no name is higher than eight. */
  lemma EightRoundsExactly(m: seq<Scope>, truth: Tables)
    requires NoConflict(Blocks(m), truth)
    ensures Closed(Blocks(m), Rounds(Blocks(m), MAX_ROUNDS)) <==> NoneHigher(Program(Blocks(m)), MAX_ROUNDS)
  {
    SettledExactly(Blocks(m), truth, MAX_ROUNDS);
  }
}
