/**
 Which names of a module hold AWS clients: the round-based fixpoint over the scanner's five tables.

 The five tables are one map here, keyed by table and name.  A round visits every scope and then every
 function's returns; inside a scope the local and global names are read from a copy taken at its start, the
 other tables are read as they stand.
 */
module ClientTracking {
  import opened Wrappers

  type Service = s: string | s != "" witness "s3"

  /** `Client` is a call of `.client` with a literal first argument, `Call` any other call. */
  datatype Expr =
    | Client(literal: string)
    | Name(path: string)
    | Call(callee: Option<string>)
    | Constant
    | Unknown

  datatype Entry =
    | Local(scope: nat, name: string)
    | Global(name: string)
    | Dotted(owner: Option<string>, name: string)
    | Factory(name: string)
    | Param(scope: nat, name: string)

  type Tables = map<Entry, Service>

  /** Where an expression stands: its scope and the class around it. */
  datatype Place = Place(scope: nat, cls: Option<string>)

  datatype Source = From(e: Expr) | Copy(entry: Entry)

  /** "If the source is a client of some service, so is the target." */
  datatype Rule = Rule(target: Entry, at: Place, source: Source)

  /** The rules of one visit: parameters are installed first, then the copy is taken, then the body is read. */
  datatype Block = Block(install: seq<Rule>, body: seq<Rule>)

  const MAX_ROUNDS := 8

  // ---------------------------------------------------------------------------------------------
  // Rules of a module
  // ---------------------------------------------------------------------------------------------

  datatype CallSite = CallSite(
    callee: Option<string>, attribute: bool, onSelf: bool, args: seq<Expr>, keywords: seq<(string, Expr)>)

  datatype Scope = Scope(
    isModule: bool, fname: Option<string>, params: seq<string>, cls: Option<string>,
    assigns: seq<(string, Expr)>, calls: seq<CallSite>, results: seq<Expr>)

  function PlaceOf(m: seq<Scope>, i: nat): Place
    requires i < |m|
  {
    Place(i, m[i].cls)
  }

  predicate InModule(m: seq<Scope>, defs: seq<nat>) {
    forall j :: 0 <= j < |defs| ==> defs[j] < |m|
  }

  function Definitions(m: seq<Scope>, fname: string, i: nat): (d: seq<nat>)
    requires i <= |m|
    ensures InModule(m, d)
    ensures forall k :: k in d <==> i <= k < |m| && m[k].fname == Some(fname)
    decreases |m| - i
  {
    if i == |m| then []
    else (if m[i].fname == Some(fname) then [i] else []) + Definitions(m, fname, i + 1)
  }

  function OfClass(m: seq<Scope>, defs: seq<nat>, cls: Option<string>): (d: seq<nat>)
    requires InModule(m, defs)
    ensures InModule(m, d)
    ensures forall k :: k in d <==> k in defs && k < |m| && m[k].cls == cls
  {
    if defs == [] then []
    else (if m[defs[0]].cls == cls then [defs[0]] else []) + OfClass(m, defs[1..], cls)
  }

  /** A call on `self` means the definitions of the same class, if there are any; otherwise every definition of the name. */
  function Candidates(m: seq<Scope>, c: CallSite, cls: Option<string>): (d: seq<nat>)
    ensures InModule(m, d)
    ensures forall k :: k in d <==>
              0 <= k < |m| && c.callee.Some? && m[k].fname == c.callee
              && (c.onSelf && cls.Some? && InClass(m, c.callee, cls) ==> m[k].cls == cls)
  {
    if c.callee.None? then []
    else
      var all := Definitions(m, c.callee.value, 0);
      var same := if c.onSelf && cls.Some? then OfClass(m, all, cls) else [];
      SameClass(m, c.callee.value, cls);
      if same != [] then same else all
  }

  /** The class defines the name. */
  predicate InClass(m: seq<Scope>, fname: Option<string>, cls: Option<string>) {
    exists k :: 0 <= k < |m| && m[k].fname == fname && m[k].cls == cls
  }

  lemma SameClass(m: seq<Scope>, fname: string, cls: Option<string>)
    ensures OfClass(m, Definitions(m, fname, 0), cls) != [] <==> InClass(m, Some(fname), cls)
  {
    var same := OfClass(m, Definitions(m, fname, 0), cls);
    if same != [] {
      assert same[0] in same;
    }
    if k :| 0 <= k < |m| && m[k].fname == Some(fname) && m[k].cls == cls {
      assert k in same;
    }
  }

  function Zip(target: nat, at: Place, names: seq<string>, values: seq<Expr>): seq<Rule> {
    if names == [] || values == [] then []
    else [Rule(Param(target, names[0]), at, From(values[0]))] + Zip(target, at, names[1..], values[1..])
  }

  function BindOne(m: seq<Scope>, c: CallSite, at: Place, target: nat): seq<Rule>
    requires target < |m|
  {
    var params := m[target].params;
    var bound := if params != [] && params[0] in {"self", "cls"} && c.attribute then params[1..] else params;
    Zip(target, at, bound, c.args) +
    seq(|c.keywords|, j requires 0 <= j < |c.keywords| => Rule(Param(target, c.keywords[j].0), at, From(c.keywords[j].1)))
  }

  function BindAll(m: seq<Scope>, c: CallSite, at: Place, targets: seq<nat>): seq<Rule>
    requires InModule(m, targets)
  {
    if targets == [] then [] else BindOne(m, c, at, targets[0]) + BindAll(m, c, at, targets[1..])
  }

  function Binds(m: seq<Scope>, calls: seq<CallSite>, at: Place): seq<Rule> {
    if calls == [] then []
    else BindAll(m, calls[0], at, Candidates(m, calls[0], at.cls)) + Binds(m, calls[1..], at)
  }

  function AssignRule(m: seq<Scope>, i: nat, key: string, value: Expr): Rule
    requires i < |m|
  {
    Rule(if '.' in key then Dotted(m[i].cls, key) else if m[i].isModule then Global(key) else Local(i, key),
         PlaceOf(m, i), From(value))
  }

  function BodyRules(m: seq<Scope>, i: nat): seq<Rule>
    requires i < |m|
  {
    var assigns := m[i].assigns;
    seq(|assigns|, j requires 0 <= j < |assigns| => AssignRule(m, i, assigns[j].0, assigns[j].1)) +
    Binds(m, m[i].calls, PlaceOf(m, i))
  }

  /** Parameters of scope `i` that some call of the module binds. */
  function InstallRules(at: Place, rules: seq<Rule>): seq<Rule> {
    if rules == [] then []
    else
      (if rules[0].target.Param? && rules[0].target.scope == at.scope
       then [Rule(Local(at.scope, rules[0].target.name), at, Copy(rules[0].target))] else []) +
      InstallRules(at, rules[1..])
  }

  function AllBodies(m: seq<Scope>, i: nat): seq<Rule>
    requires i <= |m|
    decreases |m| - i
  {
    if i == |m| then [] else BodyRules(m, i) + AllBodies(m, i + 1)
  }

  function ScopeBlock(m: seq<Scope>, i: nat): Block
    requires i < |m|
  {
    Block(if m[i].fname.Some? then InstallRules(PlaceOf(m, i), AllBodies(m, 0)) else [], BodyRules(m, i))
  }

  function ScopeBlocks(m: seq<Scope>): seq<Block> {
    seq(|m|, i requires 0 <= i < |m| => ScopeBlock(m, i))
  }

  function ReturnsOf(m: seq<Scope>, fname: string, at: Place, defs: seq<nat>): seq<Rule>
    requires InModule(m, defs)
  {
    if defs == [] then []
    else
      var values := m[defs[0]].results;
      seq(|values|, j requires 0 <= j < |values| => Rule(Factory(fname), at, From(values[j]))) +
      ReturnsOf(m, fname, at, defs[1..])
  }

  /** One visit per function name; returns of every definition are read where the first one stands. */
  function ReturnBlocks(m: seq<Scope>, i: nat): seq<Block>
    requires i <= |m|
    decreases |m| - i
  {
    if i == |m| then []
    else
      var rest := ReturnBlocks(m, i + 1);
      if m[i].fname.None? || Definitions(m, m[i].fname.value, 0)[0] != i then rest
      else
        [Block([], ReturnsOf(m, m[i].fname.value, PlaceOf(m, i), Definitions(m, m[i].fname.value, 0)))] + rest
  }

  function Blocks(m: seq<Scope>): seq<Block> {
    ScopeBlocks(m) + ReturnBlocks(m, 0)
  }

  // ---------------------------------------------------------------------------------------------
  // Evaluation and rounds
  // ---------------------------------------------------------------------------------------------

  function Look(t: Tables, e: Entry): Option<Service> {
    if e in t then Some(t[e]) else None
  }

  /** What the names in view say of the expression: locals lie over globals. */
  function Bound(view: Tables, scope: nat, e: Expr): Option<Service> {
    if !e.Name? then None
    else if Local(scope, e.path) in view then Some(view[Local(scope, e.path)])
    else Look(view, Global(e.path))
  }

  function ServiceOf(bound: Option<Service>, t: Tables, cls: Option<string>, e: Expr): Option<Service> {
    match e
    case Client(literal) => if literal != "" then Some(literal) else Look(t, Factory("client"))
    case Name(n) =>
      if bound.Some? then bound
      else if Dotted(cls, n) in t then Some(t[Dotted(cls, n)])
      else Look(t, Dotted(None, n))
    case Call(callee) => if callee.Some? then Look(t, Factory(callee.value)) else None
    case Constant => None
    case Unknown => None
  }

  function Eval(r: Rule, view: Tables, t: Tables): Option<Service> {
    match r.source
    case From(e) => ServiceOf(Bound(view, r.at.scope, e), t, r.at.cls, e)
    case Copy(entry) => Look(t, entry)
  }

  function Fire(t: Tables, r: Rule, view: Tables): Tables {
    match Eval(r, view, t)
    case Some(s) => t[r.target := s]
    case None => t
  }

  function Install(rules: seq<Rule>, t: Tables): Tables {
    if rules == [] then t
    else
      var before := Install(rules[..|rules| - 1], t);
      Fire(before, rules[|rules| - 1], before)
  }

  function Read(rules: seq<Rule>, view: Tables, t: Tables): Tables {
    if rules == [] then t
    else Fire(Read(rules[..|rules| - 1], view, t), rules[|rules| - 1], view)
  }

  function Visit(b: Block, t: Tables): Tables {
    var installed := Install(b.install, t);
    Read(b.body, installed, installed)
  }

  function Round(blocks: seq<Block>, t: Tables): Tables {
    if blocks == [] then t
    else Visit(blocks[|blocks| - 1], Round(blocks[..|blocks| - 1], t))
  }

  function Rounds(blocks: seq<Block>, n: nat): Tables {
    if n == 0 then map[] else Round(blocks, Rounds(blocks, n - 1))
  }

  predicate Satisfied(r: Rule, t: Tables) {
    Eval(r, t, t).Some? ==> Look(t, r.target) == Eval(r, t, t)
  }

  predicate AllSatisfied(rules: seq<Rule>, t: Tables) {
    forall r :: r in rules ==> Satisfied(r, t)
  }

  lemma SatisfiedStep(rules: seq<Rule>, i: nat, t: Tables)
    requires i < |rules|
    ensures AllSatisfied(rules[..i + 1], t) <==> AllSatisfied(rules[..i], t) && Satisfied(rules[i], t)
  {
    assert forall q :: q in rules[..i + 1] <==> q in rules[..i] || q == rules[i];
  }

  /** Every assignment, argument, parameter and return rule holds. */
  predicate Closed(blocks: seq<Block>, t: Tables) {
    forall b :: b in blocks ==> AllSatisfied(b.install, t) && AllSatisfied(b.body, t)
  }

  lemma {:induction false} IdleInstall(rules: seq<Rule>, t: Tables)
    requires AllSatisfied(rules, t)
    ensures Install(rules, t) == t
  {
    if rules != [] {
      var n := |rules| - 1;
      assert forall r :: r in rules[..n] ==> r in rules;
      IdleInstall(rules[..n], t);
      assert rules[n] in rules;
    }
  }

  lemma {:induction false} IdleRead(rules: seq<Rule>, t: Tables)
    requires AllSatisfied(rules, t)
    ensures Read(rules, t, t) == t
  {
    if rules != [] {
      var n := |rules| - 1;
      assert forall r :: r in rules[..n] ==> r in rules;
      IdleRead(rules[..n], t);
      assert rules[n] in rules;
    }
  }

  /** A round on closed tables changes nothing. */
  lemma {:induction false} IdleRound(blocks: seq<Block>, t: Tables)
    requires Closed(blocks, t)
    ensures Round(blocks, t) == t
  {
    if blocks != [] {
      var n := |blocks| - 1;
      assert forall b :: b in blocks[..n] ==> b in blocks;
      IdleRound(blocks[..n], t);
      assert blocks[n] in blocks;
      IdleInstall(blocks[n].install, t);
      IdleRead(blocks[n].body, t);
    }
  }

  /** Once closed the tables stay as they are. */
  lemma {:induction false} ClosedStays(blocks: seq<Block>, n: nat, m: nat)
    requires n <= m && Closed(blocks, Rounds(blocks, n))
    ensures Rounds(blocks, m) == Rounds(blocks, n)
  {
    if n < m {
      ClosedStays(blocks, n, m - 1);
      IdleRound(blocks, Rounds(blocks, n));
    }
  }

  // ---------------------------------------------------------------------------------------------
  // The scanner
  // ---------------------------------------------------------------------------------------------

  class ModuleScanner {
    var tables: Tables

    constructor ()
      ensures tables == map[]
    {
      tables := map[];
    }

    /** Reads rules one after the other; the flag is raised by the first entry that changes. */
    method Apply(rules: seq<Rule>, snapshot: Option<Tables>) returns (changed: bool)
      requires snapshot.Some? ==> snapshot.value == tables
      modifies this
      ensures tables == if snapshot.Some? then Read(rules, snapshot.value, old(tables)) else Install(rules, old(tables))
      ensures changed <==> !AllSatisfied(rules, old(tables))
      ensures !changed ==> tables == old(tables)
    {
      changed := false;
      for i := 0 to |rules|
        invariant tables ==
                  if snapshot.Some? then Read(rules[..i], snapshot.value, old(tables)) else Install(rules[..i], old(tables))
        invariant changed <==> !AllSatisfied(rules[..i], old(tables))
        invariant !changed ==> tables == old(tables)
      {
        var r := rules[i];
        assert rules[..i + 1][..i] == rules[..i];
        var svc := Eval(r, if snapshot.Some? then snapshot.value else tables, tables);
        if svc.Some? && Look(tables, r.target) != svc {
          tables := tables[r.target := svc.value];
          changed := true;
        }
        SatisfiedStep(rules, i, old(tables));
      }
      assert rules[..|rules|] == rules;
    }

    method OneRound(blocks: seq<Block>) returns (changed: bool)
      modifies this
      ensures tables == Round(blocks, old(tables))
      ensures changed <==> !Closed(blocks, old(tables))
      ensures !changed ==> tables == old(tables)
    {
      changed := false;
      for i := 0 to |blocks|
        invariant tables == Round(blocks[..i], old(tables))
        invariant changed <==> !Closed(blocks[..i], old(tables))
        invariant !changed ==> tables == old(tables)
      {
        var b := blocks[i];
        assert blocks[..i + 1][..i] == blocks[..i] && forall q :: q in blocks[..i + 1] <==> q in blocks[..i] || q == b;
        var first := Apply(b.install, None);
        var second := Apply(b.body, Some(tables));
        changed := changed || first || second;
      }
      assert blocks[..|blocks|] == blocks;
    }

    /** Rounds until one changes nothing, or until the limit; `settled` says which. */
    method Iterate(blocks: seq<Block>, limit: nat) returns (settled: bool, rounds: nat)
      requires tables == map[]
      modifies this
      ensures rounds <= limit && tables == Rounds(blocks, rounds) && (!settled ==> rounds == limit)
      ensures settled ==> Closed(blocks, tables)
      ensures settled <==> exists n :: 0 <= n < limit && Closed(blocks, Rounds(blocks, n))
    {
      rounds := 0;
      settled := false;
      while rounds < limit
        invariant rounds <= limit && tables == Rounds(blocks, rounds)
        invariant forall n :: 0 <= n < rounds ==> !Closed(blocks, Rounds(blocks, n))
      {
        var changed := OneRound(blocks);
        if !changed {
          assert Closed(blocks, Rounds(blocks, rounds));
          return true, rounds;
        }
        rounds := rounds + 1;
      }
    }

    method Resolve(m: seq<Scope>) returns (settled: bool, rounds: nat)
      requires tables == map[]
      modifies this
      ensures rounds <= MAX_ROUNDS && tables == Rounds(Blocks(m), rounds) == Rounds(Blocks(m), MAX_ROUNDS)
      ensures settled ==> Closed(Blocks(m), tables)
      ensures settled <==> exists n :: 0 <= n < MAX_ROUNDS && Closed(Blocks(m), Rounds(Blocks(m), n))
    {
      settled, rounds := Iterate(Blocks(m), MAX_ROUNDS);
      if settled {
        ClosedStays(Blocks(m), rounds, MAX_ROUNDS);
      }
    }
  }

  // ---------------------------------------------------------------------------------------------
  // The least set of known names
  // ---------------------------------------------------------------------------------------------

  predicate InRules(blocks: seq<Block>, r: Rule) {
    exists b :: b in blocks && (r in b.install || r in b.body)
  }

  /** The source is a client as soon as these entries are. */
  predicate Known(r: Rule, s: set<Entry>) {
    match r.source
    case Copy(entry) => entry in s
    case From(Client(literal)) => literal != "" || Factory("client") in s
    case From(Name(n)) =>
      Local(r.at.scope, n) in s || Global(n) in s || Dotted(r.at.cls, n) in s || Dotted(None, n) in s
    case From(Call(callee)) => callee.Some? && Factory(callee.value) in s
    case From(Constant) => false
    case From(Unknown) => false
  }

  ghost predicate DomainClosed(blocks: seq<Block>, s: set<Entry>) {
    forall r :: InRules(blocks, r) && Known(r, s) ==> r.target in s
  }

  /** Each entry is the target of a rule whose source is known. */
  ghost predicate Grounded(blocks: seq<Block>, t: Tables) {
    forall e :: e in t ==> exists r :: InRules(blocks, r) && r.target == e && Known(r, t.Keys)
  }

  lemma FireFacts(t: Tables, r: Rule, view: Tables)
    requires view.Keys <= t.Keys
    ensures t.Keys <= Fire(t, r, view).Keys <= t.Keys + {r.target}
    ensures Fire(t, r, view).Keys != t.Keys ==> Known(r, t.Keys)
    ensures Known(r, view.Keys) ==> r.target in Fire(t, r, view)
  {
  }

  lemma FireGrounded(blocks: seq<Block>, t: Tables, r: Rule, view: Tables)
    requires InRules(blocks, r) && Grounded(blocks, t) && view.Keys <= t.Keys
    ensures Grounded(blocks, Fire(t, r, view))
  {
    FireFacts(t, r, view);
    var t' := Fire(t, r, view);
    forall e | e in t' ensures exists q :: InRules(blocks, q) && q.target == e && Known(q, t'.Keys) {
      if e in t {
        var q :| InRules(blocks, q) && q.target == e && Known(q, t.Keys);
        assert Known(q, t'.Keys);
      } else {
        assert Known(r, t'.Keys);
      }
    }
  }

  /** What every kind of step keeps about the set of known names. */
  ghost predicate Grows(blocks: seq<Block>, t: Tables, t': Tables) {
    && t.Keys <= t'.Keys
    && (Grounded(blocks, t) ==> Grounded(blocks, t'))
    && (forall s :: DomainClosed(blocks, s) && t.Keys <= s ==> t'.Keys <= s)
  }

  lemma FireGrows(blocks: seq<Block>, t: Tables, r: Rule, view: Tables)
    requires InRules(blocks, r) && view.Keys <= t.Keys
    ensures Grows(blocks, t, Fire(t, r, view))
  {
    FireFacts(t, r, view);
    if Grounded(blocks, t) {
      FireGrounded(blocks, t, r, view);
    }
    forall s | DomainClosed(blocks, s) && t.Keys <= s ensures Fire(t, r, view).Keys <= s {
      if Fire(t, r, view).Keys != t.Keys {
        assert Known(r, s);
      }
    }
  }

  lemma {:induction false} InstallGrows(blocks: seq<Block>, rules: seq<Rule>, t: Tables)
    requires forall r :: r in rules ==> InRules(blocks, r)
    ensures Grows(blocks, t, Install(rules, t))
    ensures forall r :: r in rules && Known(r, t.Keys) ==> r.target in Install(rules, t)
  {
    if rules != [] {
      var n := |rules| - 1;
      InstallGrows(blocks, rules[..n], t);
      var before := Install(rules[..n], t);
      FireGrows(blocks, before, rules[n], before);
      FireFacts(before, rules[n], before);
      assert forall r :: r in rules ==> r in rules[..n] || r == rules[n];
    }
  }

  lemma {:induction false} ReadGrows(blocks: seq<Block>, rules: seq<Rule>, view: Tables, t: Tables)
    requires view.Keys <= t.Keys && forall r :: r in rules ==> InRules(blocks, r)
    ensures Grows(blocks, t, Read(rules, view, t))
    ensures forall r :: r in rules && Known(r, view.Keys) ==> r.target in Read(rules, view, t)
  {
    if rules != [] {
      var n := |rules| - 1;
      ReadGrows(blocks, rules[..n], view, t);
      var before := Read(rules[..n], view, t);
      FireGrows(blocks, before, rules[n], view);
      FireFacts(before, rules[n], view);
      assert forall r :: r in rules ==> r in rules[..n] || r == rules[n];
    }
  }

  lemma GrowsOn(blocks: seq<Block>, t: Tables, mid: Tables, t': Tables)
    requires Grows(blocks, t, mid) && Grows(blocks, mid, t')
    ensures Grows(blocks, t, t')
  {
  }

  lemma VisitGrows(blocks: seq<Block>, b: Block, t: Tables)
    requires b in blocks
    ensures Grows(blocks, t, Visit(b, t))
    ensures forall r :: (r in b.install || r in b.body) && Known(r, t.Keys) ==> r.target in Visit(b, t)
  {
    assert forall r :: r in b.install || r in b.body ==> InRules(blocks, r);
    var installed := Install(b.install, t);
    InstallGrows(blocks, b.install, t);
    ReadGrows(blocks, b.body, installed, installed);
    GrowsOn(blocks, t, installed, Visit(b, t));
    forall r | r in b.body && Known(r, t.Keys) ensures Known(r, installed.Keys) {
    }
  }

  lemma {:induction false} RoundGrows(blocks: seq<Block>, some: seq<Block>, t: Tables)
    requires forall b :: b in some ==> b in blocks
    ensures Grows(blocks, t, Round(some, t))
    ensures forall r :: InRules(some, r) && Known(r, t.Keys) ==> r.target in Round(some, t)
  {
    if some != [] {
      var n := |some| - 1;
      RoundGrows(blocks, some[..n], t);
      var before := Round(some[..n], t);
      VisitGrows(blocks, some[n], before);
      forall r | InRules(some, r) && Known(r, t.Keys) ensures r.target in Round(some, t) {
        var b :| b in some && (r in b.install || r in b.body);
        if b in some[..n] {
          assert InRules(some[..n], r);
        }
        assert Known(r, before.Keys);
      }
    }
  }

  lemma {:induction false} RoundsGrounded(blocks: seq<Block>, n: nat)
    ensures Grounded(blocks, Rounds(blocks, n))
    ensures forall s :: DomainClosed(blocks, s) ==> Rounds(blocks, n).Keys <= s
  {
    if n > 0 {
      RoundsGrounded(blocks, n - 1);
      RoundGrows(blocks, blocks, Rounds(blocks, n - 1));
    }
  }

  lemma ClosedIsDomainClosed(blocks: seq<Block>, t: Tables)
    requires Closed(blocks, t)
    ensures DomainClosed(blocks, t.Keys)
  {
    forall r | InRules(blocks, r) && Known(r, t.Keys) ensures r.target in t.Keys {
      EvalKnown(r, t);
      ClosedSatisfies(blocks, t, r);
    }
  }

  /** Every entry comes from a rule that now yields exactly its service. */
  ghost predicate Supported(blocks: seq<Block>, t: Tables) {
    forall e :: e in t ==> exists r :: InRules(blocks, r) && r.target == e && Eval(r, t, t) == Some(t[e])
  }

  ghost predicate LeastClosed(blocks: seq<Block>, s: set<Entry>) {
    DomainClosed(blocks, s) && forall other :: DomainClosed(blocks, other) ==> s <= other
  }

  lemma EvalKnown(r: Rule, t: Tables)
    ensures Known(r, t.Keys) <==> Eval(r, t, t).Some?
  {
  }

  lemma ClosedSatisfies(blocks: seq<Block>, t: Tables, r: Rule)
    requires Closed(blocks, t) && InRules(blocks, r)
    ensures Satisfied(r, t)
  {
  }

  lemma GroundedAndClosed(blocks: seq<Block>, t: Tables)
    requires Grounded(blocks, t) && Closed(blocks, t)
    ensures Supported(blocks, t)
  {
    forall e | e in t ensures exists r :: InRules(blocks, r) && r.target == e && Eval(r, t, t) == Some(t[e]) {
      var r :| InRules(blocks, r) && r.target == e && Known(r, t.Keys);
      EvalKnown(r, t);
      ClosedSatisfies(blocks, t, r);
    }
  }

  /** If the rounds stop because one changed nothing: closed, supported, and the least closed set of names. */
  lemma SettledTables(blocks: seq<Block>, n: nat)
    requires Closed(blocks, Rounds(blocks, n))
    ensures Supported(blocks, Rounds(blocks, n))
    ensures LeastClosed(blocks, Rounds(blocks, n).Keys)
  {
    RoundsGrounded(blocks, n);
    ClosedIsDomainClosed(blocks, Rounds(blocks, n));
    GroundedAndClosed(blocks, Rounds(blocks, n));
  }

  // ---------------------------------------------------------------------------------------------
  // How many rounds it takes
  // ---------------------------------------------------------------------------------------------

  ghost predicate Within(t: Tables, truth: Tables) {
    forall e :: e in t ==> e in truth && truth[e] == t[e]
  }

  /** No two rules ever disagree: whatever is known of `truth`, each rule yields what `truth` says of its target. */
  ghost predicate NoConflict(blocks: seq<Block>, truth: Tables) {
    forall r, view, t :: InRules(blocks, r) && Within(view, truth) && Within(t, truth) && Eval(r, view, t).Some? ==>
      r.target in truth && truth[r.target] == Eval(r, view, t).value
  }

  lemma FireWithin(blocks: seq<Block>, truth: Tables, t: Tables, r: Rule, view: Tables)
    requires NoConflict(blocks, truth) && InRules(blocks, r) && Within(t, truth) && Within(view, truth)
    ensures Within(Fire(t, r, view), truth)
  {
  }

  lemma {:induction false} InstallWithin(blocks: seq<Block>, truth: Tables, rules: seq<Rule>, t: Tables)
    requires NoConflict(blocks, truth) && Within(t, truth) && forall r :: r in rules ==> InRules(blocks, r)
    ensures Within(Install(rules, t), truth)
  {
    if rules != [] {
      var n := |rules| - 1;
      InstallWithin(blocks, truth, rules[..n], t);
      FireWithin(blocks, truth, Install(rules[..n], t), rules[n], Install(rules[..n], t));
    }
  }

  lemma {:induction false} ReadWithin(blocks: seq<Block>, truth: Tables, rules: seq<Rule>, view: Tables, t: Tables)
    requires NoConflict(blocks, truth) && Within(t, truth) && Within(view, truth)
    requires forall r :: r in rules ==> InRules(blocks, r)
    ensures Within(Read(rules, view, t), truth)
  {
    if rules != [] {
      var n := |rules| - 1;
      ReadWithin(blocks, truth, rules[..n], view, t);
      FireWithin(blocks, truth, Read(rules[..n], view, t), rules[n], view);
    }
  }

  lemma {:induction false} RoundWithin(blocks: seq<Block>, truth: Tables, some: seq<Block>, t: Tables)
    requires NoConflict(blocks, truth) && Within(t, truth) && forall b :: b in some ==> b in blocks
    ensures Within(Round(some, t), truth)
  {
    if some != [] {
      var n := |some| - 1;
      RoundWithin(blocks, truth, some[..n], t);
      var b, before := some[n], Round(some[..n], t);
      assert forall r :: r in b.install || r in b.body ==> InRules(blocks, r);
      InstallWithin(blocks, truth, b.install, before);
      ReadWithin(blocks, truth, b.body, Install(b.install, before), Install(b.install, before));
    }
  }

  lemma {:induction false} RoundsWithin(blocks: seq<Block>, truth: Tables, n: nat)
    requires NoConflict(blocks, truth)
    ensures Within(Rounds(blocks, n), truth)
  {
    if n > 0 {
      RoundsWithin(blocks, truth, n - 1);
      RoundWithin(blocks, truth, blocks, Rounds(blocks, n - 1));
    }
  }

  lemma Violated(blocks: seq<Block>, t: Tables) returns (r: Rule)
    requires !Closed(blocks, t)
    ensures InRules(blocks, r) && !Satisfied(r, t)
  {
    var b :| b in blocks && !(AllSatisfied(b.install, t) && AllSatisfied(b.body, t));
    r :| (r in b.install || r in b.body) && !Satisfied(r, t);
  }

  /** Without conflicts a round that changes something learns a new name. */
  lemma ChangingRoundLearns(blocks: seq<Block>, truth: Tables, t: Tables)
    requires NoConflict(blocks, truth) && Within(t, truth) && !Closed(blocks, t)
    ensures t.Keys < Round(blocks, t).Keys
  {
    RoundGrows(blocks, blocks, t);
    var r := Violated(blocks, t);
    EvalKnown(r, t);
    assert r.target !in t;
  }

  lemma SmallerSet<T>(a: set<T>, b: set<T>)
    requires a < b
    ensures |a| < |b|
  {
    var x :| x in b && x !in a;
    assert a <= b - {x};
    SubsetSize(a, b - {x});
  }

  lemma {:induction false} SubsetSize<T>(a: set<T>, b: set<T>)
    requires a <= b
    ensures |a| <= |b|
  {
    if a != {} {
      var x :| x in a;
      SubsetSize(a - {x}, b - {x});
    }
  }

  function KnownAfter(blocks: seq<Block>, n: nat): set<Entry> {
    Rounds(blocks, n).Keys
  }

  lemma RoundLearns(blocks: seq<Block>, truth: Tables, k: nat)
    requires NoConflict(blocks, truth) && !Closed(blocks, Rounds(blocks, k))
    ensures KnownAfter(blocks, k) < KnownAfter(blocks, k + 1)
  {
    RoundsWithin(blocks, truth, k);
    ChangingRoundLearns(blocks, truth, Rounds(blocks, k));
  }

  lemma {:induction false} SizeOfRounds(blocks: seq<Block>, n: nat)
    requires forall k :: 0 <= k < n ==> KnownAfter(blocks, k) < KnownAfter(blocks, k + 1)
    ensures |KnownAfter(blocks, n)| >= n
  {
    if n > 0 {
      SizeOfRounds(blocks, n - 1);
      assert KnownAfter(blocks, n - 1) < KnownAfter(blocks, n - 1 + 1);
      SmallerSet(KnownAfter(blocks, n - 1), KnownAfter(blocks, n));
    }
  }

  /** Without conflicts no more rounds change anything than there are names to learn. */
  lemma ChangingRoundsBounded(blocks: seq<Block>, truth: Tables, names: set<Entry>)
    requires NoConflict(blocks, truth) && forall r :: InRules(blocks, r) ==> r.target in names
    ensures exists n :: 0 <= n <= |names| && Closed(blocks, Rounds(blocks, n))
  {
    if forall n :: 0 <= n <= |names| ==> !Closed(blocks, Rounds(blocks, n)) {
      var n := |names| + 1;
      forall k | 0 <= k < n ensures KnownAfter(blocks, k) < KnownAfter(blocks, k + 1) {
        RoundLearns(blocks, truth, k);
      }
      SizeOfRounds(blocks, n);
      RoundsGrounded(blocks, n);
      assert DomainClosed(blocks, names);
      SubsetSize(KnownAfter(blocks, n), names);
      assert false;
    }
  }

  /** Eight rounds settle every module without conflicts that has no more than eight names to learn. */
  lemma EightNamesSettle(m: seq<Scope>, truth: Tables, names: set<Entry>)
    requires NoConflict(Blocks(m), truth) && forall r :: InRules(Blocks(m), r) ==> r.target in names
    requires |names| <= MAX_ROUNDS
    ensures Closed(Blocks(m), Rounds(Blocks(m), MAX_ROUNDS))
  {
    ChangingRoundsBounded(Blocks(m), truth, names);
    var n :| 0 <= n <= |names| && Closed(Blocks(m), Rounds(Blocks(m), n));
    ClosedStays(Blocks(m), n, MAX_ROUNDS);
  }

  // ---------------------------------------------------------------------------------------------
  // Eight rounds are not always enough
  // ---------------------------------------------------------------------------------------------

  function Alias(i: nat): string {
    seq(i + 1, _ => 'c')
  }

  function AliasValue(i: nat): Expr {
    if i == 0 then Client("s3") else Name(Alias(i - 1))
  }

  /** A module that makes a client and then assigns it on from name to name, in order. */
  function AliasModule(n: nat): seq<Scope> {
    [Scope(true, None, [], None, seq(n, i requires 0 <= i < n => (Alias(i), AliasValue(i))), [], [])]
  }

  function AliasRule(i: nat): Rule {
    Rule(Global(Alias(i)), Place(0, None), From(AliasValue(i)))
  }

  function AliasChain(n: nat): seq<Block> {
    [Block([], seq(n, i requires 0 <= i < n => AliasRule(i)))]
  }

  lemma AliasBlocks(n: nat)
    ensures Blocks(AliasModule(n)) == AliasChain(n)
  {
    var m := AliasModule(n);
    assert BodyRules(m, 0) == AliasChain(n)[0].body;
    assert ScopeBlocks(m) == AliasChain(n);
    assert ReturnBlocks(m, 0) == [];
  }

  function AliasTable(k: nat): Tables {
    var names := set i | 0 <= i < k :: Global(Alias(i));
    map e | e in names :: "s3"
  }

  lemma AliasInTable(i: nat, k: nat)
    ensures Global(Alias(i)) in AliasTable(k) <==> i < k
  {
    if Global(Alias(i)) in AliasTable(k) {
      var j :| 0 <= j < k && Global(Alias(j)) == Global(Alias(i));
      assert |Alias(i)| == i + 1 && |Alias(j)| == j + 1;
    }
  }

  lemma AliasTableGrows(k: nat)
    ensures AliasTable(k)[Global(Alias(k)) := "s3"] == AliasTable(k + 1)
  {
    assert forall e :: e in AliasTable(k + 1) <==> e in AliasTable(k) || e == Global(Alias(k));
  }

  /** Only the first name still missing is learnt: its value is in the copy, the next one's is not. */
  lemma FireAlias(j: nat, k: nat)
    ensures var t := AliasTable(if j <= k then k else k + 1);
            Fire(t, AliasRule(j), AliasTable(k)) == AliasTable(if j < k then k else k + 1)
  {
    var t := AliasTable(if j <= k then k else k + 1);
    AliasInTable(j, k);
    if j > 0 {
      AliasInTable(j - 1, k);
      assert Local(0, Alias(j - 1)) !in AliasTable(k) && Dotted(None, Alias(j - 1)) !in t;
    }
    if j < k {
      assert t[Global(Alias(j)) := "s3"] == t;
    } else if j == k {
      AliasTableGrows(k);
    }
  }

  lemma {:induction false} ReadChain(rules: seq<Rule>, j: nat, k: nat)
    requires j <= |rules| && forall i :: 0 <= i < |rules| ==> rules[i] == AliasRule(i)
    ensures Read(rules[..j], AliasTable(k), AliasTable(k)) == AliasTable(if j <= k then k else k + 1)
  {
    if j > 0 {
      ReadChain(rules, j - 1, k);
      assert rules[..j][..j - 1] == rules[..j - 1];
      FireAlias(j - 1, k);
    }
  }

  lemma ChainRound(n: nat, k: nat)
    requires k < n
    ensures Round(AliasChain(n), AliasTable(k)) == AliasTable(k + 1)
  {
    var b, t := AliasChain(n)[0], AliasTable(k);
    ReadChain(b.body, n, k);
    assert b.body[..n] == b.body;
    assert AliasChain(n)[..0] == [];
    assert Round(AliasChain(n), t) == Visit(b, Round([], t)) == Read(b.body, t, t);
  }

  lemma NoAliases()
    ensures AliasTable(0) == map[]
  {
  }

  lemma ChainOneMore(n: nat, k: nat)
    requires k < n && Rounds(AliasChain(n), k) == AliasTable(k)
    ensures Rounds(AliasChain(n), k + 1) == AliasTable(k + 1)
  {
    ChainRound(n, k);
  }

  lemma {:induction false} ChainAfterRounds(n: nat, k: nat)
    requires k <= n
    ensures Rounds(AliasChain(n), k) == AliasTable(k)
  {
    if k == 0 {
      NoAliases();
    } else {
      ChainAfterRounds(n, k - 1);
      ChainOneMore(n, k - 1);
    }
  }

  lemma ChainHasNoConflict(n: nat)
    ensures NoConflict(AliasChain(n), AliasTable(n))
  {
    var blocks, truth := AliasChain(n), AliasTable(n);
    forall r, view, t | InRules(blocks, r) && Within(view, truth) && Within(t, truth) && Eval(r, view, t).Some?
      ensures r.target in truth && truth[r.target] == Eval(r, view, t).value
    {
      var i :| 0 <= i < n && r == AliasRule(i);
      AliasInTable(i, n);
    }
  }

  /** With the first `k` names known, the next one is about to be learnt. */
  lemma TableIsOpen(n: nat, k: nat)
    requires k < n
    ensures !Closed(AliasChain(n), AliasTable(k))
  {
    var blocks, r := AliasChain(n), AliasRule(k);
    AliasInTable(k, k);
    if k > 0 {
      AliasInTable(k - 1, k);
    }
    assert blocks[0].body[k] == r && r in blocks[0].body;
    assert Eval(r, AliasTable(k), AliasTable(k)).Some? && Look(AliasTable(k), r.target).None?;
    assert blocks[0] in blocks && !Satisfied(r, AliasTable(k));
  }

  /** A chain of `n` names needs `n` changing rounds, one for each name. */
  lemma ChainIsOpen(n: nat, k: nat)
    requires k < n
    ensures Global(Alias(k)) !in Rounds(AliasChain(n), k) && !Closed(AliasChain(n), Rounds(AliasChain(n), k))
  {
    ChainAfterRounds(n, k);
    AliasInTable(k, k);
    TableIsOpen(n, k);
  }

  /** Nine names in a straight line never conflict, yet the eight rounds end with the last one unknown. */
  lemma NineAliasesAreTooMany()
    ensures NoConflict(Blocks(AliasModule(9)), AliasTable(9))
    ensures forall k :: 0 <= k <= MAX_ROUNDS ==> !Closed(Blocks(AliasModule(9)), Rounds(Blocks(AliasModule(9)), k))
    ensures Global(Alias(8)) !in Rounds(Blocks(AliasModule(9)), MAX_ROUNDS)
  {
    AliasBlocks(9);
    ChainHasNoConflict(9);
    forall k | 0 <= k <= MAX_ROUNDS ensures !Closed(AliasChain(9), Rounds(AliasChain(9), k)) {
      ChainIsOpen(9, k);
    }
    ChainIsOpen(9, 8);
  }

  lemma {:induction false} AliasNames(n: nat) returns (names: set<Entry>)
    ensures |names| <= n && forall i :: 0 <= i < n ==> Global(Alias(i)) in names
  {
    if n == 0 {
      names := {};
    } else {
      var fewer := AliasNames(n - 1);
      names := fewer + {Global(Alias(n - 1))};
    }
  }

  /** Of the straight lines exactly those of at most eight names settle: the number of names is the limit. */
  lemma AliasesSettleExactly(n: nat)
    ensures Closed(Blocks(AliasModule(n)), Rounds(Blocks(AliasModule(n)), MAX_ROUNDS)) <==> n <= MAX_ROUNDS
  {
    AliasBlocks(n);
    if n <= MAX_ROUNDS {
      ChainHasNoConflict(n);
      var names := AliasNames(n);
      forall r | InRules(AliasChain(n), r) ensures r.target in names {
        var i :| 0 <= i < n && r == AliasRule(i);
      }
      EightNamesSettle(AliasModule(n), AliasTable(n), names);
    } else {
      ChainIsOpen(n, MAX_ROUNDS);
    }
  }
}
