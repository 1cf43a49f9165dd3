/**
 Which rules a module gives, said of its assignments, calls, definitions and returns; and what follows for a client
 that is assigned, passed on or returned.
 */
module ModuleRules {
  import opened Wrappers
  import opened ClientTracking
  import ClientHeights

  // ---------------------------------------------------------------------------------------------
  // The rules, from the source text
  // ---------------------------------------------------------------------------------------------

  /** An assignment of scope `i` binds a dotted name for the class around it, a plain one for the module or the scope. */
  predicate Assigns(m: seq<Scope>, i: nat, j: nat, r: Rule) {
    && i < |m| && j < |m[i].assigns|
    && var (key, value) := m[i].assigns[j];
       && r.at == Place(i, m[i].cls) && r.source == From(value)
       && ('.' in key ==> r.target == Dotted(m[i].cls, key))
       && ('.' !in key && m[i].isModule ==> r.target == Global(key))
       && ('.' !in key && !m[i].isModule ==> r.target == Local(i, key))
  }

  /** The call may mean the definition `k`: those of the name, of the same class if it is on `self` and has some there. */
  predicate Means(m: seq<Scope>, c: CallSite, cls: Option<string>, k: nat) {
    && k < |m| && c.callee.Some? && m[k].fname == c.callee
    && (c.onSelf && cls.Some? && InClass(m, c.callee, cls) ==> m[k].cls == cls)
  }

  /** The argument `j` goes to the parameter `j`, or to the one behind it if `self` is given by the object. */
  predicate Positional(c: CallSite, params: seq<string>, j: nat, name: string) {
    && j < |c.args|
    && if c.attribute && params != [] && (params[0] == "self" || params[0] == "cls")
       then j + 1 < |params| && name == params[j + 1]
       else j < |params| && name == params[j]
  }

  /** An argument of the call, by its place or by its keyword, is given to this parameter. */
  predicate Passes(c: CallSite, params: seq<string>, name: string, value: Expr) {
    || (exists j :: 0 <= j < |c.args| && Positional(c, params, j, name) && c.args[j] == value)
    || (exists j :: 0 <= j < |c.keywords| && c.keywords[j] == (name, value))
  }

  ghost predicate Binding(m: seq<Scope>, i: nat, r: Rule) {
    && i < |m| && r.at == Place(i, m[i].cls) && r.target.Param? && r.source.From?
    && exists c :: c in m[i].calls && Means(m, c, m[i].cls, r.target.scope)
                   && Passes(c, m[r.target.scope].params, r.target.name, r.source.e)
  }

  /** A function takes over a parameter that some call of the module gives it. */
  ghost predicate Receives(m: seq<Scope>, i: nat, r: Rule) {
    && i < |m| && m[i].fname.Some? && r.target.Local? && r.target.scope == i
    && r == Rule(r.target, Place(i, m[i].cls), Copy(Param(i, r.target.name)))
    && exists h, q :: Binding(m, h, q) && q.target == Param(i, r.target.name)
  }

  /** A return of any definition of a name, read where the first definition of the name stands. */
  ghost predicate Returns(m: seq<Scope>, r: Rule) {
    exists k, first :: 0 <= first <= k < |m| && ReturnOf(m, k, first, r)
  }

  predicate ReturnOf(m: seq<Scope>, k: nat, first: nat, r: Rule)
    requires first <= k < |m|
  {
    && m[k].fname.Some? && m[first].fname == m[k].fname && (forall h :: 0 <= h < first ==> m[h].fname != m[k].fname)
    && r.target == Factory(m[k].fname.value) && r.at == Place(first, m[first].cls)
    && r.source.From? && r.source.e in m[k].results
  }

  // ---------------------------------------------------------------------------------------------
  // The code gives these and no others
  // ---------------------------------------------------------------------------------------------

  lemma {:induction false} ZipExactly(target: nat, at: Place, names: seq<string>, values: seq<Expr>, r: Rule)
    ensures r in Zip(target, at, names, values) <==>
            exists j :: 0 <= j < |names| && j < |values| && r == Rule(Param(target, names[j]), at, From(values[j]))
  {
    if names != [] && values != [] {
      var rest := Zip(target, at, names[1..], values[1..]);
      ZipExactly(target, at, names[1..], values[1..], r);
      if r in rest {
        var j :| 0 <= j < |names[1..]| && j < |values[1..]| && r == Rule(Param(target, names[1..][j]), at, From(values[1..][j]));
        assert names[1..][j] == names[j + 1] && values[1..][j] == values[j + 1];
      }
      if j :| 0 <= j < |names| && j < |values| && r == Rule(Param(target, names[j]), at, From(values[j])) {
        if j > 0 {
          assert names[1..][j - 1] == names[j] && values[1..][j - 1] == values[j];
          assert r in rest;
        }
      }
    }
  }

  lemma PositionalExactly(m: seq<Scope>, c: CallSite, at: Place, k: nat, bound: seq<string>, r: Rule)
    requires k < |m|
    requires bound == if m[k].params != [] && m[k].params[0] in {"self", "cls"} && c.attribute then m[k].params[1..] else m[k].params
    ensures r in Zip(k, at, bound, c.args) <==>
            r.target.Param? && r.target.scope == k && r.at == at && r.source.From?
            && exists j :: 0 <= j < |c.args| && Positional(c, m[k].params, j, r.target.name) && c.args[j] == r.source.e
  {
    ZipExactly(k, at, bound, c.args, r);
    if j :| 0 <= j < |bound| && j < |c.args| && r == Rule(Param(k, bound[j]), at, From(c.args[j])) {
      assert Positional(c, m[k].params, j, r.target.name);
    }
    if r.target.Param? && r.source.From? {
      if j :| 0 <= j < |c.args| && Positional(c, m[k].params, j, r.target.name) && c.args[j] == r.source.e {
        assert bound[j] == r.target.name;
      }
    }
  }

  lemma OneExactly(m: seq<Scope>, c: CallSite, at: Place, k: nat, r: Rule)
    requires k < |m|
    ensures r in BindOne(m, c, at, k) <==>
            r.target.Param? && r.target.scope == k && r.at == at && r.source.From?
            && Passes(c, m[k].params, r.target.name, r.source.e)
  {
    var params := m[k].params;
    var bound := if params != [] && params[0] in {"self", "cls"} && c.attribute then params[1..] else params;
    PositionalExactly(m, c, at, k, bound, r);
    var byName := seq(|c.keywords|, j requires 0 <= j < |c.keywords| => Rule(Param(k, c.keywords[j].0), at, From(c.keywords[j].1)));
    assert r in BindOne(m, c, at, k) <==> r in Zip(k, at, bound, c.args) || r in byName;
    if r in byName {
      var j :| 0 <= j < |c.keywords| && byName[j] == r;
      assert c.keywords[j] == (r.target.name, r.source.e);
    }
    if r.target.Param? && r.source.From? && r.target.scope == k && r.at == at {
      if j :| 0 <= j < |c.keywords| && c.keywords[j] == (r.target.name, r.source.e) {
        assert byName[j] == r;
      }
    }
  }

  lemma {:induction false} AllExactly(m: seq<Scope>, c: CallSite, at: Place, targets: seq<nat>, r: Rule)
    requires InModule(m, targets)
    ensures r in BindAll(m, c, at, targets) <==>
            r.target.Param? && r.target.scope in targets && r.at == at && r.source.From?
            && r.target.scope < |m| && Passes(c, m[r.target.scope].params, r.target.name, r.source.e)
  {
    if targets != [] {
      OneExactly(m, c, at, targets[0], r);
      AllExactly(m, c, at, targets[1..], r);
      assert forall k :: k in targets <==> k == targets[0] || k in targets[1..];
    }
  }

  ghost predicate Given(m: seq<Scope>, calls: seq<CallSite>, at: Place, r: Rule) {
    && r.at == at && r.target.Param? && r.source.From?
    && exists c :: c in calls && Means(m, c, at.cls, r.target.scope)
                   && Passes(c, m[r.target.scope].params, r.target.name, r.source.e)
  }

  lemma {:induction false} BindsExactly(m: seq<Scope>, calls: seq<CallSite>, at: Place, r: Rule)
    ensures r in Binds(m, calls, at) <==> Given(m, calls, at, r)
  {
    if calls != [] {
      var c := calls[0];
      AllExactly(m, c, at, Candidates(m, c, at.cls), r);
      BindsExactly(m, calls[1..], at, r);
      assert forall x :: x in calls <==> x == c || x in calls[1..];
      if r.target.Param? {
        assert r.target.scope in Candidates(m, c, at.cls) <==> Means(m, c, at.cls, r.target.scope);
      }
    }
  }

  lemma AssignExactly(m: seq<Scope>, i: nat, j: nat, r: Rule)
    requires i < |m| && j < |m[i].assigns|
    ensures r == AssignRule(m, i, m[i].assigns[j].0, m[i].assigns[j].1) <==> Assigns(m, i, j, r)
  {
  }

  lemma BodyExactly(m: seq<Scope>, i: nat, r: Rule)
    requires i < |m|
    ensures r in BodyRules(m, i) <==> (exists j :: 0 <= j < |m[i].assigns| && Assigns(m, i, j, r)) || Binding(m, i, r)
    ensures |BodyRules(m, i)| >= |m[i].assigns|
    ensures forall j :: 0 <= j < |m[i].assigns| ==> Assigns(m, i, j, BodyRules(m, i)[j])
  {
    var assigns := m[i].assigns;
    var first := seq(|assigns|, j requires 0 <= j < |assigns| => AssignRule(m, i, assigns[j].0, assigns[j].1));
    BindsExactly(m, m[i].calls, PlaceOf(m, i), r);
    assert r in BodyRules(m, i) <==> r in first || r in Binds(m, m[i].calls, PlaceOf(m, i));
    forall j | 0 <= j < |assigns| ensures (r == first[j] <==> Assigns(m, i, j, r)) && Assigns(m, i, j, first[j]) {
      AssignExactly(m, i, j, r);
      AssignExactly(m, i, j, first[j]);
    }
  }

  lemma InEither<T>(a: seq<T>, b: seq<T>, x: T)
    ensures x in a + b <==> x in a || x in b
  {
  }

  lemma {:induction false} InSomeBody(m: seq<Scope>, i: nat, r: Rule) returns (h: nat)
    requires i <= |m| && r in AllBodies(m, i)
    ensures i <= h < |m| && r in BodyRules(m, h)
    decreases |m| - i
  {
    InEither(BodyRules(m, i), AllBodies(m, i + 1), r);
    if r in BodyRules(m, i) {
      h := i;
    } else {
      h := InSomeBody(m, i + 1, r);
    }
  }

  lemma {:induction false} BodyIsIn(m: seq<Scope>, i: nat, h: nat, r: Rule)
    requires i <= h < |m| && r in BodyRules(m, h)
    ensures r in AllBodies(m, i)
    decreases |m| - i
  {
    if i < h {
      BodyIsIn(m, i + 1, h, r);
    }
  }

  lemma {:induction false} InstallExactly(at: Place, rules: seq<Rule>, r: Rule)
    ensures r in InstallRules(at, rules) <==>
            exists q :: q in rules && q.target.Param? && q.target.scope == at.scope
                        && r == Rule(Local(at.scope, q.target.name), at, Copy(q.target))
  {
    if rules != [] {
      InstallExactly(at, rules[1..], r);
      assert forall q :: q in rules <==> q == rules[0] || q in rules[1..];
    }
  }

  lemma ParamIsBinding(m: seq<Scope>, h: nat, q: Rule)
    requires h < |m| && q.target.Param?
    ensures q in BodyRules(m, h) <==> Binding(m, h, q)
  {
    BodyExactly(m, h, q);
  }

  lemma ReceivesExactly(m: seq<Scope>, i: nat, r: Rule)
    requires i < |m| && m[i].fname.Some?
    ensures r in InstallRules(PlaceOf(m, i), AllBodies(m, 0)) <==> Receives(m, i, r)
  {
    var all := AllBodies(m, 0);
    InstallExactly(PlaceOf(m, i), all, r);
    if q :| q in all && q.target.Param? && q.target.scope == i
            && r == Rule(Local(i, q.target.name), PlaceOf(m, i), Copy(q.target)) {
      var h := InSomeBody(m, 0, q);
      ParamIsBinding(m, h, q);
      assert q.target == Param(i, r.target.name);
    }
    if Receives(m, i, r) {
      var h, q :| Binding(m, h, q) && q.target == Param(i, r.target.name);
      ParamIsBinding(m, h, q);
      BodyIsIn(m, 0, h, q);
    }
  }

  lemma {:induction false} ReturnsExactly(m: seq<Scope>, fname: string, at: Place, defs: seq<nat>, r: Rule)
    requires InModule(m, defs)
    ensures r in ReturnsOf(m, fname, at, defs) <==>
            r.target == Factory(fname) && r.at == at && r.source.From?
            && exists k :: k in defs && k < |m| && r.source.e in m[k].results
  {
    if defs != [] {
      var values := m[defs[0]].results;
      var here := seq(|values|, j requires 0 <= j < |values| => Rule(Factory(fname), at, From(values[j])));
      ReturnsExactly(m, fname, at, defs[1..], r);
      assert forall k :: k in defs <==> k == defs[0] || k in defs[1..];
      assert r in ReturnsOf(m, fname, at, defs) <==> r in here || r in ReturnsOf(m, fname, at, defs[1..]);
      if r.source.From? && r.source.e in values && r.target == Factory(fname) && r.at == at {
        var j :| 0 <= j < |values| && values[j] == r.source.e;
        assert here[j] == r;
      }
    }
  }

  lemma {:induction false} FirstDefinition(m: seq<Scope>, fname: string, i: nat)
    requires i <= |m| && Definitions(m, fname, i) != []
    ensures var first := Definitions(m, fname, i)[0];
            first in Definitions(m, fname, i) && forall h :: i <= h < first ==> m[h].fname != Some(fname)
    decreases |m| - i
  {
    if m[i].fname != Some(fname) {
      FirstDefinition(m, fname, i + 1);
    }
  }

  /** The scope `first` is where the returns of its name are read. */
  predicate IsFirst(m: seq<Scope>, first: nat) {
    first < |m| && m[first].fname.Some? && forall h :: 0 <= h < first ==> m[h].fname != m[first].fname
  }

  lemma FirstExactly(m: seq<Scope>, i: nat)
    requires i < |m| && m[i].fname.Some?
    ensures Definitions(m, m[i].fname.value, 0) != []
    ensures Definitions(m, m[i].fname.value, 0)[0] == i <==> IsFirst(m, i)
  {
    var fname := m[i].fname.value;
    assert i in Definitions(m, fname, 0);
    FirstDefinition(m, fname, 0);
  }

  ghost predicate ReturnsFrom(m: seq<Scope>, first: nat, r: Rule) {
    && IsFirst(m, first)
    && exists k :: first <= k < |m| && ReturnOf(m, k, first, r)
  }

  lemma ReturnBlockExactly(m: seq<Scope>, i: nat, r: Rule)
    requires IsFirst(m, i)
    ensures r in ReturnsOf(m, m[i].fname.value, PlaceOf(m, i), Definitions(m, m[i].fname.value, 0)) <==> ReturnsFrom(m, i, r)
  {
    var fname := m[i].fname.value;
    var defs := Definitions(m, fname, 0);
    ReturnsExactly(m, fname, PlaceOf(m, i), defs, r);
    if r.source.From? {
      if k :| k in defs && k < |m| && r.source.e in m[k].results && r.target == Factory(fname) && r.at == PlaceOf(m, i) {
        assert i <= k && ReturnOf(m, k, i, r);
      }
    }
    if ReturnsFrom(m, i, r) {
      var k :| i <= k < |m| && ReturnOf(m, k, i, r);
      assert k in defs;
    }
  }

  lemma {:induction false} ReturnBlocksExactly(m: seq<Scope>, i: nat, r: Rule)
    requires i <= |m|
    ensures forall b :: b in ReturnBlocks(m, i) ==> b.install == []
    ensures (exists b :: b in ReturnBlocks(m, i) && r in b.body) <==> exists first :: i <= first < |m| && ReturnsFrom(m, first, r)
    decreases |m| - i
  {
    if i < |m| {
      ReturnBlocksExactly(m, i + 1, r);
      var rest := ReturnBlocks(m, i + 1);
      if m[i].fname.Some? {
        FirstExactly(m, i);
      }
      if m[i].fname.Some? && IsFirst(m, i) {
        ReturnBlockExactly(m, i, r);
        var here := Block([], ReturnsOf(m, m[i].fname.value, PlaceOf(m, i), Definitions(m, m[i].fname.value, 0)));
        assert ReturnBlocks(m, i) == [here] + rest;
        assert forall b :: b in ReturnBlocks(m, i) <==> b == here || b in rest;
      } else {
        assert ReturnBlocks(m, i) == rest;
      }
    }
  }

  /** The block of a scope: its assignments in order, then the arguments of its calls, and what it receives in front. */
  ghost predicate ScopeBlockOf(m: seq<Scope>, i: nat, b: Block, r: Rule)
    requires i < |m|
  {
    && (r in b.install <==> Receives(m, i, r))
    && (r in b.body <==> (exists j :: 0 <= j < |m[i].assigns| && Assigns(m, i, j, r)) || Binding(m, i, r))
    && |b.body| >= |m[i].assigns| && forall j :: 0 <= j < |m[i].assigns| ==> Assigns(m, i, j, b.body[j])
  }

  lemma InstallAt(m: seq<Scope>, i: nat, install: seq<Rule>, r: Rule)
    requires i < |m| && install == if m[i].fname.Some? then InstallRules(PlaceOf(m, i), AllBodies(m, 0)) else []
    ensures r in install <==> Receives(m, i, r)
  {
    if m[i].fname.Some? {
      ReceivesExactly(m, i, r);
    }
  }

  lemma ScopeBlockExactly(m: seq<Scope>, i: nat, r: Rule)
    requires i < |m|
    ensures ScopeBlockOf(m, i, ScopeBlock(m, i), r)
  {
    BodyExactly(m, i, r);
    InstallAt(m, i, ScopeBlock(m, i).install, r);
  }

  lemma Behind(front: seq<Block>, back: seq<Block>, r: Rule)
    ensures (exists i :: |front| <= i < |front + back| && r in (front + back)[i].body) <==> exists b :: b in back && r in b.body
    ensures (forall b :: b in back ==> b.install == []) ==>
              forall i :: |front| <= i < |front + back| ==> (front + back)[i].install == []
  {
    if b :| b in back && r in b.body {
      var k :| 0 <= k < |back| && back[k] == b;
      assert (front + back)[|front| + k] == b;
    }
  }

  lemma ReturnsFromSome(m: seq<Scope>, r: Rule)
    ensures Returns(m, r) <==> exists first :: 0 <= first < |m| && ReturnsFrom(m, first, r)
  {
    if Returns(m, r) {
      var k, first :| 0 <= first <= k < |m| && ReturnOf(m, k, first, r);
      assert ReturnsFrom(m, first, r);
    }
  }

  /** The blocks of a module: one for every scope in order, behind them the returns, and nothing else anywhere. */
  lemma BlocksExactly(m: seq<Scope>, r: Rule)
    ensures |Blocks(m)| >= |m|
    ensures forall i :: 0 <= i < |m| ==> ScopeBlockOf(m, i, Blocks(m)[i], r)
    ensures forall i :: |m| <= i < |Blocks(m)| ==> Blocks(m)[i].install == []
    ensures (exists i :: |m| <= i < |Blocks(m)| && r in Blocks(m)[i].body) <==> Returns(m, r)
  {
    forall i | 0 <= i < |m| ensures ScopeBlockOf(m, i, Blocks(m)[i], r) {
      ScopeBlockExactly(m, i, r);
      assert Blocks(m)[i] == ScopeBlocks(m)[i] == ScopeBlock(m, i);
    }
    ReturnBlocksExactly(m, 0, r);
    ReturnsFromSome(m, r);
    Behind(ScopeBlocks(m), ReturnBlocks(m, 0), r);
  }

  /** Where in the module a rule comes from. */
  ghost predicate Written(m: seq<Scope>, r: Rule) {
    || (exists i, j :: 0 <= i < |m| && 0 <= j < |m[i].assigns| && Assigns(m, i, j, r))
    || (exists i :: 0 <= i < |m| && Binding(m, i, r))
    || (exists i :: 0 <= i < |m| && Receives(m, i, r))
    || Returns(m, r)
  }

  lemma InBlock(blocks: seq<Block>, i: nat, r: Rule)
    requires i < |blocks| && (r in blocks[i].install || r in blocks[i].body)
    ensures InRules(blocks, r)
  {
    assert blocks[i] in blocks;
  }

  /** A rule of the module is an assignment, an argument, a received parameter or a return, and each of these is one. */
  lemma RulesExactly(m: seq<Scope>, r: Rule)
    ensures InRules(Blocks(m), r) <==> Written(m, r)
  {
    var blocks := Blocks(m);
    BlocksExactly(m, r);
    if InRules(blocks, r) {
      var b :| b in blocks && (r in b.install || r in b.body);
      var i :| 0 <= i < |blocks| && blocks[i] == b;
      if i < |m| {
        assert ScopeBlockOf(m, i, blocks[i], r);
      }
    }
    if i :| 0 <= i < |m| && (Receives(m, i, r) || Binding(m, i, r) || exists j :: 0 <= j < |m[i].assigns| && Assigns(m, i, j, r)) {
      assert ScopeBlockOf(m, i, blocks[i], r);
      InBlock(blocks, i, r);
    } else if Returns(m, r) {
      var i :| |m| <= i < |blocks| && r in blocks[i].body;
      InBlock(blocks, i, r);
    }
  }

  // ---------------------------------------------------------------------------------------------
  // What follows for a client
  // ---------------------------------------------------------------------------------------------

  /** The names that are looked up for a plain or dotted name, in this order. */
  function Lookups(at: Place, n: string): seq<Entry> {
    [Local(at.scope, n), Global(n), Dotted(at.cls, n), Dotted(None, n)]
  }

  function FirstKnown(t: Tables, names: seq<Entry>): Option<Service> {
    if names == [] then None else if names[0] in t then Some(t[names[0]]) else FirstKnown(t, names[1..])
  }

  /** What the tables say of an expression. */
  function Says(t: Tables, at: Place, e: Expr): Option<Service> {
    match e
    case Client(literal) => if literal != "" then Some(literal) else FirstKnown(t, [Factory("client")])
    case Name(n) => FirstKnown(t, Lookups(at, n))
    case Call(callee) => if callee.Some? then FirstKnown(t, [Factory(callee.value)]) else None
    case Constant => None
    case Unknown => None
  }

  lemma KnownFirst(t: Tables, x: Entry, rest: seq<Entry>)
    ensures FirstKnown(t, [x] + rest) == if x in t then Some(t[x]) else FirstKnown(t, rest)
  {
    assert ([x] + rest)[1..] == rest;
  }

  lemma KnownOnly(t: Tables, x: Entry)
    ensures FirstKnown(t, [x]) == Look(t, x)
  {
    KnownFirst(t, x, []);
    assert [x] + [] == [x];
  }

  lemma FirstOfFour(t: Tables, a: Entry, b: Entry, c: Entry, d: Entry)
    ensures FirstKnown(t, [a, b, c, d]) ==
            if a in t then Some(t[a]) else if b in t then Some(t[b]) else if c in t then Some(t[c]) else Look(t, d)
  {
    KnownFirst(t, a, [b, c, d]);
    KnownFirst(t, b, [c, d]);
    KnownFirst(t, c, [d]);
    KnownOnly(t, d);
    assert [a] + [b, c, d] == [a, b, c, d] && [b] + [c, d] == [b, c, d] && [c] + [d] == [c, d];
  }

  lemma SaysIsEval(r: Rule, t: Tables)
    requires r.source.From?
    ensures Eval(r, t, t) == Says(t, r.at, r.source.e)
  {
    match r.source.e
    case Client(_) => KnownOnly(t, Factory("client"));
    case Name(n) => FirstOfFour(t, Local(r.at.scope, n), Global(n), Dotted(r.at.cls, n), Dotted(None, n));
    case Call(callee) =>
      if callee.Some? {
        KnownOnly(t, Factory(callee.value));
      }
    case Constant =>
    case Unknown =>
  }

  lemma RoundsGrow(blocks: seq<Block>, n: nat)
    ensures Rounds(blocks, n).Keys <= Rounds(blocks, n + 1).Keys
    ensures forall r :: InRules(blocks, r) && Known(r, Rounds(blocks, n).Keys) ==> r.target in Rounds(blocks, n + 1)
  {
    RoundGrows(blocks, blocks, Rounds(blocks, n));
  }

  lemma {:induction false} StaysKnown(blocks: seq<Block>, n: nat, k: nat, e: Entry)
    requires n <= k && e in Rounds(blocks, n)
    ensures e in Rounds(blocks, k)
  {
    if n < k {
      StaysKnown(blocks, n, k - 1, e);
      RoundsGrow(blocks, k - 1);
    }
  }

  /** What a rule of the module says is known after one more round, as that client if no two rules disagree. */
  lemma RuleIsFollowed(m: seq<Scope>, truth: Tables, r: Rule, n: nat)
    requires Written(m, r) && Eval(r, Rounds(Blocks(m), n), Rounds(Blocks(m), n)).Some?
    ensures r.target in Rounds(Blocks(m), n + 1)
    ensures NoConflict(Blocks(m), truth) ==>
              Eval(r, Rounds(Blocks(m), n), Rounds(Blocks(m), n)) == Some(Rounds(Blocks(m), n + 1)[r.target])
  {
    RulesExactly(m, r);
    EvalKnown(r, Rounds(Blocks(m), n));
    RoundsGrow(Blocks(m), n);
    if NoConflict(Blocks(m), truth) {
      RoundsWithin(Blocks(m), truth, n);
      RoundsWithin(Blocks(m), truth, n + 1);
    }
  }

  /** A client assigned in a scope is known under that name a round later, returned by a function it is known of the function. */
  lemma AssignedClientIsKnown(m: seq<Scope>, truth: Tables, i: nat, j: nat, r: Rule, n: nat)
    requires i < |m| && j < |m[i].assigns| && Assigns(m, i, j, r) && Says(Rounds(Blocks(m), n), r.at, m[i].assigns[j].1).Some?
    ensures r.target in Rounds(Blocks(m), n + 1)
    ensures NoConflict(Blocks(m), truth) ==>
              Some(Rounds(Blocks(m), n + 1)[r.target]) == Says(Rounds(Blocks(m), n), r.at, m[i].assigns[j].1)
  {
    SaysIsEval(r, Rounds(Blocks(m), n));
    RuleIsFollowed(m, truth, r, n);
  }

  lemma ReturnedClientIsKnown(m: seq<Scope>, truth: Tables, r: Rule, n: nat)
    requires Returns(m, r) && Says(Rounds(Blocks(m), n), r.at, r.source.e).Some?
    ensures r.target in Rounds(Blocks(m), n + 1)
    ensures NoConflict(Blocks(m), truth) ==>
              Some(Rounds(Blocks(m), n + 1)[r.target]) == Says(Rounds(Blocks(m), n), r.at, r.source.e)
  {
    SaysIsEval(r, Rounds(Blocks(m), n));
    RuleIsFollowed(m, truth, r, n);
  }

  lemma ThenTaken(m: seq<Scope>, truth: Tables, r: Rule, take: Rule, n: nat)
    requires Written(m, r) && Written(m, take) && take.source == Copy(r.target)
    requires Eval(r, Rounds(Blocks(m), n), Rounds(Blocks(m), n)).Some?
    ensures take.target in Rounds(Blocks(m), n + 2)
    ensures NoConflict(Blocks(m), truth) ==>
              Eval(r, Rounds(Blocks(m), n), Rounds(Blocks(m), n)) == Some(Rounds(Blocks(m), n + 2)[take.target])
  {
    RuleIsFollowed(m, truth, r, n);
    RuleIsFollowed(m, truth, take, n + 1);
  }

  lemma BothWritten(m: seq<Scope>, i: nat, c: CallSite, k: nat, name: string, value: Expr, bind: Rule, take: Rule)
    requires i < |m| && c in m[i].calls && Means(m, c, m[i].cls, k) && Passes(c, m[k].params, name, value)
    requires bind == Rule(Param(k, name), Place(i, m[i].cls), From(value))
    requires take == Rule(Local(k, name), Place(k, m[k].cls), Copy(Param(k, name)))
    ensures Written(m, bind) && Written(m, take)
  {
    assert Binding(m, i, bind);
    assert Receives(m, k, take);
  }

  /** A client that a call passes, by place or by keyword, is known inside each function the call may mean two rounds later. */
  lemma PassedClientIsKnown(m: seq<Scope>, truth: Tables, i: nat, c: CallSite, k: nat, name: string, value: Expr, n: nat)
    requires i < |m| && c in m[i].calls && Means(m, c, m[i].cls, k) && Passes(c, m[k].params, name, value)
    requires Says(Rounds(Blocks(m), n), Place(i, m[i].cls), value).Some?
    ensures Local(k, name) in Rounds(Blocks(m), n + 2)
    ensures NoConflict(Blocks(m), truth) ==>
              Some(Rounds(Blocks(m), n + 2)[Local(k, name)]) == Says(Rounds(Blocks(m), n), Place(i, m[i].cls), value)
  {
    var bind := Rule(Param(k, name), Place(i, m[i].cls), From(value));
    var take := Rule(Local(k, name), Place(k, m[k].cls), Copy(Param(k, name)));
    BothWritten(m, i, c, k, name, value, bind, take);
    SaysIsEval(bind, Rounds(Blocks(m), n));
    ThenTaken(m, truth, bind, take, n);
  }

  /** So a client made in the call itself is known inside the function after the eight rounds. */
  lemma PassedLiteralIsKnown(m: seq<Scope>, i: nat, c: CallSite, k: nat, name: string, service: Service)
    requires i < |m| && c in m[i].calls && Means(m, c, m[i].cls, k) && Passes(c, m[k].params, name, Client(service))
    ensures Local(k, name) in Rounds(Blocks(m), MAX_ROUNDS)
  {
    PassedClientIsKnown(m, map[], i, c, k, name, Client(service), 0);
    StaysKnown(Blocks(m), 2, MAX_ROUNDS, Local(k, name));
  }

  function PutCall(): CallSite {
    CallSite(Some("put"), true, true, [Client("s3")], [])
  }

  function PutModule(cls: Option<string>): seq<Scope> {
    [Scope(false, Some("run"), ["self"], cls, [], [PutCall()], []), Scope(false, Some("put"), ["self", "client"], cls, [], [], [])]
  }

  lemma PutPasses(name: string, value: Expr)
    ensures Passes(PutCall(), ["self", "client"], name, value) <==> name == "client" && value == Client("s3")
  {
    assert ["self", "client"][1] == "client" && PutCall().args[0] == Client("s3");
    assert Positional(PutCall(), ["self", "client"], 0, "client");
  }

  lemma OnlyThePut(cls: Option<string>, r: Rule)
    requires Written(PutModule(cls), r)
    ensures r.target in {Param(1, "client"), Local(1, "client")}
  {
    var m := PutModule(cls);
    assert m[0].calls == [PutCall()] && m[1].calls == [] && m[1].params == ["self", "client"];
    if i :| 0 <= i < |m| && Binding(m, i, r) {
      PutPasses(r.target.name, r.source.e);
    } else if i :| 0 <= i < |m| && Receives(m, i, r) {
      var h, q :| Binding(m, h, q) && q.target == Param(i, r.target.name);
      PutPasses(q.target.name, q.source.e);
    }
  }

  /** `self.put(boto3.client("s3"))` with `def put(self, client)`: the parameter behind `self` is the client. */
  lemma SelfIsSkipped(cls: Option<string>)
    ensures Local(1, "client") in Rounds(Blocks(PutModule(cls)), MAX_ROUNDS)
    ensures forall r :: InRules(Blocks(PutModule(cls)), r) ==> r.target in {Param(1, "client"), Local(1, "client")}
  {
    var m := PutModule(cls);
    PutPasses("client", Client("s3"));
    assert PutCall() in m[0].calls;
    PassedLiteralIsKnown(m, 0, PutCall(), 1, "client", "s3");
    forall r | InRules(Blocks(m), r) ensures r.target in {Param(1, "client"), Local(1, "client")} {
      RulesExactly(m, r);
      OnlyThePut(cls, r);
    }
  }

  // ---------------------------------------------------------------------------------------------
  // No client comes from nowhere
  // ---------------------------------------------------------------------------------------------

  /** The entries a rule may take its client from. */
  function Sources(r: Rule): set<Entry> {
    ClientHeights.CopyReads(r) + ClientHeights.LiveReads(r)
  }

  /** The rule makes a client of this service itself. */
  predicate Makes(r: Rule, service: Service) {
    r.source.From? && r.source.e.Client? && r.source.e.literal == service
  }

  /** Rules of the module that hand a client of this service on, from the rule that makes it to the name. */
  ghost predicate Trail(blocks: seq<Block>, rules: seq<Rule>, service: Service, e: Entry) {
    && rules != [] && (forall k :: 0 <= k < |rules| ==> InRules(blocks, rules[k]))
    && Makes(rules[0], service) && rules[|rules| - 1].target == e
    && forall k :: 0 < k < |rules| ==> rules[k - 1].target in Sources(rules[k])
  }

  ghost predicate Traced(blocks: seq<Block>, t: Tables) {
    forall e :: e in t ==> exists rules :: Trail(blocks, rules, t[e], e)
  }

  /** Unless the rule makes the client itself, it takes it from a known source. */
  lemma TakenFrom(r: Rule, view: Tables, t: Tables) returns (x: Entry)
    requires Eval(r, view, t).Some? && !Makes(r, Eval(r, view, t).value)
    ensures x in Sources(r)
    ensures (x in view && view[x] == Eval(r, view, t).value) || (x in t && t[x] == Eval(r, view, t).value)
  {
    match r.source
    case Copy(entry) => x := entry;
    case From(Client(literal)) => x := Factory("client");
    case From(Name(n)) =>
      x := if Local(r.at.scope, n) in view then Local(r.at.scope, n)
           else if Global(n) in view then Global(n)
           else if Dotted(r.at.cls, n) in t then Dotted(r.at.cls, n) else Dotted(None, n);
    case From(Call(callee)) => x := Factory(callee.value);
  }

  lemma TrailExtends(blocks: seq<Block>, rules: seq<Rule>, service: Service, x: Entry, r: Rule)
    requires Trail(blocks, rules, service, x) && InRules(blocks, r) && x in Sources(r)
    ensures Trail(blocks, rules + [r], service, r.target)
  {
  }

  lemma FireTraced(blocks: seq<Block>, t: Tables, r: Rule, view: Tables)
    requires InRules(blocks, r) && Traced(blocks, t) && Traced(blocks, view)
    ensures Traced(blocks, Fire(t, r, view))
  {
    var v := Eval(r, view, t);
    if v.Some? {
      ValueTraced(blocks, t, r, view, v.value);
    }
  }

  lemma ValueTraced(blocks: seq<Block>, t: Tables, r: Rule, view: Tables, service: Service)
    requires InRules(blocks, r) && Traced(blocks, t) && Traced(blocks, view) && Eval(r, view, t) == Some(service)
    ensures exists rules :: Trail(blocks, rules, service, r.target)
  {
    if Makes(r, service) {
      assert Trail(blocks, [r], service, r.target);
    } else {
      var x := TakenFrom(r, view, t);
      var rules :| Trail(blocks, rules, service, x);
      TrailExtends(blocks, rules, service, x, r);
    }
  }

  lemma {:induction false} InstallTraced(blocks: seq<Block>, rules: seq<Rule>, t: Tables)
    requires Traced(blocks, t) && forall r :: r in rules ==> InRules(blocks, r)
    ensures Traced(blocks, Install(rules, t))
  {
    if rules != [] {
      var n := |rules| - 1;
      InstallTraced(blocks, rules[..n], t);
      FireTraced(blocks, Install(rules[..n], t), rules[n], Install(rules[..n], t));
    }
  }

  lemma {:induction false} ReadTraced(blocks: seq<Block>, rules: seq<Rule>, view: Tables, t: Tables)
    requires Traced(blocks, t) && Traced(blocks, view) && forall r :: r in rules ==> InRules(blocks, r)
    ensures Traced(blocks, Read(rules, view, t))
  {
    if rules != [] {
      var n := |rules| - 1;
      ReadTraced(blocks, rules[..n], view, t);
      FireTraced(blocks, Read(rules[..n], view, t), rules[n], view);
    }
  }

  lemma {:induction false} RoundTraced(blocks: seq<Block>, some: seq<Block>, t: Tables)
    requires Traced(blocks, t) && forall b :: b in some ==> b in blocks
    ensures Traced(blocks, Round(some, t))
  {
    if some != [] {
      var n := |some| - 1;
      RoundTraced(blocks, some[..n], t);
      var b, before := some[n], Round(some[..n], t);
      assert forall r :: r in b.install || r in b.body ==> InRules(blocks, r);
      InstallTraced(blocks, b.install, before);
      ReadTraced(blocks, b.body, Install(b.install, before), Install(b.install, before));
    }
  }

  /** Whatever the rounds know, conflicts or not, was made by a literal client and handed on by rules of the module. */
  lemma {:induction false} EveryClientIsTraced(blocks: seq<Block>, n: nat)
    ensures Traced(blocks, Rounds(blocks, n))
  {
    if n > 0 {
      EveryClientIsTraced(blocks, n - 1);
      RoundTraced(blocks, blocks, Rounds(blocks, n - 1));
    }
  }
}
