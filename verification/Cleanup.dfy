/**
 Deleting the approved resources of a deployment, in a fixed order.
 The listing is what a fresh search found; how each remote deletion ends is chosen from outside.
 */
module Cleanup {
  import opened Wrappers
  import opened Sorting

  datatype Kind =
    | Watcher | EcsService | TaskDefinitions | CloudFront | WafCdn | AcmCertificate | Waf | Alb
    | AcmOriginCertificate | TargetGroup | RdsInstance | RdsSubnetGroup | RdsParameterGroup | Secret
    | Alarm | SnsTopic | Ecr | LogGroup | SecurityGroup | EcsCluster | S3Bucket

  datatype Item = Item(id: string, arn: string, kind: Kind, name: string, service: string, tagged: bool, refs: set<string>)

  datatype Outcome = Deleted | Kept | Failed

  datatype Line = Line(id: string, ok: bool, skipped: bool)

  /** `attempts` are the items whose deletion was asked for, in that order. */
  datatype Report = Report(results: seq<Line>, attempts: seq<Item>, deleted: nat, failed: nat)

  /** Twice the order of the source, which places one kind at six and a half. */
  function Rank(k: Kind): int {
    match k
    case Watcher => -2
    case EcsService => 0
    case TaskDefinitions => 2
    case CloudFront => 4
    case WafCdn => 6
    case AcmCertificate => 8
    case Waf => 10
    case Alb => 12
    case AcmOriginCertificate => 13
    case TargetGroup => 14
    case RdsInstance => 16
    case RdsSubnetGroup => 18
    case RdsParameterGroup => 20
    case Secret => 22
    case Alarm => 24
    case SnsTopic => 26
    case Ecr => 28
    case LogGroup => 30
    case SecurityGroup => 32
    case EcsCluster => 34
    case S3Bucket => 36
  }

  predicate NeedsDatabaseGone(k: Kind) {
    k.RdsSubnetGroup? || k.RdsParameterGroup? || k.Secret?
  }

  // ---------------------------------------------------------------------------------------------
  // Orders
  // ---------------------------------------------------------------------------------------------

  predicate StringLess(a: string, b: string) {
    b != "" && (a == "" || a[0] < b[0] || (a[0] == b[0] && StringLess(a[1..], b[1..])))
  }

  predicate ItemLess(a: Item, b: Item) {
    Rank(a.kind) < Rank(b.kind) || (Rank(a.kind) == Rank(b.kind) && StringLess(a.name, b.name))
  }

  function ArnsOf(items: seq<Item>): set<string> {
    set i | i in items :: i.arn
  }

  /** The group still names one of the chosen groups. */
  predicate Refers(g: Item, chosen: set<string>) {
    g.refs * chosen != {}
  }

  predicate GroupLess(a: Item, b: Item, chosen: set<string>) {
    (Refers(a, chosen) && !Refers(b, chosen)) || (Refers(a, chosen) == Refers(b, chosen) && StringLess(a.name, b.name))
  }

  lemma {:induction false} StringLessAsymmetric(a: string, b: string)
    requires StringLess(a, b)
    ensures !StringLess(b, a)
  {
    if a != "" && a[0] == b[0] {
      StringLessAsymmetric(a[1..], b[1..]);
    }
  }

  lemma {:induction false} StringLessNegative(a: string, b: string, c: string)
    requires !StringLess(b, a) && !StringLess(c, b)
    ensures !StringLess(c, a)
  {
    if a != "" && b != "" && c != "" && a[0] == b[0] && b[0] == c[0] {
      StringLessNegative(a[1..], b[1..], c[1..]);
    }
  }

  lemma ItemLessIsStrict()
    ensures Strict(ItemLess)
  {
    forall a, b | ItemLess(a, b) ensures !ItemLess(b, a) {
      if StringLess(a.name, b.name) {
        StringLessAsymmetric(a.name, b.name);
      }
    }
    forall a, b, c | !ItemLess(b, a) && !ItemLess(c, b) ensures !ItemLess(c, a) {
      if !StringLess(b.name, a.name) && !StringLess(c.name, b.name) {
        StringLessNegative(a.name, b.name, c.name);
      }
    }
  }

  lemma GroupLessIsStrict(chosen: set<string>)
    ensures Strict((a: Item, b: Item) => GroupLess(a, b, chosen))
  {
    forall a, b | GroupLess(a, b, chosen) ensures !GroupLess(b, a, chosen) {
      if StringLess(a.name, b.name) {
        StringLessAsymmetric(a.name, b.name);
      }
    }
    forall a, b, c | !GroupLess(b, a, chosen) && !GroupLess(c, b, chosen) ensures !GroupLess(c, a, chosen) {
      if !StringLess(b.name, a.name) && !StringLess(c.name, b.name) {
        StringLessNegative(a.name, b.name, c.name);
      }
    }
  }

  // ---------------------------------------------------------------------------------------------
  // What is asked for
  // ---------------------------------------------------------------------------------------------

  predicate Distinct<T(==)>(xs: seq<T>) {
    forall i, j :: 0 <= i < j < |xs| ==> xs[i] != xs[j]
  }

  /** `list(dict.fromkeys(ids))` */
  function Unique(ids: seq<string>): (r: seq<string>)
    ensures Distinct(r) && forall x :: x in r <==> x in ids
  {
    if ids == [] then []
    else
      var front := Unique(ids[..|ids| - 1]);
      if ids[|ids| - 1] in front then front else front + [ids[|ids| - 1]]
  }

  /** The listing by identifier; of two items with one identifier the later one counts. */
  function ById(items: seq<Item>): (m: map<string, Item>)
    ensures forall id :: id in m ==> m[id] in items && m[id].id == id
    ensures forall i :: i in items ==> i.id in m
  {
    if items == [] then map[]
    else ById(items[..|items| - 1])[items[|items| - 1].id := items[|items| - 1]]
  }

  function Chosen(wanted: seq<string>, m: map<string, Item>): seq<Item> {
    if wanted == [] then []
    else
      var id := wanted[|wanted| - 1];
      Chosen(wanted[..|wanted| - 1], m) + if id in m && m[id].tagged then [m[id]] else []
  }

  // ---------------------------------------------------------------------------------------------
  // The order of deletion
  // ---------------------------------------------------------------------------------------------

  function IsGroup(): Item -> bool {
    (i: Item) => i.kind.SecurityGroup?
  }

  function IsOther(): Item -> bool {
    (i: Item) => !i.kind.SecurityGroup?
  }

  function GroupOrder(groups: seq<Item>): seq<Item> {
    var chosen := ArnsOf(groups);
    Sorted(groups, (a: Item, b: Item) => GroupLess(a, b, chosen))
  }

  /** The first place whose kind comes after security groups. */
  function Splice(items: seq<Item>, n: nat): (p: nat)
    requires n <= |items|
    ensures n <= p <= |items|
    ensures forall i :: n <= i < p ==> Rank(items[i].kind) <= Rank(SecurityGroup)
    ensures p < |items| ==> Rank(items[p].kind) > Rank(SecurityGroup)
    decreases |items| - n
  {
    if n == |items| || Rank(items[n].kind) > Rank(SecurityGroup) then n else Splice(items, n + 1)
  }

  function Plan(chosen: seq<Item>): seq<Item> {
    var sorted := Sorted(chosen, ItemLess);
    var others := Filter(sorted, IsOther());
    var pos := Splice(others, 0);
    others[..pos] + GroupOrder(Filter(sorted, IsGroup())) + others[pos..]
  }

  predicate RankLess(a: Item, b: Item) {
    Rank(a.kind) < Rank(b.kind)
  }

  lemma {:induction false} FilterKeepsOrder(xs: seq<Item>, keep: Item -> bool)
    requires Ordered(xs, ItemLess)
    ensures Ordered(Filter(xs, keep), ItemLess)
    ensures forall x :: x in Filter(xs, keep) ==> x in xs && keep(x)
  {
    if xs != [] {
      var n := |xs| - 1;
      FilterKeepsOrder(xs[..n], keep);
      forall y | y in Filter(xs[..n], keep) ensures !ItemLess(xs[n], y) {
        var k :| 0 <= k < n && xs[k] == y;
      }
      AppendOrdered(Filter(xs[..n], keep), xs[n], ItemLess);
    }
  }

  lemma {:induction false} Partition(xs: seq<Item>)
    ensures multiset(Filter(xs, IsOther())) + multiset(Filter(xs, IsGroup())) == multiset(xs)
  {
    if xs != [] {
      var front, last := xs[..|xs| - 1], xs[|xs| - 1];
      assert xs == front + [last];
      Partition(front);
    }
  }

  /** The plan deletes exactly the chosen items, kind by kind, the security groups spliced in at their place. */
  lemma PlanFacts(chosen: seq<Item>)
    ensures multiset(Plan(chosen)) == multiset(chosen)
    ensures Ordered(Plan(chosen), RankLess)
  {
    var sorted := Sorted(chosen, ItemLess);
    var others, groups := Filter(sorted, IsOther()), Filter(sorted, IsGroup());
    ItemLessIsStrict();
    SortedIsOrdered(chosen, ItemLess);
    SortedKeeps(chosen, ItemLess);
    Partition(sorted);
    FilterKeepsOrder(sorted, IsOther());
    FilterKeepsOrder(sorted, IsGroup());
    GroupOrderFacts(groups);
    PlanMembers(others, GroupOrder(groups), Splice(others, 0));
    SpliceKeepsOrder(others, GroupOrder(groups), Splice(others, 0));
  }

  lemma PlanMembers(others: seq<Item>, groups: seq<Item>, pos: nat)
    requires pos <= |others|
    ensures multiset(others[..pos] + groups + others[pos..]) == multiset(others) + multiset(groups)
  {
    assert others == others[..pos] + others[pos..];
  }

  lemma SpliceKeepsOrder(others: seq<Item>, groups: seq<Item>, pos: nat)
    requires pos == Splice(others, 0) && Ordered(others, ItemLess)
    requires forall g :: g in groups ==> g.kind.SecurityGroup?
    ensures Ordered(others[..pos] + groups + others[pos..], RankLess)
  {
    forall i, j | 0 <= i < j < |others| ensures Rank(others[i].kind) <= Rank(others[j].kind) {
      assert !ItemLess(others[j], others[i]);
    }
  }

  lemma GroupOrderFacts(groups: seq<Item>)
    ensures multiset(GroupOrder(groups)) == multiset(groups)
    ensures forall x :: x in GroupOrder(groups) <==> x in groups
    ensures forall i, j :: 0 <= i < j < |groups| ==> !GroupLess(GroupOrder(groups)[j], GroupOrder(groups)[i], ArnsOf(groups))
  {
    var chosen := ArnsOf(groups);
    var less := (a: Item, b: Item) => GroupLess(a, b, chosen);
    GroupLessIsStrict(chosen);
    SortedIsOrdered(groups, less);
    SortedKeeps(groups, less);
    SameMembers(GroupOrder(groups), groups);
  }

  lemma {:induction false} StringTrichotomy(a: string, b: string)
    requires !StringLess(a, b) && !StringLess(b, a)
    ensures a == b
  {
    if a != "" && b != "" {
      StringTrichotomy(a[1..], b[1..]);
      assert a == [a[0]] + a[1..] && b == [b[0]] + b[1..];
    }
  }

  lemma {:induction false} OnceEach<T>(xs: seq<T>, x: T)
    requires Distinct(xs)
    ensures multiset(xs)[x] <= 1
  {
    if xs != [] {
      var front, last := xs[..|xs| - 1], xs[|xs| - 1];
      assert front + [last] == xs;
      OnceEach(front, x);
      OneMore(front, last);
      assert last !in front;
    }
  }

  lemma Twice<T>(xs: seq<T>, i: nat, j: nat)
    requires i < j < |xs| && xs[i] == xs[j]
    ensures multiset(xs)[xs[i]] >= 2
  {
    assert xs == xs[..j] + [xs[j]] + xs[j + 1..];
    assert xs[i] in xs[..j];
  }

  lemma StillDistinct<T>(xs: seq<T>, ys: seq<T>)
    requires Distinct(xs) && multiset(xs) == multiset(ys)
    ensures Distinct(ys)
  {
    forall i, j | 0 <= i < j < |ys| ensures ys[i] != ys[j] {
      if ys[i] == ys[j] {
        Twice(ys, i, j);
        OnceEach(xs, ys[i]);
      }
    }
  }

  /** A chosen group stands before another one that names it. */
  ghost predicate OutOfOrder(groups: seq<Item>) {
    exists i, j :: 0 <= i < j < |groups| && groups[i].arn in groups[j].refs
  }

  /** The named group names a chosen one itself and comes first by name, or by its place among equal names. */
  predicate Overtakes(groups: seq<Item>, x: nat, y: nat)
    requires x < |groups| && y < |groups|
  {
    && x != y && groups[x].arn in groups[y].refs && Refers(groups[x], ArnsOf(groups))
    && (StringLess(groups[x].name, groups[y].name) || (groups[x].name == groups[y].name && x < y))
  }

  lemma NamedIsReferred(groups: seq<Item>, x: nat, y: nat)
    requires x < |groups| && y < |groups| && groups[x].arn in groups[y].refs
    ensures Refers(groups[y], ArnsOf(groups))
  {
    assert groups[x] in groups && groups[x].arn in groups[y].refs * ArnsOf(groups);
  }

  /** How the sort places two groups that both name a chosen one. */
  lemma GroupPlaced(groups: seq<Item>, x: nat, y: nat)
    requires x < |groups| && y < |groups| && x != y
    requires Refers(groups[x], ArnsOf(groups)) && Refers(groups[y], ArnsOf(groups))
    requires StringLess(groups[x].name, groups[y].name) || (groups[x].name == groups[y].name && x < y)
    ensures Before(GroupOrder(groups), groups[x], groups[y])
  {
    var chosen := ArnsOf(groups);
    var less := (a: Item, b: Item) => GroupLess(a, b, chosen);
    GroupLessIsStrict(chosen);
    if groups[x].name == groups[y].name {
      StringNotLess(groups[x].name);
    } else {
      StringLessAsymmetric(groups[x].name, groups[y].name);
    }
    if x < y {
      SortedBefore(groups, less, x, y);
    } else {
      SortedBefore(groups, less, y, x);
    }
  }

  lemma StringNotLess(a: string)
    ensures !StringLess(a, a)
  {
    if StringLess(a, a) {
      StringLessAsymmetric(a, a);
    }
  }

  lemma NotBothBefore(xs: seq<Item>, i: nat, j: nat)
    requires Distinct(xs) && i < j < |xs|
    ensures !Before(xs, xs[j], xs[i])
  {
  }

  /**
   The security groups are deleted out of order, one of them before another that names it, if and only if some
   named group names a chosen group too and comes before its referrer by name.
   */
  lemma OutOfOrderExactly(groups: seq<Item>)
    requires Distinct(groups)
    ensures OutOfOrder(GroupOrder(groups)) <==>
            exists x, y :: 0 <= x < |groups| && 0 <= y < |groups| && Overtakes(groups, x, y)
  {
    var r := GroupOrder(groups);
    GroupOrderFacts(groups);
    if x, y :| 0 <= x < |groups| && 0 <= y < |groups| && Overtakes(groups, x, y) {
      NamedIsReferred(groups, x, y);
      GroupPlaced(groups, x, y);
    }
    if OutOfOrder(r) {
      var i, j :| 0 <= i < j < |r| && r[i].arn in r[j].refs;
      StillDistinct(groups, r);
      assert r[i] in groups && r[j] in groups;
      var x :| 0 <= x < |groups| && groups[x] == r[i];
      var y :| 0 <= y < |groups| && groups[y] == r[j];
      NamedIsReferred(groups, x, y);
      NotBothBefore(r, i, j);
      NotPlacedFirst(groups, x, y);
    }
  }

  /** A named group that the sort does not place behind its referrer overtakes it. */
  lemma NotPlacedFirst(groups: seq<Item>, x: nat, y: nat)
    requires x < |groups| && y < |groups| && x != y && groups[x].arn in groups[y].refs
    requires !Before(GroupOrder(groups), groups[y], groups[x])
    ensures Overtakes(groups, x, y)
  {
    var chosen := ArnsOf(groups);
    var less := (a: Item, b: Item) => GroupLess(a, b, chosen);
    GroupLessIsStrict(chosen);
    NamedIsReferred(groups, x, y);
    if x < y {
      SortedBefore(groups, less, x, y);
    } else {
      SortedBefore(groups, less, y, x);
    }
    if !StringLess(groups[x].name, groups[y].name) && !StringLess(groups[y].name, groups[x].name) {
      StringTrichotomy(groups[x].name, groups[y].name);
    }
    if groups[x].name == groups[y].name {
      StringNotLess(groups[x].name);
    }
  }

  const BALANCER := Item("3", "sg-b", SecurityGroup, "balancer", "", true, {})
  const PROXY := Item("2", "sg-p", SecurityGroup, "proxy", "", true, {"sg-b"})
  const TASK := Item("1", "sg-t", SecurityGroup, "task", "", true, {"sg-p"})

  /** In a chain task -> proxy -> balancer the proxy goes first by its name, while the task group still names it. */
  lemma ChainedGroupsOutOfOrder()
    ensures OutOfOrder(GroupOrder([TASK, PROXY, BALANCER]))
  {
    var groups := [TASK, PROXY, BALANCER];
    assert groups[1] in groups && groups[2] in groups;
    assert "sg-b" in PROXY.refs * ArnsOf(groups);
    assert Overtakes(groups, 1, 0);
    OutOfOrderExactly(groups);
  }

  // ---------------------------------------------------------------------------------------------
  // Deleting
  // ---------------------------------------------------------------------------------------------

  function IdsOf(lines: seq<Line>): seq<string> {
    if lines == [] then [] else IdsOf(lines[..|lines| - 1]) + [lines[|lines| - 1].id]
  }

  /** The database of this item is left, or one of unknown service is. */
  predicate Blocked(item: Item, left: set<string>) {
    NeedsDatabaseGone(item.kind) && (item.service in left || "" in left)
  }

  function LineOf(item: Item, o: Outcome): Line {
    Line(item.id, o.Deleted?, o.Kept?)
  }

  /** Services of the databases that the attempts so far did not delete. */
  function Left(attempts: seq<Item>, remote: nat -> Outcome): (s: set<string>)
    ensures forall i :: 0 <= i < |attempts| && attempts[i].kind.RdsInstance? && !remote(i).Deleted? ==> attempts[i].service in s
    ensures forall x :: x in s ==>
              exists i :: 0 <= i < |attempts| && attempts[i].kind.RdsInstance? && !remote(i).Deleted? && attempts[i].service == x
  {
    set i | 0 <= i < |attempts| && attempts[i].kind.RdsInstance? && !remote(i).Deleted? :: attempts[i].service
  }

  /** What has been asked for after the first `n` items of the plan. */
  function Tried(plan: seq<Item>, n: nat, remote: nat -> Outcome): seq<Item>
    requires n <= |plan|
  {
    if n == 0 then []
    else
      var before := Tried(plan, n - 1, remote);
      if Blocked(plan[n - 1], Left(before, remote)) then before else before + [plan[n - 1]]
  }

  function PlanLine(plan: seq<Item>, i: nat, remote: nat -> Outcome): (line: Line)
    requires i < |plan|
    ensures line.id == plan[i].id
  {
    var before := Tried(plan, i, remote);
    if Blocked(plan[i], Left(before, remote)) then Line(plan[i].id, false, true) else LineOf(plan[i], remote(|before|))
  }

  function PlanLines(plan: seq<Item>, n: nat, remote: nat -> Outcome): (r: seq<Line>)
    requires n <= |plan|
    ensures |r| == n && forall i :: 0 <= i < n ==> r[i] == PlanLine(plan, i, remote)
  {
    if n == 0 then [] else PlanLines(plan, n - 1, remote) + [PlanLine(plan, n - 1, remote)]
  }

  lemma {:induction false} TriedAt(plan: seq<Item>, n: nat, remote: nat -> Outcome, j: nat) returns (m: nat)
    requires n <= |plan| && j < |Tried(plan, n, remote)|
    ensures m < n && plan[m] == Tried(plan, n, remote)[j]
    ensures Tried(plan, m, remote) == Tried(plan, n, remote)[..j] && !Blocked(plan[m], Left(Tried(plan, m, remote), remote))
  {
    var before, now := Tried(plan, n - 1, remote), Tried(plan, n, remote);
    if j < |before| {
      m := TriedAt(plan, n - 1, remote, j);
      assert now[..j] == before[..j] && now[j] == before[j];
    } else {
      m := n - 1;
      assert now == before + [plan[m]] && now[..j] == before;
    }
  }

  lemma {:induction false} TriedKeepsOrder(plan: seq<Item>, n: nat, remote: nat -> Outcome)
    requires n <= |plan| && Ordered(plan, RankLess)
    ensures Ordered(Tried(plan, n, remote), RankLess)
    ensures forall x :: x in Tried(plan, n, remote) ==> x in plan[..n]
  {
    if n > 0 {
      TriedKeepsOrder(plan, n - 1, remote);
      var before := Tried(plan, n - 1, remote);
      forall y | y in before ensures !RankLess(plan[n - 1], y) {
        var k :| 0 <= k < n - 1 && plan[..n - 1][k] == y;
      }
      AppendOrdered(before, plan[n - 1], RankLess);
      assert plan[..n] == plan[..n - 1] + [plan[n - 1]];
    }
  }

  lemma DatabaseDecides(plan: seq<Item>, remote: nat -> Outcome, i: nat, j: nat)
    requires Ordered(plan, RankLess)
    requires var tried := Tried(plan, |plan|, remote);
             && i < |tried| && j < |tried| && tried[i].kind.RdsInstance? && !remote(i).Deleted? && NeedsDatabaseGone(tried[j].kind)
    ensures var tried := Tried(plan, |plan|, remote);
            tried[i].service != "" && tried[i].service != tried[j].service
  {
    var tried := Tried(plan, |plan|, remote);
    TriedKeepsOrder(plan, |plan|, remote);
    DatabaseRank(tried[i], tried[j]);
    assert i < j;
    var m := TriedAt(plan, |plan|, remote, j);
    LeftBehind(tried, i, j, remote);
  }

  lemma LeftBehind(attempts: seq<Item>, i: nat, j: nat, remote: nat -> Outcome)
    requires i < j <= |attempts| && attempts[i].kind.RdsInstance? && !remote(i).Deleted?
    ensures attempts[i].service in Left(attempts[..j], remote)
  {
    assert attempts[..j][i] == attempts[i];
  }

  lemma DatabaseRank(a: Item, b: Item)
    requires a.kind.RdsInstance? && NeedsDatabaseGone(b.kind)
    ensures a != b && RankLess(a, b)
  {
  }

  lemma {:induction false} TriedIsPrefix(plan: seq<Item>, m: nat, n: nat, remote: nat -> Outcome)
    requires m <= n <= |plan|
    ensures Tried(plan, m, remote) <= Tried(plan, n, remote)
  {
    if m < n {
      TriedIsPrefix(plan, m, n - 1, remote);
    }
  }

  lemma UnblockedIsTried(plan: seq<Item>, i: nat, remote: nat -> Outcome)
    requires i < |plan|
    ensures Blocked(plan[i], Left(Tried(plan, i, remote), remote)) || plan[i] in Tried(plan, |plan|, remote)
  {
    TriedIsPrefix(plan, i + 1, |plan|, remote);
    var next := Tried(plan, i + 1, remote);
    assert Blocked(plan[i], Left(Tried(plan, i, remote), remote)) || next[|next| - 1] == plan[i];
  }

  /** What was not attempted is held back by a database of its service, or of no known service, that was not deleted. */
  lemma HeldBackByDatabase(plan: seq<Item>, i: nat, remote: nat -> Outcome) returns (k: nat)
    requires i < |plan| && plan[i] !in Tried(plan, |plan|, remote)
    ensures var tried := Tried(plan, |plan|, remote);
            && k < |tried| && tried[k].kind.RdsInstance? && !remote(k).Deleted?
            && (tried[k].service == plan[i].service || tried[k].service == "") && NeedsDatabaseGone(plan[i].kind)
  {
    TriedIsPrefix(plan, i, |plan|, remote);
    UnblockedIsTried(plan, i, remote);
    var before := Tried(plan, i, remote);
    var x := if plan[i].service in Left(before, remote) then plan[i].service else "";
    k :| 0 <= k < |before| && before[k].kind.RdsInstance? && !remote(k).Deleted? && before[k].service == x;
  }

  /** The lines of requested items that are not chosen. */
  function Skips(wanted: seq<string>, m: map<string, Item>): seq<Line> {
    if wanted == [] then []
    else
      var id := wanted[|wanted| - 1];
      Skips(wanted[..|wanted| - 1], m) + if id in m && m[id].tagged then [] else [Line(id, false, true)]
  }

  method Select(wanted: seq<string>, byId: map<string, Item>) returns (results: seq<Line>, chosen: seq<Item>)
    ensures results == Skips(wanted, byId) && chosen == Chosen(wanted, byId)
  {
    results, chosen := [], [];
    for n := 0 to |wanted|
      invariant results == Skips(wanted[..n], byId) && chosen == Chosen(wanted[..n], byId)
    {
      assert wanted[..n + 1][..n] == wanted[..n];
      var id := wanted[n];
      if id !in byId || !byId[id].tagged {
        results := results + [Line(id, false, true)];
      } else {
        chosen := chosen + [byId[id]];
      }
    }
    assert wanted[..|wanted|] == wanted;
  }

  method Execute(plan: seq<Item>, remote: nat -> Outcome) returns (results: seq<Line>, attempts: seq<Item>)
    ensures attempts == Tried(plan, |plan|, remote) && results == PlanLines(plan, |plan|, remote)
  {
    var left: set<string> := {};
    results, attempts := [], [];
    for n := 0 to |plan|
      invariant attempts == Tried(plan, n, remote) && left == Left(attempts, remote)
      invariant results == PlanLines(plan, n, remote)
    {
      var item := plan[n];
      if Blocked(item, left) {
        results := results + [Line(item.id, false, true)];
      } else {
        var outcome := remote(|attempts|);
        LeftStep(attempts, item, remote);
        if item.kind.RdsInstance? && !outcome.Deleted? {
          left := left + {item.service};
        }
        attempts := attempts + [item];
        results := results + [LineOf(item, outcome)];
      }
    }
  }

  function CountOk(lines: seq<Line>): nat {
    if lines == [] then 0 else CountOk(lines[..|lines| - 1]) + if lines[|lines| - 1].ok then 1 else 0
  }

  function CountFailed(lines: seq<Line>): nat {
    if lines == [] then 0
    else CountFailed(lines[..|lines| - 1]) + if !lines[|lines| - 1].ok && !lines[|lines| - 1].skipped then 1 else 0
  }

  method Totals(lines: seq<Line>) returns (deleted: nat, failed: nat)
    ensures deleted == CountOk(lines) && failed == CountFailed(lines)
  {
    deleted, failed := 0, 0;
    for i := 0 to |lines|
      invariant deleted == CountOk(lines[..i]) && failed == CountFailed(lines[..i])
    {
      assert lines[..i + 1][..i] == lines[..i];
      if lines[i].ok {
        deleted := deleted + 1;
      } else if !lines[i].skipped {
        failed := failed + 1;
      }
    }
    assert lines[..|lines|] == lines;
  }

  /** Nothing happens without approval. */
  method Delete(listing: seq<Item>, ids: seq<string>, approved: bool, remote: nat -> Outcome) returns (r: Option<Report>)
    ensures r.None? <==> !approved
    ensures approved ==> r.value.attempts == AttemptsOf(listing, ids, remote) && r.value.results == ResultsOf(listing, ids, remote)
    ensures approved ==> r.value.deleted == CountOk(r.value.results) && r.value.failed == CountFailed(r.value.results)
  {
    if !approved {
      return None;
    }
    var skips, chosen := Select(Unique(ids), ById(listing));
    var results, attempts := Execute(Plan(chosen), remote);
    var deleted, failed := Totals(skips + results);
    return Some(Report(skips + results, attempts, deleted, failed));
  }

  function PlanOf(listing: seq<Item>, ids: seq<string>): seq<Item> {
    Plan(Chosen(Unique(ids), ById(listing)))
  }

  function AttemptsOf(listing: seq<Item>, ids: seq<string>, remote: nat -> Outcome): seq<Item> {
    Tried(PlanOf(listing, ids), |PlanOf(listing, ids)|, remote)
  }

  function ResultsOf(listing: seq<Item>, ids: seq<string>, remote: nat -> Outcome): seq<Line> {
    Skips(Unique(ids), ById(listing)) + PlanLines(PlanOf(listing, ids), |PlanOf(listing, ids)|, remote)
  }

  lemma LeftStep(attempts: seq<Item>, item: Item, remote: nat -> Outcome)
    ensures Left(attempts + [item], remote) ==
            Left(attempts, remote) + if item.kind.RdsInstance? && !remote(|attempts|).Deleted? then {item.service} else {}
  {
    var more := attempts + [item];
    forall x | x in Left(more, remote)
      ensures x in Left(attempts, remote) || (item.kind.RdsInstance? && !remote(|attempts|).Deleted? && x == item.service)
    {
      var i :| 0 <= i < |more| && more[i].kind.RdsInstance? && !remote(i).Deleted? && more[i].service == x;
    }
    forall x | x in Left(attempts, remote) ensures x in Left(more, remote) {
      var i :| 0 <= i < |attempts| && attempts[i].kind.RdsInstance? && !remote(i).Deleted? && attempts[i].service == x;
      assert more[i] == attempts[i];
    }
    assert more[|attempts|] == item;
  }

  // ---------------------------------------------------------------------------------------------
  // What was promised to the caller
  // ---------------------------------------------------------------------------------------------

  lemma {:induction false} ChosenFacts(wanted: seq<string>, m: map<string, Item>)
    requires forall id :: id in m ==> m[id].id == id
    ensures forall x :: x in Chosen(wanted, m) <==> x.id in wanted && x.id in m && m[x.id] == x && x.tagged
  {
    if wanted != [] {
      ChosenFacts(wanted[..|wanted| - 1], m);
      assert forall id :: id in wanted <==> id in wanted[..|wanted| - 1] || id == wanted[|wanted| - 1];
    }
  }

  lemma ChosenIdsStep(skips: seq<Line>, chosen: seq<Item>, front: seq<string>, id: string, item: Option<Item>)
    requires multiset(IdsOf(skips)) + multiset(IdsOfItems(chosen)) == multiset(front)
    requires item.Some? ==> item.value.id == id
    ensures item.Some? ==> multiset(IdsOf(skips)) + multiset(IdsOfItems(chosen + [item.value])) == multiset(front + [id])
    ensures item.None? ==>
              multiset(IdsOf(skips + [Line(id, false, true)])) + multiset(IdsOfItems(chosen)) == multiset(front + [id])
  {
    if item.Some? {
      assert (chosen + [item.value])[..|chosen|] == chosen;
    } else {
      assert (skips + [Line(id, false, true)])[..|skips|] == skips;
    }
  }

  lemma {:induction false} ChosenIds(wanted: seq<string>, m: map<string, Item>)
    requires forall id :: id in m ==> m[id].id == id
    ensures multiset(IdsOf(Skips(wanted, m))) + multiset(IdsOfItems(Chosen(wanted, m))) == multiset(wanted)
  {
    if wanted != [] {
      var front, id := wanted[..|wanted| - 1], wanted[|wanted| - 1];
      assert wanted == front + [id];
      ChosenIds(front, m);
      var item := if id in m && m[id].tagged then Some(m[id]) else None;
      ChosenIdsStep(Skips(front, m), Chosen(front, m), front, id, item);
      ListsStep(wanted, m);
    }
  }

  lemma ListsStep(wanted: seq<string>, m: map<string, Item>)
    requires wanted != []
    ensures var front, id := wanted[..|wanted| - 1], wanted[|wanted| - 1];
            if id in m && m[id].tagged
            then Skips(wanted, m) == Skips(front, m) && Chosen(wanted, m) == Chosen(front, m) + [m[id]]
            else Skips(wanted, m) == Skips(front, m) + [Line(id, false, true)] && Chosen(wanted, m) == Chosen(front, m)
  {
  }

  function IdsOfItems(items: seq<Item>): seq<string> {
    if items == [] then [] else IdsOfItems(items[..|items| - 1]) + [items[|items| - 1].id]
  }

  lemma {:induction false} IdsAppend(a: seq<Item>, b: seq<Item>)
    ensures IdsOfItems(a + b) == IdsOfItems(a) + IdsOfItems(b)
  {
    if b == [] {
      assert a + b == a;
    } else {
      IdsAppend(a, b[..|b| - 1]);
      assert (a + b)[..|a + b| - 1] == a + b[..|b| - 1];
    }
  }

  lemma {:induction false} LineIdsAppend(a: seq<Line>, b: seq<Line>)
    ensures IdsOf(a + b) == IdsOf(a) + IdsOf(b)
  {
    if b == [] {
      assert a + b == a;
    } else {
      LineIdsAppend(a, b[..|b| - 1]);
      assert (a + b)[..|a + b| - 1] == a + b[..|b| - 1];
    }
  }

  lemma {:induction false} PlanLineIds(plan: seq<Item>, n: nat, remote: nat -> Outcome)
    requires n <= |plan|
    ensures IdsOf(PlanLines(plan, n, remote)) == IdsOfItems(plan[..n])
  {
    if n > 0 {
      PlanLineIds(plan, n - 1, remote);
      assert plan[..n][..n - 1] == plan[..n - 1];
    }
  }

  lemma {:induction false} SameItemsSameIds(a: seq<Item>, b: seq<Item>)
    requires multiset(a) == multiset(b)
    ensures multiset(IdsOfItems(a)) == multiset(IdsOfItems(b))
  {
    if a != [] {
      var front, last := a[..|a| - 1], a[|a| - 1];
      assert a == front + [last];
      var left, right := SplitAt(b, last);
      Middle(left, last, right);
      Cancel(multiset(front), multiset(left + right), last);
      SameItemsSameIds(front, left + right);
    } else {
      assert |multiset(b)| == 0;
    }
  }

  lemma SplitAt(b: seq<Item>, x: Item) returns (left: seq<Item>, right: seq<Item>)
    requires x in multiset(b)
    ensures b == left + [x] + right
  {
    var k :| 0 <= k < |b| && b[k] == x;
    left, right := b[..k], b[k + 1..];
  }

  lemma Cancel(a: multiset<Item>, b: multiset<Item>, x: Item)
    requires a + multiset{x} == b + multiset{x}
    ensures a == b
  {
    assert a == a + multiset{x} - multiset{x};
    assert b == b + multiset{x} - multiset{x};
  }

  lemma Middle(front: seq<Item>, x: Item, back: seq<Item>)
    ensures multiset(front + [x] + back) == multiset(front + back) + multiset{x}
    ensures multiset(IdsOfItems(front + [x] + back)) == multiset(IdsOfItems(front + back)) + multiset{x.id}
  {
    IdsAppend(front + [x], back);
    IdsAppend(front, back);
  }

  /**
   Only requested items that the fresh listing holds with the tag are attempted, in order of kind; every distinct
   requested identifier has exactly one line.
   */
  lemma DeletesWhatWasApproved(listing: seq<Item>, ids: seq<string>, remote: nat -> Outcome)
    ensures forall x :: x in AttemptsOf(listing, ids, remote) ==> x.id in ids && x in listing && x.tagged
    ensures Ordered(AttemptsOf(listing, ids, remote), RankLess)
    ensures multiset(IdsOf(ResultsOf(listing, ids, remote))) == multiset(Unique(ids))
  {
    var wanted, m := Unique(ids), ById(listing);
    ChosenFacts(wanted, m);
    ChosenIds(wanted, m);
    PlanFacts(Chosen(wanted, m));
    SameMembers(PlanOf(listing, ids), Chosen(wanted, m));
    SameItemsSameIds(PlanOf(listing, ids), Chosen(wanted, m));
    PlanRun(PlanOf(listing, ids), Skips(wanted, m), remote);
  }

  lemma PlanRun(plan: seq<Item>, skips: seq<Line>, remote: nat -> Outcome)
    requires Ordered(plan, RankLess)
    ensures Ordered(Tried(plan, |plan|, remote), RankLess) && forall x :: x in Tried(plan, |plan|, remote) ==> x in plan
    ensures multiset(IdsOf(skips + PlanLines(plan, |plan|, remote))) == multiset(IdsOf(skips)) + multiset(IdsOfItems(plan))
  {
    TriedKeepsOrder(plan, |plan|, remote);
    assert plan[..|plan|] == plan;
    PlanLineIds(plan, |plan|, remote);
    LineIdsAppend(skips, PlanLines(plan, |plan|, remote));
  }

  /** Once a database is kept or failed, nothing that the databases of its service use is attempted, anywhere in the run. */
  lemma DatabaseDecidesFirst(listing: seq<Item>, ids: seq<string>, remote: nat -> Outcome, i: nat, j: nat)
    requires var tried := AttemptsOf(listing, ids, remote);
             && i < |tried| && j < |tried| && tried[i].kind.RdsInstance? && !remote(i).Deleted? && NeedsDatabaseGone(tried[j].kind)
    ensures var tried := AttemptsOf(listing, ids, remote);
            tried[i].service != "" && tried[i].service != tried[j].service
  {
    PlanFacts(Chosen(Unique(ids), ById(listing)));
    DatabaseDecides(PlanOf(listing, ids), remote, i, j);
  }

  lemma AttemptedOrHeld(listing: seq<Item>, ids: seq<string>, remote: nat -> Outcome, x: Item)
    requires x in PlanOf(listing, ids)
    ensures x in AttemptsOf(listing, ids, remote)
            || exists d :: d in AttemptsOf(listing, ids, remote) && d.kind.RdsInstance? && (d.service == x.service || d.service == "")
  {
    var plan := PlanOf(listing, ids);
    if x !in AttemptsOf(listing, ids, remote) {
      var i :| 0 <= i < |plan| && plan[i] == x;
      var k := HeldBackByDatabase(plan, i, remote);
      assert Tried(plan, |plan|, remote)[k] in AttemptsOf(listing, ids, remote);
    }
  }

  /**
   A database that this run does not try to delete, because it was not requested or has no tag, holds nothing back:
   what it uses is attempted although the database stays.
   */
  lemma UntriedDatabasesHoldNothing(listing: seq<Item>, ids: seq<string>, remote: nat -> Outcome, x: Item)
    requires x in PlanOf(listing, ids)
    requires forall d :: d in listing && d.kind.RdsInstance? && (d.service == x.service || d.service == "") ==>
               !d.tagged || d.id !in ids
    ensures x in AttemptsOf(listing, ids, remote)
  {
    DeletesWhatWasApproved(listing, ids, remote);
    AttemptedOrHeld(listing, ids, remote, x);
  }

  /** A database of this service, or of no known one, was tried and is still there. */
  ghost predicate DatabaseLeft(listing: seq<Item>, ids: seq<string>, remote: nat -> Outcome, service: string) {
    var tried := AttemptsOf(listing, ids, remote);
    exists k :: 0 <= k < |tried| && tried[k].kind.RdsInstance? && !remote(k).Deleted?
                && (tried[k].service == service || tried[k].service == "")
  }

  /** What databases use is attempted if and only if no database of its service, or of no known one, was left behind. */
  lemma DependentIsTriedExactly(listing: seq<Item>, ids: seq<string>, remote: nat -> Outcome, x: Item)
    requires x in PlanOf(listing, ids) && x.kind in {RdsSubnetGroup, RdsParameterGroup, Secret}
    ensures x in AttemptsOf(listing, ids, remote) <==> !DatabaseLeft(listing, ids, remote, x.service)
  {
    var plan, tried := PlanOf(listing, ids), AttemptsOf(listing, ids, remote);
    if x !in tried {
      var i :| 0 <= i < |plan| && plan[i] == x;
      var k := HeldBackByDatabase(plan, i, remote);
    } else {
      var j :| 0 <= j < |tried| && tried[j] == x;
      forall k | 0 <= k < |tried| && tried[k].kind.RdsInstance? && !remote(k).Deleted?
        ensures tried[k].service != x.service && tried[k].service != ""
      {
        DatabaseDecidesFirst(listing, ids, remote, k, j);
      }
    }
  }

  lemma ChosenIsPlanned(listing: seq<Item>, ids: seq<string>, x: Item)
    requires x.id in ids && x.tagged && x.id in ById(listing) && ById(listing)[x.id] == x
    ensures x in PlanOf(listing, ids)
  {
    var chosen := Chosen(Unique(ids), ById(listing));
    ChosenFacts(Unique(ids), ById(listing));
    PlanFacts(chosen);
    SameMembers(PlanOf(listing, ids), chosen);
  }

  /** A database that is in the listing but was not asked for stays, and the secret of its service is deleted. */
  lemma SecretGoesBeforeDatabase(db: Item, x: Item, remote: nat -> Outcome)
    requires db.kind.RdsInstance? && db.tagged && x.kind.Secret? && x.tagged && db.service == x.service && db.id != x.id
    ensures db !in AttemptsOf([db, x], [x.id], remote) && x in AttemptsOf([db, x], [x.id], remote)
  {
    var listing := [db, x];
    assert listing[..1] == [db] && ById(listing) == ById([db])[x.id := x];
    ChosenIsPlanned(listing, [x.id], x);
    DeletesWhatWasApproved(listing, [x.id], remote);
    UntriedDatabasesHoldNothing(listing, [x.id], remote, x);
  }
}
