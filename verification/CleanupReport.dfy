/** The order in which resources go, and what the report says of each of them. */
module CleanupReport {
  import opened Wrappers
  import opened Sorting
  import opened Cleanup

  // ---------------------------------------------------------------------------------------------
  // The order
  // ---------------------------------------------------------------------------------------------

  /** All kinds, those that go first in front. */
  const KINDS: seq<Kind> := [
    Watcher, EcsService, TaskDefinitions, CloudFront, WafCdn, AcmCertificate, Waf, Alb, AcmOriginCertificate, TargetGroup,
    RdsInstance, RdsSubnetGroup, RdsParameterGroup, Kind.Secret, Alarm, SnsTopic, Ecr, LogGroup, SecurityGroup, EcsCluster,
    S3Bucket]

  function PlaceOf(k: Kind): (i: nat)
    ensures i < |KINDS| && KINDS[i] == k
  {
    match k
    case Watcher => 0
    case EcsService => 1
    case TaskDefinitions => 2
    case CloudFront => 3
    case WafCdn => 4
    case AcmCertificate => 5
    case Waf => 6
    case Alb => 7
    case AcmOriginCertificate => 8
    case TargetGroup => 9
    case RdsInstance => 10
    case RdsSubnetGroup => 11
    case RdsParameterGroup => 12
    case Secret => 13
    case Alarm => 14
    case SnsTopic => 15
    case Ecr => 16
    case LogGroup => 17
    case SecurityGroup => 18
    case EcsCluster => 19
    case S3Bucket => 20
  }

  lemma RanksAreInOrder(a: Kind, b: Kind)
    ensures Rank(a) < Rank(b) <==> PlaceOf(a) < PlaceOf(b)
  {
  }

  /** `a < b` for strings: they first differ where `a` ends or has the smaller character. */
  predicate FirstDiffers(a: string, b: string, n: nat) {
    n <= |a| && n < |b| && a[..n] == b[..n] && (n == |a| || a[n] < b[n])
  }

  lemma {:induction false} StringLessExactly(a: string, b: string)
    ensures StringLess(a, b) <==> exists n: nat :: FirstDiffers(a, b, n)
  {
    if b != "" {
      if a == "" || a[0] < b[0] {
        assert FirstDiffers(a, b, 0);
      } else {
        StringLessExactly(a[1..], b[1..]);
        assert a == [a[0]] + a[1..] && b == [b[0]] + b[1..];
        if StringLess(a, b) {
          var n: nat :| FirstDiffers(a[1..], b[1..], n);
          assert a[..n + 1] == [a[0]] + a[1..][..n] && b[..n + 1] == [b[0]] + b[1..][..n];
          assert FirstDiffers(a, b, n + 1);
        }
        if n: nat :| FirstDiffers(a, b, n) {
          LaterDifference(a, b, n);
        }
      }
    }
  }

  lemma LaterDifference(a: string, b: string, n: nat)
    requires FirstDiffers(a, b, n) && a != "" && !(a[0] < b[0])
    ensures a[0] == b[0] && n > 0 && FirstDiffers(a[1..], b[1..], n - 1)
  {
    assert n > 0;
    assert a[..n][0] == b[..n][0];
    assert a[1..][..n - 1] == a[..n][1..] && b[1..][..n - 1] == b[..n][1..];
  }

  function GroupsOf(items: seq<Item>): seq<Item> {
    Filter(Sorted(items, ItemLess), IsGroup())
  }

  /**
   Of two resources in the order of deletion the earlier one is of no later kind.  Within one kind names decide, but
   of the security groups those go first that name a chosen group.
   */
  lemma PlanInOrder(chosen: seq<Item>, i: nat, j: nat)
    requires i < j < |Plan(chosen)|
    ensures var a, b := Plan(chosen)[i], Plan(chosen)[j];
            && PlaceOf(a.kind) <= PlaceOf(b.kind)
            && (a.kind == b.kind && !a.kind.SecurityGroup? ==> !StringLess(b.name, a.name))
            && (a.kind.SecurityGroup? && b.kind.SecurityGroup? ==> !GroupLess(b, a, ArnsOf(GroupsOf(chosen))))
    ensures forall x :: x in GroupsOf(chosen) <==> x in chosen && x.kind.SecurityGroup?
  {
    PlanFacts(chosen);
    var plan := Plan(chosen);
    assert !RankLess(plan[j], plan[i]);
    RanksAreInOrder(plan[j].kind, plan[i].kind);
    var sorted := Sorted(chosen, ItemLess);
    var others, groups := Filter(sorted, IsOther()), GroupOrder(GroupsOf(chosen));
    ItemLessIsStrict();
    SortedIsOrdered(chosen, ItemLess);
    SortedKeeps(chosen, ItemLess);
    SameMembers(sorted, chosen);
    FilterKeepsOrder(sorted, IsOther());
    Filtered(sorted, IsGroup());
    GroupOrderFacts(GroupsOf(chosen));
    Spliced(others, groups, Splice(others, 0), i, j);
  }

  lemma {:induction false} Filtered(xs: seq<Item>, keep: Item -> bool)
    ensures forall x :: x in Filter(xs, keep) <==> x in xs && keep(x)
  {
    if xs != [] {
      var front, last := xs[..|xs| - 1], xs[|xs| - 1];
      assert xs == front + [last];
      Filtered(front, keep);
    }
  }

  /** Where two elements of a spliced sequence come from. */
  lemma Spliced(others: seq<Item>, groups: seq<Item>, pos: nat, i: nat, j: nat)
    requires pos <= |others| && i < j < |others| + |groups|
    requires Ordered(others, ItemLess) && (forall x :: x in others ==> !x.kind.SecurityGroup?)
    requires forall x :: x in groups ==> x.kind.SecurityGroup?
    ensures var all := others[..pos] + groups + others[pos..];
            && (all[i].kind == all[j].kind && !all[i].kind.SecurityGroup? ==> !StringLess(all[j].name, all[i].name))
            && (all[i].kind.SecurityGroup? && all[j].kind.SecurityGroup? ==>
                  exists k, l :: 0 <= k < l < |groups| && groups[k] == all[i] && groups[l] == all[j])
  {
    var all := others[..pos] + groups + others[pos..];
    forall n | 0 <= n < |all|
      ensures pos <= n < pos + |groups| ==> all[n] == groups[n - pos] && all[n] in groups
      ensures n < pos ==> all[n] == others[n] && all[n] in others
      ensures n >= pos + |groups| ==> all[n] == others[n - |groups|] && all[n] in others
    {
    }
    if all[i].kind == all[j].kind && !all[i].kind.SecurityGroup? {
      var k := if i < pos then i else i - |groups|;
      var l := if j < pos then j else j - |groups|;
      assert !ItemLess(others[l], others[k]);
    }
    if all[i].kind.SecurityGroup? && all[j].kind.SecurityGroup? {
      assert groups[i - pos] == all[i] && groups[j - pos] == all[j];
    }
  }

  // ---------------------------------------------------------------------------------------------
  // What is chosen, and equal names
  // ---------------------------------------------------------------------------------------------

  /** The last item of the listing with its identifier. */
  predicate LastListed(listing: seq<Item>, i: nat) {
    i < |listing| && forall j :: i < j < |listing| ==> listing[j].id != listing[i].id
  }

  lemma {:induction false} LaterListingCounts(listing: seq<Item>, i: nat)
    requires LastListed(listing, i)
    ensures ById(listing)[listing[i].id] == listing[i]
  {
    if i < |listing| - 1 {
      LaterListingCounts(listing[..|listing| - 1], i);
    }
  }

  lemma StillLast(front: seq<Item>, last: Item, i: nat)
    requires LastListed(front, i) && last.id != front[i].id
    ensures LastListed(front + [last], i)
  {
  }

  lemma {:induction false} HasLastListing(listing: seq<Item>, id: string) returns (i: nat)
    requires exists x :: x in listing && x.id == id
    ensures LastListed(listing, i) && listing[i].id == id
  {
    var front, last := listing[..|listing| - 1], listing[|listing| - 1];
    assert listing == front + [last];
    if last.id == id {
      i := |front|;
    } else {
      i := HasLastListing(front, id);
      StillLast(front, last, i);
    }
  }

  /** Planned are the requested items that the fresh listing, where it names them last, shows as tagged. */
  lemma PlannedExactly(listing: seq<Item>, ids: seq<string>, x: Item)
    ensures x in PlanOf(listing, ids) <==>
            x.id in ids && x.tagged && exists i: nat :: LastListed(listing, i) && listing[i] == x
  {
    var chosen := Chosen(Unique(ids), ById(listing));
    ChosenFacts(Unique(ids), ById(listing));
    PlanFacts(chosen);
    SameMembers(PlanOf(listing, ids), chosen);
    if x in chosen {
      var i := HasLastListing(listing, x.id);
      LaterListingCounts(listing, i);
    }
    if i: nat :| LastListed(listing, i) && listing[i] == x {
      LaterListingCounts(listing, i);
    }
  }

  /** `x` is mentioned before `y` is mentioned at all. */
  predicate MentionedFirst(ids: seq<string>, x: string, y: string) {
    exists a :: 0 <= a < |ids| && ids[a] == x && y !in ids[..a + 1]
  }

  lemma Among(ids: seq<string>, n: nat, b: nat)
    requires b < |ids| && n <= |ids|
    ensures b < n ==> ids[b] in ids[..n]
  {
    if b < n {
      assert ids[..n][b] == ids[b];
    }
  }

  lemma NotBothFirst(ids: seq<string>, x: string, y: string)
    requires MentionedFirst(ids, x, y)
    ensures !MentionedFirst(ids, y, x)
  {
    var a :| 0 <= a < |ids| && ids[a] == x && y !in ids[..a + 1];
    forall b | 0 <= b < |ids| && ids[b] == y ensures x in ids[..b + 1] {
      Among(ids, a + 1, b);
      Among(ids, b + 1, a);
    }
  }

  lemma MentionedLater(front: seq<string>, last: string, x: string, y: string)
    requires MentionedFirst(front, x, y)
    ensures MentionedFirst(front + [last], x, y)
  {
    var a :| 0 <= a < |front| && front[a] == x && y !in front[..a + 1];
    assert (front + [last])[..a + 1] == front[..a + 1];
  }

  lemma MentionedNow(front: seq<string>, x: string, y: string)
    requires x in front && y !in front
    ensures MentionedFirst(front + [y], x, y)
  {
    var a :| 0 <= a < |front| && front[a] == x;
    assert (front + [y])[..a + 1] == front[..a + 1];
  }

  /** Repeated identifiers count where they are mentioned first. */
  lemma {:induction false} UniqueInOrder(ids: seq<string>, x: string, y: string)
    requires Before(Unique(ids), x, y)
    ensures MentionedFirst(ids, x, y)
  {
    var front, last := ids[..|ids| - 1], ids[|ids| - 1];
    assert ids == front + [last];
    if last !in Unique(front) {
      BeforeFront(Unique(front), last, x, y);
    }
    if Before(Unique(front), x, y) {
      UniqueInOrder(front, x, y);
      MentionedLater(front, last, x, y);
    } else {
      MentionedNow(front, x, y);
    }
  }

  lemma {:induction false} ChosenInOrder(wanted: seq<string>, m: map<string, Item>, i: nat, j: nat)
    requires i < j < |Chosen(wanted, m)| && forall id :: id in m ==> m[id].id == id
    ensures Before(wanted, Chosen(wanted, m)[i].id, Chosen(wanted, m)[j].id)
  {
    var front, last := wanted[..|wanted| - 1], wanted[|wanted| - 1];
    assert wanted == front + [last];
    var before := Chosen(front, m);
    ChosenFacts(front, m);
    if j < |before| {
      ChosenInOrder(front, m, i, j);
    } else {
      assert before[i] in before;
    }
    BeforeAppend(front, last, Chosen(wanted, m)[i].id, Chosen(wanted, m)[j].id);
  }

  lemma {:induction false} SkipIds(wanted: seq<string>, m: map<string, Item>)
    ensures forall line :: line in Skips(wanted, m) ==> line.id in wanted
  {
    if wanted != [] {
      SkipIds(wanted[..|wanted| - 1], m);
    }
  }

  /** The lines of what is not there, or not tagged, follow the request. */
  lemma {:induction false} SkipsInOrder(wanted: seq<string>, m: map<string, Item>, i: nat, j: nat)
    requires i < j < |Skips(wanted, m)|
    ensures Before(wanted, Skips(wanted, m)[i].id, Skips(wanted, m)[j].id)
  {
    var front, last := wanted[..|wanted| - 1], wanted[|wanted| - 1];
    assert wanted == front + [last];
    var before := Skips(front, m);
    SkipIds(front, m);
    if j < |before| {
      SkipsInOrder(front, m, i, j);
    } else {
      assert before[i] in before;
    }
    BeforeAppend(front, last, Skips(wanted, m)[i].id, Skips(wanted, m)[j].id);
  }

  lemma {:induction false} FilterBefore(xs: seq<Item>, keep: Item -> bool, a: Item, b: Item)
    requires Before(xs, a, b) && keep(a) && keep(b)
    ensures Before(Filter(xs, keep), a, b)
  {
    var front, last := xs[..|xs| - 1], xs[|xs| - 1];
    assert xs == front + [last];
    BeforeFront(front, last, a, b);
    Filtered(front, keep);
    FilterSnoc(front, last, keep);
    if Before(front, a, b) {
      FilterBefore(front, keep, a, b);
    }
    if keep(last) {
      BeforeAppend(Filter(front, keep), last, a, b);
    } else {
      assert Filter(xs, keep) == Filter(front, keep);
    }
  }

  lemma SplicedBefore(others: seq<Item>, groups: seq<Item>, pos: nat, a: Item, b: Item)
    requires pos <= |others| && (Before(others, a, b) || Before(groups, a, b))
    ensures Before(others[..pos] + groups + others[pos..], a, b)
  {
    var all := others[..pos] + groups + others[pos..];
    if Before(groups, a, b) {
      var k, l :| 0 <= k < l < |groups| && groups[k] == a && groups[l] == b;
      assert all[pos + k] == a && all[pos + l] == b;
    } else {
      var k, l :| 0 <= k < l < |others| && others[k] == a && others[l] == b;
      assert all[if k < pos then k else k + |groups|] == a && all[if l < pos then l else l + |groups|] == b;
    }
  }

  /** Items of one kind and name, and of equal standing among security groups. */
  predicate Alike(chosen: seq<Item>, a: Item, b: Item) {
    && a.kind == b.kind && a.name == b.name
    && (a.kind.SecurityGroup? ==> Refers(a, ArnsOf(GroupsOf(chosen))) == Refers(b, ArnsOf(GroupsOf(chosen))))
  }

  lemma GroupsBefore(groups: seq<Item>, a: Item, b: Item)
    requires Before(groups, a, b) && a.name == b.name && Refers(a, ArnsOf(groups)) == Refers(b, ArnsOf(groups))
    ensures Before(GroupOrder(groups), a, b)
  {
    var chosen := ArnsOf(groups);
    var less := (x: Item, y: Item) => GroupLess(x, y, chosen);
    var i, j :| 0 <= i < j < |groups| && groups[i] == a && groups[j] == b;
    GroupLessIsStrict(chosen);
    StringNotLess(a.name);
    SortedBefore(groups, less, i, j);
  }

  lemma AlikeKeepOrder(chosen: seq<Item>, i: nat, j: nat)
    requires i < j < |chosen| && Alike(chosen, chosen[i], chosen[j])
    ensures Before(Plan(chosen), chosen[i], chosen[j])
  {
    var a, b, sorted := chosen[i], chosen[j], Sorted(chosen, ItemLess);
    ItemLessIsStrict();
    StringNotLess(a.name);
    SortedBefore(chosen, ItemLess, i, j);
    if a.kind.SecurityGroup? {
      FilterBefore(sorted, IsGroup(), a, b);
      GroupsBefore(GroupsOf(chosen), a, b);
    } else {
      FilterBefore(sorted, IsOther(), a, b);
    }
    SplicedBefore(Filter(sorted, IsOther()), GroupOrder(GroupsOf(chosen)), Splice(Filter(sorted, IsOther()), 0), a, b);
  }

  lemma ChosenByMention(listing: seq<Item>, ids: seq<string>, i: nat, j: nat)
    requires i < |Chosen(Unique(ids), ById(listing))| && j < |Chosen(Unique(ids), ById(listing))|
    requires var chosen := Chosen(Unique(ids), ById(listing)); MentionedFirst(ids, chosen[i].id, chosen[j].id)
    ensures i <= j
  {
    var wanted, m := Unique(ids), ById(listing);
    var chosen := Chosen(wanted, m);
    NotBothFirst(ids, chosen[i].id, chosen[j].id);
    if j < i {
      ChosenInOrder(wanted, m, j, i);
      UniqueInOrder(ids, chosen[j].id, chosen[i].id);
    }
  }

  lemma ChosenPlace(listing: seq<Item>, ids: seq<string>, x: Item) returns (i: nat)
    requires x in PlanOf(listing, ids)
    ensures i < |Chosen(Unique(ids), ById(listing))| && Chosen(Unique(ids), ById(listing))[i] == x
  {
    var chosen := Chosen(Unique(ids), ById(listing));
    PlanFacts(chosen);
    SameMembers(PlanOf(listing, ids), chosen);
    i :| 0 <= i < |chosen| && chosen[i] == x;
  }

  /** Of two that nothing else tells apart, the one that the request mentions first goes first. */
  lemma MentionDecides(listing: seq<Item>, ids: seq<string>, x: Item, y: Item)
    requires x in PlanOf(listing, ids) && y in PlanOf(listing, ids) && Alike(Chosen(Unique(ids), ById(listing)), x, y)
    requires MentionedFirst(ids, x.id, y.id)
    ensures Before(PlanOf(listing, ids), x, y)
  {
    var i := ChosenPlace(listing, ids, x);
    var j := ChosenPlace(listing, ids, y);
    NotBothFirst(ids, x.id, y.id);
    ChosenByMention(listing, ids, i, j);
    AlikeKeepOrder(Chosen(Unique(ids), ById(listing)), i, j);
  }

  // ---------------------------------------------------------------------------------------------
  // The lines of the report
  // ---------------------------------------------------------------------------------------------

  lemma {:induction false} TriedGrows(plan: seq<Item>, n: nat, m: nat, remote: nat -> Outcome)
    requires n <= m <= |plan|
    ensures Tried(plan, n, remote) <= Tried(plan, m, remote)
  {
    if n < m {
      TriedGrows(plan, n, m - 1, remote);
    }
  }

  /** Each attempt was made for one place of the plan. */
  lemma {:induction false} AttemptAt(plan: seq<Item>, n: nat, remote: nat -> Outcome, k: nat) returns (i: nat)
    requires n <= |plan| && k < |Tried(plan, n, remote)|
    ensures i < n && |Tried(plan, i, remote)| == k && Tried(plan, n, remote)[k] == plan[i]
    ensures !Blocked(plan[i], Left(Tried(plan, i, remote), remote))
  {
    if k < |Tried(plan, n - 1, remote)| {
      i := AttemptAt(plan, n - 1, remote, k);
    } else {
      i := n - 1;
    }
  }

  lemma LineAt(plan: seq<Item>, i: nat, remote: nat -> Outcome)
    requires i < |plan|
    ensures var k := |Tried(plan, i, remote)|;
            if Blocked(plan[i], Left(Tried(plan, i, remote), remote)) then PlanLine(plan, i, remote) == Line(plan[i].id, false, true)
            else && k < |Tried(plan, |plan|, remote)| && Tried(plan, |plan|, remote)[k] == plan[i]
                 && PlanLine(plan, i, remote) == LineOf(plan[i], remote(k))
  {
    TriedGrows(plan, i + 1, |plan|, remote);
  }

  predicate DistinctPlan(plan: seq<Item>) {
    forall i, j :: 0 <= i < j < |plan| ==> plan[i].id != plan[j].id
  }

  /** The line says what became of the resource: whether it was deleted, and whether it was passed over. */
  ghost predicate Tells(tried: seq<Item>, remote: nat -> Outcome, line: Line) {
    && (line.ok <==> exists k :: 0 <= k < |tried| && tried[k].id == line.id && remote(k).Deleted?)
    && (line.skipped <==> (forall k :: 0 <= k < |tried| ==> tried[k].id != line.id)
                          || exists k :: 0 <= k < |tried| && tried[k].id == line.id && remote(k).Kept?)
  }

  lemma LineTells(plan: seq<Item>, i: nat, remote: nat -> Outcome)
    requires i < |plan| && DistinctPlan(plan)
    ensures Tells(Tried(plan, |plan|, remote), remote, PlanLine(plan, i, remote))
  {
    var tried, n := Tried(plan, |plan|, remote), |Tried(plan, i, remote)|;
    LineAt(plan, i, remote);
    forall k | 0 <= k < |tried| && tried[k].id == plan[i].id
      ensures k == n && !Blocked(plan[i], Left(Tried(plan, i, remote), remote))
    {
      var h := AttemptAt(plan, |plan|, remote, k);
      assert h == i;
    }
  }

  lemma LinesTell(plan: seq<Item>, remote: nat -> Outcome, line: Line)
    requires DistinctPlan(plan) && line in PlanLines(plan, |plan|, remote)
    ensures Tells(Tried(plan, |plan|, remote), remote, line)
  {
    var i :| 0 <= i < |plan| && PlanLines(plan, |plan|, remote)[i] == line;
    LineTells(plan, i, remote);
  }

  lemma {:induction false} ChosenIsDistinct(wanted: seq<string>, m: map<string, Item>)
    requires Distinct(wanted) && forall id :: id in m ==> m[id].id == id
    ensures DistinctPlan(Chosen(wanted, m)) && forall x :: x in Chosen(wanted, m) ==> x.id in wanted
  {
    if wanted != [] {
      var front, id := wanted[..|wanted| - 1], wanted[|wanted| - 1];
      assert forall x :: x in wanted <==> x in front || x == id;
      assert id !in front;
      ChosenIsDistinct(front, m);
    }
  }

  lemma PlanIsDistinct(listing: seq<Item>, ids: seq<string>)
    ensures DistinctPlan(PlanOf(listing, ids))
  {
    var wanted, m := Unique(ids), ById(listing);
    var chosen := Chosen(wanted, m);
    ChosenIsDistinct(wanted, m);
    PlanFacts(chosen);
    assert Distinct(chosen);
    StillDistinct(chosen, PlanOf(listing, ids));
    SameMembers(PlanOf(listing, ids), chosen);
    ChosenFacts(wanted, m);
    var plan := PlanOf(listing, ids);
    forall i, j | 0 <= i < j < |plan| ensures plan[i].id != plan[j].id {
      assert plan[i] in chosen && plan[j] in chosen;
    }
  }

  lemma {:induction false} SkipsAre(wanted: seq<string>, m: map<string, Item>)
    requires forall id :: id in m ==> m[id].id == id
    ensures forall line :: line in Skips(wanted, m) ==>
              !line.ok && line.skipped && (line.id !in m || !m[line.id].tagged)
  {
    if wanted != [] {
      SkipsAre(wanted[..|wanted| - 1], m);
    }
  }

  /** Every line of the report tells what became of its resource. */
  lemma ReportTells(listing: seq<Item>, ids: seq<string>, remote: nat -> Outcome, line: Line)
    requires line in ResultsOf(listing, ids, remote)
    ensures Tells(AttemptsOf(listing, ids, remote), remote, line)
  {
    var plan, tried := PlanOf(listing, ids), AttemptsOf(listing, ids, remote);
    PlanIsDistinct(listing, ids);
    SkipsAre(Unique(ids), ById(listing));
    if line in PlanLines(plan, |plan|, remote) {
      LinesTell(plan, remote, line);
    } else {
      DeletesWhatWasApproved(listing, ids, remote);
      PlannedIsListed(listing, ids, remote);
    }
  }

  lemma PlannedIsListed(listing: seq<Item>, ids: seq<string>, remote: nat -> Outcome)
    ensures forall x :: x in AttemptsOf(listing, ids, remote) ==> x.id in ById(listing) && ById(listing)[x.id].tagged
  {
    var plan := PlanOf(listing, ids);
    var chosen := Chosen(Unique(ids), ById(listing));
    ChosenFacts(Unique(ids), ById(listing));
    PlanFacts(chosen);
    SameMembers(plan, chosen);
    forall x | x in AttemptsOf(listing, ids, remote) ensures x in plan {
      var k :| 0 <= k < |AttemptsOf(listing, ids, remote)| && AttemptsOf(listing, ids, remote)[k] == x;
      var i := AttemptAt(plan, |plan|, remote, k);
    }
  }

  /** Only what databases use is ever held back: everything else that was chosen is attempted. */
  lemma OnlyDependentsAreHeld(listing: seq<Item>, ids: seq<string>, remote: nat -> Outcome, x: Item)
    requires x in PlanOf(listing, ids) && x.kind !in {RdsSubnetGroup, RdsParameterGroup, Kind.Secret}
    ensures x in AttemptsOf(listing, ids, remote)
  {
    var plan := PlanOf(listing, ids);
    var i :| 0 <= i < |plan| && plan[i] == x;
    LineAt(plan, i, remote);
  }

  // ---------------------------------------------------------------------------------------------
  // The totals
  // ---------------------------------------------------------------------------------------------

  function DeletedIn(n: nat, remote: nat -> Outcome): set<nat> {
    set k | 0 <= k < n && remote(k).Deleted?
  }

  function FailedIn(n: nat, remote: nat -> Outcome): set<nat> {
    set k | 0 <= k < n && remote(k).Failed?
  }

  lemma OneMoreMember(s: set<nat>, t: set<nat>, n: nat, added: bool)
    requires n !in s && forall k :: k in t <==> k in s || (added && k == n)
    ensures |t| == |s| + if added then 1 else 0
  {
    assert t == if added then s + {n} else s;
  }

  lemma OneMoreOutcome(n: nat, remote: nat -> Outcome)
    ensures |DeletedIn(n + 1, remote)| == |DeletedIn(n, remote)| + if remote(n).Deleted? then 1 else 0
    ensures |FailedIn(n + 1, remote)| == |FailedIn(n, remote)| + if remote(n).Failed? then 1 else 0
  {
    OneMoreMember(DeletedIn(n, remote), DeletedIn(n + 1, remote), n, remote(n).Deleted?);
    OneMoreMember(FailedIn(n, remote), FailedIn(n + 1, remote), n, remote(n).Failed?);
  }

  lemma CountSnoc(lines: seq<Line>, line: Line)
    ensures CountOk(lines + [line]) == CountOk(lines) + if line.ok then 1 else 0
    ensures CountFailed(lines + [line]) == CountFailed(lines) + if !line.ok && !line.skipped then 1 else 0
  {
    assert (lines + [line])[..|lines|] == lines;
  }

  /** The next line of the plan counts exactly if its attempt was made and ended that way. */
  lemma NextTotal(plan: seq<Item>, n: nat, remote: nat -> Outcome)
    requires n < |plan|
    ensures var k, line := |Tried(plan, n, remote)|, PlanLine(plan, n, remote);
            if |Tried(plan, n + 1, remote)| == k then !line.ok && line.skipped
            else |Tried(plan, n + 1, remote)| == k + 1 && (line.ok <==> remote(k).Deleted?)
                 && (!line.ok && !line.skipped <==> remote(k).Failed?)
  {
  }

  ghost predicate TotalsHold(lines: seq<Line>, attempts: nat, remote: nat -> Outcome) {
    CountOk(lines) == |DeletedIn(attempts, remote)| && CountFailed(lines) == |FailedIn(attempts, remote)|
  }

  lemma TotalsStep(lines: seq<Line>, line: Line, k: nat, more: nat, remote: nat -> Outcome)
    requires TotalsHold(lines, k, remote)
    requires if more == k then !line.ok && line.skipped
             else more == k + 1 && (line.ok <==> remote(k).Deleted?) && (!line.ok && !line.skipped <==> remote(k).Failed?)
    ensures TotalsHold(lines + [line], more, remote)
  {
    CountSnoc(lines, line);
    OneMoreOutcome(k, remote);
  }

  lemma PlanLinesStep(plan: seq<Item>, n: nat, remote: nat -> Outcome)
    requires n < |plan|
    ensures PlanLines(plan, n + 1, remote) == PlanLines(plan, n, remote) + [PlanLine(plan, n, remote)]
  {
  }

  lemma NoTotals(remote: nat -> Outcome)
    ensures TotalsHold([], 0, remote)
  {
    assert DeletedIn(0, remote) == {} && FailedIn(0, remote) == {};
  }

  lemma PlanTotalsStep(plan: seq<Item>, n: nat, remote: nat -> Outcome, before: seq<Line>, after: seq<Line>)
    requires n < |plan| && before == PlanLines(plan, n, remote) && after == PlanLines(plan, n + 1, remote)
    requires TotalsHold(before, |Tried(plan, n, remote)|, remote)
    ensures TotalsHold(after, |Tried(plan, n + 1, remote)|, remote)
  {
    NextTotal(plan, n, remote);
    PlanLinesStep(plan, n, remote);
    TotalsStep(before, PlanLine(plan, n, remote), |Tried(plan, n, remote)|, |Tried(plan, n + 1, remote)|, remote);
  }

  lemma {:induction false} PlanTotals(plan: seq<Item>, n: nat, remote: nat -> Outcome)
    requires n <= |plan|
    ensures TotalsHold(PlanLines(plan, n, remote), |Tried(plan, n, remote)|, remote)
  {
    if n == 0 {
      NoTotals(remote);
    } else {
      PlanTotals(plan, n - 1, remote);
      PlanTotalsStep(plan, n - 1, remote, PlanLines(plan, n - 1, remote), PlanLines(plan, n, remote));
    }
  }

  lemma {:induction false} SkipTotals(wanted: seq<string>, m: map<string, Item>)
    ensures CountOk(Skips(wanted, m)) == 0 && CountFailed(Skips(wanted, m)) == 0
  {
    if wanted != [] {
      var front, id := wanted[..|wanted| - 1], wanted[|wanted| - 1];
      SkipTotals(front, m);
      CountSnoc(Skips(front, m), Line(id, false, true));
      ListsStep(wanted, m);
    }
  }

  lemma {:induction false} TotalsAppend(a: seq<Line>, b: seq<Line>)
    ensures CountOk(a + b) == CountOk(a) + CountOk(b) && CountFailed(a + b) == CountFailed(a) + CountFailed(b)
  {
    if b == [] {
      assert a + b == a;
    } else {
      TotalsAppend(a, b[..|b| - 1]);
      assert (a + b)[..|a + b| - 1] == a + b[..|b| - 1];
    }
  }

  /** The totals of the report are the deletions that went through and those that failed. */
  lemma TotalsAreOutcomes(listing: seq<Item>, ids: seq<string>, remote: nat -> Outcome)
    ensures CountOk(ResultsOf(listing, ids, remote)) == |DeletedIn(|AttemptsOf(listing, ids, remote)|, remote)|
    ensures CountFailed(ResultsOf(listing, ids, remote)) == |FailedIn(|AttemptsOf(listing, ids, remote)|, remote)|
  {
    var plan := PlanOf(listing, ids);
    SkipTotals(Unique(ids), ById(listing));
    PlanTotals(plan, |plan|, remote);
    TotalsAppend(Skips(Unique(ids), ById(listing)), PlanLines(plan, |plan|, remote));
  }
}
