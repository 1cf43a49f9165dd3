/**
 Putting a split policy on the deploy role: one managed policy per document, each with at most five versions.
 Any one call to IAM may be refused or may fail, so that every state between two calls is the end of some run.
 */
module ManagedPolicies {
  import opened Wrappers
  import opened PolicySplit
  import opened Sorting
  import Decimal
  import Text

  datatype Version = Version(id: nat, created: nat, doc: Document)

  /** A managed policy: its default version and the others; `next` numbers the versions to come. */
  datatype Managed = Managed(default: Version, others: seq<Version>, next: nat)

  datatype Fault = Denied | Broken

  datatype Error = RoleSetupDenied(action: string) | Raised | StatementTooBig(sid: string)

  const MAX_VERSIONS := 5
  const ROLE_POLICY_NAME := "recoder-deploy-policy"

  predicate DistinctIds(vs: seq<Version>) {
    forall i, j :: 0 <= i < j < |vs| ==> vs[i].id != vs[j].id
  }

  predicate ValidManaged(m: Managed) {
    && 1 + |m.others| <= MAX_VERSIONS
    && m.default.id < m.next
    && (forall i :: 0 <= i < |m.others| ==> m.others[i].id < m.next && m.others[i].id != m.default.id)
    && DistinctIds(m.others)
  }

  // ---------------------------------------------------------------------------------------------
  // Names
  // ---------------------------------------------------------------------------------------------

  function ManagedPolicyName(index: nat): string {
    ROLE_POLICY_NAME + "-" + Decimal.Format(index + 1)
  }

  function Arn(base: string, index: nat): string {
    base + "/" + ManagedPolicyName(index)
  }

  /** The policy name in an ARN is what follows its last slash. */
  predicate IsOurs(arn: string) {
    ROLE_POLICY_NAME + "-" <= Text.AfterSlash(arn)
  }

  function Arns(base: string, n: nat): (s: set<string>)
    ensures forall k :: 0 <= k < n ==> Arn(base, k) in s
    ensures forall a :: a in s ==> exists k :: 0 <= k < n && a == Arn(base, k)
  {
    set k | 0 <= k < n :: Arn(base, k)
  }

  lemma ArnInjective(base: string, i: nat, j: nat)
    requires Arn(base, i) == Arn(base, j)
    ensures i == j
  {
    var prefix := base + "/" + ROLE_POLICY_NAME + "-";
    assert Arn(base, i) == prefix + Decimal.Format(i + 1) && Arn(base, j) == prefix + Decimal.Format(j + 1);
    assert Arn(base, i)[|prefix|..] == Decimal.Format(i + 1) && Arn(base, j)[|prefix|..] == Decimal.Format(j + 1);
    Decimal.FormatInjective(i + 1, j + 1);
  }

  /** The names are numbered from one. */
  lemma NamesAre(index: nat)
    ensures ManagedPolicyName(index) == "recoder-deploy-policy-" + Decimal.Format(index + 1)
    ensures ManagedPolicyName(0) == "recoder-deploy-policy-1"
  {
  }

  /** A policy is taken for one of ours exactly if its name, behind the last slash, has our prefix. */
  lemma OursExactly(base: string, name: string)
    requires '/' !in name
    ensures IsOurs(base + "/" + name) <==> exists rest :: name == "recoder-deploy-policy-" + rest
  {
    Text.AfterSlashOf(base, name);
    if "recoder-deploy-policy-" <= name {
      assert name == "recoder-deploy-policy-" + name[|"recoder-deploy-policy-"|..];
    }
  }

  lemma OwnArn(base: string, index: nat)
    ensures Text.AfterSlash(Arn(base, index)) == ManagedPolicyName(index) && IsOurs(Arn(base, index))
  {
    Text.AfterSlashOf(base, ManagedPolicyName(index));
  }

  // ---------------------------------------------------------------------------------------------
  // What the role may do, as a value: the default documents of its attached policies
  // ---------------------------------------------------------------------------------------------

  type Grants = map<string, Document>

  function GrantsOf(policies: map<string, Managed>, attached: set<string>): Grants {
    map a | a in attached && a in policies :: policies[a].default.doc
  }

  function Installed(g: Grants, base: string, docs: seq<Document>, n: nat): Grants
    requires n <= |docs|
  {
    if n == 0 then g else Installed(g, base, docs, n - 1)[Arn(base, n - 1) := docs[n - 1]]
  }

  function Kept(g: Grants, arns: set<string>): Grants {
    map a | a in g && (a in arns || !IsOurs(a)) :: g[a]
  }

  function After(g: Grants, base: string, docs: seq<Document>): Grants {
    Kept(Installed(g, base, docs, |docs|), Arns(base, |docs|))
  }

  /** All new documents are attached and are the defaults. */
  ghost predicate InPlace(g: Grants, base: string, docs: seq<Document>) {
    forall k :: 0 <= k < |docs| ==> Arn(base, k) in g && g[Arn(base, k)] == docs[k]
  }

  /** No attached policy goes before everything new is in place, and each holds its old or its new document. */
  ghost predicate NoNameLost(was: Grants, now: Grants, base: string, docs: seq<Document>) {
    && (was.Keys <= now.Keys || InPlace(now, base, docs))
    && (forall a :: a in was && !IsOurs(a) ==> a in now)
    && (forall a :: a in now ==>
          (a in was && now[a] == was[a]) || exists k :: 0 <= k < |docs| && a == Arn(base, k) && now[a] == docs[k])
  }

  lemma {:induction false} InstalledKeys(g: Grants, base: string, docs: seq<Document>, n: nat)
    requires n <= |docs|
    ensures forall a :: a in Installed(g, base, docs, n) <==> a in g || a in Arns(base, n)
    ensures forall a :: a in g && a !in Arns(base, n) ==> Installed(g, base, docs, n)[a] == g[a]
  {
    if n > 0 {
      InstalledKeys(g, base, docs, n - 1);
      assert Arns(base, n) == Arns(base, n - 1) + {Arn(base, n - 1)};
    }
  }

  lemma {:induction false} InstalledAt(g: Grants, base: string, docs: seq<Document>, n: nat, k: nat)
    requires k < n <= |docs|
    ensures Arn(base, k) in Installed(g, base, docs, n) && Installed(g, base, docs, n)[Arn(base, k)] == docs[k]
  {
    if k < n - 1 {
      InstalledAt(g, base, docs, n - 1, k);
      if Arn(base, k) == Arn(base, n - 1) {
        ArnInjective(base, k, n - 1);
      }
    }
  }

  lemma InstalledFacts(g: Grants, base: string, docs: seq<Document>, n: nat)
    requires n <= |docs|
    ensures forall a :: a in Installed(g, base, docs, n) <==> a in g || a in Arns(base, n)
    ensures forall a :: a in g && a !in Arns(base, n) ==> Installed(g, base, docs, n)[a] == g[a]
    ensures forall k :: 0 <= k < n ==>
              Arn(base, k) in Installed(g, base, docs, n) && Installed(g, base, docs, n)[Arn(base, k)] == docs[k]
  {
    InstalledKeys(g, base, docs, n);
    forall k | 0 <= k < n ensures Installed(g, base, docs, n)[Arn(base, k)] == docs[k] {
      InstalledAt(g, base, docs, n, k);
    }
  }

  /** The attached deploy policies are exactly the current documents; every other policy stays as it was. */
  lemma AfterFacts(g: Grants, base: string, docs: seq<Document>)
    ensures var r := After(g, base, docs);
            && InPlace(r, base, docs)
            && (forall a :: a in r && IsOurs(a) <==> a in Arns(base, |docs|))
            && (forall a :: !IsOurs(a) ==> (a in r <==> a in g) && (a in r ==> r[a] == g[a]))
  {
    InstalledFacts(g, base, docs, |docs|);
    forall k | 0 <= k < |docs| ensures IsOurs(Arn(base, k)) {
      OwnArn(base, k);
    }
    assert forall a :: a in Arns(base, |docs|) ==> IsOurs(a);
  }

  /** A second run with the same documents leaves what the role may do unchanged. */
  lemma AfterTwice(g: Grants, base: string, docs: seq<Document>)
    ensures After(After(g, base, docs), base, docs) == After(g, base, docs)
  {
    var once := After(g, base, docs);
    var twice := After(once, base, docs);
    AfterFacts(g, base, docs);
    AfterFacts(once, base, docs);
    forall a | a in once ensures a in twice && twice[a] == once[a] {
      if IsOurs(a) {
        var k :| 0 <= k < |docs| && a == Arn(base, k);
      }
    }
    assert twice.Keys <= once.Keys;
  }

  // ---------------------------------------------------------------------------------------------
  // What the role may do in between, statement by statement
  // ---------------------------------------------------------------------------------------------

  /** The attached documents and the inline one, which older versions of this code put on the role. */
  datatype View = View(grants: Grants, inlined: Option<Document>)

  ghost predicate Holds(g: Grants, s: Statement) {
    exists a :: a in g && s in g[a].statements
  }

  ghost predicate Allows(v: View, s: Statement) {
    Holds(v.grants, s) || (v.inlined.Some? && s in v.inlined.value.statements)
  }

  /** Allowed before the update and allowed after it. */
  ghost predicate KeepsStatement(v: View, base: string, docs: seq<Document>, s: Statement) {
    Allows(v, s) && Allows(View(After(v.grants, base, docs), None), s)
  }

  predicate FirstIn(docs: seq<Document>, s: Statement, k: nat) {
    k < |docs| && s in docs[k].statements && forall j :: 0 <= j < k ==> s !in docs[j].statements
  }

  /** Some attached document other than those of the first `k` names holds the statement. */
  ghost predicate HeldBeyond(g: Grants, base: string, k: nat, s: Statement) {
    exists a :: a in g && a !in Arns(base, k) && s in g[a].statements
  }

  /**
   No statement moves to a later document: an old statement that the new documents hold for the first time in
   number `k` is also in the inline policy or in an old document that the first `k` new ones do not replace.
   */
  ghost predicate NoneMovesOn(v: View, base: string, docs: seq<Document>) {
    forall s, k :: FirstIn(docs, s, k) && Allows(v, s) ==>
      HeldBeyond(v.grants, base, k, s) || (v.inlined.Some? && s in v.inlined.value.statements)
  }

  /** Everything that is allowed before and after the update is allowed now. */
  ghost predicate NothingLost(v: View, base: string, docs: seq<Document>, now: View) {
    forall s :: KeepsStatement(v, base, docs, s) ==> Allows(now, s)
  }

  lemma InstalledHolds(g: Grants, base: string, docs: seq<Document>, n: nat, s: Statement)
    requires n <= |docs|
    ensures Holds(Installed(g, base, docs, n), s) <==>
            (exists k :: 0 <= k < n && s in docs[k].statements) || HeldBeyond(g, base, n, s)
  {
    var now := Installed(g, base, docs, n);
    InstalledFacts(g, base, docs, n);
    if Holds(now, s) {
      var a :| a in now && s in now[a].statements;
      if a in Arns(base, n) {
        var k :| 0 <= k < n && a == Arn(base, k);
      } else {
        assert a in g && g[a] == now[a];
      }
    }
    if HeldBeyond(g, base, n, s) {
      var a :| a in g && a !in Arns(base, n) && s in g[a].statements;
      assert now[a] == g[a];
    }
  }

  lemma {:induction false} FirstOf(docs: seq<Document>, s: Statement, n: nat) returns (k: nat)
    requires n < |docs| && s in docs[n].statements
    ensures k <= n && FirstIn(docs, s, k)
    decreases n
  {
    if j :| 0 <= j < n && s in docs[j].statements {
      k := FirstOf(docs, s, j);
    } else {
      k := n;
    }
  }

  lemma BeyondFewer(g: Grants, base: string, n: nat, k: nat, s: Statement)
    requires n <= k && HeldBeyond(g, base, k, s)
    ensures HeldBeyond(g, base, n, s)
  {
    var a :| a in g && a !in Arns(base, k) && s in g[a].statements;
    assert a !in Arns(base, n);
  }

  lemma FewerArns(base: string, n: nat, m: nat)
    requires n <= m
    ensures Arns(base, n) <= Arns(base, m)
  {
  }

  lemma UnderOurNames(r: Grants, base: string, docs: seq<Document>, a: string, s: Statement)
    requires InPlace(r, base, docs) && a in r && s in r[a].statements
    ensures a in Arns(base, |docs|) ==> exists k :: 0 <= k < |docs| && s in docs[k].statements
  {
    if a in Arns(base, |docs|) {
      var k :| 0 <= k < |docs| && a == Arn(base, k);
      assert r[Arn(base, k)] == docs[k];
    }
  }

  /** What the update keeps comes from a new document or from a policy of another name. */
  lemma KeptIsNewOrForeign(g: Grants, base: string, docs: seq<Document>, s: Statement)
    requires Holds(After(g, base, docs), s)
    ensures (exists k :: 0 <= k < |docs| && s in docs[k].statements) || forall n :: 0 <= n <= |docs| ==> HeldBeyond(g, base, n, s)
  {
    var r := After(g, base, docs);
    AfterFacts(g, base, docs);
    var a :| a in r && s in r[a].statements;
    UnderOurNames(r, base, docs, a, s);
    if a !in Arns(base, |docs|) {
      forall n | 0 <= n <= |docs| ensures HeldBeyond(g, base, n, s) {
        FewerArns(base, n, |docs|);
      }
    }
  }

  lemma NewIsKept(v: View, base: string, docs: seq<Document>, k: nat, s: Statement)
    requires k < |docs| && s in docs[k].statements && Allows(v, s)
    ensures KeepsStatement(v, base, docs, s)
  {
    var r := After(v.grants, base, docs);
    AfterFacts(v.grants, base, docs);
    assert Arn(base, k) in r && r[Arn(base, k)] == docs[k];
    assert Holds(r, s);
  }

  lemma StayingIsAllowed(v: View, base: string, docs: seq<Document>, n: nat, s: Statement)
    requires NoneMovesOn(v, base, docs) && n <= |docs| && KeepsStatement(v, base, docs, s)
    ensures Allows(View(Installed(v.grants, base, docs, n), v.inlined), s)
  {
    InstalledHolds(v.grants, base, docs, n, s);
    if m :| 0 <= m < |docs| && s in docs[m].statements {
      var k := FirstOf(docs, s, m);
      if n <= k && HeldBeyond(v.grants, base, k, s) {
        BeyondFewer(v.grants, base, n, k, s);
      }
    } else {
      KeptIsNewOrForeign(v.grants, base, docs, s);
    }
  }

  lemma StayingLosesNothing(v: View, base: string, docs: seq<Document>, n: nat)
    requires NoneMovesOn(v, base, docs) && n <= |docs|
    ensures NothingLost(v, base, docs, View(Installed(v.grants, base, docs, n), v.inlined))
  {
    forall s | KeepsStatement(v, base, docs, s) ensures Allows(View(Installed(v.grants, base, docs, n), v.inlined), s) {
      StayingIsAllowed(v, base, docs, n, s);
    }
  }

  lemma MovingIsLost(v: View, base: string, docs: seq<Document>, s: Statement, k: nat)
    requires FirstIn(docs, s, k) && Allows(v, s) && !HeldBeyond(v.grants, base, k, s)
    requires !(v.inlined.Some? && s in v.inlined.value.statements)
    ensures !NothingLost(v, base, docs, View(Installed(v.grants, base, docs, k), v.inlined))
  {
    InstalledHolds(v.grants, base, docs, k, s);
    NewIsKept(v, base, docs, k, s);
  }

  /**
   Between the installation of any two documents everything that is allowed before and after the update is allowed
   if and only if no statement moves to a later document.
   */
  lemma NothingLostExactly(v: View, base: string, docs: seq<Document>)
    ensures NoneMovesOn(v, base, docs) <==>
            forall n :: 0 <= n <= |docs| ==>
              NothingLost(v, base, docs, View(Installed(v.grants, base, docs, n), v.inlined))
  {
    if NoneMovesOn(v, base, docs) {
      forall n | 0 <= n <= |docs| ensures NothingLost(v, base, docs, View(Installed(v.grants, base, docs, n), v.inlined)) {
        StayingLosesNothing(v, base, docs, n);
      }
    } else {
      var s, k :| FirstIn(docs, s, k) && Allows(v, s)
                  && !(HeldBeyond(v.grants, base, k, s) || (v.inlined.Some? && s in v.inlined.value.statements));
      MovingIsLost(v, base, docs, s, k);
    }
  }

  /** Taking leftovers off loses nothing. */
  lemma DetachingLosesNothing(v: View, base: string, docs: seq<Document>, seen: seq<string>, inlined: Option<Document>)
    ensures NothingLost(v, base, docs,
                        View(KeptSoFar(Installed(v.grants, base, docs, |docs|), Arns(base, |docs|), seen), inlined))
  {
    var full := Installed(v.grants, base, docs, |docs|);
    var now := KeptSoFar(full, Arns(base, |docs|), seen);
    var r := After(v.grants, base, docs);
    forall s | KeepsStatement(v, base, docs, s) ensures Holds(now, s) {
      var a :| a in r && s in r[a].statements;
      assert a in now && now[a] == r[a];
    }
  }

  function KeptSoFar(g: Grants, arns: set<string>, seen: seq<string>): Grants {
    map a | a in g && (a in arns || !IsOurs(a) || a !in seen) :: g[a]
  }

  function DocumentsOf(p: Policy): seq<Document> {
    Documents(VersionOf(p), Greedy(VersionOf(p), p.statements, MANAGED_POLICY_LIMIT, 0))
  }

  /** What the check for a managed policy lets through: statements that fit into 6144 characters beside the default version. */
  lemma AcceptedExactly(p: Policy)
    ensures NoneTooBig(p.statements, |p.statements|, MANAGED_POLICY_LIMIT) <==>
            forall s :: s in p.statements ==> PolicySize(Document("2012-10-17", [s])) <= 6144
  {
    if forall s :: s in p.statements ==> PolicySize(Document("2012-10-17", [s])) <= 6144 {
      forall k | 0 <= k < |p.statements| ensures !TooBig(p.statements[k], MANAGED_POLICY_LIMIT) {
        assert p.statements[k] in p.statements;
      }
    } else {
      var s :| s in p.statements && PolicySize(Document("2012-10-17", [s])) > 6144;
      var k :| 0 <= k < |p.statements| && p.statements[k] == s;
      assert TooBig(p.statements[k], MANAGED_POLICY_LIMIT);
    }
  }

  /**
   The documents of a policy that is let through, its version being no longer than the default: none is empty or over
   6144 characters, each has the policy's version, or the default if it has none, and no fewer would do.
   */
  lemma DocumentsAre(p: Policy, other: seq<seq<Statement>>)
    requires NoneTooBig(p.statements, |p.statements|, MANAGED_POLICY_LIMIT) && (p.version.Some? ==> |p.version.value| <= 10)
    ensures forall d :: d in DocumentsOf(p) ==>
              && d.statements != [] && PolicySize(d) <= 6144
              && d.version == (if p.version.Some? then p.version.value else "2012-10-17")
    ensures IsSplit(VersionOf(p), p.statements, 6144, other) ==> |DocumentsOf(p)| <= |other|
  {
    AcceptedIsSplit(p, MANAGED_POLICY_LIMIT);
    if IsSplit(VersionOf(p), p.statements, 6144, other) {
      GreedyIsFewest(VersionOf(p), p.statements, MANAGED_POLICY_LIMIT, other);
    }
    var chunks := Greedy(VersionOf(p), p.statements, MANAGED_POLICY_LIMIT, 0);
    forall d | d in DocumentsOf(p)
      ensures d.statements != [] && PolicySize(d) <= 6144
      ensures d.version == if p.version.Some? then p.version.value else "2012-10-17"
    {
      var k :| 0 <= k < |DocumentsOf(p)| && DocumentsOf(p)[k] == d;
      assert d == Document(VersionOf(p), chunks[k]) && Fits(VersionOf(p), chunks[k], MANAGED_POLICY_LIMIT);
    }
  }

  /** Statements of which two fit into one document and three do not. */
  predicate Halves(ss: seq<Statement>) {
    forall i :: 0 <= i < |ss| ==> ss[i].size == 3000
  }

  lemma {:induction false} HalvesTotal(ss: seq<Statement>)
    requires Halves(ss)
    ensures Total(ss) == 3000 * |ss|
  {
    if ss != [] {
      HalvesTotal(ss[..|ss| - 1]);
    }
  }

  lemma PairsEnd(ss: seq<Statement>, b: nat)
    requires Halves(ss) && b < |ss|
    ensures End(DEFAULT_VERSION, ss, MANAGED_POLICY_LIMIT, b, b + 1) == if b + 1 == |ss| then b + 1 else b + 2
  {
    if b + 1 < |ss| {
      HalvesTotal(ss[b..b + 2]);
      if b + 2 < |ss| {
        HalvesTotal(ss[b..b + 3]);
      }
    }
  }

  lemma TwoDocuments(ss: seq<Statement>)
    requires Halves(ss) && 3 <= |ss| <= 4
    ensures var docs := DocumentsOf(Policy(None, ss));
            |docs| == 2 && docs[0].statements == ss[..2] && docs[1].statements == ss[2..]
  {
    PairsEnd(ss, 0);
    PairsEnd(ss, 2);
    var g := Greedy(DEFAULT_VERSION, ss, MANAGED_POLICY_LIMIT, 2);
    assert Greedy(DEFAULT_VERSION, ss, MANAGED_POLICY_LIMIT, |ss|) == [];
    assert g == [ss[2..|ss|]] && Greedy(DEFAULT_VERSION, ss, MANAGED_POLICY_LIMIT, 0) == [ss[0..2]] + g;
  }

  /**
   A new statement in front of three: the documents [a, b] and [c] become [n, a] and [b, c], and between the two
   installations b is in no attached document, although it is allowed before and after.
   */
  lemma MovedStatementIsLost(base: string, a: Statement, b: Statement, c: Statement, n: Statement)
    requires Halves([a, b, c]) && Halves([n, a, b, c]) && b != a && b != c && b != n
    ensures var was := View(After(map[], base, DocumentsOf(Policy(None, [a, b, c]))), None);
            var docs := DocumentsOf(Policy(None, [n, a, b, c]));
            && |docs| == 2 && KeepsStatement(was, base, docs, b) && !NoneMovesOn(was, base, docs)
            && !Allows(View(Installed(was.grants, base, docs, 1), None), b)
  {
    var first, docs := DocumentsOf(Policy(None, [a, b, c])), DocumentsOf(Policy(None, [n, a, b, c]));
    TwoDocuments([a, b, c]);
    TwoDocuments([n, a, b, c]);
    var was := View(After(map[], base, first), None);
    assert b == first[0].statements[1] && first[1].statements == [c];
    FirstOfTwo(was.grants, base, first, b);
    assert b == docs[1].statements[0] && docs[0].statements == [n, a];
    NewIsKept(was, base, docs, 1, b);
    InstalledHolds(was.grants, base, docs, 1, b);
    assert FirstIn(docs, b, 1);
  }

  lemma FirstOfTwo(g: Grants, base: string, docs: seq<Document>, s: Statement)
    requires |docs| == 2 && s in docs[0].statements && s !in docs[1].statements && g == After(map[], base, docs)
    ensures Holds(g, s) && !HeldBeyond(g, base, 1, s)
  {
    AfterFacts(map[], base, docs);
    assert g[Arn(base, 0)] == docs[0];
    forall x | x in g && x !in Arns(base, 1) ensures s !in g[x].statements {
      assert IsOurs(x) && x in Arns(base, 2);
      var k :| 0 <= k < 2 && x == Arn(base, k);
      assert k == 1;
    }
  }

  // ---------------------------------------------------------------------------------------------
  // The views an update passes through
  // ---------------------------------------------------------------------------------------------

  /** Adds a view to a record unless it is the last one already. */
  function Log(views: seq<View>, v: View): (r: seq<View>)
    ensures r != [] && r[|r| - 1] == v && views <= r
  {
    if views != [] && views[|views| - 1] == v then views else views + [v]
  }

  /** The record of the first `n` installations. */
  function Trail(v: View, base: string, docs: seq<Document>, n: nat): (r: seq<View>)
    requires n <= |docs|
    ensures r != [] && r[0] == v
  {
    if n == 0 then [v] else Log(Trail(v, base, docs, n - 1), View(Installed(v.grants, base, docs, n), v.inlined))
  }

  /** The record once these items have been looked at and the leftovers among them taken off. */
  function Detaching(views: seq<View>, full: View, arns: set<string>, seen: seq<string>): (r: seq<View>)
    ensures views <= r
  {
    if seen == [] then views
    else Log(Detaching(views, full, arns, seen[..|seen| - 1]), View(KeptSoFar(full.grants, arns, seen), full.inlined))
  }

  lemma DetachingStep(views: seq<View>, full: View, arns: set<string>, items: seq<string>, i: nat)
    requires i < |items|
    ensures Detaching(views, full, arns, items[..i + 1])
            == Log(Detaching(views, full, arns, items[..i]), View(KeptSoFar(full.grants, arns, items[..i + 1]), full.inlined))
  {
    assert items[..i + 1][..i] == items[..i];
  }

  ghost predicate NothingEverLost(views: seq<View>, v: View, base: string, docs: seq<Document>) {
    forall i :: 0 <= i < |views| ==> NothingLost(v, base, docs, views[i])
  }

  lemma LogLosesNothing(views: seq<View>, now: View, v: View, base: string, docs: seq<Document>)
    requires NothingEverLost(views, v, base, docs) && NothingLost(v, base, docs, now)
    ensures NothingEverLost(Log(views, now), v, base, docs)
  {
  }

  lemma LogMightLose(views: seq<View>, now: View, v: View, base: string, docs: seq<Document>)
    requires NothingEverLost(Log(views, now), v, base, docs)
    ensures NothingEverLost(views, v, base, docs) && NothingLost(v, base, docs, now)
  {
    var r := Log(views, now);
    assert forall i :: 0 <= i < |views| ==> views[i] == r[i];
    assert NothingLost(v, base, docs, r[|r| - 1]);
  }

  lemma {:induction false} TrailLosesNothing(v: View, base: string, docs: seq<Document>, n: nat)
    requires n <= |docs| && NoneMovesOn(v, base, docs)
    ensures NothingEverLost(Trail(v, base, docs, n), v, base, docs)
  {
    StayingLosesNothing(v, base, docs, n);
    if n == 0 {
      assert View(Installed(v.grants, base, docs, 0), v.inlined) == v;
    } else {
      TrailLosesNothing(v, base, docs, n - 1);
      LogLosesNothing(Trail(v, base, docs, n - 1), View(Installed(v.grants, base, docs, n), v.inlined), v, base, docs);
    }
  }

  lemma {:induction false} TrailIsComplete(v: View, base: string, docs: seq<Document>, n: nat, k: nat)
    requires k <= n <= |docs| && NothingEverLost(Trail(v, base, docs, n), v, base, docs)
    ensures NothingLost(v, base, docs, View(Installed(v.grants, base, docs, k), v.inlined))
  {
    if n == 0 {
      assert View(Installed(v.grants, base, docs, 0), v.inlined) == v && Trail(v, base, docs, 0)[0] == v;
    } else {
      LogMightLose(Trail(v, base, docs, n - 1), View(Installed(v.grants, base, docs, n), v.inlined), v, base, docs);
      if k < n {
        TrailIsComplete(v, base, docs, n - 1, k);
      }
    }
  }

  /** A whole update loses nothing on its way if and only if no statement moves to a later document. */
  lemma TrailExactly(v: View, base: string, docs: seq<Document>)
    ensures NothingEverLost(Trail(v, base, docs, |docs|), v, base, docs) <==> NoneMovesOn(v, base, docs)
  {
    if NoneMovesOn(v, base, docs) {
      TrailLosesNothing(v, base, docs, |docs|);
    }
    if NothingEverLost(Trail(v, base, docs, |docs|), v, base, docs) {
      forall k | 0 <= k <= |docs| ensures NothingLost(v, base, docs, View(Installed(v.grants, base, docs, k), v.inlined)) {
        TrailIsComplete(v, base, docs, |docs|, k);
      }
      NothingLostExactly(v, base, docs);
    }
  }

  lemma {:induction false} DetachingKeeps(views: seq<View>, v: View, base: string, docs: seq<Document>, seen: seq<string>)
    ensures var full := View(Installed(v.grants, base, docs, |docs|), v.inlined);
            NothingEverLost(Detaching(views, full, Arns(base, |docs|), seen), v, base, docs)
            <==> NothingEverLost(views, v, base, docs)
  {
    if seen != [] {
      var full := View(Installed(v.grants, base, docs, |docs|), v.inlined);
      var init, now := seen[..|seen| - 1], View(KeptSoFar(full.grants, Arns(base, |docs|), seen), full.inlined);
      var sofar := Detaching(views, full, Arns(base, |docs|), init);
      DetachingKeeps(views, v, base, docs, init);
      DetachingLosesNothing(v, base, docs, seen, v.inlined);
      if NothingEverLost(sofar, v, base, docs) {
        LogLosesNothing(sofar, now, v, base, docs);
      }
      if NothingEverLost(Log(sofar, now), v, base, docs) {
        LogMightLose(sofar, now, v, base, docs);
      }
    }
  }

  lemma EndLosesNothing(views: seq<View>, v: View, base: string, docs: seq<Document>)
    ensures NothingEverLost(Log(views, View(After(v.grants, base, docs), None)), v, base, docs)
            <==> NothingEverLost(views, v, base, docs)
  {
    var end := View(After(v.grants, base, docs), None);
    assert NothingLost(v, base, docs, end);
    if NothingEverLost(views, v, base, docs) {
      LogLosesNothing(views, end, v, base, docs);
    }
    if NothingEverLost(Log(views, end), v, base, docs) {
      LogMightLose(views, end, v, base, docs);
    }
  }

  function Statements(g: Grants, base: string, n: nat): seq<Statement>
    requires forall k :: 0 <= k < n ==> Arn(base, k) in g
  {
    if n == 0 then [] else Statements(g, base, n - 1) + g[Arn(base, n - 1)].statements
  }

  lemma {:induction false} FlatAppend(chunks: seq<seq<Statement>>, last: seq<Statement>)
    ensures Flat(chunks + [last]) == Flat(chunks) + last
  {
    if chunks == [] {
      assert [last][1..] == [];
    } else {
      FlatAppend(chunks[1..], last);
      assert (chunks + [last])[1..] == chunks[1..] + [last];
    }
  }

  lemma {:induction false} StatementsOfChunks(g: Grants, base: string, version: string, chunks: seq<seq<Statement>>, n: nat)
    requires InPlace(g, base, Documents(version, chunks)) && n <= |chunks|
    ensures Statements(g, base, n) == Flat(chunks[..n])
  {
    if n > 0 {
      StatementsOfChunks(g, base, version, chunks, n - 1);
      FlatAppend(chunks[..n - 1], chunks[n - 1]);
      assert chunks[..n] == chunks[..n - 1] + [chunks[n - 1]];
    }
  }

  lemma StatementsOfAll(g: Grants, base: string, version: string, chunks: seq<seq<Statement>>)
    requires InPlace(g, base, Documents(version, chunks))
    ensures Statements(g, base, |chunks|) == Flat(chunks)
  {
    StatementsOfChunks(g, base, version, chunks, |chunks|);
    assert chunks[..|chunks|] == chunks;
  }

  lemma GreedyIsAll(version: string, ss: seq<Statement>, limit: int)
    ensures Flat(Greedy(version, ss, limit, 0)) == ss
  {
    GreedyFlat(version, ss, limit, 0);
    assert ss[0..] == ss;
  }

  /** The documents on the role, in the order of their numbers, are the statements of the policy in their order. */
  lemma RoleHoldsThePolicy(g: Grants, base: string, p: Policy, limit: int)
    ensures var docs := Documents(VersionOf(p), Greedy(VersionOf(p), p.statements, limit, 0));
            InPlace(After(g, base, docs), base, docs) && Statements(After(g, base, docs), base, |docs|) == p.statements
  {
    var chunks := Greedy(VersionOf(p), p.statements, limit, 0);
    var docs := Documents(VersionOf(p), chunks);
    AfterFacts(g, base, docs);
    StatementsOfAll(After(g, base, docs), base, VersionOf(p), chunks);
    GreedyIsAll(VersionOf(p), p.statements, limit);
  }

  // ---------------------------------------------------------------------------------------------
  // Oldest versions first
  // ---------------------------------------------------------------------------------------------

  predicate Older(v: Version, w: Version) {
    v.created < w.created
  }

  predicate OldestFirst(vs: seq<Version>) {
    Ordered(vs, Older)
  }

  function ByDate(vs: seq<Version>): seq<Version> {
    Sorted(vs, Older)
  }

  lemma ByDateFacts(vs: seq<Version>)
    ensures OldestFirst(ByDate(vs)) && multiset(ByDate(vs)) == multiset(vs)
  {
    SortedIsOrdered(vs, Older);
    SortedKeeps(vs, Older);
  }

  function Without(vs: seq<Version>, id: nat): (r: seq<Version>)
    ensures |r| <= |vs| && forall v :: v in r <==> v in vs && v.id != id
  {
    if vs == [] then []
    else Without(vs[..|vs| - 1], id) + if vs[|vs| - 1].id == id then [] else [vs[|vs| - 1]]
  }

  // ---------------------------------------------------------------------------------------------
  // IAM
  // ---------------------------------------------------------------------------------------------

  class Iam {
    var policies: map<string, Managed>
    var attached: set<string>
    var inlined: Option<Document>
    var clock: nat
    var calls: nat
    /** What the role could do at the start of an update and, each time it has changed, afterwards. */
    ghost var passed: seq<View>
    const fault: Option<(nat, Fault)>

    constructor (fault: Option<(nat, Fault)>)
      ensures Valid() && policies == map[] && attached == {} && inlined == None && calls == 0 && this.fault == fault
    {
      policies, attached, inlined, clock, calls, passed := map[], {}, None, 0, 0, [];
      this.fault := fault;
    }

    ghost predicate Valid()
      reads this`policies, this`attached
    {
      attached <= policies.Keys && forall a :: a in policies ==> ValidManaged(policies[a])
    }

    function Granted(): Grants
      reads this`policies, this`attached
    {
      GrantsOf(policies, attached)
    }

    ghost function Now(): View
      reads this`policies, this`attached, this`inlined
    {
      View(Granted(), inlined)
    }

    /** The record is up to date. */
    ghost predicate Current()
      reads this
    {
      passed != [] && passed[|passed| - 1] == Now()
    }

    /** Counts one call; it fails if it is the one chosen to fail. */
    method Call() returns (refusal: Option<Fault>)
      modifies this`calls
      ensures calls == old(calls) + 1
      ensures refusal == if fault.Some? && fault.value.0 == old(calls) then Some(fault.value.1) else None
    {
      refusal := if fault.Some? && fault.value.0 == calls then Some(fault.value.1) else None;
      calls := calls + 1;
    }

    /** Refuses the default version. */
    method DeletePolicyVersion(arn: string, id: nat) returns (refusal: Option<Fault>)
      requires Valid() && arn in policies
      modifies this`policies, this`calls
      ensures Valid() && calls == old(calls) + 1
      ensures refusal.Some? ==> policies == old(policies)
      ensures refusal.None? ==>
                policies == old(policies)[arn := old(policies)[arn].(others := Without(old(policies)[arn].others, id))]
      ensures refusal.Some? && id != old(policies)[arn].default.id ==> fault.Some? && refusal == Some(fault.value.1)
    {
      refusal := Call();
      if refusal.None? {
        var m := policies[arn];
        if id == m.default.id {
          refusal := Some(Broken);
        } else {
          WithoutIsValid(m, id);
          policies := policies[arn := m.(others := Without(m.others, id))];
        }
      }
    }

    /** The new version becomes the default; a sixth version is refused. */
    method CreatePolicyVersion(arn: string, doc: Document) returns (refusal: Option<Fault>)
      requires Valid() && arn in policies
      modifies this`policies, this`calls, this`clock, this`passed
      ensures Valid() && calls == old(calls) + 1
      ensures passed == if refusal.None? then Log(old(passed), Now()) else old(passed)
      ensures refusal.Some? ==> policies == old(policies)
      ensures refusal.None? ==> policies.Keys == old(policies.Keys) && policies[arn].default.doc == doc
      ensures refusal.None? ==> policies[arn].others == old(policies)[arn].others + [old(policies)[arn].default]
      ensures forall a :: a in old(policies) && a != arn ==> policies[a] == old(policies)[a]
      ensures refusal.Some? && 1 + |old(policies)[arn].others| < MAX_VERSIONS ==> fault.Some? && refusal == Some(fault.value.1)
    {
      refusal := Call();
      if refusal.None? {
        var m := policies[arn];
        if 1 + |m.others| >= MAX_VERSIONS {
          refusal := Some(Broken);
        } else {
          policies := policies[arn := Managed(Version(m.next, clock, doc), m.others + [m.default], m.next + 1)];
          clock := clock + 1;
          passed := Log(passed, Now());
        }
      }
    }

    method CreatePolicy(arn: string, doc: Document) returns (refusal: Option<Fault>)
      requires Valid() && arn !in policies
      modifies this`policies, this`calls, this`clock
      ensures Valid() && calls == old(calls) + 1
      ensures refusal.Some? ==> policies == old(policies) && fault.Some? && refusal == Some(fault.value.1)
      ensures refusal.None? ==> policies.Keys == old(policies.Keys) + {arn} && policies[arn].default.doc == doc
      ensures forall a :: a in old(policies) ==> a in policies && policies[a] == old(policies)[a]
    {
      refusal := Call();
      if refusal.None? {
        policies := policies[arn := Managed(Version(1, clock, doc), [], 2)];
        clock := clock + 1;
      }
    }

    method AttachRolePolicy(arn: string) returns (refusal: Option<Fault>)
      requires Valid() && arn in policies
      modifies this`attached, this`calls, this`passed
      ensures Valid() && calls == old(calls) + 1
      ensures attached == if refusal.None? then old(attached) + {arn} else old(attached)
      ensures passed == if refusal.None? then Log(old(passed), Now()) else old(passed)
      ensures refusal.Some? ==> fault.Some? && refusal == Some(fault.value.1)
    {
      refusal := Call();
      if refusal.None? {
        attached := attached + {arn};
        passed := Log(passed, Now());
      }
    }

    method DetachRolePolicy(arn: string) returns (refusal: Option<Fault>)
      requires Valid()
      modifies this`attached, this`calls, this`passed
      ensures Valid() && calls == old(calls) + 1
      ensures attached == if refusal.None? then old(attached) - {arn} else old(attached)
      ensures passed == if refusal.None? then Log(old(passed), Now()) else old(passed)
      ensures refusal.Some? ==> fault.Some? && refusal == Some(fault.value.1)
    {
      refusal := Call();
      if refusal.None? {
        attached := attached - {arn};
        passed := Log(passed, Now());
      }
    }

    /** Deletes the inline policy; one that is not there is no error. */
    method DeleteRolePolicy() returns (refusal: Option<Fault>)
      modifies this`inlined, this`calls, this`passed
      ensures calls == old(calls) + 1
      ensures inlined == if refusal.None? then None else old(inlined)
      ensures passed == if refusal.None? then Log(old(passed), Now()) else old(passed)
      ensures refusal.Some? ==> fault.Some? && refusal == Some(fault.value.1)
    {
      refusal := Call();
      if refusal.None? {
        inlined := None;
        passed := Log(passed, Now());
      }
    }

    method ListAttachedRolePolicies() returns (refusal: Option<Fault>, arns: seq<string>)
      modifies this`calls
      ensures calls == old(calls) + 1
      ensures refusal.None? ==> forall a :: a in arns <==> a in attached
      ensures refusal.Some? ==> fault.Some? && refusal == Some(fault.value.1)
    {
      refusal := Call();
      arns := [];
      var rest := attached;
      while rest != {}
        invariant rest <= attached && calls == old(calls) + 1
        invariant forall a :: a in arns <==> a in attached && a !in rest
      {
        var a :| a in rest;
        arns, rest := arns + [a], rest - {a};
      }
    }
  }

  lemma WithoutStep(front: seq<Version>, last: Version, id: nat)
    ensures Without(front + [last], id) == Without(front, id) + if last.id == id then [] else [last]
  {
    assert (front + [last])[..|front|] == front;
  }

  lemma FrontIds(front: seq<Version>, last: Version)
    requires DistinctIds(front + [last])
    ensures DistinctIds(front) && forall v :: v in front ==> v.id != last.id
  {
    var vs := front + [last];
    assert forall i :: 0 <= i < |front| ==> vs[i] == front[i] && vs[|front|] == last;
  }

  lemma AppendId(kept: seq<Version>, last: Version)
    requires DistinctIds(kept) && forall v :: v in kept ==> v.id != last.id
    ensures DistinctIds(kept + [last])
  {
  }

  lemma {:induction false} WithoutDistinct(vs: seq<Version>, id: nat)
    requires DistinctIds(vs)
    ensures DistinctIds(Without(vs, id))
  {
    if vs != [] {
      var front, last := vs[..|vs| - 1], vs[|vs| - 1];
      assert vs == front + [last];
      FrontIds(front, last);
      WithoutDistinct(front, id);
      WithoutStep(front, last, id);
      AppendId(Without(front, id), last);
    }
  }

  lemma WithoutIsValid(m: Managed, id: nat)
    requires ValidManaged(m)
    ensures ValidManaged(m.(others := Without(m.others, id)))
  {
    var r := Without(m.others, id);
    forall i | 0 <= i < |r| ensures r[i].id < m.next && r[i].id != m.default.id {
      assert r[i] in m.others;
    }
    WithoutDistinct(m.others, id);
  }

  lemma WithoutLast(front: seq<Version>, v: Version)
    requires forall i :: 0 <= i < |front| ==> front[i].id != v.id
    ensures Without(front + [v], v.id) == front
  {
    WithoutStep(front, v, v.id);
    WithoutNone(front, v.id);
  }

  lemma WithoutOneStep(front: seq<Version>, last: Version, v: Version)
    requires last.id != v.id && multiset(Without(front, v.id)) == multiset(front) - multiset{v} && v in front
    ensures multiset(Without(front + [last], v.id)) == multiset(front + [last]) - multiset{v}
  {
    WithoutStep(front, last, v.id);
    OneMore(front, last);
    OneMore(Without(front, v.id), last);
  }

  lemma EarlierId(front: seq<Version>, last: Version, v: Version)
    requires DistinctIds(front + [last]) && v in front + [last]
    ensures DistinctIds(front)
    ensures last == v ==> forall i :: 0 <= i < |front| ==> front[i].id != v.id
    ensures last != v ==> v in front && last.id != v.id
  {
    var vs := front + [last];
    assert forall i :: 0 <= i < |front| ==> vs[i] == front[i] && vs[|front|] == last;
  }

  lemma {:induction false} WithoutOne(vs: seq<Version>, v: Version)
    requires v in vs && DistinctIds(vs)
    ensures multiset(Without(vs, v.id)) == multiset(vs) - multiset{v}
  {
    var front, last := vs[..|vs| - 1], vs[|vs| - 1];
    assert vs == front + [last];
    EarlierId(front, last, v);
    if last == v {
      WithoutLast(front, v);
      OneMore(front, v);
    } else {
      WithoutOne(front, v);
      WithoutOneStep(front, last, v);
    }
  }

  lemma {:induction false} WithoutNone(vs: seq<Version>, id: nat)
    requires forall i :: 0 <= i < |vs| ==> vs[i].id != id
    ensures Without(vs, id) == vs
  {
    if vs != [] {
      var front, last := vs[..|vs| - 1], vs[|vs| - 1];
      assert vs == front + [last] && last.id != id;
      WithoutNone(front, id);
      WithoutStep(front, last, id);
    }
  }

  // ---------------------------------------------------------------------------------------------
  // The update
  // ---------------------------------------------------------------------------------------------

  function ErrorOf(action: string, f: Fault): Error {
    if f.Denied? then RoleSetupDenied(action) else Raised
  }

  /** The calls that can be refused; a refused one is reported by its name, a failed one is passed on. */
  const ACTIONS := {
    "iam:GetPolicy", "iam:ListPolicyVersions", "iam:DeletePolicyVersion", "iam:CreatePolicyVersion", "iam:CreatePolicy",
    "iam:AttachRolePolicy", "iam:ListAttachedRolePolicies", "iam:DetachRolePolicy"}

  predicate IsFault(e: Error, fault: Option<(nat, Fault)>) {
    fault.Some? &&
    match fault.value.1
    case Denied => e.RoleSetupDenied? && e.action in ACTIONS
    case Broken => e.Raised?
  }

  /** Every version that is gone is at least as old as every other one that stays. */
  ghost predicate OldestGone(was: seq<Version>, now: seq<Version>) {
    && (forall v :: v in now ==> v in was)
    && (forall v, w :: v in was && v !in now && w in now ==> v.created <= w.created)
  }

  /** The sorted list of what is still there, on the way from `was` to `others`. */
  ghost predicate Making(was: seq<Version>, others: seq<Version>, vs: seq<Version>) {
    OldestFirst(vs) && multiset(vs) == multiset(others) && DistinctIds(others) && OldestGone(was, others)
  }

  lemma MakingStep(was: seq<Version>, others: seq<Version>, vs: seq<Version>)
    requires vs != [] && Making(was, others, vs)
    ensures vs[0] in others && Making(was, Without(others, vs[0].id), vs[1..])
    ensures |Without(others, vs[0].id)| == |others| - 1 == |vs| - 1
  {
    SameMembers(vs, others);
    OldestLeaves(was, others, vs);
    RestOfSorted(others, vs);
    SameMembers(vs[1..], Without(others, vs[0].id));
    WithoutDistinct(others, vs[0].id);
  }

  /** Only the non-default versions of one policy differ. */
  predicate SameBut(was: map<string, Managed>, now: map<string, Managed>, arn: string) {
    && was.Keys == now.Keys
    && (forall a :: a in was && a != arn ==> was[a] == now[a])
    && (arn in was ==> was[arn].default == now[arn].default && was[arn].next == now[arn].next)
  }

  /** Deletes the oldest non-default version. */
  method DropOldest(iam: Iam, arn: string, vs: seq<Version>, ghost was: seq<Version>) returns (refusal: Option<Fault>)
    requires iam.Valid() && arn in iam.policies
    requires vs != [] && Making(was, iam.policies[arn].others, vs)
    modifies iam`policies, iam`calls
    ensures iam.Valid() && arn in iam.policies
    ensures SameBut(old(iam.policies), iam.policies, arn)
    ensures refusal.Some? ==> iam.policies == old(iam.policies) && iam.fault.Some? && refusal == Some(iam.fault.value.1)
    ensures refusal.None? ==> Making(was, iam.policies[arn].others, vs[1..]) && |iam.policies[arn].others| == |vs| - 1
  {
    MakingStep(was, iam.policies[arn].others, vs);
    refusal := iam.DeletePolicyVersion(arn, vs[0].id);
  }

  /** Makes room for one more version; deletes oldest non-default versions only. */
  method MakeRoom(iam: Iam, arn: string) returns (refusal: Option<Fault>)
    requires iam.Valid() && arn in iam.policies
    modifies iam`policies, iam`calls
    ensures iam.Valid() && arn in iam.policies
    ensures SameBut(old(iam.policies), iam.policies, arn)
    ensures OldestGone(old(iam.policies)[arn].others, iam.policies[arn].others)
    ensures refusal.None? ==> |iam.policies[arn].others| == if |old(iam.policies)[arn].others| <= 3 then |old(iam.policies)[arn].others| else 3
    ensures refusal.Some? ==> iam.fault.Some? && refusal == Some(iam.fault.value.1)
  {
    ghost var before := iam.policies;
    ghost var was := iam.policies[arn].others;
    var vs := ByDate(iam.policies[arn].others);
    ByDateFacts(was);
    SameMembers(vs, was);
    refusal := None;
    while |vs| >= MAX_VERSIONS - 1
      invariant iam.Valid() && arn in iam.policies && refusal.None?
      invariant SameBut(before, iam.policies, arn)
      invariant Making(was, iam.policies[arn].others, vs) && |vs| == |iam.policies[arn].others|
      invariant |vs| == |was| || 3 <= |vs| <= |was|
    {
      refusal := DropOldest(iam, arn, vs, was);
      if refusal.Some? {
        return;
      }
      vs := vs[1..];
    }
  }

  lemma RestOfSorted(others: seq<Version>, vs: seq<Version>)
    requires vs != [] && multiset(vs) == multiset(others) && DistinctIds(others)
    ensures vs[0] in others && multiset(vs[1..]) == multiset(Without(others, vs[0].id))
  {
    assert vs == [vs[0]] + vs[1..];
    assert vs[0] in multiset(vs);
    WithoutOne(others, vs[0]);
  }

  lemma SameId(vs: seq<Version>, v: Version, w: Version)
    requires DistinctIds(vs) && v in vs && w in vs && v.id == w.id
    ensures v == w
  {
    var a :| 0 <= a < |vs| && vs[a] == v;
    var b :| 0 <= b < |vs| && vs[b] == w;
    assert a == b;
  }

  /** Deleting the first of the sorted versions deletes an oldest one. */
  lemma OldestLeaves(was: seq<Version>, others: seq<Version>, vs: seq<Version>)
    requires vs != [] && OldestFirst(vs) && OldestGone(was, others)
    requires DistinctIds(others) && forall v :: v in vs <==> v in others
    ensures OldestGone(was, Without(others, vs[0].id))
  {
    var now := Without(others, vs[0].id);
    forall v, w | v in was && v !in now && w in now ensures v.created <= w.created {
      var j :| 0 <= j < |vs| && vs[j] == w;
      if v in others {
        SameId(others, v, vs[0]);
      }
    }
  }

  /** Every policy but this one is as it was. */
  ghost predicate Elsewhere(was: map<string, Managed>, now: map<string, Managed>, arns: set<string>) {
    forall a :: a in was && a !in arns ==> a in now && now[a] == was[a]
  }

  lemma SameDefaults(was: map<string, Managed>, now: map<string, Managed>, attached: set<string>, arn: string)
    requires Elsewhere(was, now, {arn}) && attached <= was.Keys
    requires arn in was ==> arn in now && now[arn].default.doc == was[arn].default.doc
    ensures GrantsOf(now, attached) == GrantsOf(was, attached)
  {
  }

  lemma NewDefault(was: map<string, Managed>, now: map<string, Managed>, attached: set<string>, arn: string, doc: Document)
    requires Elsewhere(was, now, {arn}) && attached <= was.Keys && arn in now && now[arn].default.doc == doc
    ensures GrantsOf(now, attached + {arn}) == GrantsOf(was, attached)[arn := doc]
    ensures arn in attached ==> GrantsOf(now, attached) == GrantsOf(was, attached)[arn := doc]
    ensures arn !in attached ==> GrantsOf(now, attached) == GrantsOf(was, attached)
  {
    if arn in attached {
      assert attached + {arn} == attached;
    }
  }

  /** Makes the document the default of an existing managed policy. */
  method PutVersion(iam: Iam, arn: string, doc: Document) returns (error: Option<Error>)
    requires iam.Valid() && arn in iam.policies
    modifies iam`policies, iam`calls, iam`clock, iam`passed
    ensures iam.Valid() && Elsewhere(old(iam.policies), iam.policies, {arn}) && arn in iam.policies
    ensures iam.passed == if error.None? then Log(old(iam.passed), iam.Now()) else old(iam.passed)
    ensures iam.policies[arn].default.doc == if error.None? then doc else old(iam.policies)[arn].default.doc
    ensures error.Some? ==> IsFault(error.value, iam.fault)
  {
    var refusal := iam.Call();
    if refusal.Some? {
      return Some(ErrorOf("iam:ListPolicyVersions", refusal.value));
    }
    refusal := MakeRoom(iam, arn);
    if refusal.Some? {
      return Some(ErrorOf("iam:DeletePolicyVersion", refusal.value));
    }
    refusal := iam.CreatePolicyVersion(arn, doc);
    if refusal.Some? {
      return Some(ErrorOf("iam:CreatePolicyVersion", refusal.value));
    }
    return None;
  }

  /** The document goes into its managed policy, as a new default version or as a new policy. */
  method PutDocument(iam: Iam, arn: string, doc: Document) returns (error: Option<Error>)
    requires iam.Valid()
    modifies iam`policies, iam`calls, iam`clock, iam`passed
    ensures iam.Valid() && Elsewhere(old(iam.policies), iam.policies, {arn})
    ensures || (iam.passed == old(iam.passed) && iam.Granted() == old(iam.Granted()))
            || (error.None? && iam.passed == Log(old(iam.passed), iam.Now()))
    ensures error.None? ==> arn in iam.policies && iam.policies[arn].default.doc == doc
    ensures error.Some? ==> iam.Granted() == old(iam.Granted()) && IsFault(error.value, iam.fault)
  {
    var refusal := iam.Call();
    if refusal.Some? {
      return Some(ErrorOf("iam:GetPolicy", refusal.value));
    }
    if arn in iam.policies {
      error := PutVersion(iam, arn, doc);
      if error.Some? {
        SameDefaults(old(iam.policies), iam.policies, iam.attached, arn);
      }
    } else {
      refusal := iam.CreatePolicy(arn, doc);
      SameDefaults(old(iam.policies), iam.policies, iam.attached, arn);
      error := if refusal.Some? then Some(ErrorOf("iam:CreatePolicy", refusal.value)) else None;
    }
  }

  /** One turn of the first loop. */
  method InstallOne(iam: Iam, arn: string, doc: Document) returns (error: Option<Error>)
    requires iam.Valid() && iam.Current()
    modifies iam`policies, iam`calls, iam`clock, iam`attached, iam`passed
    ensures iam.Valid() && iam.Current() && Elsewhere(old(iam.policies), iam.policies, {arn})
    ensures iam.passed == Log(old(iam.passed), iam.Now())
    ensures error.None? ==> iam.Granted() == old(iam.Granted())[arn := doc]
    ensures error.Some? ==> iam.Granted() == old(iam.Granted()) || iam.Granted() == old(iam.Granted())[arn := doc]
    ensures error.Some? ==> IsFault(error.value, iam.fault)
  {
    error := PutDocument(iam, arn, doc);
    if error.None? {
      NewDefault(old(iam.policies), iam.policies, iam.attached, arn, doc);
      var refusal := iam.AttachRolePolicy(arn);
      if refusal.Some? {
        error := Some(ErrorOf("iam:AttachRolePolicy", refusal.value));
      }
    }
  }

  /** While documents are being installed nothing is lost. */
  lemma InstallingIsSafe(g: Grants, base: string, docs: seq<Document>, n: nat)
    requires n <= |docs|
    ensures NoNameLost(g, Installed(g, base, docs, n), base, docs)
  {
    InstalledFacts(g, base, docs, n);
    var now := Installed(g, base, docs, n);
    forall a | a in now && a !in Arns(base, n) ensures a in g && now[a] == g[a] {
    }
  }

  lemma DetachingIsSafe(g: Grants, base: string, docs: seq<Document>, seen: seq<string>)
    ensures NoNameLost(g, KeptSoFar(Installed(g, base, docs, |docs|), Arns(base, |docs|), seen), base, docs)
  {
    InstalledFacts(g, base, docs, |docs|);
    InstallingIsSafe(g, base, docs, |docs|);
    assert forall k :: 0 <= k < |docs| ==> Arn(base, k) in Arns(base, |docs|);
  }

  lemma StillElsewhere(was: map<string, Managed>, mid: map<string, Managed>, now: map<string, Managed>, arn: string,
                       arns: set<string>)
    requires Elsewhere(was, mid, arns) && Elsewhere(mid, now, {arn}) && arn in arns
    ensures Elsewhere(was, now, arns)
  {
  }

  /** What one turn of the first loop does to a role on which the first `i` documents are installed. */
  method InstallNext(iam: Iam, ghost was: View, base: string, docs: seq<Document>, i: nat)
    returns (error: Option<Error>, ghost done: nat)
    requires iam.Valid() && iam.Current() && i < |docs|
    requires iam.Granted() == Installed(was.grants, base, docs, i) && iam.inlined == was.inlined
    requires iam.passed == Trail(was, base, docs, i)
    modifies iam`policies, iam`calls, iam`clock, iam`attached, iam`passed
    ensures iam.Valid() && iam.Current() && Elsewhere(old(iam.policies), iam.policies, {Arn(base, i)})
    ensures i <= done <= i + 1 && (error.None? ==> done == i + 1)
    ensures iam.Granted() == Installed(was.grants, base, docs, done) && iam.passed == Trail(was, base, docs, done)
    ensures error.Some? ==> IsFault(error.value, iam.fault)
  {
    error := InstallOne(iam, Arn(base, i), docs[i]);
    done := if error.Some? && iam.Granted() == Installed(was.grants, base, docs, i) then i else i + 1;
  }

  method InstallAll(iam: Iam, base: string, docs: seq<Document>)
    returns (error: Option<Error>, arns: set<string>, ghost done: nat)
    requires iam.Valid() && iam.passed == [iam.Now()]
    modifies iam`policies, iam`calls, iam`clock, iam`attached, iam`passed
    ensures iam.Valid() && iam.Current() && Elsewhere(old(iam.policies), iam.policies, Arns(base, |docs|))
    ensures NoNameLost(old(iam.Granted()), iam.Granted(), base, docs)
    ensures done <= |docs| && iam.passed == Trail(old(iam.Now()), base, docs, done)
    ensures error.None? ==> arns == Arns(base, |docs|) && iam.Granted() == Installed(old(iam.Granted()), base, docs, |docs|)
    ensures error.None? ==> done == |docs|
    ensures error.Some? ==> IsFault(error.value, iam.fault)
  {
    ghost var was, before := iam.Now(), iam.policies;
    error, arns, done := None, {}, 0;
    for i := 0 to |docs|
      invariant iam.Valid() && iam.Current() && Elsewhere(before, iam.policies, Arns(base, |docs|))
      invariant error.None? && done == i && arns == Arns(base, i)
      invariant iam.Granted() == Installed(was.grants, base, docs, i) && iam.passed == Trail(was, base, docs, i)
    {
      ghost var now := iam.policies;
      error, done := InstallNext(iam, was, base, docs, i);
      StillElsewhere(before, now, iam.policies, Arn(base, i), Arns(base, |docs|));
      if error.Some? {
        InstallingIsSafe(was.grants, base, docs, done);
        return;
      }
      ArnsGrow(base, i);
      arns := arns + {Arn(base, i)};
    }
    InstallingIsSafe(was.grants, base, docs, |docs|);
  }

  lemma ArnsGrow(base: string, n: nat)
    ensures Arns(base, n + 1) == Arns(base, n) + {Arn(base, n)}
  {
  }

  /** Takes one attached policy off the role if it is a leftover. */
  method DetachLeftover(iam: Iam, arn: string, arns: set<string>) returns (refusal: Option<Fault>)
    requires iam.Valid() && iam.Current()
    modifies iam`calls, iam`attached, iam`passed
    ensures iam.Valid() && iam.Current() && iam.passed == Log(old(iam.passed), iam.Now())
    ensures iam.Granted() == if refusal.None? && IsOurs(arn) && arn !in arns then old(iam.Granted()) - {arn}
                             else old(iam.Granted())
    ensures refusal.Some? ==> iam.fault.Some? && refusal == Some(iam.fault.value.1)
  {
    refusal := None;
    if IsOurs(arn) && arn !in arns {
      refusal := iam.DetachRolePolicy(arn);
    }
  }

  /** Takes the leftovers of earlier, longer policies off the role. */
  method DetachOthers(iam: Iam, arns: set<string>) returns (error: Option<Error>, ghost seen: seq<string>)
    requires iam.Valid() && iam.Current()
    modifies iam`calls, iam`attached, iam`passed
    ensures iam.Valid() && iam.Current()
    ensures iam.Granted() == KeptSoFar(old(iam.Granted()), arns, seen)
    ensures iam.passed == Detaching(old(iam.passed), old(iam.Now()), arns, seen)
    ensures error.None? ==> iam.Granted() == Kept(old(iam.Granted()), arns)
    ensures error.Some? ==> IsFault(error.value, iam.fault)
  {
    ghost var full, views := iam.Now(), iam.passed;
    seen := [];
    assert full.grants == KeptSoFar(full.grants, arns, []);
    var refusal, items := iam.ListAttachedRolePolicies();
    if refusal.Some? {
      error := Some(ErrorOf("iam:ListAttachedRolePolicies", refusal.value));
      return;
    }
    for i := 0 to |items|
      invariant iam.Valid() && iam.Current() && seen == items[..i]
      invariant iam.Granted() == KeptSoFar(full.grants, arns, seen)
      invariant iam.passed == Detaching(views, full, arns, seen)
    {
      refusal := DetachLeftover(iam, items[i], arns);
      if refusal.Some? {
        error := Some(ErrorOf("iam:DetachRolePolicy", refusal.value));
        return;
      }
      KeptStep(full.grants, arns, items, i);
      DetachingStep(views, full, arns, items, i);
      seen := items[..i + 1];
    }
    assert items[..|items|] == items && KeptSoFar(full.grants, arns, items) == Kept(full.grants, arns);
    error := None;
  }

  lemma KeptStep(g: Grants, arns: set<string>, items: seq<string>, i: nat)
    requires i < |items|
    ensures KeptSoFar(g, arns, items[..i + 1]) ==
            if IsOurs(items[i]) && items[i] !in arns then KeptSoFar(g, arns, items[..i]) - {items[i]}
            else KeptSoFar(g, arns, items[..i])
  {
    assert forall a :: a in items[..i + 1] <==> a in items[..i] || a == items[i];
  }

  /** What the views of a finished or broken update say about it. */
  ghost predicate Continuous(views: seq<View>, v: View, base: string, docs: seq<Document>, done: bool) {
    && (NoneMovesOn(v, base, docs) ==> NothingEverLost(views, v, base, docs))
    && (done && NothingEverLost(views, v, base, docs) ==> NoneMovesOn(v, base, docs))
  }

  lemma InstallingIsContinuous(v: View, base: string, docs: seq<Document>, n: nat)
    requires n <= |docs|
    ensures Continuous(Trail(v, base, docs, n), v, base, docs, n == |docs|)
  {
    TrailExactly(v, base, docs);
    if NoneMovesOn(v, base, docs) {
      TrailLosesNothing(v, base, docs, n);
    }
  }

  lemma DetachingIsContinuous(v: View, base: string, docs: seq<Document>, seen: seq<string>, views: seq<View>)
    requires views == Detaching(Trail(v, base, docs, |docs|), View(Installed(v.grants, base, docs, |docs|), v.inlined),
                                Arns(base, |docs|), seen)
    ensures views != [] && views[0] == v && Continuous(views, v, base, docs, true)
    ensures NoNameLost(v.grants, KeptSoFar(Installed(v.grants, base, docs, |docs|), Arns(base, |docs|), seen), base, docs)
  {
    InstallingIsContinuous(v, base, docs, |docs|);
    DetachingKeeps(Trail(v, base, docs, |docs|), v, base, docs, seen);
    DetachingIsSafe(v.grants, base, docs, seen);
  }

  lemma EndIsContinuous(v: View, base: string, docs: seq<Document>, views: seq<View>, now: View)
    requires views != [] && views[0] == v && Continuous(views, v, base, docs, true)
    requires now == View(After(v.grants, base, docs), None)
    ensures Log(views, now)[0] == v && Continuous(Log(views, now), v, base, docs, true)
  {
    EndLosesNothing(views, v, base, docs);
  }

  /** The last call: the inline policy goes; a refusal is no failure. */
  method DropInline(iam: Iam, ghost was: View, base: string, docs: seq<Document>) returns (error: Option<Error>)
    requires iam.Valid() && iam.Current() && iam.Granted() == After(was.grants, base, docs)
    requires iam.passed[0] == was && Continuous(iam.passed, was, base, docs, true)
    modifies iam`inlined, iam`calls, iam`passed
    ensures iam.Current() && iam.passed[0] == was && Continuous(iam.passed, was, base, docs, true)
    ensures error.None? ==>
              iam.inlined.None? || (iam.inlined == old(iam.inlined) && iam.fault.Some? && iam.fault.value.1.Denied?)
    ensures error.Some? ==> iam.inlined == old(iam.inlined) && IsFault(error.value, iam.fault)
  {
    ghost var views := iam.passed;
    var refusal := iam.DeleteRolePolicy();
    if refusal.None? {
      EndIsContinuous(was, base, docs, views, iam.Now());
    }
    error := if refusal.None? || refusal.value.Denied? then None else Some(Raised);
  }

  lemma UnchangedIsContinuous(v: View, base: string, docs: seq<Document>)
    ensures Continuous([v], v, base, docs, false) && NoNameLost(v.grants, v.grants, base, docs)
  {
    InstallingIsContinuous(v, base, docs, 0);
    InstallingIsSafe(v.grants, base, docs, 0);
    assert Trail(v, base, docs, 0) == [v];
  }

  /** The two loops and the last call. */
  method PutOnRole(iam: Iam, base: string, docs: seq<Document>) returns (r: Result<set<string>, Error>)
    requires iam.Valid() && iam.passed == [iam.Now()]
    modifies iam
    ensures iam.Valid() && iam.Current() && old(iam.Now()) == iam.passed[0]
    ensures Continuous(iam.passed, old(iam.Now()), base, docs, r.Ok?)
    ensures Elsewhere(old(iam.policies), iam.policies, Arns(base, |docs|))
    ensures NoNameLost(old(iam.Granted()), iam.Granted(), base, docs)
    ensures r.Ok? ==> r.value == Arns(base, |docs|) && iam.Granted() == After(old(iam.Granted()), base, docs)
    ensures r.Ok? ==> iam.inlined.None? || (iam.inlined == old(iam.inlined) && iam.fault.Some? && iam.fault.value.1.Denied?)
    ensures r.Err? ==> iam.inlined == old(iam.inlined) && IsFault(r.error, iam.fault)
  {
    ghost var was := iam.Now();
    var error, arns, done := InstallAll(iam, base, docs);
    InstallingIsContinuous(was, base, docs, done);
    if error.Some? {
      return Err(error.value);
    }
    ghost var seen;
    error, seen := DetachOthers(iam, arns);
    DetachingIsContinuous(was, base, docs, seen, iam.passed);
    if error.Some? {
      return Err(error.value);
    }
    error := DropInline(iam, was, base, docs);
    return if error.None? then Ok(arns) else Err(error.value);
  }

  /**
   The managed-policy update.  Whichever call fails, no version limit is passed, no attached policy goes before
   everything new is in place, and policies of other names are left alone.  If no statement moves to a later
   document, then at no time anything is missing that the role could do before and can do after a full update; in a
   run that gets through this is exactly so.
   */
  method AttachManaged(iam: Iam, base: string, p: Policy) returns (r: Result<set<string>, Error>)
    requires iam.Valid()
    modifies iam
    ensures iam.Valid() && iam.Current() && old(iam.Now()) == iam.passed[0]
    ensures NoneMovesOn(old(iam.Now()), base, DocumentsOf(p)) ==>
              NothingEverLost(iam.passed, old(iam.Now()), base, DocumentsOf(p))
    ensures r.Ok? && NothingEverLost(iam.passed, old(iam.Now()), base, DocumentsOf(p)) ==>
              NoneMovesOn(old(iam.Now()), base, DocumentsOf(p))
    ensures Elsewhere(old(iam.policies), iam.policies, Arns(base, |DocumentsOf(p)|))
    ensures NoNameLost(old(iam.Granted()), iam.Granted(), base, DocumentsOf(p))
    ensures r.Ok? ==> r.value == Arns(base, |DocumentsOf(p)|)
    ensures r.Ok? ==> iam.Granted() == After(old(iam.Granted()), base, DocumentsOf(p))
    ensures r.Ok? ==> iam.inlined.None? || (iam.inlined == old(iam.inlined) && iam.fault.Some? && iam.fault.value.1.Denied?)
    ensures r.Err? ==> iam.inlined == old(iam.inlined)
    ensures NoneTooBig(p.statements, |p.statements|, MANAGED_POLICY_LIMIT) && r.Err? ==> IsFault(r.error, iam.fault)
    ensures !NoneTooBig(p.statements, |p.statements|, MANAGED_POLICY_LIMIT) ==>
              r.Err? && iam.policies == old(iam.policies) && iam.attached == old(iam.attached) && iam.calls == old(iam.calls)
              && r.error.StatementTooBig? && FirstTooBig(p.statements, MANAGED_POLICY_LIMIT, r.error.sid)
    ensures forall a :: a in iam.policies ==> 1 + |iam.policies[a].others| <= 5
  {
    ghost var was := iam.Now();
    iam.passed := [was];
    var split := SplitPolicy(p, MANAGED_POLICY_LIMIT);
    if split.Err? {
      UnchangedIsContinuous(was, base, DocumentsOf(p));
      return Err(StatementTooBig(split.error));
    }
    var docs := split.value;
    r := PutOnRole(iam, base, docs);
  }
}
