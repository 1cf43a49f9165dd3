/**
 Splitting a policy into managed-policy documents: statements are grouped greedily, in order.
 A statement is its identifier and its size in the compact text that IAM counts.
 */
module PolicySplit {
  import opened Wrappers

  datatype Statement = Statement(sid: string, size: nat)
  datatype Document = Document(version: string, statements: seq<Statement>)
  datatype Policy = Policy(version: Option<string>, statements: seq<Statement>)

  const DEFAULT_VERSION := "2012-10-17"
  const MANAGED_POLICY_LIMIT := 6144

  function VersionOf(p: Policy): string {
    if p.version.Some? then p.version.value else DEFAULT_VERSION
  }

  function Total(ss: seq<Statement>): nat {
    if ss == [] then 0 else Total(ss[..|ss| - 1]) + ss[|ss| - 1].size
  }

  /** `{"Version":"…","Statement":[…]}` with commas between the statements. */
  function PolicySize(d: Document): nat {
    12 + |d.version| + 15 + Total(d.statements) + (if d.statements == [] then 0 else |d.statements| - 1) + 2
  }

  predicate Fits(version: string, ss: seq<Statement>, limit: int) {
    PolicySize(Document(version, ss)) <= limit
  }

  /** The check for one statement on its own; it always measures with the default version. */
  predicate TooBig(s: Statement, limit: int) {
    !Fits(DEFAULT_VERSION, [s], limit)
  }

  predicate NoneTooBig(ss: seq<Statement>, n: nat, limit: int)
    requires n <= |ss|
  {
    forall k :: 0 <= k < n ==> !TooBig(ss[k], limit)
  }

  // ---------------------------------------------------------------------------------------------
  // The text that is measured
  // ---------------------------------------------------------------------------------------------

  function Commas(texts: seq<string>): string {
    if texts == [] then "" else if |texts| == 1 then texts[0] else Commas(texts[..|texts| - 1]) + "," + texts[|texts| - 1]
  }

  /** The compact text of a document whose statements have these texts. */
  function Rendered(version: string, texts: seq<string>): string {
    "{\"Version\":\"" + version + "\",\"Statement\":[" + Commas(texts) + "]}"
  }

  lemma {:induction false} CommasLength(ss: seq<Statement>, texts: seq<string>)
    requires |texts| == |ss| && forall i :: 0 <= i < |ss| ==> |texts[i]| == ss[i].size
    ensures |Commas(texts)| == Total(ss) + if ss == [] then 0 else |ss| - 1
  {
    if ss != [] {
      CommasLength(ss[..|ss| - 1], texts[..|texts| - 1]);
    }
  }

  /** The size of a document is the length of its text. */
  lemma SizeIsLength(d: Document, texts: seq<string>)
    requires |texts| == |d.statements| && forall i :: 0 <= i < |texts| ==> |texts[i]| == d.statements[i].size
    ensures |Rendered(d.version, texts)| == PolicySize(d)
  {
    CommasLength(d.statements, texts);
  }

  // ---------------------------------------------------------------------------------------------
  // The greedy grouping as a function
  // ---------------------------------------------------------------------------------------------

  /** Where the chunk that starts at `b` and already reaches `e` ends. */
  function End(version: string, ss: seq<Statement>, limit: int, b: nat, e: nat): (r: nat)
    requires b < e <= |ss|
    ensures e <= r <= |ss|
    decreases |ss| - e
  {
    if e == |ss| || !Fits(version, ss[b..e + 1], limit) then e else End(version, ss, limit, b, e + 1)
  }

  function Greedy(version: string, ss: seq<Statement>, limit: int, b: nat): (r: seq<seq<Statement>>)
    requires b <= |ss|
    decreases |ss| - b
  {
    if b == |ss| then []
    else
      var e := End(version, ss, limit, b, b + 1);
      [ss[b..e]] + Greedy(version, ss, limit, e)
  }

  function Documents(version: string, chunks: seq<seq<Statement>>): (r: seq<Document>)
    ensures |r| == |chunks| && forall k :: 0 <= k < |r| ==> r[k] == Document(version, chunks[k])
  {
    if chunks == [] then [] else Documents(version, chunks[..|chunks| - 1]) + [Document(version, chunks[|chunks| - 1])]
  }

  // ---------------------------------------------------------------------------------------------
  // The loop
  // ---------------------------------------------------------------------------------------------

  /** After `i` statements the chunks so far are the first greedy ones and the current chunk is `ss[b..i]`. */
  ghost predicate Reached(version: string, ss: seq<Statement>, limit: int, chunks: seq<Document>, b: nat, i: nat) {
    && b <= i <= |ss|
    && chunks + Documents(version, Greedy(version, ss, limit, b)) == Documents(version, Greedy(version, ss, limit, 0))
    && (i > 0 ==> b < i && End(version, ss, limit, b, b + 1) == End(version, ss, limit, b, i))
  }

  lemma ReachedCut(version: string, ss: seq<Statement>, limit: int, chunks: seq<Document>, b: nat, i: nat)
    requires Reached(version, ss, limit, chunks, b, i) && b < i && (i == |ss| || !Fits(version, ss[b..i + 1], limit))
    ensures var more := chunks + [Document(version, ss[b..i])];
            && more + Documents(version, Greedy(version, ss, limit, i)) == Documents(version, Greedy(version, ss, limit, 0))
            && (i < |ss| ==> Reached(version, ss, limit, more, i, i + 1))
  {
    var rest := Greedy(version, ss, limit, i);
    assert Greedy(version, ss, limit, b) == [ss[b..i]] + rest;
    DocumentsCons(version, ss[b..i], rest);
    assert chunks + ([Document(version, ss[b..i])] + Documents(version, rest)) ==
           chunks + [Document(version, ss[b..i])] + Documents(version, rest);
  }

  lemma DocumentsCons(version: string, part: seq<Statement>, parts: seq<seq<Statement>>)
    ensures Documents(version, [part] + parts) == [Document(version, part)] + Documents(version, parts)
  {
  }

  lemma EndStep(version: string, ss: seq<Statement>, limit: int, b: nat, i: nat)
    requires b < i < |ss| && Fits(version, ss[b..i + 1], limit)
    ensures End(version, ss, limit, b, i) == End(version, ss, limit, b, i + 1)
  {
  }

  lemma ReachedGrow(version: string, ss: seq<Statement>, limit: int, chunks: seq<Document>, b: nat, i: nat)
    requires Reached(version, ss, limit, chunks, b, i) && i < |ss| && (b == i || Fits(version, ss[b..i + 1], limit))
    ensures Reached(version, ss, limit, chunks, b, i + 1)
  {
    if i > 0 {
      EndStep(version, ss, limit, b, i);
    }
  }

  lemma AllReached(version: string, ss: seq<Statement>, limit: int, chunks: seq<Document>, b: nat)
    requires Reached(version, ss, limit, chunks, b, |ss|)
    ensures (if b < |ss| then chunks + [Document(version, ss[b..|ss|])] else chunks)
            == Documents(version, Greedy(version, ss, limit, 0))
  {
    if b < |ss| {
      ReachedCut(version, ss, limit, chunks, b, |ss|);
      var more := chunks + [Document(version, ss[b..|ss|])];
      assert more + [] == more;
    } else {
      assert chunks + [] == chunks;
    }
  }

  lemma NoneTooBigStep(ss: seq<Statement>, i: nat, limit: int)
    requires i < |ss| && NoneTooBig(ss, i, limit) && !TooBig(ss[i], limit)
    ensures NoneTooBig(ss, i + 1, limit)
  {
  }

  lemma LongerChunk(ss: seq<Statement>, b: nat, i: nat)
    requires b <= i < |ss|
    ensures ss[b..i + 1] == ss[b..i] + [ss[i]] && ss[i..i + 1] == [ss[i]]
  {
  }

  /** Some statement with this identifier is the first that is too big. */
  ghost predicate FirstTooBig(ss: seq<Statement>, limit: int, sid: string) {
    exists i :: 0 <= i < |ss| && NoneTooBig(ss, i, limit) && TooBig(ss[i], limit) && ss[i].sid == sid
  }

  lemma TooBigHere(ss: seq<Statement>, i: nat, limit: int)
    requires i < |ss| && NoneTooBig(ss, i, limit) && TooBig(ss[i], limit)
    ensures FirstTooBig(ss, limit, ss[i].sid)
  {
  }

  /** One turn of the loop: the statement joins the current chunk or starts the next one. */
  method AddStatement(version: string, ss: seq<Statement>, limit: int, chunks: seq<Document>, current: seq<Statement>,
                      ghost b: nat, i: nat)
    returns (chunks': seq<Document>, current': seq<Statement>, ghost b': nat)
    requires i < |ss| && Reached(version, ss, limit, chunks, b, i) && current == ss[b..i]
    ensures Reached(version, ss, limit, chunks', b', i + 1) && current' == ss[b'..i + 1]
  {
    LongerChunk(ss, b, i);
    if current != [] && !Fits(version, current + [ss[i]], limit) {
      ReachedCut(version, ss, limit, chunks, b, i);
      chunks', current', b' := chunks + [Document(version, current)], [ss[i]], i;
    } else {
      ReachedGrow(version, ss, limit, chunks, b, i);
      chunks', current', b' := chunks, current + [ss[i]], b;
    }
  }

  method SplitPolicy(p: Policy, limit: int) returns (r: Result<seq<Document>, string>)
    ensures r.Ok? ==> NoneTooBig(p.statements, |p.statements|, limit)
    ensures r.Ok? ==> r.value == Documents(VersionOf(p), Greedy(VersionOf(p), p.statements, limit, 0))
    ensures r.Err? ==> FirstTooBig(p.statements, limit, r.error)
  {
    var ss, version := p.statements, VersionOf(p);
    var chunks: seq<Document> := [];
    var current: seq<Statement> := [];
    ghost var b: nat := 0;
    for i := 0 to |ss|
      invariant Reached(version, ss, limit, chunks, b, i) && current == ss[b..i]
      invariant NoneTooBig(ss, i, limit)
    {
      chunks, current, b := AddStatement(version, ss, limit, chunks, current, b, i);
      if TooBig(ss[i], limit) {
        TooBigHere(ss, i, limit);
        return Err(ss[i].sid);
      }
      NoneTooBigStep(ss, i, limit);
    }
    AllReached(version, ss, limit, chunks, b);
    if current != [] {
      chunks := chunks + [Document(version, current)];
    }
    return Ok(chunks);
  }

  // ---------------------------------------------------------------------------------------------
  // What the grouping promises
  // ---------------------------------------------------------------------------------------------

  function Flat(chunks: seq<seq<Statement>>): seq<Statement> {
    if chunks == [] then [] else chunks[0] + Flat(chunks[1..])
  }

  /** An order-preserving split: non-empty chunks within the limit that concatenate to the list. */
  ghost predicate IsSplit(version: string, ss: seq<Statement>, limit: int, chunks: seq<seq<Statement>>) {
    && Flat(chunks) == ss
    && forall i :: 0 <= i < |chunks| ==> chunks[i] != [] && Fits(version, chunks[i], limit)
  }

  lemma {:induction false} EndFits(version: string, ss: seq<Statement>, limit: int, b: nat, e: nat)
    requires b < e <= |ss| && Fits(version, ss[b..e], limit)
    ensures Fits(version, ss[b..End(version, ss, limit, b, e)], limit)
    decreases |ss| - e
  {
    if e < |ss| && Fits(version, ss[b..e + 1], limit) {
      EndFits(version, ss, limit, b, e + 1);
    }
  }

  lemma {:induction false} GreedyFlat(version: string, ss: seq<Statement>, limit: int, b: nat)
    requires b <= |ss|
    ensures Flat(Greedy(version, ss, limit, b)) == ss[b..]
    decreases |ss| - b
  {
    if b < |ss| {
      var e := End(version, ss, limit, b, b + 1);
      GreedyFlat(version, ss, limit, e);
      assert ss[b..] == ss[b..e] + ss[e..];
    }
  }

  lemma {:induction false} GreedyFits(version: string, ss: seq<Statement>, limit: int, b: nat)
    requires b <= |ss| && forall k :: b <= k < |ss| ==> Fits(version, [ss[k]], limit)
    ensures forall c :: c in Greedy(version, ss, limit, b) ==> c != [] && Fits(version, c, limit)
    decreases |ss| - b
  {
    if b < |ss| {
      assert ss[b..b + 1] == [ss[b]];
      EndFits(version, ss, limit, b, b + 1);
      GreedyFits(version, ss, limit, End(version, ss, limit, b, b + 1));
    }
  }

  /** The documents are non-empty, within the limit and in order exactly if each statement fits beside the policy's own version. */
  lemma GreedyIsSplit(version: string, ss: seq<Statement>, limit: int)
    ensures IsSplit(version, ss, limit, Greedy(version, ss, limit, 0)) <==> forall s :: s in ss ==> Fits(version, [s], limit)
  {
    var chunks := Greedy(version, ss, limit, 0);
    GreedyFlat(version, ss, limit, 0);
    assert ss[0..] == ss;
    if forall s :: s in ss ==> Fits(version, [s], limit) {
      GreedyFits(version, ss, limit, 0);
      assert forall i :: 0 <= i < |chunks| ==> chunks[i] in chunks;
    } else if IsSplit(version, ss, limit, chunks) {
      var s :| s in ss && !Fits(version, [s], limit);
      var i := FlatHolds(chunks, s);
      MemberFits(version, chunks[i], limit, s);
    }
  }

  /** What the check lets through is a proper split, for every version no longer than the default. */
  lemma AcceptedIsSplit(p: Policy, limit: int)
    requires |VersionOf(p)| <= |DEFAULT_VERSION| && NoneTooBig(p.statements, |p.statements|, limit)
    ensures IsSplit(VersionOf(p), p.statements, limit, Greedy(VersionOf(p), p.statements, limit, 0))
  {
    forall s | s in p.statements ensures Fits(VersionOf(p), [s], limit) {
      var k :| 0 <= k < |p.statements| && p.statements[k] == s;
      assert !TooBig(p.statements[k], limit);
    }
    GreedyIsSplit(VersionOf(p), p.statements, limit);
  }

  lemma {:induction false} TotalSplits(a: seq<Statement>, b: seq<Statement>)
    ensures Total(a + b) == Total(a) + Total(b)
  {
    if b == [] {
      assert a + b == a;
    } else {
      TotalSplits(a, b[..|b| - 1]);
      assert (a + b)[..|a + b| - 1] == a + b[..|b| - 1];
    }
  }

  lemma TotalOfPart(x: seq<Statement>, y: seq<Statement>, z: seq<Statement>)
    ensures Total(x + y + z) == Total(x) + Total(y) + Total(z)
  {
    TotalSplits(x, y);
    TotalSplits(x + y, z);
  }

  lemma InnerFits(version: string, x: seq<Statement>, y: seq<Statement>, z: seq<Statement>, limit: int)
    requires y != [] && Fits(version, x + y + z, limit)
    ensures Fits(version, y, limit)
  {
    TotalOfPart(x, y, z);
  }

  /** Part of a chunk that fits fits. */
  lemma PartFits(version: string, ss: seq<Statement>, limit: int, a: nat, b: nat, e: nat, k: nat)
    requires a <= b < e <= k <= |ss| && Fits(version, ss[a..k], limit)
    ensures Fits(version, ss[b..e], limit)
  {
    assert ss[a..b] + ss[b..e] + ss[e..k] == ss[a..k];
    InnerFits(version, ss[a..b], ss[b..e], ss[e..k], limit);
  }

  /** The greedy chunk reaches at least as far as any chunk that fits. */
  lemma {:induction false} EndReaches(version: string, ss: seq<Statement>, limit: int, a: nat, b: nat, e: nat, k: nat)
    requires a <= b < e <= k <= |ss| && Fits(version, ss[a..k], limit)
    ensures End(version, ss, limit, b, e) >= k
    decreases k - e
  {
    if e < k {
      PartFits(version, ss, limit, a, b, e + 1, k);
      EndReaches(version, ss, limit, a, b, e + 1, k);
    }
  }

  lemma {:induction false} FewestFrom(version: string, ss: seq<Statement>, limit: int, a: nat, b: nat, other: seq<seq<Statement>>)
    requires a <= b <= |ss| && IsSplit(version, ss[a..], limit, other)
    ensures |Greedy(version, ss, limit, b)| <= |other|
    decreases |other|
  {
    if other == [] || b == |ss| {
      assert |ss[a..]| == 0 || b == |ss|;
    } else {
      var k := a + |other[0]|;
      assert ss[a..] == other[0] + Flat(other[1..]);
      assert |ss[a..]| == |other[0]| + |Flat(other[1..])| && k <= |ss|;
      assert ss[a..k] == other[0] && ss[k..] == Flat(other[1..]) by {
        assert ss[a..][..|other[0]|] == other[0] && ss[a..][|other[0]|..] == Flat(other[1..]);
      }
      assert IsSplit(version, ss[k..], limit, other[1..]);
      if k <= b {
        FewestFrom(version, ss, limit, k, b, other[1..]);
      } else {
        EndReaches(version, ss, limit, a, b, b + 1, k);
        FewestFrom(version, ss, limit, k, End(version, ss, limit, b, b + 1), other[1..]);
      }
    }
  }

  /** No order-preserving split within the limit uses fewer documents. */
  lemma GreedyIsFewest(version: string, ss: seq<Statement>, limit: int, other: seq<seq<Statement>>)
    requires IsSplit(version, ss, limit, other)
    ensures |Greedy(version, ss, limit, 0)| <= |other|
  {
    assert ss[0..] == ss;
    FewestFrom(version, ss, limit, 0, 0, other);
  }

  lemma {:induction false} FlatHolds(chunks: seq<seq<Statement>>, s: Statement) returns (i: nat)
    requires s in Flat(chunks)
    ensures i < |chunks| && s in chunks[i]
  {
    if s in chunks[0] {
      i := 0;
    } else {
      var j := FlatHolds(chunks[1..], s);
      i := j + 1;
    }
  }

  lemma MemberFits(version: string, c: seq<Statement>, limit: int, s: Statement)
    requires s in c && Fits(version, c, limit)
    ensures Fits(version, [s], limit)
  {
    var k :| 0 <= k < |c| && c[k] == s;
    assert c[0..|c|] == c && c[k..k + 1] == [s];
    PartFits(version, c, limit, 0, k, k + 1, |c|);
  }

  /** For a version as long as the default, the call fails exactly if no split exists at all. */
  lemma FailsOnlyIfImpossible(p: Policy, limit: int)
    requires |VersionOf(p)| == |DEFAULT_VERSION|
    ensures NoneTooBig(p.statements, |p.statements|, limit) <==>
            exists chunks :: IsSplit(VersionOf(p), p.statements, limit, chunks)
  {
    if NoneTooBig(p.statements, |p.statements|, limit) {
      AcceptedIsSplit(p, limit);
    } else {
      var k :| 0 <= k < |p.statements| && TooBig(p.statements[k], limit);
      var s := p.statements[k];
      forall chunks | IsSplit(VersionOf(p), p.statements, limit, chunks) ensures false {
        var i := FlatHolds(chunks, s);
        MemberFits(VersionOf(p), chunks[i], limit, s);
      }
    }
  }

  /** The check measures with the default version, so a longer one can pass a document over the limit. */
  lemma LongVersionEscapes()
    ensures var p := Policy(Some("2012-10-17-draft"), [Statement("Deploy", 6105)]);
            var out := Greedy(VersionOf(p), p.statements, MANAGED_POLICY_LIMIT, 0);
            && NoneTooBig(p.statements, 1, MANAGED_POLICY_LIMIT)
            && out == [p.statements] && !Fits(VersionOf(p), out[0], MANAGED_POLICY_LIMIT)
  {
    var ss := [Statement("Deploy", 6105)];
    assert ss[0..1] == ss && Total(ss) == Total([]) + 6105;
    assert End("2012-10-17-draft", ss, MANAGED_POLICY_LIMIT, 0, 1) == 1;
    assert Greedy("2012-10-17-draft", ss, MANAGED_POLICY_LIMIT, 1) == [];
  }
}
