/**
 The record of successful deployments of one service: at most twenty task definitions, oldest first, one per revision.
 */
module StableHistory {
  import opened Wrappers
  import Text

  datatype Entry = Entry(td: string, at: int)

  const HISTORY := 20

  /** `.../task-definition/app:7` -> `app:7` */
  function Rev(e: Entry): string {
    Text.AfterSlash(e.td)
  }

  function Others(entries: seq<Entry>, rev: string): seq<Entry> {
    if entries == [] then []
    else Others(entries[..|entries| - 1], rev) + if Rev(entries[|entries| - 1]) != rev then [entries[|entries| - 1]] else []
  }

  function LastTwenty(entries: seq<Entry>): seq<Entry> {
    if |entries| <= HISTORY then entries else entries[|entries| - HISTORY..]
  }

  // ---------------------------------------------------------------------------------------------
  // The reference: a log of every success, and the recency list without a bound
  // ---------------------------------------------------------------------------------------------

  /** Every revision once, at the place of its latest success. */
  function Recency(log: seq<Entry>): seq<Entry> {
    if log == [] then []
    else
      var last := log[|log| - 1];
      Others(Recency(log[..|log| - 1]), Rev(last)) + [last]
  }

  predicate OnePerRevision(entries: seq<Entry>) {
    forall i, j :: 0 <= i < j < |entries| ==> Rev(entries[i]) != Rev(entries[j])
  }

  predicate Recorded(entries: seq<Entry>) {
    forall i :: 0 <= i < |entries| ==> entries[i].td != ""
  }

  predicate Lacks(entries: seq<Entry>, rev: string) {
    forall i :: 0 <= i < |entries| ==> Rev(entries[i]) != rev
  }

  lemma OthersSnoc(entries: seq<Entry>, e: Entry, rev: string)
    ensures Others(entries + [e], rev) == Others(entries, rev) + if Rev(e) != rev then [e] else []
  {
    assert (entries + [e])[..|entries|] == entries;
  }

  lemma Regroup(a: seq<Entry>, b: seq<Entry>, c: seq<Entry>)
    ensures a + (b + c) == a + b + c
  {
  }

  lemma OthersAppendStep(a: seq<Entry>, front: seq<Entry>, last: Entry, rev: string)
    requires Others(a + front, rev) == Others(a, rev) + Others(front, rev)
    ensures Others(a + (front + [last]), rev) == Others(a, rev) + Others(front + [last], rev)
  {
    OthersSnoc(a + front, last, rev);
    OthersSnoc(front, last, rev);
    Regroup(a, front, [last]);
    Regroup(Others(a, rev), Others(front, rev), if Rev(last) != rev then [last] else []);
  }

  lemma {:induction false} OthersAppend(a: seq<Entry>, b: seq<Entry>, rev: string)
    ensures Others(a + b, rev) == Others(a, rev) + Others(b, rev)
  {
    if b == [] {
      assert a + b == a;
    } else {
      var front, last := b[..|b| - 1], b[|b| - 1];
      assert b == front + [last];
      OthersAppend(a, front, rev);
      OthersAppendStep(a, front, last, rev);
    }
  }

  lemma {:induction false} OthersOfLacking(entries: seq<Entry>, rev: string)
    requires Lacks(entries, rev)
    ensures Others(entries, rev) == entries
  {
    if entries != [] {
      var front, last := entries[..|entries| - 1], entries[|entries| - 1];
      assert entries == front + [last];
      OthersOfLacking(front, rev);
      OthersSnoc(front, last, rev);
    }
  }

  lemma OthersAround(left: seq<Entry>, x: Entry, right: seq<Entry>)
    requires Lacks(left, Rev(x)) && Lacks(right, Rev(x))
    ensures Others(left + [x] + right, Rev(x)) == left + right
  {
    OthersAppend(left + [x], right, Rev(x));
    assert Others(left + [x], Rev(x)) == left by {
      OthersSnoc(left, x, Rev(x));
      OthersOfLacking(left, Rev(x));
    }
    assert Others(right, Rev(x)) == right by {
      OthersOfLacking(right, Rev(x));
    }
  }

  /** With one entry per revision, at most one goes. */
  lemma OthersOfOne(entries: seq<Entry>, rev: string) returns (left: seq<Entry>, gone: seq<Entry>, right: seq<Entry>)
    requires OnePerRevision(entries)
    ensures entries == left + gone + right && Others(entries, rev) == left + right && |gone| <= 1
    ensures Lacks(left, rev) && Lacks(right, rev) && (gone != [] ==> Rev(gone[0]) == rev)
  {
    if Lacks(entries, rev) {
      OthersOfLacking(entries, rev);
      return entries, [], [];
    }
    var k :| 0 <= k < |entries| && Rev(entries[k]) == rev;
    left, gone, right := entries[..k], [entries[k]], entries[k + 1..];
    assert entries == left + [entries[k]] + right;
    OthersAround(left, entries[k], right);
  }

  lemma MoveToEnd(left: seq<Entry>, gone: seq<Entry>, right: seq<Entry>, last: Entry)
    requires OnePerRevision(left + gone + right) && Lacks(left, Rev(last)) && Lacks(right, Rev(last))
    ensures OnePerRevision(left + right + [last])
  {
    var was, now := left + gone + right, left + right + [last];
    forall i, j | 0 <= i < j < |now| ensures Rev(now[i]) != Rev(now[j]) {
      if j < |left + right| {
        var a := if i < |left| then i else i + |gone|;
        var b := if j < |left| then j else j + |gone|;
        assert was[a] == now[i] && was[b] == now[j];
      }
    }
  }

  lemma {:induction false} RecencyIsDistinct(log: seq<Entry>)
    ensures OnePerRevision(Recency(log))
  {
    if log != [] {
      var before, last := Recency(log[..|log| - 1]), log[|log| - 1];
      RecencyIsDistinct(log[..|log| - 1]);
      var left, gone, right := OthersOfOne(before, Rev(last));
      MoveToEnd(left, gone, right, last);
    }
  }

  lemma TwentyOf(front: seq<Entry>, rest: seq<Entry>, e: Entry)
    requires HISTORY - 1 <= |rest| <= HISTORY
    ensures LastTwenty(rest + [e]) == LastTwenty(front + rest + [e])
  {
    assert front + rest + [e] == front + (rest + [e]);
  }

  lemma CutLosesNothing(lost: seq<Entry>, kept: seq<Entry>, e: Entry)
    requires |kept| == HISTORY && OnePerRevision(kept)
    ensures LastTwenty(Others(kept, Rev(e)) + [e]) == LastTwenty(Others(lost + kept, Rev(e)) + [e])
  {
    OthersAppend(lost, kept, Rev(e));
    var left, gone, right := OthersOfOne(kept, Rev(e));
    TwentyOf(Others(lost, Rev(e)), left + right, e);
  }

  /** Cutting to twenty before the next success changes nothing that the cut after it keeps. */
  lemma CutThenRecord(all: seq<Entry>, e: Entry)
    requires OnePerRevision(all)
    ensures LastTwenty(Others(LastTwenty(all), Rev(e)) + [e]) == LastTwenty(Others(all, Rev(e)) + [e])
  {
    if |all| > HISTORY {
      var lost, kept := all[..|all| - HISTORY], all[|all| - HISTORY..];
      assert all == lost + kept;
      CutLosesNothing(lost, kept, e);
    }
  }

  // ---------------------------------------------------------------------------------------------
  // The store
  // ---------------------------------------------------------------------------------------------

  /** The last entry of another revision, or the empty string. */
  function Latest(entries: seq<Entry>, exclude: string): string {
    if entries == [] then ""
    else
      var last := entries[|entries| - 1];
      if exclude == "" || Rev(last) != Text.AfterSlash(exclude) then last.td else Latest(entries[..|entries| - 1], exclude)
  }

  method LatestIn(entries: seq<Entry>, exclude: string) returns (td: string)
    ensures td == Latest(entries, exclude)
  {
    var i := |entries|;
    assert entries[..i] == entries;
    while i > 0
      invariant 0 <= i <= |entries|
      invariant Latest(entries, exclude) == Latest(entries[..i], exclude)
    {
      i := i - 1;
      assert entries[..i + 1][..i] == entries[..i];
      if exclude == "" || Rev(entries[i]) != Text.AfterSlash(exclude) {
        return entries[i].td;
      }
    }
    return "";
  }

  /** The stored list is the end of the recency list of the whole log. */
  predicate Mirrors(entries: seq<Entry>, log: seq<Entry>) {
    Recorded(log) && entries == LastTwenty(Recency(log))
  }

  lemma MirrorStep(entries: seq<Entry>, log: seq<Entry>, e: Entry)
    requires Mirrors(entries, log) && e.td != ""
    ensures Mirrors(LastTwenty(Others(entries, Rev(e)) + [e]), log + [e])
  {
    RecencyIsDistinct(log);
    CutThenRecord(Recency(log), e);
    assert (log + [e])[..|log|] == log;
  }

  datatype Key = Key(region: string, cluster: string, service: string)

  class Store {
    var data: map<Key, seq<Entry>>
    ghost var logs: map<Key, seq<Entry>>

    constructor ()
      ensures Valid() && logs == map[]
    {
      data, logs := map[], map[];
    }

    /** For every service the stored list is the end of the recency list of its whole log. */
    ghost predicate Valid()
      reads this
    {
      && data.Keys == logs.Keys
      && forall k :: k in logs ==> Mirrors(data[k], logs[k])
    }

    ghost function Log(k: Key): seq<Entry>
      reads this
    {
      if k in logs then logs[k] else []
    }

    /** An empty task definition is not recorded. */
    method RecordSuccess(k: Key, td: string, now: int)
      requires Valid()
      modifies this
      ensures Valid()
      ensures logs == if td == "" then old(logs) else old(logs)[k := old(Log(k)) + [Entry(td, now)]]
    {
      if td == "" {
        return;
      }
      var e := Entry(td, now);
      var entries := Others(History(k), Rev(e)) + [e];
      MirrorStep(History(k), Log(k), e);
      data := data[k := LastTwenty(entries)];
      logs := logs[k := Log(k) + [e]];
    }

    function History(k: Key): seq<Entry>
      reads this
    {
      if k in data then data[k] else []
    }

    /** The latest success of a revision other than the excluded one, looking at the whole log. */
    method LastSuccess(k: Key, exclude: string) returns (td: string)
      requires Valid()
      ensures td == Latest(Log(k), exclude)
    {
      LatestOfLog(Log(k), exclude);
      td := LatestIn(History(k), exclude);
    }

    lemma HistoryKnows(k: Key, rev: string)
      requires Valid()
      ensures (exists e :: e in History(k) && Rev(e) == rev) <==> exists i: nat :: StillKnown(Log(k), i, rev)
    {
      KnownExactly(Log(k), rev);
      RevisionsHold(History(k), rev);
    }

    method IsKnownSuccess(k: Key, td: string) returns (known: bool)
      requires Valid()
      ensures known <==> exists e :: e in History(k) && Rev(e) == Text.AfterSlash(td)
      ensures known <==> exists i: nat :: StillKnown(Log(k), i, Text.AfterSlash(td))
    {
      HistoryKnows(k, Text.AfterSlash(td));
      var entries := History(k);
      for i := 0 to |entries|
        invariant forall j :: 0 <= j < i ==> Rev(entries[j]) != Text.AfterSlash(td)
      {
        if Rev(entries[i]) == Text.AfterSlash(td) {
          return true;
        }
      }
      return false;
    }
  }

  // ---------------------------------------------------------------------------------------------
  // What the queries find
  // ---------------------------------------------------------------------------------------------

  lemma {:induction false} LatestSkips(entries: seq<Entry>, exclude: string, rev: string)
    requires exclude != "" && rev == Text.AfterSlash(exclude)
    ensures Latest(Others(entries, rev), exclude) == Latest(entries, exclude)
  {
    if entries != [] {
      var front, last := entries[..|entries| - 1], entries[|entries| - 1];
      LatestSkips(front, exclude, rev);
      if Rev(last) == rev {
        assert Others(entries, rev) == Others(front, rev);
      } else {
        assert Others(entries, rev) == Others(front, rev) + [last];
      }
    }
  }

  lemma {:induction false} LatestInRecency(log: seq<Entry>, exclude: string)
    ensures Latest(Recency(log), exclude) == Latest(log, exclude)
  {
    if log != [] {
      var front, e := log[..|log| - 1], log[|log| - 1];
      LatestInRecency(front, exclude);
      var others := Others(Recency(front), Rev(e));
      assert (others + [e])[..|others|] == others;
      if exclude != "" && Rev(e) == Text.AfterSlash(exclude) {
        LatestSkips(Recency(front), exclude, Rev(e));
      }
    }
  }

  /** Cut or not, moved or not: the answer is the most recent success of another revision in the whole log. */
  lemma LatestOfLog(log: seq<Entry>, exclude: string)
    ensures Latest(LastTwenty(Recency(log)), exclude) == Latest(log, exclude)
  {
    RecencyIsDistinct(log);
    LatestInRecency(log, exclude);
  }

  lemma OthersMembers(entries: seq<Entry>, rev: string, e: Entry)
    ensures e in Others(entries, rev) <==> e in entries && Rev(e) != rev
  {
  }

  /** The stored list: at most twenty, one per revision, each of them a recorded success. */
  lemma StoredList(log: seq<Entry>)
    ensures |LastTwenty(Recency(log))| <= HISTORY && OnePerRevision(LastTwenty(Recency(log)))
    ensures forall e :: e in LastTwenty(Recency(log)) ==> e in log
  {
    RecencyIsDistinct(log);
    RecencyInLog(log);
  }

  lemma {:induction false} RecencyInLog(log: seq<Entry>)
    ensures forall e :: e in Recency(log) ==> e in log
  {
    if log != [] {
      var front, last := log[..|log| - 1], log[|log| - 1];
      RecencyInLog(front);
      forall e | e in Recency(log) ensures e in log {
        OthersMembers(Recency(front), Rev(last), e);
      }
    }
  }

  /** The success is of a revision that is not excluded; none is, if nothing is named. */
  predicate Counts(e: Entry, exclude: string) {
    exclude == "" || Text.AfterSlash(e.td) != Text.AfterSlash(exclude)
  }

  /** The answer is the latest success of the log that counts. */
  lemma {:induction false} LatestIs(log: seq<Entry>, exclude: string, i: nat)
    requires i < |log| && Counts(log[i], exclude) && forall j :: i < j < |log| ==> !Counts(log[j], exclude)
    ensures Latest(log, exclude) == log[i].td
  {
    if i < |log| - 1 {
      LatestIs(log[..|log| - 1], exclude, i);
    }
  }

  /** If none counts the answer is empty. */
  lemma {:induction false} LatestIsNone(log: seq<Entry>, exclude: string)
    requires forall j :: 0 <= j < |log| ==> !Counts(log[j], exclude)
    ensures Latest(log, exclude) == ""
  {
    if log != [] {
      LatestIsNone(log[..|log| - 1], exclude);
    }
  }

  // ---------------------------------------------------------------------------------------------
  // Which successes are still known
  // ---------------------------------------------------------------------------------------------

  lemma RevisionsHold(entries: seq<Entry>, rev: string)
    ensures rev in Revisions(entries) <==> exists e :: e in entries && Rev(e) == rev
  {
    if rev in Revisions(entries) {
      var i :| 0 <= i < |entries| && Rev(entries[i]) == rev;
      assert entries[i] in entries;
    }
  }

  function Revisions(entries: seq<Entry>): set<string> {
    set i | 0 <= i < |entries| :: Rev(entries[i])
  }

  lemma RevisionsSnoc(entries: seq<Entry>, e: Entry)
    ensures Revisions(entries + [e]) == Revisions(entries) + {Rev(e)}
  {
    var all := entries + [e];
    assert all[|entries|] == e && forall i :: 0 <= i < |entries| ==> all[i] == entries[i];
    forall r ensures r in Revisions(all) <==> r in Revisions(entries) || r == Rev(e) {
      if r in Revisions(all) {
        var i :| 0 <= i < |all| && Rev(all[i]) == r;
      }
      if r in Revisions(entries) {
        var i :| 0 <= i < |entries| && Rev(entries[i]) == r;
        assert Rev(all[i]) == r;
      }
      if r == Rev(e) {
        assert Rev(all[|entries|]) == r;
      }
    }
  }

  lemma {:induction false} RevisionsOfDistinct(entries: seq<Entry>)
    requires OnePerRevision(entries)
    ensures |Revisions(entries)| == |entries|
  {
    if entries != [] {
      var front, last := entries[..|entries| - 1], entries[|entries| - 1];
      assert entries == front + [last];
      RevisionsOfDistinct(front);
      RevisionsSnoc(front, last);
      assert Rev(last) !in Revisions(front);
    }
  }

  /** In the recency list exactly those revisions stand behind an entry that succeeded after it. */
  ghost predicate RecentBehind(log: seq<Entry>, i: nat, k: nat) {
    && i < |log| && k < |Recency(log)| && Recency(log)[k] == log[i]
    && Revisions(Recency(log)[k + 1..]) == Revisions(log[i + 1..])
  }

  lemma SliceSnoc(a: seq<Entry>, e: Entry, k: nat)
    requires k < |a|
    ensures (a + [e])[k + 1..] == a[k + 1..] + [e]
  {
  }

  /** Taking out one revision leaves the others behind an entry as they are. */
  lemma OthersKeepPlace(entries: seq<Entry>, rev: string, k: nat) returns (k': nat)
    requires k < |entries| && Rev(entries[k]) != rev && OnePerRevision(entries)
    ensures k' < |Others(entries, rev)| && Others(entries, rev)[k'] == entries[k]
    ensures Revisions(Others(entries, rev)[k' + 1..]) == Revisions(entries[k + 1..]) - {rev}
  {
    var left, e, right := entries[..k], entries[k], entries[k + 1..];
    assert entries == left + [e] + right;
    OthersAppend(left + [e], right, rev);
    OthersSnoc(left, e, rev);
    k' := |Others(left, rev)|;
    assert Others(entries, rev) == Others(left, rev) + [e] + Others(right, rev);
    assert Others(entries, rev)[k' + 1..] == Others(right, rev);
    RevisionsOfOthers(right, rev);
  }

  lemma RevisionsOfOthers(entries: seq<Entry>, rev: string)
    ensures Revisions(Others(entries, rev)) == Revisions(entries) - {rev}
  {
    var others := Others(entries, rev);
    forall r ensures r in Revisions(others) <==> r in Revisions(entries) && r != rev {
      if r in Revisions(others) {
        var i :| 0 <= i < |others| && Rev(others[i]) == r;
        OthersMembers(entries, rev, others[i]);
        var j :| 0 <= j < |entries| && entries[j] == others[i];
      }
      if r in Revisions(entries) && r != rev {
        var i :| 0 <= i < |entries| && Rev(entries[i]) == r;
        OthersMembers(entries, rev, entries[i]);
        var j :| 0 <= j < |others| && others[j] == entries[i];
      }
    }
  }

  /** The latest success of a revision, as the log has it. */
  predicate IsLatestOf(log: seq<Entry>, i: nat) {
    i < |log| && forall j :: i < j < |log| ==> Rev(log[j]) != Rev(log[i])
  }

  lemma StaysBehind(front: seq<Entry>, last: Entry, i: nat, k0: nat) returns (k: nat)
    requires RecentBehind(front, i, k0) && Rev(front[i]) != Rev(last)
    ensures RecentBehind(front + [last], i, k)
  {
    var others := Others(Recency(front), Rev(last));
    RecencyIsDistinct(front);
    k := OthersKeepPlace(Recency(front), Rev(last), k0);
    assert (front + [last])[..|front|] == front;
    SliceSnoc(others, last, k);
    SliceSnoc(front, last, i);
    RevisionsSnoc(others[k + 1..], last);
    RevisionsSnoc(front[i + 1..], last);
  }

  lemma {:induction false} LatestHasPlace(log: seq<Entry>, i: nat) returns (k: nat)
    requires IsLatestOf(log, i)
    ensures RecentBehind(log, i, k)
  {
    var front, last := log[..|log| - 1], log[|log| - 1];
    assert log == front + [last];
    if i == |front| {
      k := |Others(Recency(front), Rev(last))|;
      assert log[i + 1..] == [] && Recency(log)[k + 1..] == [];
    } else {
      var k0 := LatestHasPlace(front, i);
      k := StaysBehind(front, last, i, k0);
    }
  }

  lemma {:induction false} LatestExists(log: seq<Entry>, rev: string) returns (i: nat)
    requires rev in Revisions(log)
    ensures IsLatestOf(log, i) && Rev(log[i]) == rev
  {
    var front, last := log[..|log| - 1], log[|log| - 1];
    assert log == front + [last];
    if Rev(last) == rev {
      i := |front|;
    } else {
      RevisionsSnoc(front, last);
      i := LatestExists(front, rev);
    }
  }

  lemma TailIsDistinct(entries: seq<Entry>, k: nat)
    requires OnePerRevision(entries) && k <= |entries|
    ensures |Revisions(entries[k..])| == |entries| - k
  {
    RevisionsOfDistinct(entries[k..]);
  }

  /** A success is still in the stored list exactly if fewer than twenty other revisions have succeeded since. */
  lemma KeptExactly(log: seq<Entry>, i: nat)
    requires IsLatestOf(log, i)
    ensures Rev(log[i]) in Revisions(LastTwenty(Recency(log))) <==> |Revisions(log[i + 1..])| < 20
  {
    var k := LatestHasPlace(log, i);
    var all := Recency(log);
    RecencyIsDistinct(log);
    TailIsDistinct(all, k + 1);
    var start := |all| - |LastTwenty(all)|;
    assert LastTwenty(all) == all[start..];
    if k >= start {
      assert all[start..][k - start] == all[k];
    }
    if Rev(log[i]) in Revisions(all[start..]) {
      var j :| 0 <= j < |all[start..]| && Rev(all[start..][j]) == Rev(log[i]);
      assert all[start..][j] == all[start + j];
    }
  }

  /** The revision's latest success is at this place, and fewer than twenty other revisions have succeeded since. */
  predicate StillKnown(log: seq<Entry>, i: nat, rev: string) {
    IsLatestOf(log, i) && Rev(log[i]) == rev && |Revisions(log[i + 1..])| < 20
  }

  lemma ListedSucceeded(log: seq<Entry>, rev: string)
    requires rev in Revisions(LastTwenty(Recency(log)))
    ensures rev in Revisions(log)
  {
    var list := LastTwenty(Recency(log));
    var j :| 0 <= j < |list| && Rev(list[j]) == rev;
    StoredList(log);
    assert list[j] in log;
    var h :| 0 <= h < |log| && log[h] == list[j];
  }

  /** The stored list knows a revision exactly if it has succeeded and fewer than twenty others have since. */
  lemma KnownExactly(log: seq<Entry>, rev: string)
    ensures rev in Revisions(LastTwenty(Recency(log))) <==> exists i: nat :: StillKnown(log, i, rev)
  {
    if rev in Revisions(LastTwenty(Recency(log))) {
      ListedSucceeded(log, rev);
      var i := LatestExists(log, rev);
      KeptExactly(log, i);
      assert StillKnown(log, i, rev);
    }
    if i: nat :| StillKnown(log, i, rev) {
      KeptExactly(log, i);
    }
  }
}
