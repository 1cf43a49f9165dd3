/**
 What the single-flight cache gives each request, told by the events alone: who is served whose answer, who is aborted,
 and when an answer of an earlier request is used again.
 */
module FlightHistory {
  import opened Wrappers
  import opened SingleFlight

  // ---------------------------------------------------------------------------------------------
  // Histories
  // ---------------------------------------------------------------------------------------------

  lemma {:induction false} LastEvent(start: State, es: seq<Event>, s: State) returns (front: seq<Event>, before: State)
    requires Run(start, es, s) && es != []
    ensures front == es[..|es| - 1] && Run(start, front, before)
    ensures Enabled(before, es[|es| - 1]) && s == Apply(before, es[|es| - 1])
    decreases |es|
  {
    front := es[..|es| - 1];
    if |es| == 1 {
      before := start;
    } else {
      var rest;
      rest, before := LastEvent(Apply(start, es[0]), es[1..], s);
      assert front[0] == es[0] && front[1..] == rest;
      assert es[1..][|es| - 2] == es[|es| - 1];
    }
  }

  lemma {:induction false} RunAppend(a: State, es: seq<Event>, b: State, fs: seq<Event>, c: State)
    requires Run(a, es, b) && Run(b, fs, c)
    ensures Run(a, es + fs, c)
    decreases |es|
  {
    if es == [] {
      assert es + fs == fs;
    } else {
      RunAppend(Apply(a, es[0]), es[1..], b, fs, c);
      assert (es + fs)[0] == es[0] && (es + fs)[1..] == es[1..] + fs;
    }
  }

  // ---------------------------------------------------------------------------------------------
  // What became of each request
  // ---------------------------------------------------------------------------------------------

  /** Nothing has happened to `t` since it arrived. */
  predicate Untouched(es: seq<Event>, t: Tid) {
    forall e :: e in es && e.t == t ==> e.Arrive?
  }

  /** This is the one thing that has happened to `t` since it arrived. */
  predicate EndedBy(es: seq<Event>, t: Tid, end: Event) {
    end in es && end.t == t && !end.Arrive? && forall e :: e in es && e.t == t && !e.Arrive? ==> e == end
  }

  /** `t` arrived with this event and with no other. */
  predicate ArrivedBy(es: seq<Event>, t: Tid, a: Event) {
    a in es && a.Arrive? && a.t == t && forall e :: e in es && e.t == t && e.Arrive? ==> e == a
  }

  ghost predicate ArrivedFor(es: seq<Event>, t: Tid, key: Key) {
    exists a :: ArrivedBy(es, t, a) && a.key == key
  }

  ghost predicate TaskTold(es: seq<Event>, s: State, t: Tid)
    requires t in s.tasks
  {
    && ArrivedFor(es, t, s.tasks[t].key)
    && match s.tasks[t]
       case Leading(k, f, began) => ArrivedBy(es, t, Arrive(t, k, began, f)) && Untouched(es, t)
       case Waiting(_, _) => Untouched(es, t)
       case Served(k, answer, Own) => EndedBy(es, t, Return(t, answer.fallback, answer.body)) && answer.prompt == k
       case Served(_, _, Shared) => EndedBy(es, t, Wake(t))
       case Served(_, _, Cache(_)) => Untouched(es, t)
       case Aborted(_) =>
         EndedBy(es, t, CancelLeader(t)) || EndedBy(es, t, CancelWaiter(t)) || EndedBy(es, t, Wake(t))
  }

  /** What a future holds is what its leader was served, or that the leader was cancelled. */
  ghost predicate FutureTold(es: seq<Event>, s: State, f: Fid)
    requires f in s.futures
  {
    var fut := s.futures[f];
    && fut.leader in s.tasks && s.tasks[fut.leader].key == fut.key
    && match fut.state
       case Pending => s.tasks[fut.leader].Leading? && s.tasks[fut.leader].future == f
       case Resolved(answer) => s.tasks[fut.leader] == Served(fut.key, answer, Own)
       case Dropped => EndedBy(es, fut.leader, CancelLeader(fut.leader))
  }

  ghost predicate Told(es: seq<Event>, s: State) {
    && (forall t :: t in s.tasks ==> TaskTold(es, s, t))
    && (forall f :: f in s.futures ==> FutureTold(es, s, f))
    && (forall e :: e in es ==> e.t in s.tasks)
  }

  lemma ArrivedStays(es: seq<Event>, e: Event, t: Tid, key: Key)
    requires ArrivedFor(es, t, key) && (e.t == t ==> !e.Arrive?)
    ensures ArrivedFor(es + [e], t, key)
  {
    var a :| ArrivedBy(es, t, a) && a.key == key;
    ArrivalStays(es, e, t, a);
  }

  lemma ArrivalStays(es: seq<Event>, e: Event, t: Tid, a: Event)
    requires ArrivedBy(es, t, a) && (e.t == t ==> !e.Arrive?)
    ensures ArrivedBy(es + [e], t, a)
  {
    assert a in es + [e];
  }

  lemma Elsewhere(es: seq<Event>, e: Event, t: Tid)
    requires e.t != t
    ensures Untouched(es, t) ==> Untouched(es + [e], t)
    ensures forall end :: EndedBy(es, t, end) ==> EndedBy(es + [e], t, end)
    ensures forall x :: x in es ==> x in es + [e]
  {
    forall end | EndedBy(es, t, end) ensures EndedBy(es + [e], t, end) {
      assert end in es + [e];
    }
  }

  lemma EndsNow(es: seq<Event>, e: Event)
    requires Untouched(es, e.t) && !e.Arrive?
    ensures EndedBy(es + [e], e.t, e)
  {
    assert (es + [e])[|es|] == e;
  }

  lemma ArrivesNow(es: seq<Event>, e: Event)
    requires e.Arrive? && forall x :: x in es ==> x.t != e.t
    ensures Untouched(es + [e], e.t) && ArrivedBy(es + [e], e.t, e)
  {
    assert (es + [e])[|es|] == e;
  }

  lemma ArriverTold(es: seq<Event>, s: State, e: Event)
    requires Valid(s) && Told(es, s) && Enabled(s, e) && e.Arrive?
    ensures TaskTold(es + [e], Apply(s, e), e.t)
  {
    ArrivesNow(es, e);
  }

  lemma EnderTold(es: seq<Event>, s: State, e: Event)
    requires Valid(s) && Told(es, s) && Enabled(s, e) && !e.Arrive?
    ensures TaskTold(es + [e], Apply(s, e), e.t)
  {
    assert TaskTold(es, s, e.t) && TaskOk(s, e.t);
    ArrivedStays(es, e, e.t, s.tasks[e.t].key);
    EndsNow(es, e);
  }

  lemma OtherTold(es: seq<Event>, s: State, e: Event, t: Tid)
    requires Told(es, s) && Enabled(s, e) && t in Apply(s, e).tasks && t != e.t
    ensures TaskTold(es + [e], Apply(s, e), t)
  {
    assert t in s.tasks && s.tasks[t] == Apply(s, e).tasks[t];
    assert TaskTold(es, s, t);
    ArrivedStays(es, e, t, s.tasks[t].key);
    if s.tasks[t].Leading? {
      ArrivalStays(es, e, t, Arrive(t, s.tasks[t].key, s.tasks[t].began, s.tasks[t].future));
    }
    Elsewhere(es, e, t);
  }

  /** An event of another task leaves a future as it is. */
  lemma FutureElsewhere(s: State, e: Event, f: Fid)
    requires Valid(s) && Enabled(s, e) && f in s.futures && e.t != s.futures[f].leader
    ensures f in Apply(s, e).futures && Apply(s, e).futures[f] == s.futures[f]
  {
    if e.t in s.tasks {
      assert TaskOk(s, e.t);
    }
  }

  lemma OtherTask(s: State, e: Event, t: Tid)
    requires Enabled(s, e) && t != e.t && t in s.tasks
    ensures t in Apply(s, e).tasks && Apply(s, e).tasks[t] == s.tasks[t]
  {
  }

  lemma FutureToldElsewhere(es: seq<Event>, s: State, e: Event, s': State, f: Fid)
    requires f in s.futures && FutureTold(es, s, f) && e.t != s.futures[f].leader
    requires f in s'.futures && s'.futures[f] == s.futures[f]
    requires s.futures[f].leader in s'.tasks && s'.tasks[s.futures[f].leader] == s.tasks[s.futures[f].leader]
    ensures FutureTold(es + [e], s', f)
  {
    Elsewhere(es, e, s.futures[f].leader);
  }

  lemma FutureToldByLeader(es: seq<Event>, s: State, e: Event, f: Fid)
    requires Valid(s) && Told(es, s) && Enabled(s, e) && f in s.futures && e.t == s.futures[f].leader
    ensures FutureTold(es + [e], Apply(s, e), f)
  {
    assert FutureTold(es, s, f) && TaskTold(es, s, e.t) && TaskOk(s, e.t);
    if e.CancelLeader? {
      EndsNow(es, e);
    }
  }

  lemma FutureToldStep(es: seq<Event>, s: State, e: Event, f: Fid)
    requires Valid(s) && Told(es, s) && Enabled(s, e) && f in Apply(s, e).futures
    ensures FutureTold(es + [e], Apply(s, e), f)
  {
    if f !in s.futures {
      assert e.Arrive? && e.slot == f;
    } else if e.t == s.futures[f].leader {
      FutureToldByLeader(es, s, e, f);
    } else {
      assert FutureTold(es, s, f);
      FutureElsewhere(s, e, f);
      OtherTask(s, e, s.futures[f].leader);
      FutureToldElsewhere(es, s, e, Apply(s, e), f);
    }
  }

  lemma TaskToldStep(es: seq<Event>, s: State, e: Event, t: Tid)
    requires Valid(s) && Told(es, s) && Enabled(s, e) && t in Apply(s, e).tasks
    ensures TaskTold(es + [e], Apply(s, e), t)
  {
    if t != e.t {
      OtherTold(es, s, e, t);
    } else if e.Arrive? {
      ArriverTold(es, s, e);
    } else {
      EnderTold(es, s, e);
    }
  }

  lemma TaskOfEvent(es: seq<Event>, s: State, e: Event, x: Event)
    requires Told(es, s) && Enabled(s, e) && x in es + [e]
    ensures x.t in Apply(s, e).tasks
  {
    assert x in es || x == e;
  }

  lemma ToldStep(es: seq<Event>, s: State, e: Event)
    requires Valid(s) && Told(es, s) && Enabled(s, e)
    ensures Told(es + [e], Apply(s, e))
  {
    var es', s' := es + [e], Apply(s, e);
    forall t | t in s'.tasks ensures TaskTold(es', s', t) { TaskToldStep(es, s, e, t); }
    forall f | f in s'.futures ensures FutureTold(es', s', f) { FutureToldStep(es, s, e, f); }
    forall x | x in es' ensures x.t in s'.tasks { TaskOfEvent(es, s, e, x); }
  }

  lemma NothingTold()
    ensures Valid(EMPTY) && Told([], EMPTY)
  {
  }

  lemma ToldOnce(past: seq<Event>, s: State, e: Event, now: seq<Event>, mid: State)
    requires Valid(s) && Told(past, s) && Enabled(s, e) && mid == Apply(s, e) && now == past + [e]
    ensures Valid(mid) && Told(now, mid)
  {
    ValidStep(s, e);
    ToldStep(past, s, e);
  }

  lemma FirstStep(s: State, es: seq<Event>, s': State) returns (e: Event, rest: seq<Event>, mid: State)
    requires Run(s, es, s') && es != []
    ensures es == [e] + rest && Enabled(s, e) && mid == Apply(s, e) && Run(mid, rest, s')
  {
    e, rest, mid := es[0], es[1..], Apply(s, es[0]);
  }

  lemma Regroup(a: seq<Event>, e: Event, b: seq<Event>)
    ensures a + ([e] + b) == a + [e] + b
  {
  }

  lemma {:induction false} ToldOn(past: seq<Event>, s: State, es: seq<Event>, s': State, all: seq<Event>)
    requires Valid(s) && Told(past, s) && Run(s, es, s') && all == past + es
    ensures Valid(s') && Told(all, s')
    decreases |es|
  {
    if es == [] {
      assert all == past;
    } else {
      var e, rest, mid := FirstStep(s, es, s');
      Regroup(past, e, rest);
      ToldOnce(past, s, e, past + [e], mid);
      ToldOn(past + [e], mid, rest, s', all);
    }
  }

  lemma ToldRun(es: seq<Event>, s: State)
    requires Run(EMPTY, es, s)
    ensures Valid(s) && Told(es, s)
  {
    NothingTold();
    ToldOn([], EMPTY, es, s, es);
  }

  lemma OwnAnswerTold(es: seq<Event>, s: State, t: Tid, fallback: bool, body: string)
    requires Told(es, s) && Return(t, fallback, body) in es
    ensures t in s.tasks && ArrivedFor(es, t, s.tasks[t].key)
    ensures s.tasks[t] == Served(s.tasks[t].key, Answer(s.tasks[t].key, fallback, body), Own)
  {
    assert Return(t, fallback, body).t in s.tasks;
    assert TaskTold(es, s, t);
  }

  /**
   What can happen at any moment: a new request can come; a call under way can return anything, or be cancelled; a
   waiter can be cancelled, and wakes once its leader's call is over.
   */
  lemma WhatCanHappen(es: seq<Event>, s: State, e: Event)
    requires Run(EMPTY, es, s)
    ensures Enabled(s, e) <==>
            match e
            case Arrive(t, _, _, slot) => t !in s.tasks && slot !in s.futures
            case Return(t, _, _) => t in s.tasks && s.tasks[t].Leading?
            case CancelLeader(t) => t in s.tasks && s.tasks[t].Leading?
            case CancelWaiter(t) => t in s.tasks && s.tasks[t].Waiting?
            case Wake(t) => t in s.tasks && s.tasks[t].Waiting? && !LeaderRuns(s, s.tasks[t].future)
  {
    ToldRun(es, s);
    if e.t in s.tasks {
      assert TaskOk(s, e.t);
      if s.tasks[e.t].Waiting? {
        assert FutureTold(es, s, s.tasks[e.t].future) && FutureOk(s, s.tasks[e.t].future);
      }
    }
  }

  /** The call whose answer goes to this future is under way. */
  predicate LeaderRuns(s: State, f: Fid) {
    f in s.futures && s.futures[f].leader in s.tasks && s.tasks[s.futures[f].leader].Leading?
  }

  /** A leader whose call returned is served exactly what was returned, for the prompt it came with. */
  lemma LeaderGetsItsOwn(es: seq<Event>, s: State, t: Tid, fallback: bool, body: string)
    requires Run(EMPTY, es, s) && Return(t, fallback, body) in es
    ensures t in s.tasks && ArrivedFor(es, t, s.tasks[t].key)
    ensures s.tasks[t] == Served(s.tasks[t].key, Answer(s.tasks[t].key, fallback, body), Own)
  {
    ToldRun(es, s);
    OwnAnswerTold(es, s, t, fallback, body);
  }

  // ---------------------------------------------------------------------------------------------
  // Waiters
  // ---------------------------------------------------------------------------------------------

  /** Where a waiter on `f` stands, from what has happened to it since. */
  ghost predicate Follows(after: seq<Event>, s: State, t: Tid, key: Key, f: Fid, leader: Tid) {
    && f in s.futures && s.futures[f].leader == leader && s.futures[f].key == key && t in s.tasks
    && (forall e :: e in after && e.t == t ==> e in {Wake(t), CancelWaiter(t)})
    && !(Wake(t) in after && CancelWaiter(t) in after)
    && (Wake(t) in after && s.futures[f].state.Resolved? ==> s.tasks[t] == Served(key, s.futures[f].state.answer, Shared))
    && (Wake(t) in after ==> !s.futures[f].state.Pending?)
    && (Wake(t) in after && s.futures[f].state.Dropped? ==> s.tasks[t] == Aborted(key))
    && (CancelWaiter(t) in after ==> s.tasks[t] == Aborted(key))
    && (Wake(t) !in after && CancelWaiter(t) !in after ==> s.tasks[t] == Waiting(key, f))
  }

  lemma FollowsStep(after: seq<Event>, s: State, e: Event, t: Tid, key: Key, f: Fid, leader: Tid)
    requires Follows(after, s, t, key, f, leader) && Enabled(s, e)
    ensures Follows(after + [e], Apply(s, e), t, key, f, leader)
  {
    assert forall x :: x in after + [e] <==> x in after || x == e;
  }

  lemma {:induction false} FollowsRun(w: State, after: seq<Event>, s: State, t: Tid)
    requires Valid(w) && t in w.tasks && w.tasks[t].Waiting? && Run(w, after, s)
    ensures w.tasks[t].future in w.futures
    ensures Follows(after, s, t, w.tasks[t].key, w.tasks[t].future, w.futures[w.tasks[t].future].leader)
    decreases |after|
  {
    assert TaskOk(w, t);
    if after != [] {
      var front, before := LastEvent(w, after, s);
      FollowsRun(w, front, before, t);
      FollowsStep(front, before, after[|after| - 1], t, w.tasks[t].key, w.tasks[t].future, w.futures[w.tasks[t].future].leader);
      assert after == front + [after[|after| - 1]];
    }
  }

  lemma WaiterOutcome(all: seq<Event>, after: seq<Event>, s: State, t: Tid, key: Key, f: Fid, leader: Tid)
    requires Follows(after, s, t, key, f, leader) && FutureTold(all, s, f) && TaskTold(all, s, leader)
    ensures s.tasks[t].key == s.tasks[leader].key == key
    ensures Wake(t) in after && CancelLeader(leader) !in all ==>
              && s.tasks[leader].Served? && s.tasks[leader].source == Own
              && s.tasks[t] == Served(key, s.tasks[leader].answer, Shared)
    ensures s.tasks[t].Aborted? <==> CancelWaiter(t) in after || (Wake(t) in after && CancelLeader(leader) in all)
    ensures s.tasks[t].Waiting? <==> Wake(t) !in after && CancelWaiter(t) !in after
  {
  }

  /**
   A waiter that has woken, its leader not being cancelled, is served exactly what the leader was served.  It is
   aborted if and only if it was cancelled, or woke to find that its leader was; otherwise it still waits.
   */
  lemma WaiterGetsTheLeadersAnswer(es: seq<Event>, w: State, after: seq<Event>, s: State, t: Tid) returns (leader: Tid)
    requires Run(EMPTY, es, w) && t in w.tasks && w.tasks[t].Waiting? && Run(w, after, s)
    ensures w.tasks[t].future in w.futures && leader == w.futures[w.tasks[t].future].leader
    ensures t in s.tasks && leader in s.tasks && s.tasks[t].key == s.tasks[leader].key == w.tasks[t].key
    ensures Wake(t) in after && CancelLeader(leader) !in es + after ==>
              && s.tasks[leader].Served? && s.tasks[leader].source == Own
              && s.tasks[t] == Served(w.tasks[t].key, s.tasks[leader].answer, Shared)
    ensures s.tasks[t].Aborted? <==> CancelWaiter(t) in after || (Wake(t) in after && CancelLeader(leader) in es + after)
    ensures s.tasks[t].Waiting? <==> Wake(t) !in after && CancelWaiter(t) !in after
  {
    var f := w.tasks[t].future;
    ToldRun(es, w);
    FollowsRun(w, after, s, t);
    leader := w.futures[f].leader;
    RunAppend(EMPTY, es, w, after, s);
    ToldRun(es + after, s);
    WaiterOutcome(es + after, after, s, t, w.tasks[t].key, f, leader);
  }

  // ---------------------------------------------------------------------------------------------
  // Answers used again
  // ---------------------------------------------------------------------------------------------

  /** A call made for this key returns a real answer. */
  ghost predicate Answers(es: seq<Event>, k: nat, key: Key)
    requires k < |es|
  {
    && es[k].Return? && !es[k].fallback
    && exists l :: 0 <= l < k && es[l].Arrive? && es[l].t == es[k].t && es[l].key == key
  }

  /**
   The call of the request at `i` returned a real answer at `j`, no later call for the key did, and no request came
   since that found the answer a minute old, counted from the request at `i`.
   */
  ghost predicate CachedBy(es: seq<Event>, key: Key, i: int, j: int) {
    && 0 <= i < j < |es| && es[i].Arrive? && es[i].key == key && es[j].Return? && !es[j].fallback && es[j].t == es[i].t
    && forall k :: j < k < |es| ==> !Answers(es, k, key) && (es[k].Arrive? ==> es[k].now - es[i].now < 60)
  }

  ghost predicate CacheTold(es: seq<Event>, s: State, key: Key) {
    && (key in s.cache ==> exists i, j :: CachedBy(es, key, i, j))
    && (forall i, j :: CachedBy(es, key, i, j) ==>
          key in s.cache && s.cache[key] == Stamped(es[i].now, Answer(key, false, es[j].body)))
  }

  lemma AnswersOnly(es: seq<Event>, s: State, e: Event, key: Key)
    requires Told(es, s) && Enabled(s, e) && e.Return? && !e.fallback
    ensures Answers(es + [e], |es|, key) <==> s.tasks[e.t].key == key
  {
    var es' := es + [e];
    assert TaskTold(es, s, e.t);
    var a :| ArrivedBy(es, e.t, a) && a.key == s.tasks[e.t].key;
    var l :| 0 <= l < |es| && es[l] == a;
    assert es'[l] == a;
    forall l | 0 <= l < |es| && es'[l].Arrive? && es'[l].t == e.t ensures es'[l].key == s.tasks[e.t].key {
      assert es'[l] in es;
    }
  }

  lemma SameAnswers(es: seq<Event>, e: Event, k: nat, key: Key)
    requires k < |es|
    ensures Answers(es + [e], k, key) <==> Answers(es, k, key)
  {
    var es' := es + [e];
    assert forall l :: 0 <= l < |es| ==> es'[l] == es[l];
  }

  lemma CachedIsAnswer(es: seq<Event>, key: Key, i: int, j: int)
    requires CachedBy(es, key, i, j)
    ensures Answers(es, j, key)
  {
  }

  /** Older answers stay in use unless a later one comes or a request finds them too old. */
  lemma CachedStays(es: seq<Event>, e: Event, key: Key, i: int, j: int)
    requires 0 <= i < j < |es|
    ensures CachedBy(es + [e], key, i, j) <==>
            CachedBy(es, key, i, j) && !Answers(es + [e], |es|, key) &&
            (e.Arrive? ==> e.now - es[i].now < TTL_SECONDS)
  {
    var es' := es + [e];
    assert forall l :: 0 <= l < |es| ==> es'[l] == es[l];
    forall k | 0 <= k < |es| ensures Answers(es', k, key) <==> Answers(es, k, key) {
      SameAnswers(es, e, k, key);
    }
    if CachedBy(es', key, i, j) {
      assert es'[|es|] == e;
      forall k | j < k < |es| ensures !Answers(es, k, key) && (es[k].Arrive? ==> es[k].now - es[i].now < TTL_SECONDS) {
        assert es'[k] == es[k];
      }
    }
  }

  /** What the cache holds after an event that is no answer for the key. */
  lemma CacheKept(es: seq<Event>, s: State, e: Event, key: Key)
    requires Told(es, s) && CacheTold(es, s, key) && Enabled(s, e) && !Answers(es + [e], |es|, key)
    ensures CacheTold(es + [e], Apply(s, e), key)
  {
    var es', s' := es + [e], Apply(s, e);
    if e.Return? && !e.fallback {
      AnswersOnly(es, s, e, key);
    }
    forall i, j | 0 <= i < j < |es|
      ensures CachedBy(es', key, i, j) <==> CachedBy(es, key, i, j) && (e.Arrive? ==> e.now - es[i].now < TTL_SECONDS)
    {
      CachedStays(es, e, key, i, j);
    }
    forall i, j | CachedBy(es', key, i, j) ensures j < |es| && es'[i] == es[i] && es'[j] == es[j] {
      CachedIsAnswer(es', key, i, j);
    }
  }

  lemma CacheFilled(es: seq<Event>, s: State, e: Event, key: Key)
    requires Told(es, s) && Enabled(s, e) && Answers(es + [e], |es|, key)
    ensures CacheTold(es + [e], Apply(s, e), key)
  {
    var es' := es + [e];
    AnswersOnly(es, s, e, key);
    assert TaskTold(es, s, e.t);
    var a := Arrive(e.t, key, s.tasks[e.t].began, s.tasks[e.t].future);
    var l :| 0 <= l < |es| && es[l] == a;
    assert es'[l] == a && CachedBy(es', key, l, |es|);
    forall i, j | CachedBy(es', key, i, j) ensures j == |es| && es'[i] == a {
      assert es'[i] in es;
    }
  }

  /** The cache holds an answer for a key exactly if the events say so, and holds that answer. */
  lemma {:induction false} CacheRun(es: seq<Event>, s: State, key: Key)
    requires Run(EMPTY, es, s)
    ensures CacheTold(es, s, key)
    decreases |es|
  {
    if es != [] {
      var front, before := LastEvent(EMPTY, es, s);
      var e := es[|es| - 1];
      assert es == front + [e];
      ToldRun(front, before);
      CacheRun(front, before, key);
      if Answers(es, |front|, key) {
        CacheFilled(front, before, e, key);
      } else {
        CacheKept(front, before, e, key);
      }
    }
  }

  /** Some call for the key is under way. */
  ghost predicate UnderWay(s: State, key: Key) {
    exists u :: u in s.tasks && s.tasks[u].Leading? && s.tasks[u].key == key
  }

  lemma UnderWayIsRegistered(s: State, key: Key)
    requires Valid(s)
    ensures UnderWay(s, key) <==> key in s.inflight
    ensures key in s.inflight ==>
              s.inflight[key] in s.futures && var leader := s.futures[s.inflight[key]].leader;
              leader in s.tasks && s.tasks[leader].Leading? && s.tasks[leader].key == key
  {
    if key in s.inflight {
      assert Registered(s, key);
    } else {
      forall u | u in s.tasks && s.tasks[u].Leading? ensures s.tasks[u].key != key {
        assert TaskOk(s, u);
      }
    }
  }

  lemma ArrivalStep(s: State, t: Tid, key: Key, now: int, slot: Fid)
    requires Valid(s) && Enabled(s, Arrive(t, key, now, slot))
    ensures var s' := Apply(s, Arrive(t, key, now, slot));
            && (s'.tasks[t].Served? <==> key in s'.cache)
            && (key in s'.cache ==> s'.tasks[t] == Served(key, s'.cache[key].answer, Cache(now - s'.cache[key].at)))
            && (key !in s'.cache && UnderWay(s, key) ==>
                  && s'.tasks[t].Waiting? && s'.tasks[t].future in s'.futures
                  && var leader := s'.futures[s'.tasks[t].future].leader;
                     leader in s.tasks && s.tasks[leader].Leading? && s.tasks[leader].key == key)
            && (key !in s'.cache && !UnderWay(s, key) ==> s'.tasks[t] == Leading(key, slot, now))
  {
    UnderWayIsRegistered(s, key);
  }

  /**
   A request is served at once, and with which answer and of what age, exactly if an answer to its prompt is in use;
   else it waits for the call under way for its prompt, if there is one, and otherwise makes the call itself.
   */
  lemma ArrivalOutcome(es: seq<Event>, s: State, t: Tid, key: Key, now: int, slot: Fid)
    requires Run(EMPTY, es, s) && Enabled(s, Arrive(t, key, now, slot))
    ensures var a, s' := Arrive(t, key, now, slot), Apply(s, Arrive(t, key, now, slot));
            var used := exists i, j :: CachedBy(es + [a], key, i, j);
            && (s'.tasks[t].Served? <==> used)
            && (forall i, j :: CachedBy(es + [a], key, i, j) ==>
                  s'.tasks[t] == Served(key, Answer(key, false, (es + [a])[j].body), Cache(now - (es + [a])[i].now)))
            && (!used && UnderWay(s, key) ==>
                  && s'.tasks[t].Waiting? && s'.tasks[t].future in s'.futures
                  && var leader := s'.futures[s'.tasks[t].future].leader;
                     leader in s.tasks && s.tasks[leader].Leading? && s.tasks[leader].key == key)
            && (!used && !UnderWay(s, key) ==> s'.tasks[t] == Leading(key, slot, now))
  {
    var a := Arrive(t, key, now, slot);
    RunAppend(EMPTY, es, s, [a], Apply(s, a));
    CacheRun(es + [a], Apply(s, a), key);
    ValidRun(EMPTY, es, s);
    ArrivalStep(s, t, key, now, slot);
  }
}
