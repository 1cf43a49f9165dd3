/**
 The single-flight cache of language-model answers.

 The event loop runs one coroutine at a time, so the code between two awaits is one step: an arrival looks
 the key up in the cache, joins the registered future or registers one and starts the provider call; a
 leader's return fills the cache, resolves the future and unregisters it; a cancelled leader cancels the
 future; a waiter wakes or is cancelled on its own.
 */
module SingleFlight {
  import opened Wrappers

  type Key = string
  type Tid = nat
  type Fid = nat

  const TTL_SECONDS := 60

  /** The answer of a provider call made for the prompt `prompt`; `fallback` marks the stand-in for a failed call. */
  datatype Answer = Answer(prompt: Key, fallback: bool, body: string)

  datatype Stamped = Stamped(at: int, answer: Answer)

  datatype FutureState = Pending | Resolved(answer: Answer) | Dropped

  datatype Future = Future(key: Key, leader: Tid, state: FutureState)

  datatype Source = Cache(age: int) | Shared | Own

  datatype Task =
    | Leading(key: Key, future: Fid, began: int)
    | Waiting(key: Key, future: Fid)
    | Served(key: Key, answer: Answer, source: Source)
    | Aborted(key: Key)

  datatype State = State(
    cache: map<Key, Stamped>,
    inflight: map<Key, Fid>,
    futures: map<Fid, Future>,
    tasks: map<Tid, Task>)

  datatype Event =
    | Arrive(t: Tid, key: Key, now: int, slot: Fid)
    | Return(t: Tid, fallback: bool, body: string)
    | CancelLeader(t: Tid)
    | Wake(t: Tid)
    | CancelWaiter(t: Tid)

  predicate Enabled(s: State, e: Event) {
    match e
    case Arrive(t, _, _, f) => t !in s.tasks && f !in s.futures
    case Return(t, _, _) => t in s.tasks && s.tasks[t].Leading? && s.tasks[t].future in s.futures
    case CancelLeader(t) => t in s.tasks && s.tasks[t].Leading? && s.tasks[t].future in s.futures
    case Wake(t) =>
      && t in s.tasks && s.tasks[t].Waiting? && s.tasks[t].future in s.futures
      && !s.futures[s.tasks[t].future].state.Pending?
    case CancelWaiter(t) => t in s.tasks && s.tasks[t].Waiting?
  }

  function Unexpired(cache: map<Key, Stamped>, now: int): map<Key, Stamped> {
    map k | k in cache && now - cache[k].at < TTL_SECONDS :: cache[k]
  }

  /** A future that is already done keeps its result. */
  function Settle(f: Future, st: FutureState): Future {
    if f.state.Pending? then f.(state := st) else f
  }

  function Apply(s: State, e: Event): State
    requires Enabled(s, e)
  {
    match e
    case Arrive(t, key, now, f) =>
      var cache := Unexpired(s.cache, now);
      if key in cache then
        s.(cache := cache, tasks := s.tasks[t := Served(key, cache[key].answer, Cache(now - cache[key].at))])
      else if key in s.inflight then
        s.(cache := cache, tasks := s.tasks[t := Waiting(key, s.inflight[key])])
      else
        s.(cache := cache, inflight := s.inflight[key := f], futures := s.futures[f := Future(key, t, Pending)],
           tasks := s.tasks[t := Leading(key, f, now)])
    case Return(t, fallback, body) =>
      var task := s.tasks[t];
      var answer := Answer(task.key, fallback, body);
      State(
        if fallback then s.cache else s.cache[task.key := Stamped(task.began, answer)],
        s.inflight - {task.key},
        s.futures[task.future := Settle(s.futures[task.future], Resolved(answer))],
        s.tasks[t := Served(task.key, answer, Own)])
    case CancelLeader(t) =>
      var task := s.tasks[t];
      s.(inflight := s.inflight - {task.key},
         futures := s.futures[task.future := Settle(s.futures[task.future], Dropped)],
         tasks := s.tasks[t := Aborted(task.key)])
    case Wake(t) =>
      var task := s.tasks[t];
      var st := s.futures[task.future].state;
      s.(tasks := s.tasks[t := if st.Resolved? then Served(task.key, st.answer, Shared) else Aborted(task.key)])
    case CancelWaiter(t) => s.(tasks := s.tasks[t := Aborted(s.tasks[t].key)])
  }

  predicate Run(s: State, es: seq<Event>, s': State)
    decreases |es|
  {
    if es == [] then s == s' else Enabled(s, es[0]) && Run(Apply(s, es[0]), es[1..], s')
  }

  const EMPTY := State(map[], map[], map[], map[])

  // ---------------------------------------------------------------------------------------------
  // Invariant
  // ---------------------------------------------------------------------------------------------

  /** A key is registered exactly while its future is pending and its leader is running. */
  predicate Registered(s: State, k: Key)
    requires k in s.inflight
  {
    var f := s.inflight[k];
    && f in s.futures && s.futures[f].key == k && s.futures[f].state.Pending?
    && s.futures[f].leader in s.tasks && s.tasks[s.futures[f].leader].Leading?
    && s.tasks[s.futures[f].leader].key == k && s.tasks[s.futures[f].leader].future == f
  }

  predicate FutureOk(s: State, f: Fid)
    requires f in s.futures
  {
    var fut := s.futures[f];
    && (fut.state.Pending? ==> fut.key in s.inflight && s.inflight[fut.key] == f)
    && (fut.state.Resolved? ==> fut.state.answer.prompt == fut.key)
  }

  predicate TaskOk(s: State, t: Tid)
    requires t in s.tasks
  {
    match s.tasks[t]
    case Leading(k, f, _) => k in s.inflight && s.inflight[k] == f && f in s.futures && s.futures[f].leader == t
    case Waiting(k, f) => f in s.futures && s.futures[f].key == k
    case Served(k, answer, source) =>
      answer.prompt == k && (source.Cache? ==> !answer.fallback && source.age < TTL_SECONDS)
    case Aborted(_) => true
  }

  predicate CacheOk(s: State, k: Key)
    requires k in s.cache
  {
    s.cache[k].answer.prompt == k && !s.cache[k].answer.fallback
  }

  ghost predicate Valid(s: State) {
    && (forall k :: k in s.inflight ==> Registered(s, k))
    && (forall f :: f in s.futures ==> FutureOk(s, f))
    && (forall t :: t in s.tasks ==> TaskOk(s, t))
    && (forall k :: k in s.cache ==> CacheOk(s, k))
  }

  /** The leader of another key, and its future, are not touched when a leader ends. */
  lemma RegisteredAfterEnd(s: State, e: Event, k: Key)
    requires Valid(s) && Enabled(s, e) && (e.Return? || e.CancelLeader?) && k in Apply(s, e).inflight
    ensures Registered(Apply(s, e), k)
  {
    assert Registered(s, k) && TaskOk(s, e.t);
    assert k != s.tasks[e.t].key;
  }

  lemma RegisteredStep(s: State, e: Event, k: Key)
    requires Valid(s) && Enabled(s, e) && k in Apply(s, e).inflight
    ensures Registered(Apply(s, e), k)
  {
    if e.Return? || e.CancelLeader? {
      RegisteredAfterEnd(s, e, k);
    } else if k in s.inflight {
      assert Registered(s, k);
    }
  }

  lemma FutureStep(s: State, e: Event, f: Fid)
    requires Valid(s) && Enabled(s, e) && f in Apply(s, e).futures
    ensures FutureOk(Apply(s, e), f)
  {
    if f in s.futures {
      assert FutureOk(s, f);
    }
    if e.Return? || e.CancelLeader? {
      assert TaskOk(s, e.t) && Registered(s, s.tasks[e.t].key);
    }
  }

  lemma TaskStep(s: State, e: Event, t: Tid)
    requires Valid(s) && Enabled(s, e) && t in Apply(s, e).tasks
    ensures TaskOk(Apply(s, e), t)
  {
    if t in s.tasks {
      assert TaskOk(s, t);
    }
    if e.Return? || e.CancelLeader? {
      assert TaskOk(s, e.t) && Registered(s, s.tasks[e.t].key);
    } else if e.Wake? {
      assert FutureOk(s, s.tasks[e.t].future) && TaskOk(s, e.t);
    } else if e.Arrive? && e.key in s.inflight {
      assert Registered(s, e.key);
    }
    if e.Arrive? && e.key in s.cache {
      assert CacheOk(s, e.key);
    }
  }

  lemma ValidStep(s: State, e: Event)
    requires Valid(s) && Enabled(s, e)
    ensures Valid(Apply(s, e))
  {
    var s' := Apply(s, e);
    forall k | k in s'.inflight ensures Registered(s', k) { RegisteredStep(s, e, k); }
    forall f | f in s'.futures ensures FutureOk(s', f) { FutureStep(s, e, f); }
    forall t | t in s'.tasks ensures TaskOk(s', t) { TaskStep(s, e, t); }
    forall k | k in s'.cache ensures CacheOk(s', k) {
      if k in s.cache {
        assert CacheOk(s, k);
      }
    }
  }

  lemma {:induction false} ValidRun(s: State, es: seq<Event>, s': State)
    requires Valid(s) && Run(s, es, s')
    ensures Valid(s')
    decreases |es|
  {
    if es != [] {
      ValidStep(s, es[0]);
      ValidRun(Apply(s, es[0]), es[1..], s');
    }
  }

  // ---------------------------------------------------------------------------------------------
  // What every run keeps
  // ---------------------------------------------------------------------------------------------

  lemma OneLeaderPerKey(es: seq<Event>, s: State, t: Tid, u: Tid)
    requires Run(EMPTY, es, s)
    requires t in s.tasks && s.tasks[t].Leading? && u in s.tasks && s.tasks[u].Leading? && s.tasks[t].key == s.tasks[u].key
    ensures t == u
  {
    ValidRun(EMPTY, es, s);
    assert TaskOk(s, t) && TaskOk(s, u);
  }

  /** A future is pending exactly while it is registered and its leader runs. */
  lemma PendingWhileLeading(es: seq<Event>, s: State, f: Fid)
    requires Run(EMPTY, es, s) && f in s.futures
    ensures s.futures[f].state.Pending? <==>
            (s.futures[f].leader in s.tasks && s.tasks[s.futures[f].leader].Leading? && s.tasks[s.futures[f].leader].future == f)
    ensures s.futures[f].state.Pending? <==> s.futures[f].key in s.inflight && s.inflight[s.futures[f].key] == f
  {
    ValidRun(EMPTY, es, s);
    assert FutureOk(s, f);
    var fut := s.futures[f];
    if fut.key in s.inflight {
      assert Registered(s, fut.key);
    }
    if fut.leader in s.tasks && s.tasks[fut.leader].Leading? && s.tasks[fut.leader].future == f {
      assert TaskOk(s, fut.leader);
      assert Registered(s, s.tasks[fut.leader].key);
    }
  }

  /** Once the leader is gone, every waiter can wake. */
  lemma NoWaiterIsStranded(es: seq<Event>, s: State, t: Tid)
    requires Run(EMPTY, es, s) && t in s.tasks && s.tasks[t].Waiting?
    ensures s.tasks[t].future in s.futures
    ensures var leader := s.futures[s.tasks[t].future].leader;
            Enabled(s, Wake(t)) ||
            (leader in s.tasks && s.tasks[leader].Leading? && s.tasks[leader].future == s.tasks[t].future)
  {
    ValidRun(EMPTY, es, s);
    assert TaskOk(s, t);
    PendingWhileLeading(es, s, s.tasks[t].future);
  }

  /** Whatever is served was produced for the same prompt, and from the cache never a fallback and never an old answer. */
  lemma ServedAnswersFit(es: seq<Event>, s: State, t: Tid)
    requires Run(EMPTY, es, s) && t in s.tasks && s.tasks[t].Served?
    ensures s.tasks[t].answer.prompt == s.tasks[t].key
    ensures s.tasks[t].source.Cache? ==> !s.tasks[t].answer.fallback && s.tasks[t].source.age < TTL_SECONDS
  {
    ValidRun(EMPTY, es, s);
    assert TaskOk(s, t);
  }

  // ---------------------------------------------------------------------------------------------
  // Cancelling a waiter concerns nobody else
  // ---------------------------------------------------------------------------------------------

  predicate SameButTask(s: State, u: State, t: Tid) {
    && s.cache == u.cache && s.inflight == u.inflight && s.futures == u.futures
    && s.tasks - {t} == u.tasks - {t} && t in s.tasks && t in u.tasks
  }

  lemma AgreeElsewhere(s: State, u: State, t: Tid, x: Tid)
    requires SameButTask(s, u, t) && x != t
    ensures x in s.tasks <==> x in u.tasks
    ensures x in s.tasks ==> s.tasks[x] == u.tasks[x]
  {
    assert x in s.tasks <==> x in s.tasks - {t};
    assert x in u.tasks <==> x in u.tasks - {t};
    if x in s.tasks {
      assert (s.tasks - {t})[x] == s.tasks[x] && (u.tasks - {t})[x] == u.tasks[x];
    }
  }

  lemma OthersEnabled(s: State, u: State, t: Tid, e: Event)
    requires SameButTask(s, u, t) && Enabled(s, e) && e.t != t
    ensures Enabled(u, e)
    ensures e.t in Apply(s, e).tasks && Apply(s, e).tasks == s.tasks[e.t := Apply(s, e).tasks[e.t]]
    ensures Apply(u, e).tasks == u.tasks[e.t := Apply(s, e).tasks[e.t]]
    ensures Apply(s, e).(tasks := map[]) == Apply(u, e).(tasks := map[])
  {
    AgreeElsewhere(s, u, t, e.t);
  }

  lemma OthersStep(s: State, u: State, t: Tid, e: Event)
    requires SameButTask(s, u, t) && Enabled(s, e) && e.t != t
    ensures Enabled(u, e) && SameButTask(Apply(s, e), Apply(u, e), t)
  {
    OthersEnabled(s, u, t, e);
    var task := Apply(s, e).tasks[e.t];
    assert s.tasks[e.t := task] - {t} == (s.tasks - {t})[e.t := task];
    assert u.tasks[e.t := task] - {t} == (u.tasks - {t})[e.t := task];
  }

  /** What the other tasks do after a waiter is cancelled, they can do, with the same outcome, if it is not. */
  lemma {:induction false} CancelIsPrivate(s: State, u: State, t: Tid, es: seq<Event>, s': State) returns (u': State)
    requires SameButTask(s, u, t) && Run(s, es, s') && forall i :: 0 <= i < |es| ==> es[i].t != t
    ensures Run(u, es, u') && SameButTask(s', u', t) && u'.tasks[t] == u.tasks[t]
    decreases |es|
  {
    if es == [] {
      u' := u;
    } else {
      assert es[0].t != t;
      OthersStep(s, u, t, es[0]);
      u' := CancelIsPrivate(Apply(s, es[0]), Apply(u, es[0]), t, es[1..], s');
    }
  }

  lemma CancelledWaiterIsPrivate(s: State, t: Tid, es: seq<Event>, s': State) returns (u': State)
    requires Enabled(s, CancelWaiter(t)) && Run(Apply(s, CancelWaiter(t)), es, s')
    requires forall i :: 0 <= i < |es| ==> es[i].t != t
    ensures Run(s, es, u') && SameButTask(s', u', t) && u'.tasks[t] == s.tasks[t]
  {
    var c := Apply(s, CancelWaiter(t));
    assert c.tasks - {t} == s.tasks - {t};
    u' := CancelIsPrivate(c, s, t, es, s');
  }

  // ---------------------------------------------------------------------------------------------
  // The module's dictionaries
  // ---------------------------------------------------------------------------------------------

  class Analyzer {
    var cache: map<Key, Stamped>
    var inflight: map<Key, Fid>
    var futures: map<Fid, Future>
    var tasks: map<Tid, Task>

    constructor ()
      ensures Abstract() == EMPTY
    {
      cache, inflight, futures, tasks := map[], map[], map[], map[];
    }

    function Abstract(): State
      reads this
    {
      State(cache, inflight, futures, tasks)
    }

    /** Collects the expired keys, then deletes them one by one. */
    method Purge(now: int)
      modifies this`cache
      ensures cache == Unexpired(old(cache), now)
    {
      var expired := set k | k in cache && now - cache[k].at >= TTL_SECONDS;
      ghost var all := expired;
      while expired != {}
        invariant expired <= all
        invariant all == set k | k in old(cache) && now - old(cache)[k].at >= TTL_SECONDS
        invariant cache == old(cache) - (all - expired)
        decreases |expired|
      {
        var k :| k in expired;
        assert all - (expired - {k}) == (all - expired) + {k};
        cache := cache - {k};
        expired := expired - {k};
      }
      assert all - {} == all;
    }

    method OnArrive(t: Tid, key: Key, now: int, slot: Fid)
      requires Enabled(Abstract(), Arrive(t, key, now, slot))
      modifies this
      ensures Abstract() == Apply(old(Abstract()), Arrive(t, key, now, slot))
    {
      Purge(now);
      if key in cache && now - cache[key].at < TTL_SECONDS {
        tasks := tasks[t := Served(key, cache[key].answer, Cache(now - cache[key].at))];
        return;
      }
      if key in inflight {
        tasks := tasks[t := Waiting(key, inflight[key])];
        return;
      }
      futures := futures[slot := Future(key, t, Pending)];
      inflight := inflight[key := slot];
      tasks := tasks[t := Leading(key, slot, now)];
    }

    method OnReturn(t: Tid, fallback: bool, body: string)
      requires Enabled(Abstract(), Return(t, fallback, body))
      modifies this
      ensures Abstract() == Apply(old(Abstract()), Return(t, fallback, body))
    {
      var task := tasks[t];
      var answer := Answer(task.key, fallback, body);
      if !fallback {
        cache := cache[task.key := Stamped(task.began, answer)];
      }
      if futures[task.future].state.Pending? {
        futures := futures[task.future := futures[task.future].(state := Resolved(answer))];
      }
      tasks := tasks[t := Served(task.key, answer, Own)];
      inflight := inflight - {task.key};
    }

    method OnCancelLeader(t: Tid)
      requires Enabled(Abstract(), CancelLeader(t))
      modifies this
      ensures Abstract() == Apply(old(Abstract()), CancelLeader(t))
    {
      var task := tasks[t];
      if futures[task.future].state.Pending? {
        futures := futures[task.future := futures[task.future].(state := Dropped)];
      }
      tasks := tasks[t := Aborted(task.key)];
      inflight := inflight - {task.key};
    }
  }
}
