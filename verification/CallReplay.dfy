/**
 Collecting the calls of one scope: assignments and calls are replayed in source order over one state.
 The reference asks, call by call, for the latest assignment of a name that still has an effect.
 */
module CallReplay {
  import opened Wrappers
  import opened ClientTracking
  import opened Sorting

  type State = map<string, Service>

  /** Source position (line and column) and the order at one position: assignments before calls. */
  datatype Key = Key(line: int, column: int, kind: int)

  datatype Event =
    | Assign(at: Key, name: string, value: Expr)
    | Invoke(at: Key, receiver: Option<Expr>, operation: string, makesClient: bool)

  datatype AwsCall = AwsCall(service: Service, operation: string, line: int)

  /** What the rounds before have settled for this scope. */
  datatype Scene = Scene(names: State, tables: Tables, cls: Option<string>)

  // ---------------------------------------------------------------------------------------------
  // Source order
  // ---------------------------------------------------------------------------------------------

  predicate Before(a: Key, b: Key) {
    a.line < b.line || (a.line == b.line && (a.column < b.column || (a.column == b.column && a.kind < b.kind)))
  }

  predicate Earlier(a: Event, b: Event) {
    Before(a.at, b.at)
  }

  /** The events in source order; events at one key stay in the order of the scan. */
  function Ordering(events: seq<Event>): (r: seq<Event>)
    ensures |r| == |events|
  {
    Sorted(events, Earlier)
  }

  lemma OrderingFacts(events: seq<Event>, key: Key)
    ensures Ordered(Ordering(events), Earlier) && multiset(Ordering(events)) == multiset(events)
    ensures Filter(Ordering(events), (e: Event) => e.at == key) == Filter(events, (e: Event) => e.at == key)
  {
    SortedIsOrdered(events, Earlier);
    SortedKeeps(events, Earlier);
    SortedIsStable(events, Earlier, (e: Event) => e.at == key);
  }

  // ---------------------------------------------------------------------------------------------
  // The reference: one backward search per call
  // ---------------------------------------------------------------------------------------------

  function Held(state: State, e: Expr): Option<Service> {
    if e.Name? && e.path in state then Some(state[e.path]) else None
  }

  /** The service `name` stands for after the first `i` events. */
  function Search(scene: Scene, events: seq<Event>, i: nat, name: string): Option<Service>
    requires i <= |events|
    decreases i, 0
  {
    if i == 0 then if name in scene.names then Some(scene.names[name]) else None
    else
      var e := events[i - 1];
      if e.Assign? && e.name == name && '.' !in name then
        var found := Meaning(scene, events, i - 1, e.value);
        if found.None? && e.value.Constant? then Search(scene, events, i - 1, name) else found
      else Search(scene, events, i - 1, name)
  }

  function Meaning(scene: Scene, events: seq<Event>, i: nat, e: Expr): Option<Service>
    requires i <= |events|
    decreases i, 1
  {
    ServiceOf(if e.Name? then Search(scene, events, i, e.path) else None, scene.tables, scene.cls, e)
  }

  function Entry(service: Option<Service>, e: Event): seq<AwsCall>
    requires e.Invoke?
  {
    if e.receiver.None? || e.makesClient || service.None? then []
    else [AwsCall(service.value, e.operation, e.at.line)]
  }

  function Expected(scene: Scene, events: seq<Event>, i: nat): seq<AwsCall>
    requires i <= |events|
  {
    if i == 0 then []
    else
      var e := events[i - 1];
      Expected(scene, events, i - 1) +
      if e.Invoke? && e.receiver.Some? then Entry(Meaning(scene, events, i - 1, e.receiver.value), e) else []
  }

  // ---------------------------------------------------------------------------------------------
  // Which calls are recorded
  // ---------------------------------------------------------------------------------------------

  /** The event is a call on some receiver, makes no client, and its receiver stands for a service at that moment. */
  predicate IsAwsCall(scene: Scene, events: seq<Event>, i: nat)
    requires i < |events|
  {
    && events[i].Invoke? && events[i].receiver.Some? && !events[i].makesClient
    && Meaning(scene, events, i, events[i].receiver.value).Some?
  }

  /** The records stand, in order, for exactly the AWS calls among the first `n` events; `places` says for which. */
  ghost predicate Records(scene: Scene, events: seq<Event>, n: nat, calls: seq<AwsCall>, places: seq<nat>)
    requires n <= |events|
  {
    && |places| == |calls| && (forall k :: 0 <= k < |places| ==> places[k] < n && IsAwsCall(scene, events, places[k]))
    && (forall k, l :: 0 <= k < l < |places| ==> places[k] < places[l])
    && (forall i :: 0 <= i < n && IsAwsCall(scene, events, i) ==> i in places)
    && forall k :: 0 <= k < |calls| ==>
         && Some(calls[k].service) == Meaning(scene, events, places[k], events[places[k]].receiver.value)
         && calls[k].operation == events[places[k]].operation && calls[k].line == events[places[k]].at.line
  }

  lemma RecordsOneMore(scene: Scene, events: seq<Event>, n: nat, calls: seq<AwsCall>, places: seq<nat>, c: AwsCall)
    requires n < |events| && Records(scene, events, n, calls, places) && IsAwsCall(scene, events, n)
    requires c == AwsCall(Meaning(scene, events, n, events[n].receiver.value).value, events[n].operation, events[n].at.line)
    ensures Records(scene, events, n + 1, calls + [c], places + [n])
  {
    forall i | 0 <= i < n + 1 && IsAwsCall(scene, events, i) ensures i in places + [n] {
      assert i in places || i == n;
    }
  }

  lemma RecordsNoMore(scene: Scene, events: seq<Event>, n: nat, calls: seq<AwsCall>, places: seq<nat>)
    requires n < |events| && Records(scene, events, n, calls, places) && !IsAwsCall(scene, events, n)
    ensures Records(scene, events, n + 1, calls, places)
  {
  }

  lemma {:induction false} ExpectedRecords(scene: Scene, events: seq<Event>, n: nat) returns (places: seq<nat>)
    requires n <= |events|
    ensures Records(scene, events, n, Expected(scene, events, n), places)
  {
    if n == 0 {
      places := [];
    } else {
      places := ExpectedRecords(scene, events, n - 1);
      var e, before := events[n - 1], Expected(scene, events, n - 1);
      if IsAwsCall(scene, events, n - 1) {
        var c := AwsCall(Meaning(scene, events, n - 1, e.receiver.value).value, e.operation, e.at.line);
        RecordsOneMore(scene, events, n - 1, before, places, c);
        places := places + [n - 1];
        assert Expected(scene, events, n) == before + [c];
      } else {
        RecordsNoMore(scene, events, n - 1, before, places);
        assert Expected(scene, events, n) == before;
      }
    }
  }

  // ---------------------------------------------------------------------------------------------
  // The replay
  // ---------------------------------------------------------------------------------------------

  /** The state answers every name as the search does. */
  ghost predicate Agrees(scene: Scene, events: seq<Event>, i: nat, state: State)
    requires i <= |events|
  {
    forall name :: Search(scene, events, i, name) == if name in state then Some(state[name]) else None
  }

  method CollectCalls(scene: Scene, events: seq<Event>) returns (calls: seq<AwsCall>)
    ensures calls == Expected(scene, Ordering(events), |events|)
    ensures exists places :: Records(scene, Ordering(events), |events|, calls, places)
  {
    var ordered := Ordering(events);
    var state := scene.names;
    calls := [];
    for i := 0 to |ordered|
      invariant Agrees(scene, ordered, i, state)
      invariant calls == Expected(scene, ordered, i)
    {
      match ordered[i]
      case Assign(_, name, value) =>
        if '.' !in name {
          var svc := ServiceOf(Held(state, value), scene.tables, scene.cls, value);
          assert svc == Meaning(scene, ordered, i, value);
          if svc.Some? {
            state := state[name := svc.value];
          } else if !value.Constant? {
            state := state - {name};
          }
        }
      case Invoke(_, receiver, _, makesClient) =>
        if receiver.Some? && !makesClient {
          var svc := ServiceOf(Held(state, receiver.value), scene.tables, scene.cls, receiver.value);
          assert svc == Meaning(scene, ordered, i, receiver.value);
          calls := calls + Entry(svc, ordered[i]);
        }
    }
    ghost var places := ExpectedRecords(scene, ordered, |ordered|);
  }

  // ---------------------------------------------------------------------------------------------
  // What an assigned client does
  // ---------------------------------------------------------------------------------------------

  /** No event from `i` to below `j` assigns the name. */
  predicate Unassigned(events: seq<Event>, i: nat, j: nat, name: string)
    requires j <= |events|
  {
    forall k :: i <= k < j ==> !(events[k].Assign? && events[k].name == name)
  }

  lemma {:induction false} SearchUnassigned(scene: Scene, events: seq<Event>, i: nat, j: nat, name: string)
    requires i <= j <= |events| && Unassigned(events, i, j, name)
    ensures Search(scene, events, j, name) == Search(scene, events, i, name)
  {
    if i < j {
      SearchUnassigned(scene, events, i, j - 1, name);
    }
  }

  /** A call on a name is recorded under the service of the client last assigned to the name before it. */
  lemma AssignedClientIsRecorded(
      scene: Scene, events: seq<Event>, i: nat, j: nat, service: Service, calls: seq<AwsCall>, places: seq<nat>)
    requires i < j < |events| && events[i].Assign? && events[i].value == Client(service) && '.' !in events[i].name
    requires Unassigned(events, i + 1, j, events[i].name)
    requires events[j].Invoke? && events[j].receiver == Some(Name(events[i].name)) && !events[j].makesClient
    requires Records(scene, events, |events|, calls, places)
    ensures AwsCall(service, events[j].operation, events[j].at.line) in calls
  {
    SearchUnassigned(scene, events, i + 1, j, events[i].name);
    assert Meaning(scene, events, j, Name(events[i].name)) == Some(service);
    assert IsAwsCall(scene, events, j) && j in places;
    var k :| 0 <= k < |places| && places[k] == j;
    assert calls[k] == AwsCall(service, events[j].operation, events[j].at.line);
  }

  /** A call on a name that the scope does not assign before it is recorded under what the rounds found for the name. */
  lemma SettledClientIsRecorded(
      scene: Scene, events: seq<Event>, j: nat, name: string, calls: seq<AwsCall>, places: seq<nat>)
    requires j < |events| && Unassigned(events, 0, j, name) && name in scene.names
    requires events[j].Invoke? && events[j].receiver == Some(Name(name)) && !events[j].makesClient
    requires Records(scene, events, |events|, calls, places)
    ensures AwsCall(scene.names[name], events[j].operation, events[j].at.line) in calls
  {
    SearchUnassigned(scene, events, 0, j, name);
    assert IsAwsCall(scene, events, j) && j in places;
    var k :| 0 <= k < |places| && places[k] == j;
    assert calls[k] == AwsCall(scene.names[name], events[j].operation, events[j].at.line);
  }

  /** A call on a name that was last assigned something unknown is not recorded: the client it held before is forgotten. */
  lemma OverwrittenClientIsForgotten(scene: Scene, events: seq<Event>, i: nat, j: nat)
    requires i < j < |events| && events[i].Assign? && events[i].value == Unknown && '.' !in events[i].name
    requires Unassigned(events, i + 1, j, events[i].name)
    requires Dotted(scene.cls, events[i].name) !in scene.tables && Dotted(None, events[i].name) !in scene.tables
    requires events[j].Invoke? && events[j].receiver == Some(Name(events[i].name))
    ensures !IsAwsCall(scene, events, j)
  {
    SearchUnassigned(scene, events, i + 1, j, events[i].name);
  }

  lemma TwoOf(r: seq<Event>, a: Event, b: Event)
    requires multiset(r) == multiset{a, b} && a != b
    ensures r == [a, b] || r == [b, a]
  {
    assert |r| == |multiset(r)| == 2;
    assert r == [r[0], r[1]] && multiset(r) == multiset{r[0], r[1]};
    assert a in multiset(r) && b in multiset(r);
  }

  lemma TwoSorted(r: seq<Event>, a: Event, b: Event)
    requires Ordered(r, Earlier) && multiset(r) == multiset{a, b} && Before(a.at, b.at)
    ensures r == [a, b]
  {
    TwoOf(r, a, b);
    assert Earlier(a, b);
  }

  lemma BothOrders(a: Event, b: Event)
    ensures multiset([a, b]) == multiset{a, b} == multiset([b, a])
  {
  }

  lemma SortedEvents(events: seq<Event>)
    ensures Ordered(Ordering(events), Earlier) && multiset(Ordering(events)) == multiset(events)
  {
    SortedIsOrdered(events, Earlier);
    SortedKeeps(events, Earlier);
  }

  /** Two events are replayed in the order of their places, whichever was scanned first. */
  lemma TwoInOrder(a: Event, b: Event, events: seq<Event>)
    requires Before(a.at, b.at) && (events == [a, b] || events == [b, a])
    ensures Ordering(events) == [a, b]
  {
    BothOrders(a, b);
    SortedEvents(events);
    TwoSorted(Ordering(events), a, b);
  }

  lemma Increases(places: seq<nat>)
    requires forall k, l :: 0 <= k < l < |places| ==> places[k] < places[l]
    ensures |places| > 1 ==> places[0] < places[1]
  {
  }

  /** `c = boto3.client("ecs"); c.update_service()`: whatever came before, exactly this call is recorded. */
  lemma UpdateServiceIsRecorded(scene: Scene, at: Key, line: int, calls: seq<AwsCall>, places: seq<nat>)
    requires at.line < line
    requires var events := [Assign(at, "c", Client("ecs")), Invoke(Key(line, 0, 1), Some(Name("c")), "update_service", false)];
             Records(scene, Ordering(events), 2, calls, places)
    ensures calls == [AwsCall("ecs", "update_service", line)]
  {
    var a, b := Assign(at, "c", Client("ecs")), Invoke(Key(line, 0, 1), Some(Name("c")), "update_service", false);
    TwoInOrder(a, b, [a, b]);
    AssignedClientIsRecorded(scene, [a, b], 0, 1, "ecs", calls, places);
    assert forall k :: 0 <= k < |places| ==> places[k] == 1;
    Increases(places);
  }

  // ---------------------------------------------------------------------------------------------
  // What has no effect, and what is lost
  // ---------------------------------------------------------------------------------------------

  predicate Idle(e: Event) {
    e.Assign? && (e.value.Constant? || '.' in e.name)
  }

  function Active(events: seq<Event>): seq<Event> {
    if events == [] then []
    else Active(events[..|events| - 1]) + if Idle(events[|events| - 1]) then [] else [events[|events| - 1]]
  }

  lemma {:induction false} SearchPrefix(scene: Scene, a: seq<Event>, b: seq<Event>, i: nat, name: string)
    requires i <= |a| && i <= |b| && a[..i] == b[..i]
    ensures Search(scene, a, i, name) == Search(scene, b, i, name)
    decreases i
  {
    if i > 0 {
      assert a[i - 1] == a[..i][i - 1] == b[i - 1] && a[..i - 1] == a[..i][..i - 1] == b[..i - 1];
      SearchPrefix(scene, a, b, i - 1, name);
      var e := a[i - 1];
      if e.Assign? && e.value.Name? {
        SearchPrefix(scene, a, b, i - 1, e.value.path);
      }
    }
  }

  /** `x = None` and assignments to dotted names change nothing that any later search finds. */
  lemma {:induction false} IdleAssignmentsDoNotMatter(scene: Scene, events: seq<Event>, name: string)
    ensures Search(scene, events, |events|, name) == Search(scene, Active(events), |Active(events)|, name)
    decreases |events|
  {
    if events != [] {
      var n := |events| - 1;
      var front, e := events[..n], events[n];
      IdleAssignmentsDoNotMatter(scene, front, name);
      SearchPrefix(scene, events, front, n, name);
      if Idle(e) {
        assert Active(events) == Active(front);
      } else {
        var kept := Active(front);
        assert Active(events) == kept + [e] && (kept + [e])[..|kept|] == kept;
        SearchPrefix(scene, Active(events), kept, |kept|, name);
        if e.Assign? && e.value.Name? {
          IdleAssignmentsDoNotMatter(scene, front, e.value.path);
          SearchPrefix(scene, events, front, n, e.value.path);
          SearchPrefix(scene, Active(events), kept, |kept|, e.value.path);
        }
      }
    }
  }

  /**
   `c = c.operation()`, `c = wrap(c.operation())`, `c = d = c.operation()`: the assignment is replayed first, so what
   `c` held before plays no part in the call, or in any other call up to the next assignment of `c`, unless the
   value is a constant.  The call is recorded if the value, or something other than the client `c` held, names a service.
   */
  lemma SelfRebindingIsLost(scene: Scene, events: seq<Event>, i: nat, j: nat)
    requires i < j < |events| && events[i].Assign? && '.' !in events[i].name && Unassigned(events, i + 1, j, events[i].name)
    requires events[j].Invoke? && events[j].receiver == Some(Name(events[i].name))
    ensures var n := events[i].name;
            var made := Meaning(scene, events, i, events[i].value);
            Meaning(scene, events, j, Name(n)) ==
            if made.Some? then made
            else if events[i].value.Constant? then ServiceOf(Search(scene, events, i, n), scene.tables, scene.cls, Name(n))
            else ServiceOf(None, scene.tables, scene.cls, Name(n))
  {
    SearchUnassigned(scene, events, i + 1, j, events[i].name);
  }

  /** One place of the source does not stand behind another. */
  predicate NotBehind(a: Key, b: Key) {
    a.line < b.line || (a.line == b.line && a.column <= b.column)
  }

  /** Whatever the order of the scan, events are replayed by line, then column, and assignments first at one place. */
  lemma SourceOrder(events: seq<Event>, i: nat, j: nat)
    requires i < j < |Ordering(events)|
    ensures var a, b := Ordering(events)[i].at, Ordering(events)[j].at;
            NotBehind(a, b) && (a.line == b.line && a.column == b.column ==> a.kind <= b.kind)
  {
    SortedEvents(events);
    assert !Earlier(Ordering(events)[j], Ordering(events)[i]);
  }

  /** An assignment is replayed before a call exactly if its value does not start after the call. */
  lemma AssignmentsComeFirst(events: seq<Event>, i: nat, j: nat)
    requires i < |Ordering(events)| && j < |Ordering(events)|
    requires var a, b := Ordering(events)[i], Ordering(events)[j];
             a.Assign? && a.at.kind == 0 && b.Invoke? && b.at.kind == 1
    ensures i < j <==> NotBehind(Ordering(events)[i].at, Ordering(events)[j].at)
  {
    assert i != j;
    if i < j {
      SourceOrder(events, i, j);
    } else {
      SourceOrder(events, j, i);
    }
  }
}
