/**
 The origin lock: a load-balancer listener that passes only requests carrying a secret header value.

 Locking, widening and unlocking are sequences of remote calls.  The functions ending in `States` give the
 listener after each mutating call; the methods of `Elb` perform the calls, any of which can fail.
 */
module OriginLock {
  import opened Wrappers

  const FIRST_PRIORITY := 10
  const LAST_PRIORITY := 50000
  const MAX_VALUES := 5
  const DENY := FixedResponse(403)

  datatype Action = Forward(target: string) | FixedResponse(status: nat) | Other(id: nat)

  /** `values` are the accepted secret-header values, `needs` whatever else the rule's conditions ask of a request. */
  datatype Rule = Rule(arn: nat, priority: nat, values: Option<seq<string>>, needs: set<string>, action: Action)

  datatype Listener = Listener(rules: seq<Rule>, default: Action)

  datatype Request = Request(header: Option<string>, traits: set<string>)

  datatype Error = EmptySecret | NoFreePriority | RemoteFailure

  // ---------------------------------------------------------------------------------------------
  // Routing
  // ---------------------------------------------------------------------------------------------

  predicate Carries(req: Request, values: seq<string>) {
    req.header.Some? && req.header.value in values
  }

  predicate Matches(r: Rule, req: Request) {
    (r.values.Some? ==> Carries(req, r.values.value)) && r.needs <= req.traits
  }

  /** The matching rule with the smallest priority number. */
  function Best(rules: seq<Rule>, req: Request): (b: Option<Rule>)
    ensures b.None? <==> forall r :: r in rules ==> !Matches(r, req)
    ensures b.Some? ==> b.value in rules && Matches(b.value, req)
    ensures b.Some? ==> forall r :: r in rules && Matches(r, req) ==> b.value.priority <= r.priority
  {
    if rules == [] then None
    else
      var rest := Best(rules[1..], req);
      assert forall r :: r in rules ==> r == rules[0] || r in rules[1..];
      if Matches(rules[0], req) && (rest.None? || rules[0].priority <= rest.value.priority) then Some(rules[0]) else rest
  }

  function Route(l: Listener, req: Request): Action {
    match Best(l.rules, req)
    case Some(r) => r.action
    case None => l.default
  }

  /** A listener never holds two rules of one priority or one name. */
  predicate Valid(l: Listener) {
    forall i, j :: 0 <= i < j < |l.rules| ==>
      l.rules[i].priority != l.rules[j].priority && l.rules[i].arn != l.rules[j].arn
  }

  // ---------------------------------------------------------------------------------------------
  // The code's computations
  // ---------------------------------------------------------------------------------------------

  /** Position of the first rule that has the secret-header condition. */
  function HeaderIndex(rules: seq<Rule>): (i: Option<nat>)
    ensures i.None? <==> forall r :: r in rules ==> r.values.None?
    ensures i.Some? ==> i.value < |rules| && rules[i.value].values.Some?
    ensures i.Some? ==> forall j :: 0 <= j < i.value ==> rules[j].values.None?
  {
    if rules == [] then None
    else if rules[0].values.Some? then Some(0)
    else
      match HeaderIndex(rules[1..])
      case None => assert forall r :: r in rules ==> r == rules[0] || r in rules[1..]; None
      case Some(i) => assert rules[1..][i] in rules; Some(i + 1)
  }

  function Dedupe(values: seq<string>): (d: seq<string>)
    ensures forall v :: v in d <==> v in values
    ensures forall i, j :: 0 <= i < j < |d| ==> d[i] != d[j]
    ensures values != [] ==> d != [] && d[0] == values[0]
  {
    if values == [] then []
    else
      var d := Dedupe(values[..|values| - 1]);
      var last := values[|values| - 1];
      assert values == values[..|values| - 1] + [last];
      if last in d then d else d + [last]
  }

  /** The first place of a value. */
  function FirstIndex(values: seq<string>, v: string): (i: nat)
    requires v in values
    ensures i < |values| && values[i] == v && forall j :: 0 <= j < i ==> values[j] != v
  {
    if values[0] == v then 0 else FirstIndex(values[1..], v) + 1
  }

  lemma FirstIndexInFront(front: seq<string>, rest: seq<string>, v: string)
    requires v in front
    ensures v in front + rest && FirstIndex(front + rest, v) == FirstIndex(front, v)
  {
    var i := FirstIndex(front, v);
    assert (front + rest)[i] == v && forall j :: 0 <= j < i ==> (front + rest)[j] == front[j];
  }

  /** The values keep the order of their first occurrences. */
  lemma {:induction false} DedupeInOrder(values: seq<string>, i: nat, j: nat)
    requires i < j < |Dedupe(values)|
    ensures Dedupe(values)[i] in values && Dedupe(values)[j] in values
    ensures FirstIndex(values, Dedupe(values)[i]) < FirstIndex(values, Dedupe(values)[j])
  {
    var front, last := values[..|values| - 1], values[|values| - 1];
    assert values == front + [last];
    var d := Dedupe(front);
    FirstIndexInFront(front, [last], Dedupe(values)[i]);
    if j < |d| {
      DedupeInOrder(front, i, j);
      FirstIndexInFront(front, [last], Dedupe(values)[j]);
    } else {
      assert Dedupe(values)[j] == last && last !in front;
    }
  }

  function Cut(values: seq<string>): seq<string> {
    if |values| <= MAX_VALUES then values else values[..MAX_VALUES]
  }

  function LockValues(secret: string, also: seq<string>): seq<string> {
    Cut(Dedupe([secret] + also))
  }

  predicate Used(rules: seq<Rule>, p: nat) {
    exists r :: r in rules && r.priority == p
  }

  function FreeFrom(rules: seq<Rule>, p: nat): (free: Option<nat>)
    ensures free.Some? ==> p <= free.value <= LAST_PRIORITY && !Used(rules, free.value)
    ensures free.Some? ==> forall q :: p <= q < free.value ==> Used(rules, q)
    ensures free.None? ==> forall q :: p <= q <= LAST_PRIORITY ==> Used(rules, q)
    decreases LAST_PRIORITY + 1 - p
  {
    if p > LAST_PRIORITY then None else if Used(rules, p) then FreeFrom(rules, p + 1) else Some(p)
  }

  function FreePriority(rules: seq<Rule>): Option<nat> {
    FreeFrom(rules, FIRST_PRIORITY)
  }

  predicate IsLocked(l: Listener) {
    l.default.FixedResponse?
  }

  function Last(l: Listener, states: seq<Listener>): Listener {
    if states == [] then l else states[|states| - 1]
  }

  // ---------------------------------------------------------------------------------------------
  // The listener after each mutating call
  // ---------------------------------------------------------------------------------------------

  /** `arn` is the name the service gives to a rule created by the call. */
  function LockStates(l: Listener, tg: string, secret: string, also: seq<string>, arn: nat): Result<seq<Listener>, Error> {
    if secret == "" then Err(EmptySecret)
    else
      var values := LockValues(secret, also);
      match HeaderIndex(l.rules)
      case None =>
        (match FreePriority(l.rules)
         case None => Err(NoFreePriority)
         case Some(p) =>
           var created := l.(rules := l.rules + [Rule(arn, p, Some(values), {}, Forward(tg))]);
           Ok([created, created.(default := DENY)]))
      case Some(i) =>
        var rule := l.rules[i];
        if rule.values.value != values || rule.action != Forward(tg) then
          var modified := l.(rules := l.rules[i := rule.(values := Some(values), needs := {}, action := Forward(tg))]);
          Ok([modified, modified.(default := DENY)])
        else
          Ok([l.(default := DENY)])
  }

  function HeaderValues(l: Listener): seq<string> {
    match HeaderIndex(l.rules)
    case None => []
    case Some(i) => l.rules[i].values.value
  }

  function WidenStates(l: Listener, tg: string, secret: string, arn: nat): Result<seq<Listener>, Error> {
    if !IsLocked(l) || secret in HeaderValues(l) then Ok([])
    else LockStates(l, tg, secret, HeaderValues(l), arn)
  }

  function UnlockStates(l: Listener, tg: string): seq<Listener> {
    var forwarding := l.(default := Forward(tg));
    (if l.default != Forward(tg) then [forwarding] else []) +
    (match HeaderIndex(l.rules)
     case None => []
     case Some(i) => [forwarding.(rules := l.rules[..i] + l.rules[i + 1..])])
  }

  /** The 443 listener after each call that brings it to the behaviour of the port-80 listener `http`. */
  function HttpsStates(http: Listener, https: Option<Listener>, tg: string, arn: nat): Result<seq<Listener>, Error> {
    var fallback := if IsLocked(http) then DENY else Forward(tg);
    var current := if https.Some? then https.value else Listener([], fallback);
    var made := if https.Some? then [] else [current];
    var values := HeaderValues(http);
    if IsLocked(http) then
      if values == [] then Ok(made)
      else
        match LockStates(current, tg, values[0], values[1..], arn)
        case Err(e) => Err(e)
        case Ok(states) => Ok(made + states)
    else if current.default != Forward(tg) && !IsLocked(current) then Ok(made + [current.(default := fallback)])
    else Ok(made)
  }

  // ---------------------------------------------------------------------------------------------
  // Values
  // ---------------------------------------------------------------------------------------------

  lemma SecretSurvivesCut(secret: string, also: seq<string>)
    ensures var values := LockValues(secret, also);
            && values != [] && values[0] == secret && |values| <= MAX_VALUES
            && (forall v :: v in values ==> v == secret || v in also)
            && (|Dedupe([secret] + also)| <= MAX_VALUES ==> forall v :: v in also ==> v in values)
  {
    var all := [secret] + also;
    assert forall v :: v in all <==> v == secret || v in also;
    assert forall v :: v in LockValues(secret, also) ==> v in Dedupe(all);
  }

  lemma {:induction false} DedupeKeepsDistinct(values: seq<string>)
    requires forall i, j :: 0 <= i < j < |values| ==> values[i] != values[j]
    ensures Dedupe(values) == values
  {
    if values != [] {
      var n := |values| - 1;
      DedupeKeepsDistinct(values[..n]);
      assert values == values[..n] + [values[n]];
    }
  }

  /** Widening a list of distinct values keeps an old value exactly when it is among the first four. */
  lemma WidenKeepsFirstFour(secret: string, before: seq<string>, k: nat)
    requires secret !in before && k < |before| && forall i, j :: 0 <= i < j < |before| ==> before[i] != before[j]
    ensures before[k] in LockValues(secret, before) <==> k < MAX_VALUES - 1
  {
    var all := [secret] + before;
    DedupeKeepsDistinct(all);
    assert all[k + 1] == before[k];
    if k + 1 < MAX_VALUES {
      assert Cut(all)[k + 1] == before[k];
    }
  }

  function Distinct(values: seq<string>): set<string> {
    set v | v in values
  }

  lemma FirstAtEnd(front: seq<string>, v: string)
    requires v !in front
    ensures FirstIndex(front + [v], v) == |front|
  {
    assert (front + [v])[|front|] == v;
    assert forall j :: 0 <= j < |front| ==> (front + [v])[j] in front;
  }

  lemma {:induction false} DedupePlace(values: seq<string>, i: nat)
    requires i < |Dedupe(values)|
    ensures Dedupe(values)[i] in values
    ensures Distinct(values[..FirstIndex(values, Dedupe(values)[i])]) == Distinct(Dedupe(values)[..i])
  {
    var front, last := values[..|values| - 1], values[|values| - 1];
    assert values == front + [last];
    var d, v := Dedupe(front), Dedupe(values)[i];
    if i < |d| {
      DedupePlace(front, i);
      FirstIndexInFront(front, [last], v);
      assert values[..FirstIndex(values, v)] == front[..FirstIndex(front, v)];
      assert Dedupe(values)[..i] == d[..i];
    } else {
      assert v == last && last !in front;
      FirstAtEnd(front, last);
      assert values[..|front|] == front && Dedupe(values)[..i] == d;
    }
  }

  lemma {:induction false} DistinctSize(d: seq<string>)
    requires forall i, j :: 0 <= i < j < |d| ==> d[i] != d[j]
    ensures |Distinct(d)| == |d|
  {
    if d != [] {
      var front, last := d[..|d| - 1], d[|d| - 1];
      DistinctSize(front);
      assert Distinct(d) == Distinct(front) + {last};
      assert last !in front;
    }
  }

  /** A value is kept exactly if fewer than five other values come before it. */
  lemma KeptExactly(secret: string, also: seq<string>, v: string)
    ensures var all := [secret] + also;
            v in LockValues(secret, also) <==> v in all && |Distinct(all[..FirstIndex(all, v)])| < 5
  {
    var all := [secret] + also;
    var d := Dedupe(all);
    if v in all {
      var i :| 0 <= i < |d| && d[i] == v;
      DedupePlace(all, i);
      DistinctSize(d[..i]);
      if i < MAX_VALUES {
        assert Cut(d)[i] == v;
      }
    }
  }

  // ---------------------------------------------------------------------------------------------
  // Every intermediate state
  // ---------------------------------------------------------------------------------------------

  /** The request is never refused on the way if it is accepted at both ends. */
  ghost predicate NoGap(l: Listener, states: seq<Listener>) {
    forall req, k :: 0 <= k < |states| && Route(l, req).Forward? && Route(Last(l, states), req).Forward? ==>
      Route(states[k], req).Forward?
  }

  lemma BestOfAppended(rules: seq<Rule>, r: Rule, req: Request)
    requires !Used(rules, r.priority)
    ensures Best(rules + [r], req) == Best(rules, req) || (Best(rules + [r], req) == Some(r) && Matches(r, req))
  {
    if rules == [] {
      assert rules + [r] == [r];
    } else {
      assert (rules + [r])[1..] == rules[1..] + [r];
      assert !Used(rules[1..], r.priority) by {
        assert forall q :: q in rules[1..] ==> q in rules;
      }
      BestOfAppended(rules[1..], r, req);
    }
  }

  lemma LockHasNoGap(l: Listener, tg: string, secret: string, also: seq<string>, arn: nat)
    requires LockStates(l, tg, secret, also, arn).Ok?
    ensures NoGap(l, LockStates(l, tg, secret, also, arn).value)
  {
    var states := LockStates(l, tg, secret, also, arn).value;
    forall req, k | 0 <= k < |states| && Route(l, req).Forward? && Route(Last(l, states), req).Forward?
      ensures Route(states[k], req).Forward?
    {
      if |states| == 2 && k == 0 {
        assert states[1].rules == states[0].rules && states[1].default == DENY;
      }
    }
  }

  lemma WidenHasNoGap(l: Listener, tg: string, secret: string, arn: nat)
    requires WidenStates(l, tg, secret, arn).Ok?
    ensures NoGap(l, WidenStates(l, tg, secret, arn).value)
  {
    if IsLocked(l) && secret !in HeaderValues(l) {
      LockHasNoGap(l, tg, secret, HeaderValues(l), arn);
    }
  }

  lemma UnlockHasNoGap(l: Listener, tg: string)
    ensures NoGap(l, UnlockStates(l, tg))
  {
    var states := UnlockStates(l, tg);
    forall req, k | 0 <= k < |states| && Route(l, req).Forward? && Route(Last(l, states), req).Forward?
      ensures Route(states[k], req).Forward?
    {
      if |states| == 2 && k == 0 {
        assert states[0].rules == l.rules && states[0].default == Forward(tg);
      }
    }
  }

  // ---------------------------------------------------------------------------------------------
  // After the lock
  // ---------------------------------------------------------------------------------------------

  /** No rule but the one at `i` matches the request. */
  predicate OnlyRule(l: Listener, i: nat, req: Request) {
    forall j :: 0 <= j < |l.rules| && j != i ==> !Matches(l.rules[j], req)
  }

  lemma RouteThroughOnlyRule(l: Listener, i: nat, req: Request)
    requires i < |l.rules| && OnlyRule(l, i, req)
    ensures Route(l, req) == if Matches(l.rules[i], req) then l.rules[i].action else l.default
  {
  }

  lemma HeaderIndexIs(rules: seq<Rule>, i: nat)
    requires i < |rules| && rules[i].values.Some? && forall j :: 0 <= j < i ==> rules[j].values.None?
    ensures HeaderIndex(rules) == Some(i)
  {
    assert rules[i] in rules;
  }

  /** The rule at `i` has these values and this target already, and an extra condition. */
  predicate AsksForMore(l: Listener, i: nat, tg: string, values: seq<string>) {
    i < |l.rules| && l.rules[i].values == Some(values) && l.rules[i].action == Forward(tg) && l.rules[i].needs != {}
  }

  /** The lock's rule after the calls, and when it still asks for more than a listed value. */
  lemma LockedRule(l: Listener, tg: string, secret: string, also: seq<string>, arn: nat) returns (i: nat)
    requires LockStates(l, tg, secret, also, arn).Ok?
    ensures var f := Last(l, LockStates(l, tg, secret, also, arn).value);
            && HeaderIndex(f.rules) == Some(i) && f.default == DENY
            && (if HeaderIndex(l.rules).Some? then i == HeaderIndex(l.rules).value else i == |l.rules|)
            && f.rules[i].values == Some(LockValues(secret, also)) && f.rules[i].action == Forward(tg)
            && (f.rules[i].needs != {} <==> AsksForMore(l, i, tg, LockValues(secret, also)))
  {
    var f := Last(l, LockStates(l, tg, secret, also, arn).value);
    i := if HeaderIndex(l.rules).Some? then HeaderIndex(l.rules).value else |l.rules|;
    assert forall j :: 0 <= j < i ==> f.rules[j] == l.rules[j];
    HeaderIndexIs(f.rules, i);
  }

  /**
   Requests that meet no user rule reach the app exactly when they carry a listed value, provided the lock's
   rule asks nothing else of them.  It asks something else exactly if the listener had it before with the wanted
   values and target and an extra condition: then the code leaves the rule as it is.
   */
  lemma LockedTraffic(l: Listener, tg: string, secret: string, also: seq<string>, arn: nat, req: Request) returns (i: nat)
    requires LockStates(l, tg, secret, also, arn).Ok?
    ensures var f := Last(l, LockStates(l, tg, secret, also, arn).value);
            && HeaderIndex(f.rules) == Some(i)
            && (OnlyRule(f, i, req) ==>
                  Route(f, req) ==
                  if Carries(req, LockValues(secret, also)) && f.rules[i].needs <= req.traits then Forward(tg) else DENY)
            && (f.rules[i].needs != {} <==> AsksForMore(l, i, tg, LockValues(secret, also)))
  {
    i := LockedRule(l, tg, secret, also, arn);
    var f := Last(l, LockStates(l, tg, secret, also, arn).value);
    if OnlyRule(f, i, req) {
      RouteThroughOnlyRule(f, i, req);
    }
  }

  /**
   What a lock leaves: every other rule as it was; the header rule with its name and priority, or a new rule behind
   all others with the smallest priority of 10 to 50000 that no rule uses.
   */
  lemma LockedRules(l: Listener, tg: string, secret: string, also: seq<string>, arn: nat)
    requires LockStates(l, tg, secret, also, arn).Ok?
    ensures var f := Last(l, LockStates(l, tg, secret, also, arn).value);
            match HeaderIndex(l.rules)
            case Some(i) =>
              && |f.rules| == |l.rules| && (forall j :: 0 <= j < |l.rules| && j != i ==> f.rules[j] == l.rules[j])
              && f.rules[i].arn == l.rules[i].arn && f.rules[i].priority == l.rules[i].priority
            case None =>
              && |f.rules| == |l.rules| + 1 && f.rules[..|l.rules|] == l.rules && f.rules[|l.rules|].arn == arn
              && var p := f.rules[|l.rules|].priority;
                 10 <= p <= 50000 && !Used(l.rules, p) && forall q :: 10 <= q < p ==> Used(l.rules, q)
  {
  }

  /** A lock fails of itself only for an empty secret, or if a rule is to be added and every priority is used. */
  lemma LockFailsExactly(l: Listener, tg: string, secret: string, also: seq<string>, arn: nat)
    ensures LockStates(l, tg, secret, also, arn).Err? <==>
            secret == "" || ((forall r :: r in l.rules ==> r.values.None?) && forall p :: 10 <= p <= 50000 ==> Used(l.rules, p))
  {
    var p := FreePriority(l.rules);
    if p.Some? {
      assert !Used(l.rules, p.value);
    }
  }

  /**
   Widening does nothing exactly if the listener has no fixed response or accepts the secret already; else the new
   list holds the secret first and behind it the old values, as many as are kept.
   */
  lemma WidenExactly(l: Listener, tg: string, secret: string, arn: nat)
    requires WidenStates(l, tg, secret, arn).Ok?
    ensures var states := WidenStates(l, tg, secret, arn).value;
            && (states == [] <==> !l.default.FixedResponse? || secret in HeaderValues(l))
            && (states != [] ==> HeaderValues(Last(l, states)) == LockValues(secret, HeaderValues(l)))
  {
    if IsLocked(l) && secret !in HeaderValues(l) {
      var i := LockedRule(l, tg, secret, HeaderValues(l), arn);
    }
  }

  /** Unlocking forwards by default and takes exactly the first header rule away; it makes no call if that is so already. */
  lemma UnlockedTraffic(l: Listener, tg: string)
    ensures var f := Last(l, UnlockStates(l, tg));
            && f.default == Forward(tg)
            && (UnlockStates(l, tg) == [] <==> l.default == Forward(tg) && forall r :: r in l.rules ==> r.values.None?)
            && match HeaderIndex(l.rules)
               case None => f.rules == l.rules
               case Some(i) =>
                 && |f.rules| == |l.rules| - 1 && (forall j :: 0 <= j < i ==> f.rules[j] == l.rules[j])
                 && forall j :: i <= j < |f.rules| ==> f.rules[j] == l.rules[j + 1]
  {
  }

  lemma LockKeepsValid(l: Listener, tg: string, secret: string, also: seq<string>, arn: nat, k: nat)
    requires Valid(l) && LockStates(l, tg, secret, also, arn).Ok? && k < |LockStates(l, tg, secret, also, arn).value|
    requires forall r :: r in l.rules ==> r.arn != arn
    ensures Valid(LockStates(l, tg, secret, also, arn).value[k])
  {
  }

  // ---------------------------------------------------------------------------------------------
  // Lock, then unlock
  // ---------------------------------------------------------------------------------------------

  function UserRules(rules: seq<Rule>): seq<Rule> {
    if rules == [] then []
    else (if rules[0].values.None? then [rules[0]] else []) + UserRules(rules[1..])
  }

  lemma {:induction false} UserRulesAppend(a: seq<Rule>, b: seq<Rule>)
    ensures UserRules(a + b) == UserRules(a) + UserRules(b)
  {
    if a == [] {
      assert a + b == b;
    } else {
      assert (a + b)[1..] == a[1..] + b;
      UserRulesAppend(a[1..], b);
    }
  }

  lemma UserRulesAround(rules: seq<Rule>, i: nat, r: Rule)
    requires i < |rules| && rules[i].values.Some? && r.values.Some?
    ensures UserRules(rules[i := r]) == UserRules(rules) == UserRules(rules[..i] + rules[i + 1..])
  {
    assert rules == rules[..i] + ([rules[i]] + rules[i + 1..]);
    assert rules[i := r] == rules[..i] + ([r] + rules[i + 1..]);
    UserRulesAppend(rules[..i], [rules[i]] + rules[i + 1..]);
    UserRulesAppend(rules[..i], [r] + rules[i + 1..]);
    UserRulesAppend(rules[..i], rules[i + 1..]);
    assert ([rules[i]] + rules[i + 1..])[1..] == rules[i + 1..] == ([r] + rules[i + 1..])[1..];
  }

  lemma UserRulesUntouched(l: Listener, tg: string, secret: string, also: seq<string>, arn: nat)
    ensures LockStates(l, tg, secret, also, arn).Ok? ==>
              forall s :: s in LockStates(l, tg, secret, also, arn).value ==> UserRules(s.rules) == UserRules(l.rules)
    ensures forall s :: s in UnlockStates(l, tg) ==> UserRules(s.rules) == UserRules(l.rules)
  {
    match HeaderIndex(l.rules) {
      case None =>
        var p := FreePriority(l.rules);
        if p.Some? {
          UserRulesAppend(l.rules, [Rule(arn, p.value, Some(LockValues(secret, also)), {}, Forward(tg))]);
        }
      case Some(i) =>
        UserRulesAround(l.rules, i, l.rules[i].(values := Some(LockValues(secret, also)), needs := {}, action := Forward(tg)));
    }
  }

  /** Locking and unlocking gives the old listener back exactly when it forwarded by default and had no header rule. */
  lemma LockThenUnlock(l: Listener, tg: string, secret: string, also: seq<string>, arn: nat)
    requires LockStates(l, tg, secret, also, arn).Ok?
    ensures var f := Last(l, LockStates(l, tg, secret, also, arn).value);
            Last(f, UnlockStates(f, tg)) == l <==> l.default == Forward(tg) && HeaderIndex(l.rules).None?
  {
    var f := Last(l, LockStates(l, tg, secret, also, arn).value);
    var i := LockedRule(l, tg, secret, also, arn);
    var u := Last(f, UnlockStates(f, tg));
    assert u == Listener(f.rules[..i] + f.rules[i + 1..], Forward(tg));
    if HeaderIndex(l.rules).None? {
      assert u.rules == l.rules;
    } else {
      assert |u.rules| == |l.rules| - 1;
    }
  }

  // ---------------------------------------------------------------------------------------------
  // The 443 listener
  // ---------------------------------------------------------------------------------------------

  /** A new 443 listener made while port 80 is locked forwards no request without a listed value, at any moment. */
  lemma NewHttpsIsNeverOpen(http: Listener, tg: string, arn: nat, req: Request, k: nat)
    requires IsLocked(http) && HttpsStates(http, None, tg, arn).Ok? && k < |HttpsStates(http, None, tg, arn).value|
    requires Route(HttpsStates(http, None, tg, arn).value[k], req).Forward?
    ensures Carries(req, HeaderValues(http))
  {
    var values := HeaderValues(http);
    var s := HttpsStates(http, None, tg, arn).value[k];
    if values != [] {
      SecretSurvivesCut(values[0], values[1..]);
      assert [values[0]] + values[1..] == values;
    }
    assert forall r :: r in s.rules ==> r.values.Some? && forall v :: v in r.values.value ==> v in values;
  }

  /** The values of port 80 that a 443 listener accepts: those before which fewer than five others come. */
  predicate Accepted(http: Listener, v: string) {
    v in HeaderValues(http) && |Distinct(HeaderValues(http)[..FirstIndex(HeaderValues(http), v)])| < 5
  }

  lemma AcceptedIsKept(http: Listener, v: string)
    requires HeaderValues(http) != []
    ensures Accepted(http, v) <==> v in LockValues(HeaderValues(http)[0], HeaderValues(http)[1..])
  {
    var values := HeaderValues(http);
    assert [values[0]] + values[1..] == values;
    KeptExactly(values[0], values[1..], v);
  }

  /** The only rule of a locked new listener lists the accepted values. */
  lemma OneRuleRoutes(values: seq<string>, arn: nat, p: nat, tg: string, req: Request)
    ensures Route(Listener([Rule(arn, p, Some(values), {}, Forward(tg))], DENY), req) ==
            if Carries(req, values) then Forward(tg) else FixedResponse(403)
  {
    var r := Rule(arn, p, Some(values), {}, Forward(tg));
    assert Matches(r, req) <==> Carries(req, values);
    assert Best([r][1..], req) == None;
  }

  /**
   A new 443 listener sends every request to the app if port 80 is open.  If port 80 is locked, it sends there exactly
   the requests with an accepted value of port 80 and answers all others with 403.
   */
  lemma NewHttpsTraffic(http: Listener, tg: string, arn: nat, req: Request)
    requires HttpsStates(http, None, tg, arn).Ok?
    ensures var states := HttpsStates(http, None, tg, arn).value;
            && states != []
            && Route(states[|states| - 1], req) ==
               if !http.default.FixedResponse? || (req.header.Some? && Accepted(http, req.header.value)) then Forward(tg)
               else FixedResponse(403)
  {
    var states, values := HttpsStates(http, None, tg, arn).value, HeaderValues(http);
    var f := states[|states| - 1];
    if IsLocked(http) && values != [] {
      if req.header.Some? {
        AcceptedIsKept(http, req.header.value);
      }
      assert f == Listener([Rule(arn, FIRST_PRIORITY, Some(LockValues(values[0], values[1..])), {}, Forward(tg))], DENY);
      OneRuleRoutes(LockValues(values[0], values[1..]), arn, FIRST_PRIORITY, tg, req);
    } else {
      assert f.rules == [];
    }
  }

  /**
   An existing 443 listener gets the default 403 if port 80 is locked with some value, keeps its default if port 80 is
   locked with none or if it has a fixed response itself, and forwards by default in all other cases.
   */
  lemma OldHttpsDefault(http: Listener, l: Listener, tg: string, arn: nat)
    requires HttpsStates(http, Some(l), tg, arn).Ok?
    ensures var f := Last(l, HttpsStates(http, Some(l), tg, arn).value);
            && f.default == (if http.default.FixedResponse? then if HeaderValues(http) == [] then l.default else FixedResponse(403)
                             else if l.default.FixedResponse? then l.default else Forward(tg))
            && (!http.default.FixedResponse? || HeaderValues(http) == [] ==> f.rules == l.rules)
  {
  }

  /** Locked with some value, its header rule lists the accepted values of port 80 and sends to the app. */
  lemma OldHttpsTraffic(http: Listener, l: Listener, tg: string, arn: nat, req: Request) returns (i: nat)
    requires HttpsStates(http, Some(l), tg, arn).Ok? && http.default.FixedResponse? && HeaderValues(http) != []
    ensures var f := Last(l, HttpsStates(http, Some(l), tg, arn).value);
            && HeaderIndex(f.rules) == Some(i)
            && (OnlyRule(f, i, req) ==>
                  Route(f, req) ==
                  if req.header.Some? && Accepted(http, req.header.value) && f.rules[i].needs <= req.traits then Forward(tg)
                  else FixedResponse(403))
  {
    var values := HeaderValues(http);
    i := LockedTraffic(l, tg, values[0], values[1..], arn, req);
    if req.header.Some? {
      AcceptedIsKept(http, req.header.value);
    }
  }

  /** It fails exactly if port 80 is locked and lists an empty value first, or if the rule to add finds no priority. */
  lemma HttpsFailsExactly(http: Listener, https: Option<Listener>, tg: string, arn: nat)
    ensures HttpsStates(http, https, tg, arn).Err? <==>
            && http.default.FixedResponse? && HeaderValues(http) != []
            && (HeaderValues(http)[0] == "" ||
                (https.Some? && (forall r :: r in https.value.rules ==> r.values.None?)
                 && forall p :: 10 <= p <= 50000 ==> Used(https.value.rules, p)))
  {
    if IsLocked(http) && HeaderValues(http) != [] {
      var l := if https.Some? then https.value else Listener([], DENY);
      LockFailsExactly(l, tg, HeaderValues(http)[0], HeaderValues(http)[1..], arn);
      assert https.None? ==> !Used(l.rules, 10);
    }
  }

  // ---------------------------------------------------------------------------------------------
  // The remote calls
  // ---------------------------------------------------------------------------------------------

  class Elb {
    var listener: Listener
    /** Calls that still succeed; the one after them fails. */
    var budget: nat
    ghost var history: seq<Listener>

    constructor (l: Listener, n: nat)
      ensures listener == l && budget == n && history == []
    {
      listener, budget, history := l, n, [];
    }

    method Call() returns (ok: bool)
      modifies this`budget
      ensures ok <==> old(budget) > 0
    {
      ok := budget > 0;
      if ok {
        budget := budget - 1;
      }
    }

    /** One mutating call: it takes effect as a whole or not at all. */
    method Change(l: Listener) returns (ok: bool)
      modifies this
      ensures ok ==> listener == l && history == old(history) + [l]
      ensures !ok ==> listener == old(listener) && history == old(history)
    {
      ok := Call();
      if ok {
        listener := l;
        history := history + [l];
      }
    }

    /** The first `k` of `states` were passed through, all of them exactly if the call succeeded. */
    twostate predicate Passed(states: seq<Listener>, k: nat, ok: bool)
      reads this
    {
      && k <= |states| && history == old(history) + states[..k]
      && listener == Last(old(listener), states[..k]) && (ok ==> k == |states|) && (k == |states| && k > 0 ==> ok)
    }

    method LockOrigin(tg: string, secret: string, also: seq<string>, arn: nat) returns (error: Option<Error>, ghost k: nat)
      modifies this
      ensures var plan := LockStates(old(listener), tg, secret, also, arn);
              match plan
              case Err(e) =>
                error.Some? && error.value in {e, RemoteFailure} && listener == old(listener) && history == old(history)
              case Ok(states) => Passed(states, k, error.None?) && error in {None, Some(RemoteFailure)}
    {
      k := 0;
      if secret == "" {
        return Some(EmptySecret), 0;
      }
      var values := LockValues(secret, also);
      var ok := Call();
      if !ok {
        return Some(RemoteFailure), 0;
      }
      var rules := listener.rules;
      match HeaderIndex(rules) {
        case None =>
          var p := FreePriority(rules);
          if p.None? {
            return Some(NoFreePriority), 0;
          }
          ok := Change(listener.(rules := rules + [Rule(arn, p.value, Some(values), {}, Forward(tg))]));
          if !ok {
            return Some(RemoteFailure), 0;
          }
          k := 1;
        case Some(i) =>
          if rules[i].values.value != values || rules[i].action != Forward(tg) {
            ok := Change(listener.(rules := rules[i := rules[i].(values := Some(values), needs := {}, action := Forward(tg))]));
            if !ok {
              return Some(RemoteFailure), 0;
            }
            k := 1;
          }
      }
      ok := Change(listener.(default := DENY));
      if !ok {
        return Some(RemoteFailure), k;
      }
      return None, k + 1;
    }

    /** The result says whether the listener was locked. */
    method WidenOriginLock(tg: string, secret: string, arn: nat) returns (locked: Result<bool, Error>, ghost k: nat)
      modifies this
      ensures match WidenStates(old(listener), tg, secret, arn)
              case Err(_) => locked.Err? && listener == old(listener) && history == old(history)
              case Ok(states) => Passed(states, k, locked.Ok?)
      ensures locked.Ok? ==> (locked.value <==> IsLocked(old(listener)))
    {
      k := 0;
      var ok := Call();
      if !ok {
        return Err(RemoteFailure), 0;
      }
      if !IsLocked(listener) {
        return Ok(false), 0;
      }
      ok := Call();
      if !ok {
        return Err(RemoteFailure), 0;
      }
      var values := HeaderValues(listener);
      if secret in values {
        return Ok(true), 0;
      }
      var error;
      error, k := LockOrigin(tg, secret, values, arn);
      return if error.Some? then Err(error.value) else Ok(true), k;
    }

    /** Reads the rules and the listener first; the result says whether anything was changed. */
    method UnlockOrigin(tg: string) returns (changed: Option<bool>, ghost k: nat)
      modifies this
      ensures Passed(UnlockStates(old(listener), tg), k, changed.Some?)
      ensures changed.Some? ==> (changed.value <==> UnlockStates(old(listener), tg) != [])
    {
      k := 0;
      var ok := Call();
      if !ok {
        return None, 0;
      }
      ok := Call();
      if !ok {
        return None, 0;
      }
      var index := HeaderIndex(listener.rules);
      var was := listener;
      var any := false;
      if listener.default != Forward(tg) {
        ok := Change(listener.(default := Forward(tg)));
        if !ok {
          return None, 0;
        }
        k, any := 1, true;
      }
      if index.Some? {
        ok := Change(listener.(rules := was.rules[..index.value] + was.rules[index.value + 1..]));
        if !ok {
          return None, k;
        }
        k, any := k + 1, true;
      }
      return Some(any), k;
    }
  }
}
