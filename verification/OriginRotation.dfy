/**
 Deployments over time: the distribution and the listener together.

 A deployment reconciles the distribution and then, listener call by listener call, locks the origin when the
 secret is live everywhere or widens the lock when it is not.  Any listener call may fail, which ends the
 deployment there.  Meanwhile the edges receive configurations at their own pace, and at any moment somebody may
 change or remove the secret header in the distribution by hand.
 */
module OriginRotation {
  import opened Wrappers
  import opened OriginLock
  import opened Cdn

  /** `plan` holds the listener states the running deployment still has to pass through. */
  datatype World = World(dist: Option<Distribution>, listener: Listener, plan: seq<Listener>)

  datatype Label =
    | Deploy(args: Args, token: string, arn: nat)
    | NextCall
    | CallFails
    | Spread(edges: set<Config>)
    | HandEdit(headers: seq<Header>)

  function PlanFor(l: Listener, tg: string, reply: Reply, arn: nat): seq<Listener> {
    var states :=
      if reply.secretLive then LockStates(l, tg, reply.secret, [], arn) else WidenStates(l, tg, reply.secret, arn);
    if states.Ok? then states.value else []
  }

  ghost predicate Enabled(w: World, l: Label) {
    match l
    case Deploy(_, token, _) => w.plan == [] && token != "" && (w.dist.Some? ==> w.dist.value.config.origins != [])
    case NextCall => w.plan != []
    case CallFails => w.plan != []
    case Spread(edges) => w.dist.Some? && edges <= w.dist.value.edges && w.dist.value.config in edges
    case HandEdit(_) => w.dist.Some? && |w.dist.value.config.origins| == 1
  }

  /** Somebody changes the headers of the single origin, which is pushed to the edges like any configuration. */
  function Edited(d: Distribution, headers: seq<Header>): Distribution
    requires |d.config.origins| == 1
  {
    Pushed(d, d.config.(origins := [d.config.origins[0].(headers := headers)]))
  }

  ghost function Apply(w: World, tg: string, l: Label): World
    requires Enabled(w, l)
  {
    match l
    case Deploy(args, token, arn) =>
      (match Cdn.Ensure(w.dist, args, token)
       case Err(_) => w
       case Ok(done) => World(Some(done.0), w.listener, PlanFor(w.listener, tg, done.1, arn)))
    case NextCall => w.(listener := w.plan[0], plan := w.plan[1..])
    case CallFails => w.(plan := [])
    case Spread(edges) =>
      var c := w.dist.value.config;
      w.(dist := Some(Distribution(c, edges == {c}, edges)))
    case HandEdit(headers) => w.(dist := Some(Edited(w.dist.value, headers)))
  }

  ghost predicate Run(w: World, tg: string, ls: seq<Label>, w': World)
    decreases |ls|
  {
    if ls == [] then w == w' else Enabled(w, ls[0]) && Run(Apply(w, tg, ls[0]), tg, ls[1..], w')
  }

  /**
   An open listener without a header rule, and either no distribution or one with a single origin and whatever
   headers, possibly from before origin locks existed.
   */
  ghost predicate Init(w: World, tg: string) {
    && w.plan == [] && w.listener.default == Forward(tg) && HeaderIndex(w.listener.rules).None?
    && (w.dist.Some? ==> SingleOrigin(w.dist.value))
  }

  ghost predicate SingleOrigin(d: Distribution) {
    Cdn.Valid(d) && forall c :: c in d.edges ==> |c.origins| == 1
  }

  function Secret(d: Option<Distribution>): string {
    if d.None? then "" else OriginHeader(d.value.config.origins)
  }

  ghost predicate AllSend(d: Option<Distribution>, secret: string) {
    d.Some? && forall c :: c in d.value.edges ==> Sent(c) == Some(secret)
  }

  /** The listener is open, or it passes the secret that every edge sends. */
  ghost predicate LetsEdgesThrough(d: Option<Distribution>, tg: string, l: Listener) {
    && (HeaderIndex(l.rules).Some? ==>
          var r := l.rules[HeaderIndex(l.rules).value];
          r.needs == {} && r.action == Forward(tg))
    && (l.default == Forward(tg) ||
        (l.default == DENY && Secret(d) != "" && Secret(d) in HeaderValues(l) && AllSend(d, Secret(d))))
  }

  ghost predicate Invariant(w: World, tg: string) {
    && (w.dist.Some? ==> SingleOrigin(w.dist.value))
    && LetsEdgesThrough(w.dist, tg, w.listener)
    && forall l :: l in w.plan ==> LetsEdgesThrough(w.dist, tg, l)
  }

  lemma EnsureKeepsSecret(d: Option<Distribution>, args: Args, token: string)
    requires token != "" && (d.Some? ==> SingleOrigin(d.value)) && Cdn.Ensure(d, args, token).Ok?
    ensures var (d', reply) := Cdn.Ensure(d, args, token).value;
            && SingleOrigin(d') && reply.secret != "" && Secret(Some(d')) == reply.secret
            && (Secret(d) != "" ==> reply.secret == Secret(d))
            && (AllSend(d, reply.secret) || reply.secretLive ==> AllSend(Some(d'), reply.secret))
  {
    EnsureKeepsValid(d, args, token);
    if d.Some? {
      ReconciledHeader(d.value.config, args, SecretFor(d.value.config, token));
      assert d.value.config in d.value.edges;
      assert |d.value.config.origins| == 1;
      assert OriginHeader(d.value.config.origins) != "" ==>
               Sent(d.value.config) == Some(OriginHeader(d.value.config.origins));
    }
  }

  lemma LetsThroughAfterEnsure(d: Option<Distribution>, args: Args, token: string, tg: string, l: Listener)
    requires token != "" && (d.Some? ==> SingleOrigin(d.value)) && Cdn.Ensure(d, args, token).Ok?
    requires LetsEdgesThrough(d, tg, l)
    ensures LetsEdgesThrough(Some(Cdn.Ensure(d, args, token).value.0), tg, l)
  {
    EnsureKeepsSecret(d, args, token);
  }

  lemma LockedStatesLetThrough(d: Option<Distribution>, tg: string, l: Listener, also: seq<string>, arn: nat, k: nat)
    requires LetsEdgesThrough(d, tg, l)
    requires LockStates(l, tg, Secret(d), also, arn).Ok? && k < |LockStates(l, tg, Secret(d), also, arn).value|
    requires Secret(d) != "" && AllSend(d, Secret(d))
    ensures LetsEdgesThrough(d, tg, LockStates(l, tg, Secret(d), also, arn).value[k])
  {
    var states := LockStates(l, tg, Secret(d), also, arn).value;
    var i := LockedRule(l, tg, Secret(d), also, arn);
    SecretSurvivesCut(Secret(d), also);
    assert Secret(d) == LockValues(Secret(d), also)[0];
    assert Last(l, states).rules[i].needs == {};
    assert states[k].rules == Last(l, states).rules && states[k].default in {l.default, DENY};
    assert HeaderValues(states[k]) == LockValues(Secret(d), also);
  }

  lemma PlanLetsThrough(w: World, tg: string, args: Args, token: string, arn: nat)
    requires Invariant(w, tg) && token != "" && Cdn.Ensure(w.dist, args, token).Ok?
    ensures var (d', reply) := Cdn.Ensure(w.dist, args, token).value;
            forall l :: l in PlanFor(w.listener, tg, reply, arn) ==> LetsEdgesThrough(Some(d'), tg, l)
  {
    var (d', reply) := Cdn.Ensure(w.dist, args, token).value;
    EnsureKeepsSecret(w.dist, args, token);
    LetsThroughAfterEnsure(w.dist, args, token, tg, w.listener);
    var plan := PlanFor(w.listener, tg, reply, arn);
    if reply.secretLive {
      forall k | 0 <= k < |plan| ensures LetsEdgesThrough(Some(d'), tg, plan[k]) {
        LockedStatesLetThrough(Some(d'), tg, w.listener, [], arn, k);
      }
    } else if IsLocked(w.listener) {
      assert plan == [];
    }
  }

  lemma Step(w: World, tg: string, l: Label)
    requires Invariant(w, tg) && Enabled(w, l) && !l.HandEdit?
    ensures Invariant(Apply(w, tg, l), tg)
  {
    match l {
      case Deploy(args, token, arn) =>
        if Cdn.Ensure(w.dist, args, token).Ok? {
          EnsureKeepsSecret(w.dist, args, token);
          LetsThroughAfterEnsure(w.dist, args, token, tg, w.listener);
          PlanLetsThrough(w, tg, args, token, arn);
        }
      case NextCall =>
      case CallFails =>
      case Spread(edges) =>
    }
  }

  predicate NoHand(ls: seq<Label>) {
    forall i :: 0 <= i < |ls| ==> !ls[i].HandEdit?
  }

  lemma {:induction false} InvariantRun(w: World, tg: string, ls: seq<Label>, w': World)
    requires Invariant(w, tg) && Run(w, tg, ls, w') && NoHand(ls)
    ensures Invariant(w', tg)
    decreases |ls|
  {
    if ls != [] {
      Step(w, tg, ls[0]);
      InvariantRun(Apply(w, tg, ls[0]), tg, ls[1..], w');
    }
  }

  /** The request meets no rule other than the lock's own. */
  predicate MeetsNoUserRule(l: Listener, req: Request) {
    forall j :: 0 <= j < |l.rules| && Some(j) != HeaderIndex(l.rules) ==> !Matches(l.rules[j], req)
  }

  /**
   As long as nobody changes the header by hand: at every moment, whatever any edge may still send reaches the app
   unless a user rule takes it.
   */
  lemma NoEdgeIsLockedOut(w: World, tg: string, ls: seq<Label>, w': World, c: Config, req: Request)
    requires Init(w, tg) && Run(w, tg, ls, w') && NoHand(ls)
    requires w'.dist.Some? && c in w'.dist.value.edges
    requires req.header == Sent(c) && MeetsNoUserRule(w'.listener, req)
    ensures Route(w'.listener, req) == Forward(tg)
  {
    InvariantRun(w, tg, ls, w');
    var l := w'.listener;
    if HeaderIndex(l.rules).Some? {
      RouteThroughOnlyRule(l, HeaderIndex(l.rules).value, req);
    } else {
      assert forall r :: r in l.rules ==> !Matches(r, req);
    }
  }

  lemma OneValue(secret: string)
    ensures LockValues(secret, []) == [secret]
  {
    assert [secret] + [] == [secret];
    DedupeKeepsDistinct([secret]);
  }

  lemma OneSecretIsLocked(l: Listener, tg: string, secret: string, arn: nat, req: Request)
    requires LockStates(l, tg, secret, [], arn).Ok?
    requires HeaderIndex(l.rules).Some? ==> l.rules[HeaderIndex(l.rules).value].needs == {}
    requires MeetsNoUserRule(Last(l, LockStates(l, tg, secret, [], arn).value), req)
    ensures Route(Last(l, LockStates(l, tg, secret, [], arn).value), req) ==
            if req.header == Some(secret) then Forward(tg) else DENY
  {
    var i := LockedTraffic(l, tg, secret, [], arn, req);
    OneValue(secret);
  }

  /** The lock does close: once a deployment has run to its end with a live secret, nothing without it passes. */
  lemma LiveDeployLocks(w: World, tg: string, args: Args, token: string, arn: nat, req: Request)
    requires Invariant(w, tg) && w.plan == [] && token != "" && Cdn.Ensure(w.dist, args, token).Ok?
    requires var reply := Cdn.Ensure(w.dist, args, token).value.1;
             reply.secretLive && LockStates(w.listener, tg, reply.secret, [], arn).Ok?
    requires var reply := Cdn.Ensure(w.dist, args, token).value.1;
             var f := Last(w.listener, PlanFor(w.listener, tg, reply, arn));
             MeetsNoUserRule(f, req)
    ensures var reply := Cdn.Ensure(w.dist, args, token).value.1;
            var f := Last(w.listener, PlanFor(w.listener, tg, reply, arn));
            Route(f, req) == if req.header == Some(reply.secret) then Forward(tg) else DENY
  {
    var secret := Cdn.Ensure(w.dist, args, token).value.1.secret;
    OneSecretIsLocked(w.listener, tg, secret, arn, req);
  }

  // ---------------------------------------------------------------------------------------------
  // Headers changed by hand
  // ---------------------------------------------------------------------------------------------

  /**
   Whatever headers somebody writes into the origin, the configuration then holds exactly those and is otherwise as it
   was; edges that have not received it still send what they sent, and the listener stays as it is.
   */
  lemma HandEditExactly(w: World, tg: string, headers: seq<Header>)
    requires w.dist.Some? && |w.dist.value.config.origins| == 1
    ensures Enabled(w, HandEdit(headers))
    ensures var d, w' := w.dist.value, Apply(w, tg, HandEdit(headers));
            var o := d.config.origins[0];
            && w'.listener == w.listener && w'.plan == w.plan && w'.dist.Some?
            && w'.dist.value.config == d.config.(origins := [Origin(o.domain, o.protocol, headers)])
            && (o.headers == headers ==> w'.dist == w.dist)
            && (o.headers != headers ==> !w'.dist.value.deployed && w'.dist.value.edges == d.edges + {w'.dist.value.config})
  {
    var d := w.dist.value;
    assert d.config.origins == [d.config.origins[0]];
    var c := d.config.(origins := [d.config.origins[0].(headers := headers)]);
    assert c.origins[0].headers == headers;
  }

  /** The lock's rule asks for nothing but a listed value, of which there are at most five. */
  ghost predicate PlainRule(l: Listener, tg: string) {
    HeaderIndex(l.rules).Some? ==>
      var r := l.rules[HeaderIndex(l.rules).value];
      && r.needs == {} && r.action == Forward(tg) && |r.values.value| <= MAX_VALUES
      && forall i, j :: 0 <= i < j < |r.values.value| ==> r.values.value[i] != r.values.value[j]
  }

  /** What every history keeps, hand-made changes included. */
  ghost predicate Tidy(w: World, tg: string) {
    && (w.dist.Some? ==> SingleOrigin(w.dist.value))
    && PlainRule(w.listener, tg) && forall l :: l in w.plan ==> PlainRule(l, tg)
  }

  lemma LockValuesAreDistinct(secret: string, also: seq<string>)
    ensures var values := LockValues(secret, also);
            |values| <= MAX_VALUES && forall i, j :: 0 <= i < j < |values| ==> values[i] != values[j]
  {
  }

  /** The listener states of a lock: the wanted values, on a rule that asks for nothing else. */
  lemma LockStatesArePlain(l: Listener, tg: string, secret: string, also: seq<string>, arn: nat, k: nat)
    requires PlainRule(l, tg)
    requires LockStates(l, tg, secret, also, arn).Ok? && k < |LockStates(l, tg, secret, also, arn).value|
    ensures var s := LockStates(l, tg, secret, also, arn).value[k];
            PlainRule(s, tg) && HeaderValues(s) == LockValues(secret, also)
  {
    var states := LockStates(l, tg, secret, also, arn).value;
    var i := LockedRule(l, tg, secret, also, arn);
    LockValuesAreDistinct(secret, also);
    assert states[k].rules == Last(l, states).rules;
  }

  lemma PlanIsPlain(l: Listener, tg: string, reply: Reply, arn: nat)
    requires PlainRule(l, tg)
    ensures forall s :: s in PlanFor(l, tg, reply, arn) ==> PlainRule(s, tg)
  {
    var plan := PlanFor(l, tg, reply, arn);
    forall k | 0 <= k < |plan| ensures PlainRule(plan[k], tg) {
      if reply.secretLive {
        LockStatesArePlain(l, tg, reply.secret, [], arn, k);
      } else {
        LockStatesArePlain(l, tg, reply.secret, HeaderValues(l), arn, k);
      }
    }
  }

  lemma TidyStep(w: World, tg: string, l: Label)
    requires Tidy(w, tg) && Enabled(w, l)
    ensures Tidy(Apply(w, tg, l), tg)
  {
    match l {
      case Deploy(args, token, arn) =>
        if Cdn.Ensure(w.dist, args, token).Ok? {
          EnsureKeepsSecret(w.dist, args, token);
          PlanIsPlain(w.listener, tg, Cdn.Ensure(w.dist, args, token).value.1, arn);
        }
      case NextCall =>
      case CallFails =>
      case Spread(edges) =>
      case HandEdit(headers) =>
    }
  }

  lemma {:induction false} TidyRun(w: World, tg: string, ls: seq<Label>, w': World)
    requires Tidy(w, tg) && Run(w, tg, ls, w')
    ensures Tidy(w', tg)
    decreases |ls|
  {
    if ls != [] {
      TidyStep(w, tg, ls[0]);
      TidyRun(Apply(w, tg, ls[0]), tg, ls[1..], w');
    }
  }

  lemma AcceptedReachesApp(l: Listener, tg: string, req: Request)
    requires PlainRule(l, tg) && Carries(req, HeaderValues(l)) && MeetsNoUserRule(l, req)
    ensures Route(l, req) == Forward(tg)
  {
    RouteThroughOnlyRule(l, HeaderIndex(l.rules).value, req);
  }

  ghost predicate SentBySome(d: Distribution, v: string) {
    exists c :: c in d.edges && Sent(c) == Some(v)
  }

  /** Every accepted value that some edge still sends stays accepted in this listener state. */
  ghost predicate KeepsSent(d: Distribution, before: seq<string>, after: seq<string>) {
    forall v :: v in before && SentBySome(d, v) ==> v in after
  }

  /**
   A deployment has room if it only trims what no edge sends any more: the listener is open; or the distribution is
   new, or deployed with a secret; or the secret in use, the new one if there is none, is accepted already; or fewer
   than five values are accepted; or the last of five is sent by no edge.
   */
  ghost predicate HasRoom(l: Listener, d: Option<Distribution>, token: string) {
    var vals := HeaderValues(l);
    || !IsLocked(l) || d.None? || (d.value.deployed && OriginHeader(d.value.config.origins) != "")
    || SecretFor(d.value.config, token) in vals || |vals| < MAX_VALUES || !SentBySome(d.value, vals[MAX_VALUES - 1])
  }

  /** The update sends a value that is not the secret from exactly the edges that sent it before. */
  lemma SentAsBefore(d: Distribution, args: Args, token: string, v: string)
    requires SingleOrigin(d) && token != "" && Cdn.Ensure(Some(d), args, token).Ok?
    requires v != SecretFor(d.config, token)
    ensures SentBySome(Cdn.Ensure(Some(d), args, token).value.0, v) <==> SentBySome(d, v)
  {
    EnsureKeepsSecret(Some(d), args, token);
    var d' := Cdn.Ensure(Some(d), args, token).value.0;
    ReconciledHeader(d.config, args, SecretFor(d.config, token));
    assert d.config in d.edges && |d.config.origins| == 1;
    assert Sent(d'.config) == Some(SecretFor(d.config, token));
    assert forall c :: c in d'.edges <==> c in d.edges || c == d'.config;
  }

  lemma WidenedKeeps(d: Distribution, secret: string, vals: seq<string>)
    requires secret !in vals && |vals| <= MAX_VALUES && forall i, j :: 0 <= i < j < |vals| ==> vals[i] != vals[j]
    ensures KeepsSent(d, vals, LockValues(secret, vals)) <==>
            |vals| < MAX_VALUES || !SentBySome(d, vals[MAX_VALUES - 1])
  {
    forall k | 0 <= k < |vals| ensures vals[k] in LockValues(secret, vals) <==> k < MAX_VALUES - 1 {
      WidenKeepsFirstFour(secret, vals, k);
    }
    if |vals| == MAX_VALUES {
      assert vals[MAX_VALUES - 1] in vals;
    }
  }

  lemma LiveKeeps(w: World, tg: string, args: Args, token: string)
    requires Tidy(w, tg) && token != "" && Cdn.Ensure(w.dist, args, token).Ok?
    requires Cdn.Ensure(w.dist, args, token).value.1.secretLive
    ensures var (d', reply) := Cdn.Ensure(w.dist, args, token).value;
            forall v :: SentBySome(d', v) ==> v == reply.secret
  {
    EnsureKeepsSecret(w.dist, args, token);
  }

  /** Every state of the plan keeps the accepted values that some edge of the updated distribution sends. */
  ghost predicate PlanKeeps(w: World, tg: string, d: Distribution, reply: Reply, arn: nat) {
    forall s :: s in PlanFor(w.listener, tg, reply, arn) ==> KeepsSent(d, HeaderValues(w.listener), HeaderValues(s))
  }

  lemma LivePlanKeeps(w: World, tg: string, args: Args, token: string, arn: nat)
    requires Tidy(w, tg) && token != "" && Cdn.Ensure(w.dist, args, token).Ok?
    requires Cdn.Ensure(w.dist, args, token).value.1.secretLive
    ensures var (d', reply) := Cdn.Ensure(w.dist, args, token).value; PlanKeeps(w, tg, d', reply, arn)
  {
    var (d', reply) := Cdn.Ensure(w.dist, args, token).value;
    var plan := PlanFor(w.listener, tg, reply, arn);
    LiveKeeps(w, tg, args, token);
    forall k | 0 <= k < |plan| ensures KeepsSent(d', HeaderValues(w.listener), HeaderValues(plan[k])) {
      LockStatesArePlain(w.listener, tg, reply.secret, [], arn, k);
      SecretSurvivesCut(reply.secret, []);
      assert LockValues(reply.secret, [])[0] == reply.secret;
    }
  }

  lemma WideningPlanKeeps(w: World, tg: string, d: Distribution, reply: Reply, arn: nat)
    requires PlainRule(w.listener, tg) && IsLocked(w.listener) && !reply.secretLive && reply.secret != ""
    requires reply.secret !in HeaderValues(w.listener)
    ensures PlanKeeps(w, tg, d, reply, arn) <==>
            |HeaderValues(w.listener)| < MAX_VALUES || !SentBySome(d, HeaderValues(w.listener)[MAX_VALUES - 1])
  {
    var plan, vals := PlanFor(w.listener, tg, reply, arn), HeaderValues(w.listener);
    WidenedKeeps(d, reply.secret, vals);
    forall k | 0 <= k < |plan| ensures HeaderValues(plan[k]) == LockValues(reply.secret, vals) {
      LockStatesArePlain(w.listener, tg, reply.secret, vals, arn, k);
    }
    if vals != [] {
      assert plan != [] && plan[0] in plan;
    }
  }

  /**
   After any history, a deployment keeps every accepted value that some edge still sends, through each of its
   listener calls, if and only if it has room.
   */
  lemma RoomExactly(w: World, tg: string, args: Args, token: string, arn: nat)
    requires Tidy(w, tg) && token != "" && Cdn.Ensure(w.dist, args, token).Ok?
    ensures var (d', reply) := Cdn.Ensure(w.dist, args, token).value;
            PlanKeeps(w, tg, d', reply, arn) <==> HasRoom(w.listener, w.dist, token)
  {
    var (d', reply) := Cdn.Ensure(w.dist, args, token).value;
    var vals := HeaderValues(w.listener);
    if reply.secretLive {
      LivePlanKeeps(w, tg, args, token, arn);
    } else if IsLocked(w.listener) && reply.secret !in vals {
      EnsureKeepsSecret(w.dist, args, token);
      WideningPlanKeeps(w, tg, d', reply, arn);
      if |vals| == MAX_VALUES {
        assert vals[MAX_VALUES - 1] in vals;
        SentAsBefore(w.dist.value, args, token, vals[MAX_VALUES - 1]);
      }
    }
  }

  /** The running deployment goes on, or fails, while edges receive configurations. */
  predicate Proceeds(l: Label) {
    l.NextCall? || l.CallFails? || l.Spread?
  }

  /** Every accepted value that an edge sends is accepted by the listener and in every state to come. */
  ghost predicate AllKeep(w: World, vals: seq<string>) {
    w.dist.Some? && KeepsSent(w.dist.value, vals, HeaderValues(w.listener))
    && forall s :: s in w.plan ==> KeepsSent(w.dist.value, vals, HeaderValues(s))
  }

  lemma {:induction false} KeepsOnProceeding(w: World, tg: string, ls: seq<Label>, w': World, vals: seq<string>)
    requires AllKeep(w, vals) && Run(w, tg, ls, w') && forall i :: 0 <= i < |ls| ==> Proceeds(ls[i])
    ensures AllKeep(w', vals)
    decreases |ls|
  {
    if ls != [] {
      assert Proceeds(ls[0]);
      var w1 := Apply(w, tg, ls[0]);
      assert forall v :: SentBySome(w1.dist.value, v) ==> SentBySome(w.dist.value, v);
      KeepsOnProceeding(w1, tg, ls[1..], w', vals);
    }
  }

  /**
   After any history, with headers changed by hand at any moment, a deployment that has room locks out no edge that
   was let through when it began: at every moment until the next deployment or change by hand, a value that was
   accepted and that some edge still sends reaches the app unless a user rule takes it.
   */
  lemma DeploymentWithRoomLocksNobodyOut(
      start: World, tg: string, past: seq<Label>, w: World, args: Args, token: string, arn: nat,
      ls: seq<Label>, w': World, c: Config, req: Request)
    requires Init(start, tg) && Run(start, tg, past, w) && Enabled(w, Deploy(args, token, arn))
    requires Cdn.Ensure(w.dist, args, token).Ok?
    requires HasRoom(w.listener, w.dist, token)
    requires Run(Apply(w, tg, Deploy(args, token, arn)), tg, ls, w') && forall i :: 0 <= i < |ls| ==> Proceeds(ls[i])
    requires w'.dist.Some? && c in w'.dist.value.edges && req.header == Sent(c) && Carries(req, HeaderValues(w.listener))
    requires MeetsNoUserRule(w'.listener, req)
    ensures Route(w'.listener, req) == Forward(tg)
  {
    TidyRun(start, tg, past, w);
    RoomExactly(w, tg, args, token, arn);
    TidyStep(w, tg, Deploy(args, token, arn));
    var w1 := Apply(w, tg, Deploy(args, token, arn));
    TidyRun(w1, tg, ls, w');
    KeepsOnProceeding(w1, tg, ls, w', HeaderValues(w.listener));
    assert SentBySome(w'.dist.value, req.header.value);
    AcceptedReachesApp(w'.listener, tg, req);
  }

  /** After the header has been removed by hand the next deployment adds its new secret to the accepted values. */
  lemma RemovedHeaderWidens(w: World, tg: string, args: Args, token: string, arn: nat)
    requires Tidy(w, tg) && w.dist.Some? && token != "" && Cdn.Ensure(w.dist, args, token).Ok?
    requires Sent(w.dist.value.config).None? && IsLocked(w.listener)
    requires HeaderValues(w.listener) != [] && token !in HeaderValues(w.listener)
    ensures var reply := Cdn.Ensure(w.dist, args, token).value.1;
            var plan := PlanFor(w.listener, tg, reply, arn);
            && reply.secret == token && plan != []
            && forall s :: s in plan ==> HeaderValues(s) == LockValues(token, HeaderValues(w.listener))
  {
    var c := w.dist.value.config;
    assert c in w.dist.value.edges && |c.origins| == 1 && OriginHeader(c.origins[1..]) == "";
    var plan := PlanFor(w.listener, tg, Cdn.Ensure(w.dist, args, token).value.1, arn);
    forall k | 0 <= k < |plan| ensures HeaderValues(plan[k]) == LockValues(token, HeaderValues(w.listener)) {
      LockStatesArePlain(w.listener, tg, token, HeaderValues(w.listener), arn, k);
    }
  }

  // ---------------------------------------------------------------------------------------------
  // A sixth secret
  // ---------------------------------------------------------------------------------------------

  lemma RunStep(w: World, tg: string, l: Label, rest: seq<Label>, w': World)
    requires Enabled(w, l) && Run(Apply(w, tg, l), tg, rest, w')
    ensures Run(w, tg, [l] + rest, w')
  {
    assert ([l] + rest)[1..] == rest;
  }

  lemma RunHead(w: World, tg: string, ls: seq<Label>, w': World)
    requires Run(w, tg, ls, w') && ls != []
    ensures Enabled(w, ls[0]) && Run(Apply(w, tg, ls[0]), tg, ls[1..], w')
  {
  }

  lemma RunCons(w: World, tg: string, a: seq<Label>, b: seq<Label>, w': World)
    requires a != [] && Enabled(w, a[0]) && Run(Apply(w, tg, a[0]), tg, a[1..] + b, w')
    ensures Run(w, tg, a + b, w')
  {
    assert (a + b)[1..] == a[1..] + b;
  }

  lemma {:induction false} RunAppend(w: World, tg: string, a: seq<Label>, mid: World, b: seq<Label>, w': World)
    requires Run(w, tg, a, mid) && Run(mid, tg, b, w')
    ensures Run(w, tg, a + b, w')
    decreases |a|
  {
    if a == [] {
      assert a + b == b;
    } else {
      RunHead(w, tg, a, mid);
      RunAppend(Apply(w, tg, a[0]), tg, a[1..], mid, b, w');
      RunCons(w, tg, a, b, w');
    }
  }

  lemma RunFour(w: World, tg: string, a: Label, b: Label, c: Label, d: Label, w1: World, w2: World, w3: World, w4: World)
    requires Enabled(w, a) && Apply(w, tg, a) == w1 && Enabled(w1, b) && Apply(w1, tg, b) == w2
    requires Enabled(w2, c) && Apply(w2, tg, c) == w3 && Enabled(w3, d) && Apply(w3, tg, d) == w4
    ensures Run(w, tg, [a, b, c, d], w4)
  {
    assert Run(w4, tg, [], w4);
    assert [d][1..] == [] && Run(w3, tg, [d], w4);
    assert [c, d][1..] == [d] && Run(w2, tg, [c, d], w4);
    assert [b, c, d][1..] == [c, d] && Run(w1, tg, [b, c, d], w4);
    assert [a, b, c, d][1..] == [b, c, d];
  }

  /** Locked, with nothing under way, and these values accepted. */
  ghost predicate Settled(w: World, tg: string, vals: seq<string>) {
    Tidy(w, tg) && w.plan == [] && w.dist.Some? && IsLocked(w.listener) && HeaderValues(w.listener) == vals && vals != []
  }

  /** Two listener calls are under way that accept these values and end locked. */
  ghost predicate TwoCallsLeft(w: World, tg: string, vals: seq<string>) {
    && Tidy(w, tg) && w.dist.Some? && vals != [] && |w.plan| == 2 && w.plan[1].default == DENY
    && HeaderValues(w.plan[0]) == vals && HeaderValues(w.plan[1]) == vals
  }

  lemma TwoCalls(w: World, tg: string, vals: seq<string>)
    requires TwoCallsLeft(w, tg, vals)
    ensures var w' := Apply(Apply(w, tg, NextCall), tg, NextCall);
            Settled(w', tg, vals) && w'.dist == w.dist
  {
    assert w.plan[0] in w.plan && w.plan[1] in w.plan;
    assert w.plan[1..] == [w.plan[1]];
  }

  lemma DeploysNewSecret(w: World, tg: string, args: Args, token: string, vals: seq<string>)
    requires Settled(w, tg, vals) && token != "" && token !in vals && args.certificate == ""
    requires Sent(w.dist.value.config).None?
    ensures var w' := Apply(w, tg, Deploy(args, token, 0));
            TwoCallsLeft(w', tg, LockValues(token, vals)) && w.dist.value.edges <= w'.dist.value.edges
  {
    RemovedHeaderWidens(w, tg, args, token, 0);
    TidyStep(w, tg, Deploy(args, token, 0));
    WidenTwoCalls(w.listener, tg, token, 0);
    var w' := Apply(w, tg, Deploy(args, token, 0));
    assert w'.plan[0] in w'.plan && w'.plan[1] in w'.plan;
  }

  lemma HeaderRemoved(w: World, tg: string, vals: seq<string>)
    requires Settled(w, tg, vals)
    ensures Enabled(w, HandEdit([]))
    ensures var w' := Apply(w, tg, HandEdit([]));
            Settled(w', tg, vals) && Sent(w'.dist.value.config).None? && w.dist.value.edges <= w'.dist.value.edges
  {
    assert w.dist.value.config in w.dist.value.edges;
    TidyStep(w, tg, HandEdit([]));
  }

  /** The header is removed by hand, and the next deployment sends a new secret, which is added to the accepted ones. */
  lemma Rotation(w: World, tg: string, args: Args, token: string, vals: seq<string>) returns (ls: seq<Label>, w': World)
    requires Settled(w, tg, vals) && token != "" && token !in vals && args.certificate == ""
    ensures Run(w, tg, ls, w') && Settled(w', tg, LockValues(token, vals))
    ensures w.dist.value.edges <= w'.dist.value.edges
  {
    HeaderRemoved(w, tg, vals);
    var w1 := Apply(w, tg, HandEdit([]));
    DeploysNewSecret(w1, tg, args, token, vals);
    assert w1.dist.value.config in w1.dist.value.edges;
    var w2 := Apply(w1, tg, Deploy(args, token, 0));
    TwoCalls(w2, tg, LockValues(token, vals));
    var w3 := Apply(w2, tg, NextCall);
    w' := Apply(w3, tg, NextCall);
    ls := [HandEdit([]), Deploy(args, token, 0), NextCall, NextCall];
    RunFour(w, tg, HandEdit([]), Deploy(args, token, 0), NextCall, NextCall, w1, w2, w3, w');
  }

  lemma WidenTwoCalls(l: Listener, tg: string, token: string, arn: nat)
    requires IsLocked(l) && HeaderValues(l) != [] && token != "" && token !in HeaderValues(l)
    ensures var states := WidenStates(l, tg, token, arn);
            states.Ok? && |states.value| == 2 && states.value[1].default == DENY
  {
    SecretSurvivesCut(token, HeaderValues(l));
  }

  /** Secrets that are new and differ from each other. */
  predicate NewSecrets(tokens: seq<string>, vals: seq<string>) {
    && (forall i :: 0 <= i < |tokens| ==> tokens[i] != "" && tokens[i] !in vals)
    && (forall i, j :: 0 <= i < j < |tokens| ==> tokens[i] != tokens[j])
  }

  lemma NextSecrets(tokens: seq<string>, vals: seq<string>)
    requires NewSecrets(tokens, vals) && tokens != []
    ensures NewSecrets(tokens[1..], [tokens[0]] + vals)
  {
  }

  lemma LockValuesWithRoom(token: string, vals: seq<string>)
    requires token !in vals && |vals| < MAX_VALUES && forall i, j :: 0 <= i < j < |vals| ==> vals[i] != vals[j]
    ensures LockValues(token, vals) == [token] + vals
  {
    DedupeKeepsDistinct([token] + vals);
  }

  /** Each secret in turn is put in front. */
  function InFront(tokens: seq<string>, vals: seq<string>): seq<string> {
    if tokens == [] then vals else InFront(tokens[1..], [tokens[0]] + vals)
  }

  lemma {:induction false} InFrontFacts(tokens: seq<string>, vals: seq<string>)
    requires vals != []
    ensures var r := InFront(tokens, vals);
            |r| == |tokens| + |vals| && r[|r| - 1] == vals[|vals| - 1] && forall v :: v in r ==> v in tokens || v in vals
    decreases |tokens|
  {
    if tokens != [] {
      InFrontFacts(tokens[1..], [tokens[0]] + vals);
    }
  }

  lemma {:induction false} Rotations(w: World, tg: string, args: Args, tokens: seq<string>, vals: seq<string>)
    returns (ls: seq<Label>, w': World)
    requires Settled(w, tg, vals) && args.certificate == "" && |tokens| + |vals| <= MAX_VALUES && NewSecrets(tokens, vals)
    ensures Run(w, tg, ls, w') && Settled(w', tg, InFront(tokens, vals))
    ensures w.dist.value.edges <= w'.dist.value.edges
    decreases |tokens|
  {
    ls, w' := [], w;
    if tokens != [] {
      var a, w1 := Rotation(w, tg, args, tokens[0], vals);
      LockValuesWithRoom(tokens[0], vals);
      NextSecrets(tokens, vals);
      var b, w2 := Rotations(w1, tg, args, tokens[1..], [tokens[0]] + vals);
      RunAppend(w, tg, a, w1, b, w2);
      ls, w' := a + b, w2;
    }
  }

  /** The very first deployment ends with its secret accepted and sent. */
  lemma FirstDeploymentSettles(tg: string, args: Args, token: string) returns (ls: seq<Label>, w': World)
    requires token != ""
    ensures var start := World(None, Listener([], Forward(tg)), []);
            Init(start, tg) && Run(start, tg, ls, w') && Settled(w', tg, [token]) && SentBySome(w'.dist.value, token)
  {
    var w := World(None, Listener([], Forward(tg)), []);
    var w1 := Apply(w, tg, Deploy(args, token, 0));
    LockValuesWithRoom(token, []);
    var rule := Rule(0, FIRST_PRIORITY, Some([token]), {}, Forward(tg));
    assert FreePriority([]) == Some(FIRST_PRIORITY);
    assert [token] + [] == [token] && [] + [rule] == [rule];
    assert w1.plan == [Listener([rule], Forward(tg)), Listener([rule], DENY)];
    var w2 := Apply(w1, tg, NextCall);
    w' := Apply(w2, tg, NextCall);
    ls := [Deploy(args, token, 0), NextCall, NextCall];
    assert w2.plan == [Listener([rule], DENY)] && w'.plan == [];
    assert Run(w', tg, [], w');
    RunStep(w2, tg, NextCall, [], w');
    RunStep(w1, tg, NextCall, [NextCall], w');
    RunStep(w, tg, Deploy(args, token, 0), [NextCall, NextCall], w');
    assert [NextCall] + [] == [NextCall] && [NextCall] + [NextCall] == [NextCall, NextCall];
    assert [Deploy(args, token, 0)] + [NextCall, NextCall] == ls;
    TidyRun(w, tg, ls, w');
    assert Template(args, token) in w'.dist.value.edges && Sent(Template(args, token)) == Some(token);
  }

  lemma FiveMoreSecrets(w: World, tg: string, args: Args, tokens: seq<string>, first: string)
    returns (ls: seq<Label>, w': World)
    requires Settled(w, tg, [first]) && SentBySome(w.dist.value, first) && args.certificate == ""
    requires |tokens| == MAX_VALUES && NewSecrets(tokens, [first])
    ensures Run(w, tg, ls, w') && Settled(w', tg, HeaderValues(w'.listener))
    ensures SentBySome(w'.dist.value, first) && first !in HeaderValues(w'.listener)
  {
    var early, last := tokens[..MAX_VALUES - 1], tokens[MAX_VALUES - 1];
    var vals := InFront(early, [first]);
    InFrontFacts(early, [first]);
    var a, w1 := Rotations(w, tg, args, early, [first]);
    assert last !in vals;
    var b, w2 := Rotation(w1, tg, args, last, vals);
    RunAppend(w, tg, a, w1, b, w2);
    ls, w' := a + b, w2;
    WidenKeepsFirstFour(last, vals, MAX_VALUES - 1);
  }

  /**
   Why a deployment needs room: a whole history from an open listener without a distribution.  The first deployment
   locks the origin; then five times the header is removed by hand before the edges have caught up, and the sixth
   secret pushes the first one out, which some edge still sends.
   */
  lemma SixthSecretLocksOut(tg: string, args: Args, first: string, tokens: seq<string>) returns (ls: seq<Label>, w': World)
    requires first != "" && args.certificate == "" && |tokens| == MAX_VALUES && NewSecrets(tokens, [first])
    ensures var start := World(None, Listener([], Forward(tg)), []);
            Init(start, tg) && Run(start, tg, ls, w')
    ensures IsLocked(w'.listener) && w'.plan == [] && w'.dist.Some?
    ensures SentBySome(w'.dist.value, first) && first !in HeaderValues(w'.listener)
  {
    var start := World(None, Listener([], Forward(tg)), []);
    var a, w := FirstDeploymentSettles(tg, args, first);
    var b, w1 := FiveMoreSecrets(w, tg, args, tokens, first);
    RunAppend(start, tg, a, w, b, w1);
    ls, w' := a + b, w1;
  }

  // ---------------------------------------------------------------------------------------------
  // The next deployment makes it good
  // ---------------------------------------------------------------------------------------------

  /** A failed call ends the deployment and changes nothing else. */
  lemma FailureEndsDeployment(w: World, tg: string) returns (ls: seq<Label>, w': World)
    ensures Run(w, tg, ls, w') && w' == World(w.dist, w.listener, []) && forall l :: l in ls ==> l.CallFails?
  {
    if w.plan == [] {
      ls, w' := [], w;
    } else {
      ls, w' := [CallFails], Apply(w, tg, CallFails);
      RunStep(w, tg, CallFails, [], w');
      assert [CallFails] + [] == [CallFails];
    }
  }

  /** The listener calls of a deployment, all of them. */
  lemma {:induction false} AllCalls(w: World, tg: string) returns (ls: seq<Label>, w': World)
    ensures Run(w, tg, ls, w') && w' == World(w.dist, Last(w.listener, w.plan), []) && forall l :: l in ls ==> l.NextCall?
    decreases |w.plan|
  {
    if w.plan == [] {
      ls, w' := [], w;
    } else {
      var w1, rest := Apply(w, tg, NextCall), [];
      rest, w' := AllCalls(w1, tg);
      RunStep(w, tg, NextCall, rest, w');
      ls := [NextCall] + rest;
    }
  }

  /** Once all edges have the configuration, the distribution says so. */
  lemma AllEdgesCatchUp(w: World, tg: string) returns (ls: seq<Label>, w': World)
    requires w.dist.Some? && Cdn.Valid(w.dist.value)
    ensures Run(w, tg, ls, w') && w'.plan == w.plan && w'.listener == w.listener
    ensures w'.dist == Some(Distribution(w.dist.value.config, true, {w.dist.value.config}))
    ensures forall l :: l in ls ==> l.Spread?
  {
    var l := Spread({w.dist.value.config});
    w' := Apply(w, tg, l);
    RunStep(w, tg, l, [], w');
    assert [l] + [] == [l];
    ls := [l];
  }

  lemma DeploysAgain(w: World, tg: string, args: Args, first: Option<Distribution>, token: string, token2: string, arn: nat)
    requires (first.Some? ==> Cdn.Valid(first.value)) && token != "" && token2 != "" && Cdn.Ensure(first, args, token).Ok?
    requires (args.certificate != "" ==> args.alias != "") && w.plan == []
    requires var d := Cdn.Ensure(first, args, token).value.0;
             d.config.origins != [] && w.dist == Some(Distribution(d.config, true, {d.config}))
    ensures var secret := Cdn.Ensure(first, args, token).value.1.secret;
            && Enabled(w, Deploy(args, token2, arn))
            && Apply(w, tg, Deploy(args, token2, arn)) ==
               World(w.dist, w.listener,
                     if LockStates(w.listener, tg, secret, [], arn).Ok? then LockStates(w.listener, tg, secret, [], arn).value else [])
  {
    EnsureKeepsValid(first, args, token);
    EnsureTwice(first, args, token, w.dist.value, token2);
    ReplyExactly(w.dist, args, token2);
    ReplyExactly(first, args, token);
    SecretIsSome(first, args, token);
  }

  lemma SecretIsSome(d: Option<Distribution>, args: Args, token: string)
    requires (d.Some? ==> Cdn.Valid(d.value)) && token != "" && Cdn.Ensure(d, args, token).Ok?
    ensures Cdn.Ensure(d, args, token).value.1.secret != ""
  {
  }

  /**
   Whatever became of a deployment's listener calls, if the edges catch up the next deployment with the same arguments
   locks the origin for good: only the secret passes, and every edge sends it.
   */
  lemma NextDeploymentLocks(w: World, tg: string, args: Args, token: string, token2: string, arn: nat)
    returns (ls: seq<Label>, w': World, secret: string)
    requires Tidy(w, tg) && w.plan == [] && token != "" && token2 != "" && Cdn.Ensure(w.dist, args, token).Ok?
    requires args.certificate != "" ==> args.alias != ""
    requires HeaderIndex(w.listener.rules).Some? || FreePriority(w.listener.rules).Some?
    ensures secret == Cdn.Ensure(w.dist, args, token).value.1.secret
    ensures Run(w, tg, [Deploy(args, token, arn)] + ls, w') && w'.plan == []
    ensures IsLocked(w'.listener) && HeaderValues(w'.listener) == [secret] && AllSend(w'.dist, secret)
  {
    secret := Cdn.Ensure(w.dist, args, token).value.1.secret;
    EnsureKeepsSecret(w.dist, args, token);
    var w1 := Apply(w, tg, Deploy(args, token, arn));
    var a, w2 := FailureEndsDeployment(w1, tg);
    var b, w3 := AllEdgesCatchUp(w2, tg);
    assert w1.dist.value.config in w1.dist.value.edges;
    DeploysAgain(w3, tg, args, w.dist, token, token2, arn);
    var again := Deploy(args, token2, arn);
    var w4 := Apply(w3, tg, again);
    var c;
    c, w' := AllCalls(w4, tg);
    RunStep(w3, tg, again, c, w');
    RunAppend(w2, tg, b, w3, [again] + c, w');
    RunAppend(w1, tg, a, w2, b + ([again] + c), w');
    ls := a + (b + ([again] + c));
    RunStep(w, tg, Deploy(args, token, arn), ls, w');
    LockFailsExactly(w.listener, tg, secret, [], arn);
    OnlySecretListed(w.listener, tg, secret, arn);
    SentFromAll(w1.dist.value, secret);
  }

  lemma OnlySecretListed(l: Listener, tg: string, secret: string, arn: nat)
    requires secret != "" && (HeaderIndex(l.rules).Some? || FreePriority(l.rules).Some?)
    ensures var states := LockStates(l, tg, secret, [], arn);
            states.Ok? && IsLocked(Last(l, states.value)) && HeaderValues(Last(l, states.value)) == [secret]
  {
    var i := LockedRule(l, tg, secret, [], arn);
    LockValuesWithRoom(secret, []);
    assert [secret] + [] == [secret];
  }

  lemma SentFromAll(d: Distribution, secret: string)
    requires SingleOrigin(d) && OriginHeader(d.config.origins) == secret && secret != ""
    ensures AllSend(Some(Distribution(d.config, true, {d.config})), secret)
  {
    assert d.config in d.edges && |d.config.origins| == 1;
  }
}
