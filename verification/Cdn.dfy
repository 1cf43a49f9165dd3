/**
 The CloudFront distribution in front of the load balancer: reconciling its configuration, and what the edges
 that have not received the newest configuration still send.
 */
module Cdn {
  import opened Wrappers

  /** Header names are compared without regard to case; here they are stored in lower case. */
  const ORIGIN_HEADER := "x-recoder-origin"
  const RECODER_ACL := "/webacl/recoder-"

  datatype Header = Header(name: string, value: string)

  datatype Origin = Origin(domain: string, protocol: string, headers: seq<Header>)

  datatype Config = Config(
    comment: string, origins: seq<Origin>, aliases: seq<string>, certificate: string, webAcl: string, enabled: bool)

  /** `edges` are the configurations some edge may still serve. */
  datatype Distribution = Distribution(config: Config, deployed: bool, edges: set<Config>)

  /** `webAcl`: `Some("")` detaches, `None` leaves the attached one.  `comment` is empty when no region is known. */
  datatype Args = Args(
    origin: string, originHttps: bool, alias: string, certificate: string, webAcl: Option<string>,
    name: string, comment: string)

  datatype Reply = Reply(created: bool, secret: string, secretLive: bool, webAcl: string, webAclLive: bool)

  /**
   The code reads an alias entry its own template lacks when a certificate comes without an alias; and any remote
   call may be refused.
   */
  datatype Error = MissingAlias | RemoteFailure

  // ---------------------------------------------------------------------------------------------
  // Headers
  // ---------------------------------------------------------------------------------------------

  function FirstHeader(headers: seq<Header>): Option<string> {
    if headers == [] then None
    else if headers[0].name == ORIGIN_HEADER then Some(headers[0].value)
    else FirstHeader(headers[1..])
  }

  /** The secret in a configuration: the first origin-lock header of any origin, "" when there is none. */
  function OriginHeader(origins: seq<Origin>): string {
    if origins == [] then ""
    else
      match FirstHeader(origins[0].headers)
      case Some(v) => v
      case None => OriginHeader(origins[1..])
  }

  /** What an edge with this configuration sends: requests go to the first origin. */
  function Sent(c: Config): Option<string> {
    if c.origins == [] then None else FirstHeader(c.origins[0].headers)
  }

  function OtherHeaders(headers: seq<Header>): (others: seq<Header>)
    ensures forall h :: h in others <==> h in headers && h.name != ORIGIN_HEADER
  {
    if headers == [] then []
    else (if headers[0].name == ORIGIN_HEADER then [] else [headers[0]]) + OtherHeaders(headers[1..])
  }

  lemma {:induction false} FirstHeaderAfterOthers(others: seq<Header>, secret: string)
    requires forall h :: h in others ==> h.name != ORIGIN_HEADER
    ensures FirstHeader(others + [Header(ORIGIN_HEADER, secret)]) == Some(secret)
  {
    var all := others + [Header(ORIGIN_HEADER, secret)];
    if others != [] {
      assert all[1..] == others[1..] + [Header(ORIGIN_HEADER, secret)];
      FirstHeaderAfterOthers(others[1..], secret);
    }
  }

  // ---------------------------------------------------------------------------------------------
  // Reconciling
  // ---------------------------------------------------------------------------------------------

  predicate Contains(s: string, part: string) {
    exists i :: 0 <= i <= |s| && part <= s[i..]
  }

  function ProtocolOf(args: Args): string {
    if args.originHttps then "https-only" else "http-only"
  }

  function Template(args: Args, secret: string): Config {
    var named := args.alias != "" && args.certificate != "";
    Config(
      if args.comment != "" then args.comment else args.name,
      [Origin(args.origin, ProtocolOf(args), if secret != "" then [Header(ORIGIN_HEADER, secret)] else [])],
      if named then [args.alias] else [],
      if named then args.certificate else "",
      if args.webAcl.Some? then args.webAcl.value else "",
      true)
  }

  /** A web ACL somebody else attached is not detached. */
  function WantedAcl(c: Config, args: Args): Option<string> {
    if args.webAcl == Some("") && c.webAcl != "" && !Contains(c.webAcl, RECODER_ACL) then None else args.webAcl
  }

  predicate OriginFits(c: Config, args: Args, secret: string)
    requires c.origins != []
  {
    c.origins[0].domain == args.origin && OriginHeader(c.origins) == secret && c.origins[0].protocol == ProtocolOf(args)
  }

  /** The whole origin is replaced, keeping only headers somebody else added to it. */
  function CleanOrigins(c: Config, args: Args, secret: string): seq<Origin>
    requires c.origins != []
  {
    var wanted := Template(args, secret).origins[0];
    [wanted.(headers := OtherHeaders(c.origins[0].headers) + wanted.headers)]
  }

  function Reconcile(c: Config, args: Args, secret: string): Result<Config, Error>
    requires c.origins != []
  {
    var want := Template(args, secret);
    var c1 := if args.comment != "" then c.(comment := want.comment) else c;
    var c2 := if OriginFits(c, args, secret) then c1 else c1.(origins := CleanOrigins(c, args, secret));
    var realias := args.certificate != "" && c.aliases != [args.alias];
    if realias && args.alias == "" then Err(MissingAlias)
    else
      var c3 := if realias then c2.(aliases := want.aliases, certificate := want.certificate) else c2;
      var acl := WantedAcl(c, args);
      Ok(c3.(webAcl := if acl.Some? then acl.value else c.webAcl, enabled := true))
  }

  function SecretFor(c: Config, fallback: string): string {
    var found := OriginHeader(c.origins);
    if found == "" then fallback else found
  }

  function Pushed(d: Distribution, c: Config): Distribution {
    if c == d.config then d else Distribution(c, false, d.edges + {c})
  }

  /**
   A call without a refusal.  `token` is the random secret generated for this call, used only when no secret is
   configured yet.
   */
  function Ensure(d: Option<Distribution>, args: Args, token: string): Result<(Distribution, Reply), Error>
    requires d.Some? ==> d.value.config.origins != []
  {
    match d
    case None =>
      var c := Template(args, token);
      Ok((Distribution(c, false, {c}), Reply(true, token, true, c.webAcl, true)))
    case Some(d) =>
      var secret := SecretFor(d.config, token);
      match Reconcile(d.config, args, secret)
      case Err(e) => Err(e)
      case Ok(c) =>
        var acl := WantedAcl(d.config, args);
        Ok((Pushed(d, c),
            Reply(false, secret, OriginHeader(d.config.origins) != "" && d.deployed, c.webAcl,
                  d.deployed && acl.Some? && d.config.webAcl == acl.value)))
  }

  // ---------------------------------------------------------------------------------------------
  // Edges
  // ---------------------------------------------------------------------------------------------

  predicate Valid(d: Distribution) {
    && d.config in d.edges && (forall c :: c in d.edges ==> c.origins != [])
    && (d.deployed ==> d.edges == {d.config})
  }

  /** Edges drop older configurations; once all have, the status is "Deployed". */
  predicate Propagates(d: Distribution, d': Distribution) {
    && d'.config == d.config && d.config in d'.edges && d'.edges <= d.edges
    && (d'.deployed <==> d'.edges == {d.config})
  }

  lemma ReconciledHeader(c: Config, args: Args, secret: string)
    requires c.origins != [] && secret != "" && Reconcile(c, args, secret).Ok?
    ensures var c' := Reconcile(c, args, secret).value;
            && c'.origins != [] && OriginHeader(c'.origins) == secret
            && (Sent(c') == Some(secret) <==> !OriginFits(c, args, secret) || Sent(c) == Some(secret))
            && (|c.origins| == 1 ==> |c'.origins| == 1 && Sent(c') == Some(secret))
  {
    var others := OtherHeaders(c.origins[0].headers);
    FirstHeaderAfterOthers(others, secret);
  }

  lemma CleanOriginsDiffer(c: Config, args: Args, secret: string)
    requires c.origins != [] && secret != "" && !OriginFits(c, args, secret)
    ensures CleanOrigins(c, args, secret) != c.origins
  {
    FirstHeaderAfterOthers(OtherHeaders(c.origins[0].headers), secret);
  }

  /**
   When the reply says the secret is live, all edges send exactly that secret if and only if the first origin
   has the header: the code looks for it in any origin.
   */
  lemma LiveSecretIsEverywhere(d: Option<Distribution>, args: Args, token: string)
    requires (d.Some? ==> Valid(d.value)) && token != "" && Ensure(d, args, token).Ok?
    requires Ensure(d, args, token).value.1.secretLive
    ensures var (d', reply) := Ensure(d, args, token).value;
            (forall c :: c in d'.edges ==> Sent(c) == Some(reply.secret)) <==>
            (d.Some? ==> Sent(d.value.config).Some?)
  {
    var (d', reply) := Ensure(d, args, token).value;
    if d.Some? {
      ReconciledHeader(d.value.config, args, reply.secret);
      assert d.value.config in d'.edges;
    }
  }

  /** A live web ACL is the one every edge still applies. */
  lemma LiveAclIsEverywhere(d: Option<Distribution>, args: Args, token: string)
    requires (d.Some? ==> Valid(d.value)) && Ensure(d, args, token).Ok?
    requires Ensure(d, args, token).value.1.webAclLive
    ensures var (d', reply) := Ensure(d, args, token).value;
            forall c :: c in d'.edges ==> c.webAcl == reply.webAcl
  {
  }

  lemma EnsureKeepsValid(d: Option<Distribution>, args: Args, token: string)
    requires (d.Some? ==> Valid(d.value)) && token != "" && Ensure(d, args, token).Ok?
    ensures Valid(Ensure(d, args, token).value.0)
  {
    if d.Some? {
      ReconciledHeader(d.value.config, args, SecretFor(d.value.config, token));
    }
  }

  /** Repeating the call with the same arguments, however far the first has spread, changes nothing. */
  lemma EnsureTwice(d: Option<Distribution>, args: Args, token: string, d2: Distribution, token2: string)
    requires (d.Some? ==> Valid(d.value)) && token != "" && token2 != "" && Ensure(d, args, token).Ok?
    requires args.certificate != "" ==> args.alias != ""
    requires Propagates(Ensure(d, args, token).value.0, d2) && d2.config.origins != []
    ensures Ensure(Some(d2), args, token2).Ok?
    ensures var again := Ensure(Some(d2), args, token2).value;
            again.0 == d2 && again.1.secret == Ensure(d, args, token).value.1.secret
            && again.1.webAcl == Ensure(d, args, token).value.1.webAcl
  {
    if d.Some? {
      ReconciledHeader(d.value.config, args, SecretFor(d.value.config, token));
    }
  }

  /**
   How the edges reach the origin after a successful call, and what they keep of an old configuration: headers that
   somebody else added to the first origin, and an unchanged comment if no region is known.
   */
  lemma OriginIsWanted(d: Option<Distribution>, args: Args, token: string)
    requires (d.Some? ==> Valid(d.value)) && token != "" && Ensure(d, args, token).Ok?
    ensures var (d', reply) := Ensure(d, args, token).value;
            var c := d'.config;
            && c.origins != [] && c.origins[0].domain == args.origin && c.enabled
            && c.origins[0].protocol == (if args.originHttps then "https-only" else "http-only")
            && (forall h :: h in c.origins[0].headers && h.name != "x-recoder-origin" <==>
                  h.name != "x-recoder-origin" && d.Some? && h in d.value.config.origins[0].headers)
            && c.comment == (if args.comment != "" then args.comment
                             else if d.Some? then d.value.config.comment else args.name)
  {
    var c := Ensure(d, args, token).value.0.config;
    if d.Some? {
      var old0 := d.value.config.origins[0];
      forall h: Header | h.name != ORIGIN_HEADER ensures h in c.origins[0].headers <==> h in old0.headers {
        OthersStay(old0.headers, SecretFor(d.value.config, token), h);
      }
    }
  }

  lemma OthersStay(headers: seq<Header>, secret: string, h: Header)
    requires h.name != ORIGIN_HEADER
    ensures h in OtherHeaders(headers) + (if secret != "" then [Header(ORIGIN_HEADER, secret)] else []) <==> h in headers
  {
  }

  /**
   With alias and certificate the alias holds alone.  The certificate is the given one exactly if the distribution is
   new, or had other aliases, or had that certificate: a new certificate for the alias it has is not taken over.
   Without a certificate an old distribution keeps both, and a new one has neither.
   */
  lemma NameIsWanted(d: Option<Distribution>, args: Args, token: string)
    requires (d.Some? ==> Valid(d.value)) && Ensure(d, args, token).Ok?
    ensures var c := Ensure(d, args, token).value.0.config;
            && (args.alias != "" && args.certificate != "" ==>
                  && c.aliases == [args.alias]
                  && (c.certificate == args.certificate <==>
                      d.None? || d.value.config.aliases != [args.alias] || d.value.config.certificate == args.certificate))
            && (args.alias == "" || args.certificate == "" ==>
                  if d.Some? then c.aliases == d.value.config.aliases && c.certificate == d.value.config.certificate
                  else c.aliases == [] && c.certificate == "")
  {
  }

  /** A web ACL is attached, replaced or detached as asked, but one that the code did not make is not detached. */
  lemma AclIsWanted(d: Option<Distribution>, args: Args, token: string)
    requires (d.Some? ==> Valid(d.value)) && Ensure(d, args, token).Ok?
    ensures var c := Ensure(d, args, token).value.0.config;
            var before := if d.Some? then d.value.config.webAcl else "";
            var foreign := before != "" && forall i :: 0 <= i <= |before| ==> !("/webacl/recoder-" <= before[i..]);
            c.webAcl == if args.webAcl.None? || (args.webAcl == Some("") && foreign) then before else args.webAcl.value
  {
  }

  /** What the reply says: whether the distribution is new, its secret and web ACL, and since when they are everywhere. */
  lemma ReplyExactly(d: Option<Distribution>, args: Args, token: string)
    requires (d.Some? ==> Valid(d.value)) && token != "" && Ensure(d, args, token).Ok?
    ensures var (d', reply) := Ensure(d, args, token).value;
            && (reply.created <==> d.None?)
            && reply.secret == OriginHeader(d'.config.origins) && reply.webAcl == d'.config.webAcl
            && (d.Some? && OriginHeader(d.value.config.origins) != "" ==>
                  reply.secret == OriginHeader(d.value.config.origins))
            && (d.None? || OriginHeader(d.value.config.origins) == "" ==> reply.secret == token)
            && (reply.secretLive <==> d.None? || (d.value.deployed && OriginHeader(d.value.config.origins) != ""))
            && (reply.webAclLive <==> d.None? || (d.value.deployed && args.webAcl == Some(d.value.config.webAcl)))
  {
    if d.Some? {
      ReconciledHeader(d.value.config, args, SecretFor(d.value.config, token));
    }
  }

  /** The stored distribution changes only if its configuration does, and then edges may serve every earlier one too. */
  lemma EdgesMayLag(d: Option<Distribution>, args: Args, token: string)
    requires (d.Some? ==> Valid(d.value)) && Ensure(d, args, token).Ok?
    ensures var d' := Ensure(d, args, token).value.0;
            && (d.Some? && d'.config == d.value.config ==> d' == d.value)
            && (d.None? || d'.config != d.value.config ==> !d'.deployed)
            && (forall c :: c in d'.edges <==> c == d'.config || (d.Some? && c in d.value.edges))
  {
  }

  /** A certificate without an alias on an existing distribution is the one call that fails of itself. */
  lemma EnsureFailsOnlyWithoutAlias(d: Option<Distribution>, args: Args, token: string)
    requires d.Some? ==> Valid(d.value)
    ensures Ensure(d, args, token).Err? <==>
            d.Some? && args.certificate != "" && args.alias == "" && d.value.config.aliases != [""]
  {
  }

  // ---------------------------------------------------------------------------------------------
  // The code's edits
  // ---------------------------------------------------------------------------------------------

  class CloudFront {
    var dist: Option<Distribution>
    /** Remote calls that still succeed; the one after them is refused. */
    var budget: nat

    constructor (d: Option<Distribution>, n: nat)
      ensures dist == d && budget == n
    {
      dist, budget := d, n;
    }

    method Call() returns (ok: bool)
      modifies this`budget
      ensures ok <==> old(budget) > 0
      ensures budget == if ok then old(budget) - 1 else 0
    {
      ok := budget > 0;
      if ok {
        budget := budget - 1;
      }
    }

    /** One mutating call: it takes effect as a whole or not at all. */
    method Push(d: Distribution) returns (ok: bool)
      modifies this
      ensures ok <==> old(budget) > 0
      ensures dist == if ok then Some(d) else old(dist)
    {
      ok := Call();
      if ok {
        dist := Some(d);
      }
    }

    /** Edits a copy of the configuration field by field; the flag says whether anything was edited. */
    method Edit(c: Config, args: Args, secret: string) returns (r: Result<(Config, bool), Error>)
      requires c.origins != [] && secret != ""
      ensures match Reconcile(c, args, secret)
              case Err(e) => r == Err(e)
              case Ok(want) => r == Ok((want, want != c))
    {
      var want := Template(args, secret);
      var cfg, changed := c, false;
      if args.comment != "" && cfg.comment != want.comment {
        cfg := cfg.(comment := want.comment);
        changed := true;
      }
      if !OriginFits(cfg, args, secret) {
        CleanOriginsDiffer(c, args, secret);
        cfg := cfg.(origins := CleanOrigins(cfg, args, secret));
        changed := true;
      }
      assert changed <==> cfg != c;
      if args.certificate != "" && cfg.aliases != [args.alias] {
        if args.alias == "" {
          return Err(MissingAlias);
        }
        cfg := cfg.(aliases := want.aliases, certificate := want.certificate);
        changed := true;
      }
      assert changed <==> cfg != c;
      var acl := WantedAcl(c, args);
      if acl.Some? && c.webAcl != acl.value {
        cfg := cfg.(webAcl := acl.value);
        changed := true;
      }
      if !cfg.enabled {
        cfg := cfg.(enabled := true);
        changed := true;
      }
      assert changed <==> cfg != c;
      return Ok((cfg, changed));
    }

    /** Finding, reading and, if something has to change, creating or updating; a refusal leaves all as it was. */
    method EnsureDistribution(args: Args, token: string) returns (reply: Result<Reply, Error>)
      requires dist.Some? ==> dist.value.config.origins != []
      requires token != ""
      modifies this
      ensures reply == Err(RemoteFailure) ==> dist == old(dist) && old(budget) < 3
      ensures reply != Err(RemoteFailure) ==>
                match Ensure(old(dist), args, token)
                case Err(e) => reply == Err(e) && dist == old(dist)
                case Ok(done) => reply == Ok(done.1) && dist == Some(done.0)
    {
      var ok := Call();
      if !ok {
        return Err(RemoteFailure);
      }
      if dist.None? {
        var c := Template(args, token);
        ok := Push(Distribution(c, false, {c}));
        return if ok then Ok(Reply(true, token, true, c.webAcl, true)) else Err(RemoteFailure);
      }
      ok := Call();
      if !ok {
        return Err(RemoteFailure);
      }
      var d := dist.value;
      var cfg := d.config;
      var found := OriginHeader(cfg.origins);
      var live := found != "" && d.deployed;
      var aclBefore := cfg.webAcl;
      var secret := if found == "" then token else found;
      var edited := Edit(cfg, args, secret);
      if edited.Err? {
        return Err(edited.error);
      }
      var changed;
      cfg, changed := edited.value.0, edited.value.1;
      if changed {
        ok := Push(Distribution(cfg, false, d.edges + {cfg}));
        if !ok {
          return Err(RemoteFailure);
        }
      }
      var acl := WantedAcl(d.config, args);
      return Ok(Reply(false, secret, live, cfg.webAcl, d.deployed && acl.Some? && aclBefore == acl.value));
    }
  }
}
