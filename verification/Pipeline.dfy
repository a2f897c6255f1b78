/**
 The request pipeline: the layers of internal/proxy/middleware.go and internal/proxy/dynamic_rule.go,
 composed by internal/proxy/proxy.go. A handler is a function of the world, the request and the flag
 that marks an identified caller; a middleware is a function from handlers to handlers.
 */
module Pipeline {
  import opened Wrappers
  import Limiter
  import RuleTable

  /** The state that layers may change: the limiters by name, and the table of dynamic rules. */
  datatype World = World(limiters: map<string, Limiter.State>, rules: RuleTable.Table)

  /** A request as the layers see it, after the sanitizer. `now` gives the time that a limiter, or the
      rule table under the name "", reads while serving it; `order` is the order in which the rules are
      visited. */
  datatype Request = Request(header: string -> string, queryKey: string, remoteAddr: string, host: string,
                             path: string, bodyLength: int, now: string -> int, order: seq<string>)

  datatype Response = RateLimited(retryAfter: int) | TooLarge | Served(status: int)

  /** Library calls and configuration-time values: the hash of a key, `net.SplitHostPort`, the subject
      that `Tokens.ExtractBearerSub` reads, the request matcher, and `path.Match`. */
  datatype Env = Env(hash: string -> string, splitHost: string -> Option<string>, sub: string -> string,
                     matches: Request -> bool, glob: RuleTable.Glob)

  /** `Passive` stands for the layers that never refuse and charge nothing: the request logger, the
      header sanitizer and the path filter. */
  datatype Layer =
    | Passive
    | BodyLimit(max: int)
    | RuleCheck(present: bool)
    | ApiKeyLimit(limiter: Option<string>, matcher: bool, keyHeader: string, includeIP: bool)
    | JwtLimit(limiter: Option<string>, includeIP: bool)
    | IpLimit(limiter: Option<string>, skipIfIdentified: bool)

  // ---------- What one layer does ----------

  function ClientIP(env: Env, r: Request): string {
    var host := env.splitHost(r.remoteAddr);
    if host.Some? && host.value != "" then host.value else r.remoteAddr
  }

  function ExtractApiKey(r: Request, keyHeader: string): string {
    if keyHeader != "" && r.header(keyHeader) != "" then r.header(keyHeader) else r.queryKey
  }

  function BearerSub(env: Env, r: Request): string {
    env.sub(r.header("Authorization"))
  }

  function WithIP(env: Env, r: Request, includeIP: bool, key: string): string {
    if includeIP then ClientIP(env, r) + ":" + key else key
  }

  function ApiKeyBucket(env: Env, r: Request, keyHeader: string): string {
    var key := ExtractApiKey(r, keyHeader);
    if key == "" then ClientIP(env, r) else "k:" + env.hash(key)
  }

  /** The host part of the remote address if there is one, and the whole of it otherwise. */
  lemma ClientAddress(env: Env, r: Request)
    ensures forall host :: host != "" && env.splitHost(r.remoteAddr) == Some(host) ==> ClientIP(env, r) == host
    ensures env.splitHost(r.remoteAddr) == None || env.splitHost(r.remoteAddr) == Some("") ==>
              ClientIP(env, r) == r.remoteAddr
  {
  }

  /** With a hash without collisions two requests share a bucket of the API-key limiter if and only if they
      bear the same key, in the header if it is there and else in the query, or none and come from one address. */
  lemma SharesBucket(env: Env, r: Request, q: Request, keyHeader: string)
    requires forall a, b :: env.hash(a) == env.hash(b) ==> a == b
    requires !("k:" <= ClientIP(env, r)) && !("k:" <= ClientIP(env, q))
    ensures var inHeader := (x: Request) => keyHeader != "" && x.header(keyHeader) != "";
            var key := (x: Request) => if inHeader(x) then x.header(keyHeader) else x.queryKey;
            ApiKeyBucket(env, r, keyHeader) == ApiKeyBucket(env, q, keyHeader)
            <==> key(r) == key(q) && (key(r) == "" ==> ClientIP(env, r) == ClientIP(env, q))
  {
    var a, b := ExtractApiKey(r, keyHeader), ExtractApiKey(q, keyHeader);
    assert ("k:" + env.hash(a))[2..] == env.hash(a) && ("k:" + env.hash(b))[2..] == env.hash(b);
    assert "k:" <= "k:" + env.hash(a) && "k:" <= "k:" + env.hash(b);
  }

  /** With the address in the key a limiter counts the clients of one address apart from those of another;
      without it, it does not look at the address. */
  lemma CountsAddressesApart(env: Env, r: Request, q: Request, key: string)
    ensures WithIP(env, r, true, key) == WithIP(env, q, true, key) <==> ClientIP(env, r) == ClientIP(env, q)
    ensures WithIP(env, r, false, key) == WithIP(env, q, false, key) == key
  {
    var a, b := ClientIP(env, r), ClientIP(env, q);
    if WithIP(env, r, true, key) == WithIP(env, q, true, key) {
      assert |a| == |b| && (a + ":" + key)[..|a|] == a && (b + ":" + key)[..|b|] == b;
    }
  }

  /** Something that may refuse a request. */
  datatype Charge = Body(max: int) | Rules | Limit(limiter: string, key: string)

  /** The charge that a layer makes for a request, whatever the state of the limiters. */
  function Demand(env: Env, layer: Layer, r: Request, identified: bool): Option<Charge> {
    match layer
    case Passive => None
    case BodyLimit(max) => if max > 0 then Some(Body(max)) else None
    case RuleCheck(present) => if present then Some(Rules) else None
    case ApiKeyLimit(limiter, matcher, keyHeader, includeIP) =>
      if limiter.None? || !matcher || !env.matches(r) then None
      else Some(Limit(limiter.value, WithIP(env, r, includeIP, ApiKeyBucket(env, r, keyHeader))))
    case JwtLimit(limiter, includeIP) =>
      if limiter.None? || BearerSub(env, r) == "" then None
      else Some(Limit(limiter.value, WithIP(env, r, includeIP, "s:" + BearerSub(env, r))))
    case IpLimit(limiter, skip) =>
      if limiter.None? || (skip && identified) then None
      else Some(Limit(limiter.value, ClientIP(env, r)))
  }

  /** Whether the caller counts as identified behind the layer. */
  predicate Marks(env: Env, layer: Layer, r: Request, identified: bool) {
    identified || (layer.JwtLimit? && layer.limiter.Some? && BearerSub(env, r) != "")
  }

  /** Makes a charge; the response is there when it is refused. */
  function Pay(env: Env, w: World, c: Charge, r: Request): (World, Option<Response>) {
    match c
    case Body(max) => (w, if r.bodyLength > max then Some(TooLarge) else None)
    case Rules =>
      var pick := RuleTable.FirstIn(w.rules, r.order, r.host, r.path, r.now(""), env.glob);
      (w.(rules := RuleTable.AfterCheck(w.rules, pick)),
       if RuleTable.Answer(w.rules, pick) then None else Some(RateLimited(60)))
    case Limit(name, key) =>
      if name !in w.limiters then (w, None)
      else
        var (after, answer) := Limiter.Allow(w.limiters[name], key, r.now(name));
        (w.(limiters := w.limiters[name := after]),
         if answer.allowed then None else Some(RateLimited(answer.retryAfter)))
  }

  // ---------- Composition ----------

  type Handler = (World, Request, bool) -> (World, Response)

  /** The middleware of a layer. */
  function Middleware(env: Env, layer: Layer, next: Handler): Handler {
    (w: World, r: Request, identified: bool) =>
      var charge := Demand(env, layer, r, identified);
      if charge.None? then next(w, r, Marks(env, layer, r, identified))
      else
        var (after, refused) := Pay(env, w, charge.value, r);
        if refused.Some? then (after, refused.value) else next(after, r, Marks(env, layer, r, identified))
  }

  function Wrapped(env: Env, layers: seq<Layer>, handler: Handler): Handler {
    if layers == [] then handler else Middleware(env, layers[0], Wrapped(env, layers[1..], handler))
  }

  /** Wraps from the last layer to the first. */
  method ApplyMiddleware(env: Env, handler: Handler, layers: seq<Layer>) returns (wrapped: Handler)
    ensures wrapped == Wrapped(env, layers, handler)
  {
    wrapped := handler;
    for i := |layers| downto 0
      invariant wrapped == Wrapped(env, layers[i..], handler)
    {
      wrapped := Middleware(env, layers[i], wrapped);
      assert layers[i..][1..] == layers[i + 1..];
    }
  }

  // ---------- Charges are made in list order, up to the first refusal ----------

  predicate Identified(env: Env, layers: seq<Layer>, r: Request, identified: bool)
    decreases |layers|
  {
    if layers == [] then identified else Identified(env, layers[1..], r, Marks(env, layers[0], r, identified))
  }

  function Made(charge: Option<Charge>): seq<Charge> {
    if charge.Some? then [charge.value] else []
  }

  /** The charges a list of layers makes, in order, for a request that nobody refuses. */
  function Demands(env: Env, layers: seq<Layer>, r: Request, identified: bool): seq<Charge>
    decreases |layers|
  {
    if layers == [] then []
    else
      var charge := Demand(env, layers[0], r, identified);
      Made(charge) + Demands(env, layers[1..], r, Marks(env, layers[0], r, identified))
  }

  function PayAll(env: Env, w: World, charges: seq<Charge>, r: Request): World
    decreases |charges|
  {
    if charges == [] then w else PayAll(env, Pay(env, w, charges[0], r).0, charges[1..], r)
  }

  /** Every one of the charges is made and none is refused. */
  predicate AllPass(env: Env, w: World, charges: seq<Charge>, r: Request)
    decreases |charges|
  {
    charges == [] || (Pay(env, w, charges[0], r).1.None? && AllPass(env, Pay(env, w, charges[0], r).0, charges[1..], r))
  }

  /** `n` of the charges are made: all of them, or those up to and including the first refused one. */
  ghost predicate StopsAfter(env: Env, w: World, charges: seq<Charge>, r: Request, n: nat, refused: Option<Response>) {
    && n <= |charges|
    && match refused
       case None => n == |charges| && AllPass(env, w, charges, r)
       case Some(_) => n > 0 && AllPass(env, w, charges[..n - 1], r)
                       && Pay(env, PayAll(env, w, charges[..n - 1], r), charges[n - 1], r).1 == refused
  }

  lemma StopsLater(env: Env, w: World, first: Charge, rest: seq<Charge>, r: Request, n: nat, refused: Option<Response>)
    requires Pay(env, w, first, r).1.None?
    requires StopsAfter(env, Pay(env, w, first, r).0, rest, r, n, refused)
    ensures StopsAfter(env, w, [first] + rest, r, n + 1, refused)
    ensures PayAll(env, w, ([first] + rest)[..n + 1], r) == PayAll(env, Pay(env, w, first, r).0, rest[..n], r)
  {
    var all := [first] + rest;
    assert all[1..] == rest && all[..n + 1][1..] == rest[..n];
    if n > 0 { assert all[..n][1..] == rest[..n - 1] && all[n] == rest[n - 1]; }
  }

  lemma StopsAtOnce(env: Env, w: World, first: Charge, rest: seq<Charge>, r: Request, refused: Option<Response>)
    requires refused.Some? && Pay(env, w, first, r).1 == refused
    ensures StopsAfter(env, w, [first] + rest, r, 1, refused)
    ensures PayAll(env, w, ([first] + rest)[..1], r) == Pay(env, w, first, r).0
  {
    var all := [first] + rest;
    assert all[..0] == [] && all[..1] == [first] && [first][1..] == [];
  }

  /** For a list of layers of any length: the charges made are a prefix of the layers' demands, the world
      is what these charges make of it, and the handler runs if and only if none was refused. */
  lemma {:induction false} ChargesAPrefix(env: Env, layers: seq<Layer>, handler: Handler, w: World, r: Request,
      identified: bool)
    returns (n: nat, refused: Option<Response>)
    ensures var charges := Demands(env, layers, r, identified);
            && StopsAfter(env, w, charges, r, n, refused)
            && var paid := PayAll(env, w, charges[..n], r);
            && Wrapped(env, layers, handler)(w, r, identified)
               == match refused
                  case None => handler(paid, r, Identified(env, layers, r, identified))
                  case Some(response) => (paid, response)
    decreases |layers|
  {
    if layers == [] {
      n, refused := 0, None;
    } else {
      var flag := Marks(env, layers[0], r, identified);
      var charge := Demand(env, layers[0], r, identified);
      var rest := Demands(env, layers[1..], r, flag);
      if charge.None? {
        n, refused := ChargesAPrefix(env, layers[1..], handler, w, r, flag);
        assert Demands(env, layers, r, identified) == rest;
      } else {
        var (after, no) := Pay(env, w, charge.value, r);
        var charges := [charge.value] + rest;
        assert Demands(env, layers, r, identified) == charges && charges[1..] == rest;
        if no.Some? {
          n, refused := 1, no;
          StopsAtOnce(env, w, charge.value, rest, r, no);
        } else {
          n, refused := ChargesAPrefix(env, layers[1..], handler, after, r, flag);
          StopsLater(env, w, charge.value, rest, r, n, refused);
          n := n + 1;
        }
      }
    }
  }

  /** A limiter that is not charged keeps its state. */
  lemma {:induction false} UnchargedUntouched(env: Env, w: World, charges: seq<Charge>, r: Request, name: string)
    requires forall c :: c in charges ==> !(c.Limit? && c.limiter == name)
    ensures Lookup(PayAll(env, w, charges, r).limiters, name) == Lookup(w.limiters, name)
    decreases |charges|
  {
    if charges != [] {
      assert charges[0] in charges;
      UnchargedUntouched(env, Pay(env, w, charges[0], r).0, charges[1..], r, name);
    }
  }

  /** A limiter that is charged once counts exactly one request, under the key of the charge. */
  lemma {:induction false} ChargedOnce(env: Env, w: World, charges: seq<Charge>, i: nat, r: Request, name: string)
    requires i < |charges| && charges[i].Limit? && charges[i].limiter == name && name in w.limiters
    requires forall j :: 0 <= j < |charges| && j != i ==> !(charges[j].Limit? && charges[j].limiter == name)
    ensures Lookup(PayAll(env, w, charges, r).limiters, name)
         == Some(Limiter.Allow(w.limiters[name], charges[i].key, r.now(name)).0)
    decreases |charges|
  {
    var after := Pay(env, w, charges[0], r).0;
    if i == 0 {
      UnchargedUntouched(env, after, charges[1..], r, name);
    } else {
      ChargedOnce(env, after, charges[1..], i - 1, r, name);
    }
  }

  // ---------- Identified callers and the IP limiter ----------

  /** `name` is only used by IP layers that stand back for identified callers, each of them behind a
      layer that identifies callers by token. */
  predicate StandsBack(layers: seq<Layer>, name: string, identified: bool)
    decreases |layers|
  {
    if layers == [] then true
    else
      && (match layers[0]
          case ApiKeyLimit(limiter, _, _, _) => limiter != Some(name)
          case JwtLimit(limiter, _) => limiter != Some(name)
          case IpLimit(limiter, skip) => limiter == Some(name) ==> skip && identified
          case _ => true)
      && StandsBack(layers[1..], name, identified || (layers[0].JwtLimit? && layers[0].limiter.Some?))
  }

  lemma {:induction false} IdentifiedNeverDemands(env: Env, layers: seq<Layer>, r: Request, name: string,
      identified: bool, c: Charge)
    requires StandsBack(layers, name, identified) && BearerSub(env, r) != ""
    requires c in Demands(env, layers, r, identified)
    ensures !(c.Limit? && c.limiter == name)
    decreases |layers|
  {
    var charge := Demand(env, layers[0], r, identified);
    if charge != Some(c) {
      IdentifiedNeverDemands(env, layers[1..], r, name, Marks(env, layers[0], r, identified), c);
    }
  }

  /** A request whose Bearer payload has a subject never touches the IP limiter. */
  lemma IdentifiedSkipsIpLimiter(env: Env, layers: seq<Layer>, handler: Handler, w: World, r: Request, name: string)
    requires StandsBack(layers, name, false) && BearerSub(env, r) != ""
    requires forall v: World, flag :: Lookup(handler(v, r, flag).0.limiters, name) == Lookup(v.limiters, name)
    ensures Lookup(Wrapped(env, layers, handler)(w, r, false).0.limiters, name) == Lookup(w.limiters, name)
  {
    var n, refused := ChargesAPrefix(env, layers, handler, w, r, false);
    var charges := Demands(env, layers, r, false);
    forall c | c in charges[..n] ensures !(c.Limit? && c.limiter == name) {
      IdentifiedNeverDemands(env, layers, r, name, false, c);
    }
    UnchargedUntouched(env, w, charges[..n], r, name);
  }

  datatype Settings = Settings(maxBody: int, admin: bool, matcher: bool, keyHeader: string, keyIP: bool, jwtIP: bool,
      skip: bool)

  /** The layers in the order in which the proxy assembles them. */
  function Assembled(s: Settings): seq<Layer> {
    [Passive, BodyLimit(s.maxBody), Passive, Passive, RuleCheck(s.admin),
     ApiKeyLimit(Some("apikey"), s.matcher, s.keyHeader, s.keyIP), JwtLimit(Some("jwt"), s.jwtIP),
     IpLimit(Some("ip"), s.skip)]
  }

  predicate NotALimiter(layer: Layer) {
    layer.Passive? || layer.BodyLimit? || layer.RuleCheck?
  }

  /** Layers that are not limiters charge no limiter and identify nobody. */
  lemma {:induction false} BeforeTheLimiters(env: Env, front: seq<Layer>, rest: seq<Layer>, r: Request)
    requires forall layer :: layer in front ==> NotALimiter(layer)
    ensures Demands(env, front + rest, r, false) == Demands(env, front, r, false) + Demands(env, rest, r, false)
    ensures forall c :: c in Demands(env, front, r, false) ==> !c.Limit?
    decreases |front|
  {
    if front == [] {
      assert front + rest == rest;
    } else {
      assert front[0] in front;
      var later := front[1..];
      assert (front + rest)[1..] == later + rest;
      BeforeTheLimiters(env, later, rest, r);
      var charge := Demand(env, front[0], r, false);
      assert !Marks(env, front[0], r, false);
      assert Demands(env, front, r, false) == Made(charge) + Demands(env, later, r, false);
      assert Demands(env, front + rest, r, false) == Made(charge) + Demands(env, later + rest, r, false);
    }
  }

  lemma {:induction false} StandBackBehind(front: seq<Layer>, rest: seq<Layer>, name: string)
    requires forall layer :: layer in front ==> NotALimiter(layer)
    ensures StandsBack(front + rest, name, false) <==> StandsBack(rest, name, false)
    decreases |front|
  {
    if front == [] {
      assert front + rest == rest;
    } else {
      assert front[0] in front;
      assert (front + rest)[1..] == front[1..] + rest;
      StandBackBehind(front[1..], rest, name);
    }
  }

  lemma ThreeLayers(env: Env, a: Layer, b: Layer, c: Layer, r: Request)
    ensures var afterA := Marks(env, a, r, false);
            var afterB := Marks(env, b, r, afterA);
            Demands(env, [a, b, c], r, false)
            == Made(Demand(env, a, r, false)) + Made(Demand(env, b, r, afterA)) + Made(Demand(env, c, r, afterB))
  {
    var afterA := Marks(env, a, r, false);
    var afterB := Marks(env, b, r, afterA);
    assert [a, b, c][1..] == [b, c] && [b, c][1..] == [c] && [c][1..] == [];
    assert Demands(env, [c], r, afterB) == Made(Demand(env, c, r, afterB));
    assert Demands(env, [b, c], r, afterA) == Made(Demand(env, b, r, afterA)) + Demands(env, [c], r, afterB);
  }

  lemma LimitersStandBack(key: Layer, jwt: Layer)
    requires key.ApiKeyLimit? && key.limiter == Some("apikey") && jwt.JwtLimit? && jwt.limiter == Some("jwt")
    ensures StandsBack([key, jwt, IpLimit(Some("ip"), true)], "ip", false)
  {
    var ip := IpLimit(Some("ip"), true);
    assert [key, jwt, ip][1..] == [jwt, ip] && [jwt, ip][1..] == [ip] && [ip][1..] == [];
    assert StandsBack([ip], "ip", true);
  }

  /** What the three limiter layers charge: the IP limiter last, and not for identified callers if told to
      skip them. */
  lemma LimiterDemands(env: Env, r: Request, key: Layer, jwt: Layer, skip: bool)
    requires key.ApiKeyLimit? && key.limiter == Some("apikey") && jwt.JwtLimit? && jwt.limiter == Some("jwt")
    ensures var others := Made(Demand(env, key, r, false)) + Made(Demand(env, jwt, r, false));
            && (forall c :: c in others ==> c.Limit? && c.limiter != "ip")
            && Demands(env, [key, jwt, IpLimit(Some("ip"), skip)], r, false)
               == others + (if skip && BearerSub(env, r) != "" then [] else [Limit("ip", ClientIP(env, r))])
  {
    ThreeLayers(env, key, jwt, IpLimit(Some("ip"), skip), r);
  }

  /** In the assembled pipeline the IP limiter is asked last, and exactly for the requests that it is not
      told to skip or that carry no subject. */
  lemma AssembledIpDemand(env: Env, r: Request, s: Settings)
    returns (front: seq<Charge>)
    ensures forall c :: c in front ==> !(c.Limit? && c.limiter == "ip")
    ensures var layers := Assembled(s);
            && Demands(env, layers, r, false)
               == front + (if s.skip && BearerSub(env, r) != "" then [] else [Limit("ip", ClientIP(env, r))])
            && (s.skip ==> StandsBack(layers, "ip", false))
  {
    var key, jwt := ApiKeyLimit(Some("apikey"), s.matcher, s.keyHeader, s.keyIP), JwtLimit(Some("jwt"), s.jwtIP);
    var first, limiters := [Passive, BodyLimit(s.maxBody), Passive, Passive, RuleCheck(s.admin)],
        [key, jwt, IpLimit(Some("ip"), s.skip)];
    assert Assembled(s) == first + limiters;
    BeforeTheLimiters(env, first, limiters, r);
    LimiterDemands(env, r, key, jwt, s.skip);
    if s.skip {
      LimitersStandBack(key, jwt);
      StandBackBehind(first, limiters, "ip");
    }
    front := Demands(env, first, r, false) + (Made(Demand(env, key, r, false)) + Made(Demand(env, jwt, r, false)));
  }
}
