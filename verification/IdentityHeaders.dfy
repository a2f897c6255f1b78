/**
 Which request headers reach the upstream: the sanitizer of internal/proxy/middleware.go, the handler of
 internal/proxy/proxy.go, and the headers injected by internal/auth/jwt/mapper.go and
 internal/auth/apikey/apikey.go. Header names are ASCII; token validation, filters and the e-mail
 allowlist are arbitrary functions.
 */
module IdentityHeaders {
  import opened Wrappers
  import opened Base64Url
  import opened Tokens
  import ApiKey

  type Fields = map<string, seq<string>>

  // ---------- Header names ----------

  function ToUpper(c: char): char {
    if 'a' <= c <= 'z' then (c as int - 32) as char else c
  }

  function Upper(s: string): string {
    if s == "" then "" else [ToUpper(s[0])] + Upper(s[1..])
  }

  predicate IsTokenChar(c: char) {
    'a' <= c <= 'z' || 'A' <= c <= 'Z' || '0' <= c <= '9' || c in "!#$%&'*+-.^_`|~"
  }

  predicate IsToken(s: string) {
    s == "" || (IsTokenChar(s[0]) && IsToken(s[1..]))
  }

  /** Capitals at the start and after each hyphen, small letters elsewhere. */
  function TitleCase(s: string, upper: bool): string {
    if s == "" then ""
    else [if upper then ToUpper(s[0]) else Lower(s[0])] + TitleCase(s[1..], s[0] == '-')
  }

  /** `http.CanonicalHeaderKey`: a name with a character that no token has is left alone. */
  function Canonical(name: string): string {
    if IsToken(name) then TitleCase(name, true) else name
  }

  /** The name starts with the prefix, whatever the case of either. */
  predicate Carries(name: string, prefix: string) {
    Upper(prefix) <= Upper(name)
  }

  lemma CaseOfChar(c: char)
    ensures IsTokenChar(ToUpper(c)) <==> IsTokenChar(c)
    ensures IsTokenChar(Lower(c)) <==> IsTokenChar(c)
    ensures ToUpper(ToUpper(c)) == ToUpper(c) == ToUpper(Lower(c)) && Lower(Lower(c)) == Lower(c)
    ensures (ToUpper(c) == '-' <==> c == '-') && (Lower(c) == '-' <==> c == '-')
  {
  }

  lemma {:induction false} TitleCaseIsIdempotent(s: string, upper: bool)
    ensures TitleCase(TitleCase(s, upper), upper) == TitleCase(s, upper)
    ensures Upper(TitleCase(s, upper)) == Upper(s)
    ensures IsToken(TitleCase(s, upper)) <==> IsToken(s)
  {
    if s != "" {
      CaseOfChar(s[0]);
      TitleCaseIsIdempotent(s[1..], s[0] == '-');
      assert TitleCase(s, upper)[1..] == TitleCase(s[1..], s[0] == '-');
    }
  }

  lemma {:induction false} UpperOfPrefix(prefix: string, rest: string)
    ensures Carries(prefix + rest, prefix)
  {
    if prefix != "" {
      assert (prefix + rest)[1..] == prefix[1..] + rest;
      UpperOfPrefix(prefix[1..], rest);
    }
  }

  /** Canonical names are a fixed point, and only the case of letters changes. */
  lemma CanonicalLaws(name: string, prefix: string)
    ensures Canonical(Canonical(name)) == Canonical(name)
    ensures Carries(Canonical(name), prefix) <==> Carries(name, prefix)
  {
    TitleCaseIsIdempotent(name, true);
  }

  /** Capitals at the start and after hyphens, small letters elsewhere, in names that are tokens. */
  lemma CanonicalAt(name: string, i: nat)
    requires i < |name|
    ensures |Canonical(name)| == |name|
    ensures (forall c :: c in name ==> IsTokenChar(c)) ==>
              Canonical(name)[i] == if i == 0 || name[i - 1] == '-' then ToUpper(name[i]) else Lower(name[i])
    ensures !(forall c :: c in name ==> IsTokenChar(c)) ==> Canonical(name) == name
  {
    TokensHaveTokenChars(name);
    TitleCaseAt(name, true, i);
  }

  lemma {:induction false} TokensHaveTokenChars(s: string)
    ensures IsToken(s) <==> forall c :: c in s ==> IsTokenChar(c)
  {
    if s != "" {
      TokensHaveTokenChars(s[1..]);
      assert s == [s[0]] + s[1..];
    }
  }

  lemma {:induction false} TitleCaseAt(s: string, upper: bool, i: nat)
    requires i < |s|
    ensures |TitleCase(s, upper)| == |s|
    ensures TitleCase(s, upper)[i]
         == if (if i == 0 then upper else s[i - 1] == '-') then ToUpper(s[i]) else Lower(s[i])
  {
    if i > 0 {
      TitleCaseAt(s[1..], s[0] == '-', i - 1);
    } else if |s| > 1 {
      TitleCaseAt(s[1..], s[0] == '-', 0);
    }
  }

  /** Token characters are the visible ASCII characters but the delimiters, section 5.6.2 of RFC 9110. */
  lemma TokenCharsExactly(c: char)
    ensures IsTokenChar(c) <==> '!' <= c <= '~' && c !in "\"(),/:;<=>?@[\\]{}"
  {
  }

  lemma {:induction false} UpperAt(s: string)
    ensures |Upper(s)| == |s| && forall i :: 0 <= i < |s| ==> Upper(s)[i] == ToUpper(s[i])
  {
    if s != "" { UpperAt(s[1..]); }
  }

  /** Two strings are equal up to the case of letters if and only if their capitals are equal. */
  lemma FoldsAlike(a: string, b: string)
    ensures EqualFold(a, b) <==> Upper(a) == Upper(b)
  {
    UpperAt(a);
    UpperAt(b);
    assert forall x, y :: Lower(x) == Lower(y) <==> ToUpper(x) == ToUpper(y);
    if Upper(a) == Upper(b) {
      assert forall i :: 0 <= i < |a| ==> ToUpper(a[i]) == Upper(a)[i] == ToUpper(b[i]);
    }
  }

  // ---------- Header maps ----------

  class Headers {
    var fields: Fields

    constructor (fields: Fields)
      ensures this.fields == fields
    {
      this.fields := fields;
    }

    method Set(name: string, value: string)
      modifies this
      ensures fields == old(fields)[Canonical(name) := [value]]
    {
      fields := fields[Canonical(name) := [value]];
    }

    method Del(name: string)
      modifies this
      ensures fields == old(fields) - {Canonical(name)}
    {
      fields := fields - {Canonical(name)};
    }
  }

  function Get(fields: Fields, name: string): string {
    var n := Canonical(name);
    if n in fields && fields[n] != [] then fields[n][0] else ""
  }

  /** A header that was set is found under every name with the same canonical form, and no other one changes. */
  lemma FoundWhenSet(fields: Fields, name: string, value: string, other: string)
    ensures Get(fields[Canonical(name) := [value]], other)
         == if Canonical(other) == Canonical(name) then value else Get(fields, other)
  {
  }

  function CanonicalAll(names: set<string>): set<string> {
    set name | name in names :: Canonical(name)
  }

  /** What the sanitizer leaves: names with the prefix go, except those stored in a form that `Del`
      does not find because it is not canonical. */
  function Stripped(fields: Fields, prefix: string): Fields {
    if prefix == "" then fields
    else map name | name in fields && !(Carries(name, prefix) && Canonical(name) == name) :: fields[name]
  }

  /** Only canonical names that carry the prefix go; all others keep their values. */
  lemma StrippedExactly(fields: Fields, prefix: string, name: string)
    ensures Lookup(Stripped(fields, prefix), name)
         == if prefix != "" && Upper(prefix) <= Upper(name) && Canonical(name) == name then None
            else Lookup(fields, name)
  {
  }

  method StripHeadersWithPrefix(header: Headers, prefix: string)
    modifies header
    ensures header.fields == Stripped(old(header.fields), prefix)
  {
    if prefix == "" {
      return;
    }
    var prefixUpper := Upper(prefix);
    ghost var was := header.fields;
    var todo := header.fields.Keys;
    while todo != {}
      invariant todo <= was.Keys
      invariant forall name :: name in header.fields ==> name in was && header.fields[name] == was[name]
      invariant forall name :: name in was && name !in header.fields ==>
              Carries(name, prefix) && Canonical(name) == name
      invariant forall name :: name in was && name !in todo && Carries(name, prefix) && Canonical(name) == name ==>
              name !in header.fields
      decreases todo
    {
      var key :| key in todo;
      todo := todo - {key};
      // An entry that was deleted before it was reached is not visited.
      if key in header.fields && prefixUpper <= Upper(key) {
        CanonicalLaws(key, prefix);
        header.Del(key);
      }
    }
  }

  method ApplyHeaders(header: Headers, values: map<string, string>)
    modifies header
    ensures header.fields.Keys == old(header.fields.Keys) + CanonicalAll(values.Keys)
    ensures forall name :: name in old(header.fields) && name !in CanonicalAll(values.Keys) ==>
              header.fields[name] == old(header.fields)[name]
    ensures forall name :: name in CanonicalAll(values.Keys) ==>
              exists key :: key in values && Canonical(key) == name && header.fields[name] == [values[key]]
  {
    ghost var was := header.fields;
    var todo := values.Keys;
    while todo != {}
      invariant todo <= values.Keys
      invariant header.fields.Keys == was.Keys + CanonicalAll(values.Keys - todo)
      invariant forall name :: name in was && name !in CanonicalAll(values.Keys - todo) ==>
              header.fields[name] == was[name]
      invariant forall name :: name in CanonicalAll(values.Keys - todo) ==>
                  exists key :: key in values && Canonical(key) == name && header.fields[name] == [values[key]]
      decreases todo
    {
      var key :| key in todo;
      ghost var before := values.Keys - todo;
      todo := todo - {key};
      assert values.Keys - todo == before + {key};
      assert CanonicalAll(before + {key}) == CanonicalAll(before) + {Canonical(key)};
      header.Set(key, values[key]);
    }
    assert values.Keys - todo == values.Keys;
  }

  // ---------- What authentication injects ----------

  /** `admits` stands for the claim filters and the e-mail allowlist, `bytes` for the UTF-8 bytes of a
      string; `providers` counts the registered API-key plugins. */
  datatype Config = Config(headerPrefix: string, jwtEnabled: bool, mappings: map<string, string>,
                           validate: string -> Result<Claims, TokenError>, admits: Claims -> bool,
                           coerce: Json -> Option<string>,
                           keyEnabled: bool, keyName: string, keyValue: string, payload: map<string, string>,
                           bytes: string -> seq<bv8>, providers: nat)

  function MappedNames(claims: Claims, cfg: Config): set<string> {
    set claim | claim in cfg.mappings && claim in claims && cfg.coerce(claims[claim]).Some?
      :: cfg.headerPrefix + cfg.mappings[claim]
  }

  method MapClaims(claims: Claims, cfg: Config) returns (headers: map<string, string>)
    ensures headers.Keys == MappedNames(claims, cfg)
    ensures forall name :: name in headers ==>
              exists claim :: claim in cfg.mappings && claim in claims && name == cfg.headerPrefix + cfg.mappings[claim]
                           && cfg.coerce(claims[claim]) == Some(headers[name])
  {
    headers := map[];
    var todo := cfg.mappings.Keys;
    while todo != {}
      invariant todo <= cfg.mappings.Keys
      invariant headers.Keys == set claim | claim in cfg.mappings && claim !in todo && claim in claims
                                            && cfg.coerce(claims[claim]).Some? :: cfg.headerPrefix + cfg.mappings[claim]
      invariant forall name :: name in headers ==>
                  exists claim :: claim in cfg.mappings && claim in claims
                               && name == cfg.headerPrefix + cfg.mappings[claim]
                               && cfg.coerce(claims[claim]) == Some(headers[name])
      decreases todo
    {
      var claim :| claim in todo;
      todo := todo - {claim};
      if claim in claims {
        var value := cfg.coerce(claims[claim]);
        if value.Some? {
          headers := headers[cfg.headerPrefix + cfg.mappings[claim] := value.value];
        }
      }
    }
  }

  function PayloadNames(cfg: Config): set<string> {
    set key | key in cfg.payload :: cfg.headerPrefix + Upper(key)
  }

  datatype KeyResult = Disabled | MissingKey | InvalidKey | Accepted

  function CheckKey(fields: Fields, cfg: Config): KeyResult {
    var provided := Get(fields, if cfg.keyName == "" then "X-API-KEY" else cfg.keyName);
    if !cfg.keyEnabled then Disabled
    else if provided == "" then MissingKey
    else if ApiKey.Indistinct(cfg.bytes(provided), cfg.bytes(cfg.keyValue)) then Accepted
    else InvalidKey
  }

  method ValidateAPIKey(fields: Fields, cfg: Config) returns (result: KeyResult, headers: map<string, string>)
    ensures result == CheckKey(fields, cfg)
    ensures headers.Keys == if result.Accepted? then PayloadNames(cfg) else {}
    ensures forall name :: name in headers ==>
              exists key :: key in cfg.payload && name == cfg.headerPrefix + Upper(key)
                         && headers[name] == cfg.payload[key]
  {
    headers := map[];
    if !cfg.keyEnabled {
      return Disabled, headers;
    }
    var provided := Get(fields, if cfg.keyName == "" then "X-API-KEY" else cfg.keyName);
    if provided == "" {
      return MissingKey, headers;
    }
    var same := ApiKey.ConstantTimeEquals(cfg.bytes(provided), cfg.bytes(cfg.keyValue));
    if !same {
      return InvalidKey, headers;
    }
    var todo := cfg.payload.Keys;
    while todo != {}
      invariant todo <= cfg.payload.Keys
      invariant headers.Keys == set key | key in cfg.payload && key !in todo :: cfg.headerPrefix + Upper(key)
      invariant forall name :: name in headers ==>
                  exists key :: key in cfg.payload && name == cfg.headerPrefix + Upper(key)
                             && headers[name] == cfg.payload[key]
      decreases todo
    {
      var key :| key in todo;
      todo := todo - {key};
      headers := headers[cfg.headerPrefix + Upper(key) := cfg.payload[key]];
    }
    return Accepted, headers;
  }

  // ---------- The handler ----------

  /** What becomes of a request, with the header names that are injected when it is forwarded. */
  datatype Decision = Forward(injected: set<string>) | BadToken(error: TokenError) | AccessDenied | BadKey
      | NoCredentials

  function Decide(fields: Fields, authRequired: bool, cfg: Config): Decision {
    var (token, bearer) := ExtractBearerToken(Get(fields, "Authorization"));
    if !authRequired || (!cfg.jwtEnabled && !cfg.keyEnabled) then Forward({})
    else if cfg.jwtEnabled && bearer then
      match cfg.validate(token)
      case Err(e) => BadToken(e)
      case Ok(claims) => if cfg.admits(claims) then Forward(MappedNames(claims, cfg)) else AccessDenied
    else
      match CheckKey(fields, cfg)
      case Accepted => Forward(PayloadNames(cfg))
      case InvalidKey => BadKey
      case _ => NoCredentials
  }

  /** `value` is a value that authentication gives for the header `name`: that of a claim mapped to it, or
      that of an API-key payload entry. */
  ghost predicate Grants(fields: Fields, cfg: Config, name: string, value: string) {
    var (token, bearer) := ExtractBearerToken(Get(fields, "Authorization"));
    if cfg.jwtEnabled && bearer then
      && cfg.validate(token).Ok?
      && exists claim :: claim in cfg.mappings && claim in cfg.validate(token).value
                      && name == cfg.headerPrefix + cfg.mappings[claim]
                      && cfg.coerce(cfg.validate(token).value[claim]) == Some(value)
    else
      exists key :: key in cfg.payload && name == cfg.headerPrefix + Upper(key) && value == cfg.payload[key]
  }

  /** `after` has every injected name, with a value that authentication gives for it, and otherwise is `before`. */
  ghost predicate Injected(before: Fields, after: Fields, names: set<string>, cfg: Config) {
    && after.Keys == before.Keys + CanonicalAll(names)
    && (forall name :: name in before && name !in CanonicalAll(names) ==> after[name] == before[name])
    && (forall name :: name in CanonicalAll(names) ==>
          exists raw, value :: raw in names && Canonical(raw) == name && Grants(before, cfg, raw, value)
                            && after[name] == [value])
  }

  lemma AppliedAreInjected(before: Fields, after: Fields, values: map<string, string>, cfg: Config)
    requires after.Keys == before.Keys + CanonicalAll(values.Keys)
    requires forall name :: name in before && name !in CanonicalAll(values.Keys) ==> after[name] == before[name]
    requires forall name :: name in CanonicalAll(values.Keys) ==>
               exists key :: key in values && Canonical(key) == name && after[name] == [values[key]]
    requires forall key :: key in values ==> Grants(before, cfg, key, values[key])
    ensures Injected(before, after, values.Keys, cfg)
  {
    forall name | name in CanonicalAll(values.Keys)
      ensures exists raw, value ::
                && raw in values.Keys && Canonical(raw) == name
                && Grants(before, cfg, raw, value) && after[name] == [value]
    {
      var key :| key in values && Canonical(key) == name && after[name] == [values[key]];
      assert Grants(before, cfg, key, values[key]);
    }
  }

  method ServeHTTP(header: Headers, authRequired: bool, cfg: Config) returns (decision: Decision)
    modifies header
    ensures decision == Decide(old(header.fields), authRequired, cfg)
    ensures !decision.Forward? ==> header.fields == old(header.fields)
    ensures decision.Forward? ==> Injected(old(header.fields), header.fields, decision.injected, cfg)
  {
    ghost var was := header.fields;
    if !authRequired || (!cfg.jwtEnabled && !cfg.keyEnabled) {
      return Forward({});
    }
    var (token, bearer) := ExtractBearerToken(Get(header.fields, "Authorization"));
    if cfg.jwtEnabled && bearer {
      var claims := cfg.validate(token);
      if claims.Err? {
        return BadToken(claims.error);
      }
      if !cfg.admits(claims.value) {
        return AccessDenied;
      }
      var mapped := MapClaims(claims.value, cfg);
      ApplyHeaders(header, mapped);
      AppliedAreInjected(was, header.fields, mapped, cfg);
      return Forward(mapped.Keys);
    }
    for provider := 0 to cfg.providers
      invariant header.fields == old(header.fields)
      invariant provider > 0 ==> CheckKey(header.fields, cfg).MissingKey? || CheckKey(header.fields, cfg).Disabled?
    {
      var result, headers := ValidateAPIKey(header.fields, cfg);
      if result.InvalidKey? {
        return BadKey;
      }
      if result.Accepted? {
        ApplyHeaders(header, headers);
        AppliedAreInjected(was, header.fields, headers, cfg);
        return Forward(headers.Keys);
      }
    }
    if cfg.providers == 0 && cfg.keyEnabled {
      var result, headers := ValidateAPIKey(header.fields, cfg);
      if result.MissingKey? {
        return NoCredentials;
      }
      if result.InvalidKey? {
        return BadKey;
      }
      ApplyHeaders(header, headers);
      AppliedAreInjected(was, header.fields, headers, cfg);
      return Forward(headers.Keys);
    }
    return NoCredentials;
  }

  // ---------- Who is forwarded ----------

  /** The API key of a request: the value of the configured header, or of X-API-KEY. */
  function ProvidedKey(fields: Fields, cfg: Config): string {
    Get(fields, if cfg.keyName == "" then "X-API-KEY" else cfg.keyName)
  }

  lemma KeyAcceptedExactly(fields: Fields, cfg: Config)
    ensures CheckKey(fields, cfg).Accepted?
       <==> cfg.keyEnabled && ProvidedKey(fields, cfg) != ""
            && ApiKey.Indistinct(cfg.bytes(ProvidedKey(fields, cfg)), cfg.bytes(cfg.keyValue))
    ensures CheckKey(fields, cfg).Disabled? <==> !cfg.keyEnabled
    ensures CheckKey(fields, cfg).MissingKey? <==> cfg.keyEnabled && ProvidedKey(fields, cfg) == ""
  {
  }

  /** A request is forwarded if and only if no credentials are asked for, or it bears an accepted token with
      admitted claims, or, where there is no token to look at, a key that compares equal. */
  lemma ForwardedExactly(fields: Fields, authRequired: bool, cfg: Config)
    ensures var (token, found) := ExtractBearerToken(Get(fields, "Authorization"));
            var bearer := cfg.jwtEnabled && found;
            Decide(fields, authRequired, cfg).Forward?
            <==> || !authRequired || (!cfg.jwtEnabled && !cfg.keyEnabled)
                 || (bearer && cfg.validate(token).Ok? && cfg.admits(cfg.validate(token).value))
                 || (!bearer && cfg.keyEnabled && ProvidedKey(fields, cfg) != ""
                     && ApiKey.Indistinct(cfg.bytes(ProvidedKey(fields, cfg)), cfg.bytes(cfg.keyValue)))
  {
    KeyAcceptedExactly(fields, cfg);
    if authRequired && (cfg.jwtEnabled || cfg.keyEnabled) {
      if cfg.jwtEnabled && ExtractBearerToken(Get(fields, "Authorization")).1 {
      } else {
        assert Decide(fields, authRequired, cfg).Forward? <==> CheckKey(fields, cfg).Accepted?;
      }
    }
  }

  /** All others are told what was wrong: the token, the claims, the key, or that there were none. */
  lemma RefusedExactly(fields: Fields, cfg: Config)
    requires cfg.jwtEnabled || cfg.keyEnabled
    ensures var decision := Decide(fields, true, cfg);
            var (token, found) := ExtractBearerToken(Get(fields, "Authorization"));
            if cfg.jwtEnabled && found then
              match cfg.validate(token)
              case Err(e) => decision == BadToken(e)
              case Ok(claims) => decision.Forward? || (decision == AccessDenied && !cfg.admits(claims))
            else
              && (decision == NoCredentials <==> !cfg.keyEnabled || ProvidedKey(fields, cfg) == "")
              && (decision.Forward? || decision == BadKey || decision == NoCredentials)
  {
    if !(cfg.jwtEnabled && ExtractBearerToken(Get(fields, "Authorization")).1) { KeyAcceptedExactly(fields, cfg); }
  }

  /** With the validator of `Tokens`, a request with a built token is forwarded exactly if the token is in order
      and its claims are admitted; in particular never with a signature that does not verify. */
  lemma BuiltTokenForwarded<Key>(env: Env<Key>, header: seq<Byte>, claims: seq<Byte>, signature: seq<Byte>,
                                 fields: Fields, cfg: Config)
    requires cfg.jwtEnabled && forall token :: cfg.validate(token) == ValidateToken(env, token)
    requires Get(fields, "Authorization") == "Bearer " + Build(header, claims, signature)
    ensures var h, c := env.parseHeader(header), env.parseClaims(claims);
            Decide(fields, true, cfg).Forward?
            <==> && h.Some? && !("HS" <= h.value.alg) && h.value.kid != ""
                 && c.Some? && env.standardClaims(c.value) && env.publicKey(h.value.kid).Some?
                 && env.verify(h.value.alg, Message(header, claims), signature, env.publicKey(h.value.kid).value)
                 && cfg.admits(c.value)
  {
    BuiltTokenCharged(env, header, claims, signature);
    BuiltTokenAccepted(env, header, claims, signature);
    ForwardedExactly(fields, true, cfg);
  }

  /** A request that is forwarded for its token is injected every mapped claim that it has and that can be
      coerced; one that is forwarded for its key, every entry of the payload; any other one, nothing. */
  lemma InjectedCompletely(fields: Fields, authRequired: bool, cfg: Config)
    requires Decide(fields, authRequired, cfg).Forward?
    ensures var injected := Decide(fields, authRequired, cfg).injected;
            var (token, found) := ExtractBearerToken(Get(fields, "Authorization"));
            if !authRequired || (!cfg.jwtEnabled && !cfg.keyEnabled) then injected == {}
            else if cfg.jwtEnabled && found then
              var claims := cfg.validate(token).value;
              forall claim :: claim in cfg.mappings && claim in claims && cfg.coerce(claims[claim]).Some? ==>
                cfg.headerPrefix + cfg.mappings[claim] in injected
            else
              forall key :: key in cfg.payload ==> cfg.headerPrefix + Upper(key) in injected
  {
  }

  /** Where no other claim is mapped to the same header, the header has the value of the claim. */
  lemma ClaimArrives(before: Fields, after: Fields, cfg: Config, claim: string)
    requires Decide(before, true, cfg).Forward? && Injected(before, after, Decide(before, true, cfg).injected, cfg)
    requires cfg.jwtEnabled && ExtractBearerToken(Get(before, "Authorization")).1
    requires var claims := cfg.validate(ExtractBearerToken(Get(before, "Authorization")).0).value;
             claim in cfg.mappings && claim in claims && cfg.coerce(claims[claim]).Some?
    requires forall c :: c in cfg.mappings && c != claim ==>
               Canonical(cfg.headerPrefix + cfg.mappings[c]) != Canonical(cfg.headerPrefix + cfg.mappings[claim])
    ensures var claims := cfg.validate(ExtractBearerToken(Get(before, "Authorization")).0).value;
            Lookup(after, Canonical(cfg.headerPrefix + cfg.mappings[claim])) == Some([cfg.coerce(claims[claim]).value])
  {
    var name := cfg.headerPrefix + cfg.mappings[claim];
    var names := Decide(before, true, cfg).injected;
    InjectedCompletely(before, true, cfg);
    assert Canonical(name) in CanonicalAll(names);
    var raw, value :| raw in names && Canonical(raw) == Canonical(name) && Grants(before, cfg, raw, value)
                      && after[Canonical(name)] == [value];
  }

  /** And where no other payload entry gives the same header, it has the value of the entry. */
  lemma PayloadArrives(before: Fields, after: Fields, cfg: Config, key: string)
    requires Decide(before, true, cfg).Forward? && Injected(before, after, Decide(before, true, cfg).injected, cfg)
    requires cfg.keyEnabled && !(cfg.jwtEnabled && ExtractBearerToken(Get(before, "Authorization")).1)
    requires key in cfg.payload
    requires forall k :: k in cfg.payload && k != key ==>
               Canonical(cfg.headerPrefix + Upper(k)) != Canonical(cfg.headerPrefix + Upper(key))
    ensures Lookup(after, Canonical(cfg.headerPrefix + Upper(key))) == Some([cfg.payload[key]])
  {
    var name := cfg.headerPrefix + Upper(key);
    var names := Decide(before, true, cfg).injected;
    InjectedCompletely(before, true, cfg);
    assert Canonical(name) in CanonicalAll(names);
    var raw, value :| raw in names && Canonical(raw) == Canonical(name) && Grants(before, cfg, raw, value)
                      && after[Canonical(name)] == [value];
  }

  // ---------- Identity headers are the injected ones ----------

  lemma InjectedCarryPrefix(fields: Fields, authRequired: bool, cfg: Config, name: string)
    ensures var decision := Decide(fields, authRequired, cfg);
            decision.Forward? && name in decision.injected ==> Carries(name, cfg.headerPrefix)
  {
    var decision := Decide(fields, authRequired, cfg);
    if decision.Forward? && name in decision.injected {
      UpperOfPrefix(cfg.headerPrefix, name[|cfg.headerPrefix|..]);
      assert name == cfg.headerPrefix + name[|cfg.headerPrefix|..];
    }
  }

  /** The header names injected into a request that is sanitized and then handled. */
  function InjectedNames(fields: Fields, authRequired: bool, cfg: Config): set<string> {
    match Decide(Stripped(fields, cfg.headerPrefix), authRequired, cfg)
    case Forward(injected) => CanonicalAll(injected)
    case _ => {}
  }

  /** All its header names, when it is forwarded. */
  function ForwardedNames(fields: Fields, authRequired: bool, cfg: Config): set<string> {
    if Decide(Stripped(fields, cfg.headerPrefix), authRequired, cfg).Forward?
    then Stripped(fields, cfg.headerPrefix).Keys + InjectedNames(fields, authRequired, cfg)
    else {}
  }

  /** The sanitizer and then the handler: a forwarded request has exactly `ForwardedNames`, each injected
      one with a value from the credentials and each other one with the value it came with. */
  method SanitizeAndServe(header: Headers, authRequired: bool, cfg: Config) returns (decision: Decision)
    modifies header
    ensures decision == Decide(Stripped(old(header.fields), cfg.headerPrefix), authRequired, cfg)
    ensures !decision.Forward? ==> header.fields == Stripped(old(header.fields), cfg.headerPrefix)
    ensures decision.Forward? ==> header.fields.Keys == ForwardedNames(old(header.fields), authRequired, cfg)
    ensures decision.Forward? ==>
            forall name ::
              name in header.fields && name !in InjectedNames(old(header.fields), authRequired, cfg) ==>
              name in old(header.fields) && header.fields[name] == old(header.fields)[name]
    ensures decision.Forward? ==> forall name :: name in InjectedNames(old(header.fields), authRequired, cfg) ==>
              exists raw, value :: Canonical(raw) == name && header.fields[name] == [value]
                                && Grants(Stripped(old(header.fields), cfg.headerPrefix), cfg, raw, value)
  {
    StripHeadersWithPrefix(header, cfg.headerPrefix);
    decision := ServeHTTP(header, authRequired, cfg);
  }

  /** Of the names that reach the upstream, those with the prefix are the injected ones and, besides,
      exactly those of the incoming names with the prefix that are not in canonical form. */
  lemma PrefixedNamesForwarded(fields: Fields, authRequired: bool, cfg: Config, name: string)
    requires cfg.headerPrefix != ""
    ensures Decide(Stripped(fields, cfg.headerPrefix), authRequired, cfg).Forward? ==>
              (name in ForwardedNames(fields, authRequired, cfg) && Carries(name, cfg.headerPrefix)
               <==> name in InjectedNames(fields, authRequired, cfg)
                    || (name in fields && Carries(name, cfg.headerPrefix) && Canonical(name) != name))
  {
    var clean := Stripped(fields, cfg.headerPrefix);
    if name in InjectedNames(fields, authRequired, cfg) {
      var raw :| raw in Decide(clean, authRequired, cfg).injected && Canonical(raw) == name;
      InjectedCarryPrefix(clean, authRequired, cfg, raw);
      CanonicalLaws(raw, cfg.headerPrefix);
    }
  }

  /** A server stores header names in canonical form. Then a forwarded header carries the prefix if and
      only if it was injected on this request, and none does where nobody is authenticated. */
  lemma IdentityHeadersAreInjected(fields: Fields, authRequired: bool, cfg: Config, name: string)
    requires cfg.headerPrefix != ""
    requires name in fields ==> Canonical(name) == name
    ensures name in ForwardedNames(fields, authRequired, cfg) ==>
              (Carries(name, cfg.headerPrefix) <==> name in InjectedNames(fields, authRequired, cfg))
    ensures !authRequired || (!cfg.jwtEnabled && !cfg.keyEnabled) ==>
              name in ForwardedNames(fields, authRequired, cfg) ==> !Carries(name, cfg.headerPrefix)
  {
    PrefixedNamesForwarded(fields, authRequired, cfg, name);
  }
}
