/**
 Compact tokens, section 7.1 of RFC 7515: built by internal/auth/jwt/testutil.go, taken apart by
 internal/auth/jwt/validator.go for authentication and by internal/proxy/middleware.go for rate limiting.
 JSON, standard claims, keys and signatures are arbitrary functions, collected in `Env`.
 */
module Tokens {
  import opened Wrappers
  import opened Base64Url

  datatype Json = Text(text: string) | Other

  type Claims = map<string, Json>

  datatype Header = Header(alg: string, kid: string)

  datatype Env<!Key> = Env(parseHeader: seq<Byte> -> Option<Header>, parseClaims: seq<Byte> -> Option<Claims>,
                           standardClaims: Claims -> bool, publicKey: string -> Option<Key>,
                           verify: (string, string, seq<Byte>, Key) -> bool)

  datatype TokenError = Format | HeaderEncoding | HeaderJson | Symmetric | NoKid | PayloadEncoding | PayloadJson
                      | BadClaims | NoKey | SignatureEncoding | BadSignature

  // ---------- Splitting ----------

  function IndexOf(s: string, c: char): (i: nat)
    ensures i <= |s| && c !in s[..i]
    ensures i < |s| <==> c in s
    ensures i < |s| ==> s[i] == c
  {
    if s == "" || s[0] == c then 0 else 1 + IndexOf(s[1..], c)
  }

  /** `strings.Split` by one character. */
  function Split(s: string, c: char): seq<string> {
    var i := IndexOf(s, c);
    if i == |s| then [s] else [s[..i]] + Split(s[i + 1..], c)
  }

  /** `strings.SplitN`: at most `n` pieces, the last of which may hold more separators. */
  function SplitN(s: string, c: char, n: nat): seq<string>
    requires n > 0
    decreases n
  {
    var i := IndexOf(s, c);
    if n == 1 || i == |s| then [s] else [s[..i]] + SplitN(s[i + 1..], c, n - 1)
  }

  predicate IsSpace(c: char) {
    || '\t' <= c <= '\r' || c == ' ' || c == '\U{85}' || c == '\U{A0}' || c == '\U{1680}'
    || '\U{2000}' <= c <= '\U{200A}' || c == '\U{2028}' || c == '\U{2029}' || c == '\U{202F}'
    || c == '\U{205F}' || c == '\U{3000}'
  }

  /** The characters with the Unicode property White_Space. */
  lemma SpacesExactly(c: char)
    ensures IsSpace(c) <==>
            || c in "\t\U{B}\U{C}\n\r \U{85}\U{A0}\U{1680}\U{2028}\U{2029}\U{202F}\U{205F}\U{3000}"
            || c in "\U{2000}\U{2001}\U{2002}\U{2003}\U{2004}\U{2005}\U{2006}\U{2007}\U{2008}\U{2009}\U{200A}"
  {
  }

  function TrimLeft(s: string): string {
    if s != "" && IsSpace(s[0]) then TrimLeft(s[1..]) else s
  }

  function TrimRight(s: string): string {
    if s != "" && IsSpace(s[|s| - 1]) then TrimRight(s[..|s| - 1]) else s
  }

  function TrimSpace(s: string): string {
    TrimRight(TrimLeft(s))
  }

  // ---------- Building and validating ----------

  function Message(header: seq<Byte>, claims: seq<Byte>): string {
    Encode(header) + "." + Encode(claims)
  }

  /** The token for encoded header and claims, and the signature over `Message`. */
  function Build(header: seq<Byte>, claims: seq<Byte>, signature: seq<Byte>): string {
    Message(header, claims) + "." + Encode(signature)
  }

  predicate IsSymmetric(alg: string) {
    "HS" <= alg
  }

  function ValidateToken<Key>(env: Env<Key>, token: string): Result<Claims, TokenError> {
    var parts := Split(token, '.');
    if |parts| != 3 then Err(Format)
    else
      var headerBytes := Decode(parts[0]);
      if headerBytes.None? then Err(HeaderEncoding)
      else
        var header := env.parseHeader(headerBytes.value);
        if header.None? then Err(HeaderJson)
        else if IsSymmetric(header.value.alg) then Err(Symmetric)
        else if header.value.kid == "" then Err(NoKid)
        else
          var payload := Decode(parts[1]);
          if payload.None? then Err(PayloadEncoding)
          else
            var claims := env.parseClaims(payload.value);
            if claims.None? then Err(PayloadJson)
            else if !env.standardClaims(claims.value) then Err(BadClaims)
            else
              var key := env.publicKey(header.value.kid);
              if key.None? then Err(NoKey)
              else
                var signature := Decode(parts[2]);
                if signature.None? then Err(SignatureEncoding)
                else if !env.verify(header.value.alg, parts[0] + "." + parts[1], signature.value, key.value)
                then Err(BadSignature)
                else Ok(claims.value)
  }

  lemma {:induction false} IndexOfFirst(a: string, c: char, b: string)
    requires c !in a
    ensures IndexOf(a + [c] + b, c) == |a|
  {
    if a != "" {
      assert (a + [c] + b)[1..] == a[1..] + [c] + b;
      assert a[0] in a;
      IndexOfFirst(a[1..], c, b);
    }
  }

  lemma SplitAt(a: string, c: char, b: string)
    requires c !in a
    ensures Split(a + [c] + b, c) == [a] + Split(b, c)
  {
    IndexOfFirst(a, c, b);
    assert (a + [c] + b)[..|a|] == a && (a + [c] + b)[|a| + 1..] == b;
  }

  lemma SplitNAt(a: string, c: char, b: string, n: nat)
    requires c !in a && n > 1
    ensures SplitN(a + [c] + b, c, n) == [a] + SplitN(b, c, n - 1)
  {
    IndexOfFirst(a, c, b);
    assert (a + [c] + b)[..|a|] == a && (a + [c] + b)[|a| + 1..] == b;
  }

  lemma SplitNone(s: string, c: char)
    ensures c !in s ==> Split(s, c) == [s] && forall n: nat :: n > 0 ==> SplitN(s, c, n) == [s]
    ensures |Split(s, c)| == 1 <==> c !in s
  {
  }

  lemma NoDots(b: seq<Byte>)
    ensures '.' !in Encode(b)
  {
    RoundTrip(b);
  }

  lemma SplitThree(a: string, b: string, c: string)
    requires '.' !in a && '.' !in b && '.' !in c
    ensures Split(a + "." + b + "." + c, '.') == [a, b, c]
  {
    assert a + "." + b + "." + c == a + "." + (b + "." + c);
    SplitAt(a, '.', b + "." + c);
    SplitAt(b, '.', c);
    SplitNone(c, '.');
  }

  /** Splitting what was joined recovers the three segments, and each decodes to what was encoded. */
  lemma BuildSplits(header: seq<Byte>, claims: seq<Byte>, signature: seq<Byte>)
    ensures Split(Build(header, claims, signature), '.') == [Encode(header), Encode(claims), Encode(signature)]
    ensures Decode(Encode(header)) == Some(header) && Decode(Encode(claims)) == Some(claims)
    ensures Decode(Encode(signature)) == Some(signature)
  {
    NoDots(header);
    NoDots(claims);
    NoDots(signature);
    SplitThree(Encode(header), Encode(claims), Encode(signature));
    RoundTrip(header);
    RoundTrip(claims);
    RoundTrip(signature);
  }

  /** A built token is accepted, with exactly its claims, if and only if its header names an asymmetric
      algorithm and a known key, its claims are in order, and the signature is good for the very message
      the builder signed. */
  lemma BuiltTokenAccepted<Key>(env: Env<Key>, header: seq<Byte>, claims: seq<Byte>, signature: seq<Byte>)
    ensures var result := ValidateToken(env, Build(header, claims, signature));
            var h, c := env.parseHeader(header), env.parseClaims(claims);
            && (result.Ok? <==>
                  && h.Some? && !("HS" <= h.value.alg) && h.value.kid != ""
                  && c.Some? && env.standardClaims(c.value)
                  && env.publicKey(h.value.kid).Some?
                  && env.verify(h.value.alg, Message(header, claims), signature, env.publicKey(h.value.kid).value))
            && (result.Ok? ==> Some(result.value) == c)
  {
    BuildSplits(header, claims, signature);
  }

  /** For any other built token the error names the first check that fails. */
  lemma BuiltTokenRefused<Key>(env: Env<Key>, header: seq<Byte>, claims: seq<Byte>, signature: seq<Byte>)
    ensures var result := ValidateToken(env, Build(header, claims, signature));
            var h, c := env.parseHeader(header), env.parseClaims(claims);
            result.Err? ==>
              result.error
              == if h == None then HeaderJson
                 else if "HS" <= h.value.alg then Symmetric
                 else if h.value.kid == "" then NoKid
                 else if c == None then PayloadJson
                 else if !env.standardClaims(c.value) then BadClaims
                 else if env.publicKey(h.value.kid) == None then NoKey
                 else BadSignature
  {
    BuildSplits(header, claims, signature);
  }

  /** What is not a token at all is refused before anything is read. */
  lemma MalformedRefused<Key>(env: Env<Key>, token: string)
    ensures ValidateToken(env, token) == Err(Format) <==> |Split(token, '.')| != 3
    ensures |Split(token, '.')| == 3 && Decode(Split(token, '.')[0]) == None ==>
              ValidateToken(env, token) == Err(HeaderEncoding)
  {
  }

  // ---------- The two readers of an Authorization header ----------

  function Lower(c: char): char {
    if 'A' <= c <= 'Z' then (c as int + 32) as char else c
  }

  predicate EqualFold(a: string, b: string) {
    |a| == |b| && forall i :: 0 <= i < |a| ==> Lower(a[i]) == Lower(b[i])
  }

  /** The token to authenticate, and whether the header carries one. */
  function ExtractBearerToken(auth: string): (string, bool) {
    if auth == "" then ("", false)
    else
      var parts := SplitN(auth, ' ', 2);
      if |parts| != 2 || !EqualFold(parts[0], "Bearer") then ("", false) else (TrimSpace(parts[1]), true)
  }

  /** The payload segment that the rate limiter reads, of an untrimmed token. */
  function PayloadSegment(auth: string): Option<string> {
    if !("Bearer " <= auth) then None
    else
      var parts := SplitN(auth[7..], '.', 3);
      if |parts| != 3 then None else Some(parts[1])
  }

  function SubOf(claims: Claims): string {
    if "sub" in claims && claims["sub"].Text? then claims["sub"].text else ""
  }

  /** The identity a request is rate limited by; no signature is checked. */
  function ExtractBearerSub<Key>(env: Env<Key>, auth: string): string {
    var segment := PayloadSegment(auth);
    if segment.None? then ""
    else
      var payload := Decode(segment.value);
      if payload.None? then ""
      else
        var claims := env.parseClaims(payload.value);
        if claims.None? then "" else SubOf(claims.value)
  }

  lemma {:induction false} TrimLeftBefore(a: string, c: char, b: string)
    requires !IsSpace(c)
    ensures TrimLeft(a + [c] + b) == TrimLeft(a) + [c] + b
  {
    var s := a + [c] + b;
    if a != "" {
      assert s[1..] == a[1..] + [c] + b;
      TrimLeftBefore(a[1..], c, b);
    }
  }

  lemma {:induction false} TrimRightAfter(a: string, c: char, b: string)
    requires !IsSpace(c)
    ensures TrimRight(a + [c] + b) == a + [c] + TrimRight(b)
  {
    var s := a + [c] + b;
    if b != "" {
      assert s[..|s| - 1] == a + [c] + b[..|b| - 1];
      TrimRightAfter(a, c, b[..|b| - 1]);
    }
  }

  lemma {:induction false} TrimKeepsOut(s: string, c: char)
    ensures !IsSpace(c) ==> (c in TrimLeft(s) <==> c in s) && (c in TrimRight(s) <==> c in s)
    ensures c !in s ==> c !in TrimLeft(s) && c !in TrimRight(s)
    decreases |s|
  {
    if s != "" {
      assert s == [s[0]] + s[1..] && s == s[..|s| - 1] + [s[|s| - 1]];
      TrimKeepsOut(s[1..], c);
      TrimKeepsOut(s[..|s| - 1], c);
    }
  }

  lemma NoPieces(text: string)
    requires '.' !in text
    ensures |SplitN(text, '.', 2)| == |SplitN(text, '.', 3)| == 1
    ensures |Split(TrimRight(text), '.')| == |Split(TrimSpace(text), '.')| == 1
  {
    TrimKeepsOut(text, '.');
    TrimKeepsOut(TrimLeft(text), '.');
    SplitNone(text, '.');
    SplitNone(TrimRight(text), '.');
    SplitNone(TrimSpace(text), '.');
  }

  lemma TwoPieces(head: string, tail: string)
    requires '.' !in head
    ensures var text := head + "." + tail;
            && SplitN(text, '.', 2) == [head, tail]
            && Split(TrimRight(text), '.') == [head] + Split(TrimRight(tail), '.')
            && (|Split(TrimRight(tail), '.')| == 1 <==> '.' !in tail)
  {
    SplitNAt(head, '.', tail, 2);
    assert SplitN(tail, '.', 1) == [tail];
    TrimRightAfter(head, '.', tail);
    SplitAt(head, '.', TrimRight(tail));
    TrimKeepsOut(tail, '.');
    SplitNone(TrimRight(tail), '.');
  }

  /** Trimming takes away spaces at both ends and leaves none there. */
  lemma {:induction false} TrimmedExactly(s: string) returns (before: string, after: string)
    ensures s == before + TrimSpace(s) + after
    ensures forall c :: c in before + after ==> IsSpace(c)
    ensures var t := TrimSpace(s); t != "" ==> !IsSpace(t[0]) && !IsSpace(t[|t| - 1])
  {
    var left := TrimLeft(s);
    before := LeftTrimmed(s);
    after := RightTrimmed(left);
    assert TrimSpace(s) != "" ==> TrimSpace(s)[0] == left[0];
  }

  lemma {:induction false} LeftTrimmed(s: string) returns (before: string)
    ensures s == before + TrimLeft(s) && forall c :: c in before ==> IsSpace(c)
    ensures TrimLeft(s) != "" ==> !IsSpace(TrimLeft(s)[0])
  {
    before := "";
    if s != "" && IsSpace(s[0]) {
      var rest := LeftTrimmed(s[1..]);
      before := [s[0]] + rest;
      assert s == [s[0]] + s[1..];
    }
  }

  lemma {:induction false} RightTrimmed(s: string) returns (after: string)
    ensures s == TrimRight(s) + after && forall c :: c in after ==> IsSpace(c)
    ensures TrimRight(s) != "" ==> !IsSpace(TrimRight(s)[|TrimRight(s)| - 1])
  {
    after := "";
    if s != "" && IsSpace(s[|s| - 1]) {
      var n := |s| - 1;
      var rest := RightTrimmed(s[..n]);
      after := rest + [s[n]];
      assert s == s[..n] + [s[n]];
    }
  }

  /** Trimming the end of a text touches neither its separators nor its first piece. */
  lemma TrimKeepsHead(text: string)
    ensures var parts := SplitN(text, '.', 2);
            var trimmed := Split(TrimRight(text), '.');
            && (|trimmed| == 2 <==> |parts| == 2 && '.' !in parts[1])
            && (|trimmed| == 2 ==> trimmed[0] == parts[0])
  {
    if '.' in text {
      var i := IndexOf(text, '.');
      assert text == text[..i] + "." + text[i + 1..];
      TwoPieces(text[..i], text[i + 1..]);
    } else {
      NoPieces(text);
    }
  }

  lemma HeadAndTail(head: string, tail: string)
    requires '.' !in head
    ensures var token := head + "." + tail;
            && SplitN(token, '.', 3) == [head] + SplitN(tail, '.', 2)
            && Split(TrimSpace(token), '.') == [TrimLeft(head)] + Split(TrimRight(tail), '.')
  {
    SplitNAt(head, '.', tail, 3);
    TrimLeftBefore(head, '.', tail);
    TrimRightAfter(TrimLeft(head), '.', tail);
    TrimKeepsOut(head, '.');
    SplitAt(TrimLeft(head), '.', TrimRight(tail));
  }

  /** Trimming touches neither the separators nor the middle segment of a token. */
  lemma TrimKeepsSegments(token: string)
    ensures var parts := SplitN(token, '.', 3);
            var trimmed := Split(TrimSpace(token), '.');
            && (|trimmed| == 3 <==> |parts| == 3 && '.' !in parts[2])
            && (|trimmed| == 3 ==> trimmed[1] == parts[1])
  {
    if '.' in token {
      var i := IndexOf(token, '.');
      assert token == token[..i] + "." + token[i + 1..];
      HeadAndTail(token[..i], token[i + 1..]);
      TrimKeepsHead(token[i + 1..]);
    } else {
      NoPieces(token);
    }
  }

  lemma BearerRest(auth: string)
    requires "Bearer " <= auth
    ensures ExtractBearerToken(auth) == (TrimSpace(auth[7..]), true)
  {
    assert auth == "Bearer" + " " + auth[7..];
    SplitNAt("Bearer", ' ', auth[7..], 2);
    assert SplitN(auth[7..], ' ', 1) == [auth[7..]];
  }

  /** A header carries a token if and only if it starts with the scheme, in any case, and a space; the token is
      the rest without the spaces around it. */
  lemma FoundExactly(auth: string)
    ensures var (token, found) := ExtractBearerToken(auth);
            && (found <==> |auth| >= 7 && EqualFold(auth[..6], "Bearer") && auth[6] == ' ')
            && token == if found then TrimSpace(auth[7..]) else ""
  {
    var i := IndexOf(auth, ' ');
    if i < |auth| {
      assert auth == auth[..i] + [' '] + auth[i + 1..];
      SplitNAt(auth[..i], ' ', auth[i + 1..], 2);
      assert SplitN(auth[i + 1..], ' ', 1) == [auth[i + 1..]];
    } else {
      SplitNone(auth, ' ');
    }
    if |auth| >= 7 && EqualFold(auth[..6], "Bearer") && auth[6] == ' ' {
      NoSpaceInScheme(auth[..6]);
      assert auth == auth[..6] + [' '] + auth[7..];
      IndexOfFirst(auth[..6], ' ', auth[7..]);
    }
  }

  lemma NoSpaceInScheme(scheme: string)
    requires EqualFold(scheme, "Bearer")
    ensures ' ' !in scheme
  {
    forall i | 0 <= i < |scheme| ensures scheme[i] != ' ' {
      assert Lower(scheme[i]) == Lower("Bearer"[i]);
    }
  }

  lemma PayloadOf(rest: string)
    ensures var parts := SplitN(rest, '.', 3);
            PayloadSegment("Bearer " + rest) == if |parts| == 3 then Some(parts[1]) else None
  {
    assert ("Bearer " + rest)[7..] == rest;
  }

  lemma TwoDots(a: string, b: string, c: string)
    requires '.' !in a && '.' !in b
    ensures SplitN(a + "." + (b + "." + c), '.', 3) == [a, b, c]
  {
    SplitNAt(a, '.', b + "." + c, 3);
    SplitNAt(b, '.', c, 2);
    assert SplitN(c, '.', 1) == [c];
  }

  /** The rate limiter reads the segment between the first two dots, and nothing if there are fewer. */
  lemma PayloadExactly(a: string, b: string, c: string)
    requires '.' !in a && '.' !in b
    ensures PayloadSegment("Bearer " + a) == None
    ensures PayloadSegment("Bearer " + (a + "." + b)) == None
    ensures PayloadSegment("Bearer " + (a + "." + (b + "." + c))) == Some(b)
  {
    PayloadOf(a);
    SplitNone(a, '.');
    PayloadOf(a + "." + b);
    SplitNAt(a, '.', b, 3);
    SplitNone(b, '.');
    PayloadOf(a + "." + (b + "." + c));
    TwoDots(a, b, c);
  }

  /** For every header: a token of three segments is read as the same payload segment by both readers, but
      not by the rate limiter unless the header starts with exactly "Bearer ". The other way round, where
      the rate limiter finds a payload there is a token, with three segments if no further dot follows. */
  lemma ReadersAgree(auth: string)
    ensures var (token, found) := ExtractBearerToken(auth);
            var segments := Split(token, '.');
            && (found && |segments| == 3 ==>
                PayloadSegment(auth) == if "Bearer " <= auth then Some(segments[1]) else None)
            && (PayloadSegment(auth).Some? ==>
                  found && "Bearer " <= auth && (|segments| == 3 <==> '.' !in SplitN(auth[7..], '.', 3)[2]))
  {
    if "Bearer " <= auth {
      BearerRest(auth);
      TrimKeepsSegments(auth[7..]);
    }
  }

  /** An accepted token has three segments, and its claims are what the payload segment decodes to. */
  lemma AcceptedPayload<Key>(env: Env<Key>, token: string)
    requires ValidateToken(env, token).Ok?
    ensures var parts := Split(token, '.');
            && |parts| == 3 && Decode(parts[1]).Some?
            && env.parseClaims(Decode(parts[1]).value) == Some(ValidateToken(env, token).value)
  {
  }

  /** Whoever is authenticated was rate limited under the authenticated subject if and only if the scheme
      was spelled exactly "Bearer", or the token has no subject. */
  lemma ChargedIsAuthenticated<Key>(env: Env<Key>, auth: string)
    requires ValidateToken(env, ExtractBearerToken(auth).0).Ok?
    ensures ExtractBearerToken(auth).1
    ensures var sub := SubOf(ValidateToken(env, ExtractBearerToken(auth).0).value);
            ExtractBearerSub(env, auth) == sub <==> "Bearer " <= auth || sub == ""
  {
    AcceptedPayload(env, ExtractBearerToken(auth).0);
    ReadersAgree(auth);
  }

  /** With any other spelling of the scheme a token is authenticated all the same, and charged to nobody. */
  lemma OtherSpellings<Key>(env: Env<Key>, scheme: string, token: string)
    requires EqualFold(scheme, "Bearer") && scheme != "Bearer" && TrimSpace(token) == token
    ensures ExtractBearerToken(scheme + " " + token) == (token, true)
    ensures ExtractBearerSub(env, scheme + " " + token) == ""
  {
    var auth := scheme + " " + token;
    NoSpaceInScheme(scheme);
    SplitNAt(scheme, ' ', token, 2);
    assert SplitN(token, ' ', 1) == [token];
    assert auth[..6] == scheme;
  }

  lemma SmallIsOtherwise()
    ensures EqualFold("bearer", "Bearer") && "bearer" != "Bearer"
  {
    assert "bearer"[1..] == "Bearer"[1..];
    assert "bearer"[0] == 'b' && "Bearer"[0] == 'B';
    assert forall i :: 1 <= i < 6 ==> "bearer"[i] == "bearer"[1..][i - 1] == "Bearer"[1..][i - 1] == "Bearer"[i];
  }

  /** One such spelling is the one in small letters. */
  lemma SmallLetters<Key>(env: Env<Key>, token: string)
    requires TrimSpace(token) == token && ValidateToken(env, token).Ok?
    ensures ExtractBearerToken("bearer " + token) == (token, true)
    ensures ExtractBearerSub(env, "bearer " + token) == ""
  {
    SmallIsOtherwise();
    assert "bearer " == "bearer" + " ";
    OtherSpellings(env, "bearer", token);
  }

  // ---------- A built token in a header ----------

  lemma LettersAreNoSpaces(b: seq<Byte>, c: char)
    requires c in Encode(b)
    ensures !IsSpace(c)
  {
    RoundTrip(b);
  }

  lemma NothingToTrim(s: string)
    requires forall c :: c in s ==> !IsSpace(c)
    ensures TrimSpace(s) == s
  {
    if s != "" { assert s[0] in s && s[|s| - 1] in s; }
  }

  lemma BuiltHasNoSpaces(header: seq<Byte>, claims: seq<Byte>, signature: seq<Byte>)
    ensures TrimSpace(Build(header, claims, signature)) == Build(header, claims, signature)
  {
    var token := Build(header, claims, signature);
    forall c | c in token ensures !IsSpace(c) {
      assert c in Encode(header) || c in Encode(claims) || c in Encode(signature) || c == '.';
      if c in Encode(header) { LettersAreNoSpaces(header, c); }
      if c in Encode(claims) { LettersAreNoSpaces(claims, c); }
      if c in Encode(signature) { LettersAreNoSpaces(signature, c); }
    }
    NothingToTrim(token);
  }

  /** A built token in a header that starts with "Bearer " is the token that is authenticated, and the request
      is charged to the text of its claim "sub", whether or not the token is any good. */
  lemma BuiltTokenCharged<Key>(env: Env<Key>, header: seq<Byte>, claims: seq<Byte>, signature: seq<Byte>)
    ensures var token := Build(header, claims, signature);
            ExtractBearerToken("Bearer " + token) == (token, true)
    ensures var sub := ExtractBearerSub(env, "Bearer " + Build(header, claims, signature));
            match env.parseClaims(claims)
            case None => sub == ""
            case Some(c) =>
              && (forall text :: "sub" in c && c["sub"] == Text(text) ==> sub == text)
              && ("sub" !in c || c["sub"] == Other ==> sub == "")
  {
    var token := Build(header, claims, signature);
    var auth := "Bearer " + token;
    assert auth[7..] == token;
    BearerRest(auth);
    BuiltHasNoSpaces(header, claims, signature);
    BuildSplits(header, claims, signature);
    ReadersAgree(auth);
  }
}
