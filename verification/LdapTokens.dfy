/** The identities the LDAP mode accepts from the directory and from its own tokens. */
module LdapIdentity {

  /** Unicode White_Space. */
  predicate IsSpace(c: char) {
    || '\t' <= c <= '\r' || c == ' ' || c == '\U{0085}' || c == '\U{00A0}' || c == '\U{1680}'
    || '\U{2000}' <= c <= '\U{200A}' || c == '\U{2028}' || c == '\U{2029}' || c == '\U{202F}' || c == '\U{205F}' || c == '\U{3000}'
  }

  predicate IsControl(c: char) {
    c < ' ' || '\U{007F}' <= c <= '\U{009F}'
  }

  /** Not empty, no surrounding space, no control character, and outside the reserved "system:" names. */
  predicate ValidIdentity(value: string) {
    && value != ""
    && !IsSpace(value[0]) && !IsSpace(value[|value| - 1])
    && !("system:" <= value)
    && forall i | 0 <= i < |value| :: !IsControl(value[i])
  }
}

/** Issuing and verifying the access tokens of LDAP mode. Claims follow sections 4.1.1 to 4.1.6 of RFC 7519. */
module LdapTokens {
  import opened Prelude
  import opened LdapIdentity

  const SECOND := 1_000_000_000

  // ---- Keys, claims and tokens ---------------------------------------------

  datatype PrivateKey = PrivateKey(seed: nat)
  datatype PublicKey = PublicOf(private: PrivateKey)

  /** A decoded JSON value, as far as the verifier looks into it. Dates are whole seconds. */
  datatype Json = JString(text: string) | JNumber(number: int) | JArray(items: seq<Json>) | JOther

  type Claims = map<string, Json>
  type Header = map<string, Json>

  /** A signature is worth exactly the key and the content it was made from. */
  datatype Signature = Sign(key: PrivateKey, header: Header, claims: Claims) | Forged

  datatype Raw = Token(header: Header, claims: Claims, signature: Signature) | Malformed

  datatype Credential = Credential(user: string, groups: seq<string>)
  datatype AuthError = Unauthenticated | TokenExpired
  datatype IssueError = InvalidIdentity | TooLarge
  datatype TokenPair = TokenPair(accessToken: Raw, expiresAt: int)

  datatype Config = Config(
    signingKeyID: string, signingPrivateKey: Option<PrivateKey>,
    verificationKeys: map<string, Option<PublicKey>>,
    issuer: string, audience: string, tokenTTLSeconds: nat)

  datatype ConfigError = InvalidSigningKey | InvalidVerificationKey | ConflictingKeyID

  datatype Tokens = Tokens(
    keyID: string, private: PrivateKey, keys: map<string, PublicKey>, issuer: string, audience: string, ttl: nat)

  /** The configuration can be loaded: every key parses and the active key ID names one key. */
  predicate Loadable(cfg: Config) {
    && cfg.signingPrivateKey.Some?
    && (forall id | id in cfg.verificationKeys :: cfg.verificationKeys[id].Some?)
    && (cfg.signingKeyID in cfg.verificationKeys ==>
          cfg.verificationKeys[cfg.signingKeyID].value == PublicOf(cfg.signingPrivateKey.value))
  }

  function TrustedKeys(cfg: Config): map<string, PublicKey>
    requires Loadable(cfg)
  {
    (map id | id in cfg.verificationKeys :: cfg.verificationKeys[id].value)[cfg.signingKeyID := PublicOf(cfg.signingPrivateKey.value)]
  }

  function Loaded(cfg: Config): Tokens
    requires Loadable(cfg)
  {
    Tokens(cfg.signingKeyID, cfg.signingPrivateKey.value, TrustedKeys(cfg), cfg.issuer, cfg.audience, cfg.tokenTTLSeconds)
  }

  /** Apart from rest, every configured key has parsed and is in keys, next to the active one. */
  predicate SplitsInto(configured: map<string, Option<PublicKey>>, rest: map<string, Option<PublicKey>>, keys: map<string, PublicKey>, active: string) {
    && active in keys
    && (forall id | id in rest :: id in configured && rest[id] == configured[id])
    && (forall id | id in configured && id !in rest :: configured[id].Some? && id in keys && keys[id] == configured[id].value)
    && (forall id | id in keys :: id == active || (id in configured && id !in rest))
  }

  /** The verification keys are a Go map: they are taken in any order. */
  method NewTokens(cfg: Config) returns (r: Result<Tokens, ConfigError>)
    ensures r.Ok? <==> Loadable(cfg)
    ensures r.Ok? ==> r.value == Loaded(cfg)
  {
    if cfg.signingPrivateKey.None? {
      return Err(InvalidSigningKey);
    }
    var active := PublicOf(cfg.signingPrivateKey.value);
    var keys := map[cfg.signingKeyID := active];
    var rest := cfg.verificationKeys;
    while rest != map[]
      invariant SplitsInto(cfg.verificationKeys, rest, keys, cfg.signingKeyID)
      invariant keys[cfg.signingKeyID] == active
      decreases |rest|
    {
      var id :| id in rest;
      rest := rest - {id};
      var public := cfg.verificationKeys[id];
      if public.None? {
        return Err(InvalidVerificationKey);
      }
      if id in keys && keys[id] != public.value {
        return Err(ConflictingKeyID);
      }
      keys := keys[id := public.value];
    }
    assert keys == TrustedKeys(cfg);
    return Ok(Tokens(cfg.signingKeyID, cfg.signingPrivateKey.value, keys, cfg.issuer, cfg.audience, cfg.tokenTTLSeconds));
  }

  // ---- Issuing -------------------------------------------------------------

  const MAX_TOKEN_BYTES := 8 * 1024

  function IssuedClaims(t: Tokens, username: string, groups: seq<string>, now: int): Claims {
    map["iss" := JString(t.issuer), "aud" := JString(t.audience), "sub" := JString(username),
        "groups" := JArray(seq(|groups|, i requires 0 <= i < |groups| => JString(groups[i]))),
        "iat" := JNumber(now / SECOND), "exp" := JNumber(now / SECOND + t.ttl), "token_use" := JString("access")]
  }

  function IssuedHeader(t: Tokens): Header {
    map["alg" := JString("EdDSA"), "typ" := JString("JWT"), "kid" := JString(t.keyID)]
  }

  function IssuedToken(t: Tokens, username: string, groups: seq<string>, now: int): Raw {
    var claims := IssuedClaims(t, username, groups, now);
    Token(IssuedHeader(t), claims, Sign(t.private, IssuedHeader(t), claims))
  }

  predicate ValidIdentities(username: string, groups: seq<string>) {
    ValidIdentity(username) && forall i | 0 <= i < |groups| :: ValidIdentity(groups[i])
  }

  /** now is in nanoseconds; encodedLength is the length of the serialized token. */
  method Issue(t: Tokens, username: string, groups: seq<string>, now: int, encodedLength: nat)
    returns (r: Result<TokenPair, IssueError>)
    ensures r == if !ValidIdentities(username, groups) then Err(InvalidIdentity)
                 else if encodedLength > MAX_TOKEN_BYTES then Err(TooLarge)
                 else Ok(TokenPair(IssuedToken(t, username, groups, now), now / SECOND + t.ttl))
  {
    if !ValidIdentity(username) {
      return Err(InvalidIdentity);
    }
    for i := 0 to |groups|
      invariant forall j | 0 <= j < i :: ValidIdentity(groups[j])
    {
      if !ValidIdentity(groups[i]) {
        return Err(InvalidIdentity);
      }
    }
    var issuedAt := now / SECOND;
    var expiresAt := (issuedAt * SECOND + t.ttl * SECOND) / SECOND;
    if encodedLength > MAX_TOKEN_BYTES {
      return Err(TooLarge);
    }
    return Ok(TokenPair(IssuedToken(t, username, groups, now), expiresAt));
  }

  // ---- The JWT library's checks --------------------------------------------

  datatype JwtError =
    | BadToken | SignatureInvalid | Unverifiable
    | Expired | UsedBeforeIssued | NotValidYet | InvalidIssuer | InvalidAudience | RequiredClaimMissing | InvalidType

  /** A numeric date; zero counts as absent. */
  function NumericDate(claims: Claims, name: string): Result<Option<int>, JwtError> {
    if name !in claims then Ok(None)
    else match claims[name]
      case JNumber(n) => Ok(if n == 0 then None else Some(n))
      case _ => Err(InvalidType)
  }

  function AudienceOf(claims: Claims): Result<seq<string>, JwtError> {
    if "aud" !in claims then Ok([])
    else match claims["aud"]
      case JString(s) => Ok([s])
      case JArray(items) =>
        if forall i | 0 <= i < |items| :: items[i].JString?
        then Ok(seq(|items|, i requires 0 <= i < |items| && items[i].JString? => items[i].text))
        else Err(InvalidType)
      case _ => Ok([])
  }

  /** The string value of a claim, "" when it is absent. */
  function TextOf(claims: Claims, name: string): Result<string, JwtError> {
    if name !in claims then Ok("")
    else match claims[name]
      case JString(s) => Ok(s)
      case _ => Err(InvalidType)
  }

  function ExpiryErrors(claims: Claims, now: int): set<JwtError> {
    match NumericDate(claims, "exp")
    case Err(e) => {e}
    case Ok(None) => {RequiredClaimMissing}
    case Ok(Some(exp)) => if now < exp * SECOND then {} else {Expired}
  }

  function StartErrors(claims: Claims, name: string, early: JwtError, now: int): set<JwtError> {
    match NumericDate(claims, name)
    case Err(e) => {e}
    case Ok(None) => {}
    case Ok(Some(start)) => if now < start * SECOND then {early} else {}
  }

  function AudienceErrors(claims: Claims, audience: string): set<JwtError> {
    match AudienceOf(claims)
    case Err(e) => {e}
    case Ok(aud) =>
      if aud == [] || aud == [""] then {RequiredClaimMissing}
      else if audience in aud then {} else {InvalidAudience}
  }

  function IssuerErrors(claims: Claims, issuer: string): set<JwtError> {
    match TextOf(claims, "iss")
    case Err(e) => {e}
    case Ok(iss) => if iss == "" then {RequiredClaimMissing} else if iss == issuer then {} else {InvalidIssuer}
  }

  /** Every claim is checked and every failure is reported. */
  function ClaimErrors(t: Tokens, claims: Claims, now: int): set<JwtError> {
    ExpiryErrors(claims, now) + StartErrors(claims, "nbf", NotValidYet, now)
    + StartErrors(claims, "iat", UsedBeforeIssued, now)
    + AudienceErrors(claims, t.audience) + IssuerErrors(claims, t.issuer)
  }

  function VerificationKey(t: Tokens, header: Header): Option<PublicKey> {
    if "kid" !in header || !header["kid"].JString? || header["kid"].text == "" then None
    else if "typ" !in header || header["typ"] != JString("JWT") then None
    else if header["kid"].text in t.keys then Some(t.keys[header["kid"].text])
    else None
  }

  /** The errors of parsing; claims are looked at only under a valid signature. */
  function ParseErrors(t: Tokens, raw: Raw, now: int): set<JwtError> {
    if raw.Malformed? then {BadToken}
    else if "alg" !in raw.header || raw.header["alg"] != JString("EdDSA") then {SignatureInvalid}
    else match VerificationKey(t, raw.header)
      case None => {Unverifiable}
      case Some(key) =>
        if raw.signature == Sign(key.private, raw.header, raw.claims) then ClaimErrors(t, raw.claims, now)
        else {SignatureInvalid}
  }

  // ---- Verifying -----------------------------------------------------------

  /** The identity the claims carry, if they carry one at all. */
  function CredentialOf(claims: Claims): Option<Credential> {
    if "iat" !in claims || !claims["iat"].JNumber? then None
    else if "token_use" !in claims || claims["token_use"] != JString("access") then None
    else if "sub" !in claims || !claims["sub"].JString? || !ValidIdentity(claims["sub"].text) then None
    else if "groups" !in claims || !claims["groups"].JArray? then None
    else
      var items := claims["groups"].items;
      if forall i | 0 <= i < |items| :: items[i].JString? && ValidIdentity(items[i].text)
      then Some(Credential(claims["sub"].text, seq(|items|, i requires 0 <= i < |items| && items[i].JString? => items[i].text)))
      else None
  }

  method LdapTokenCredential(claims: Claims) returns (r: Option<Credential>)
    ensures r == CredentialOf(claims)
  {
    if "iat" !in claims || !claims["iat"].JNumber? {
      return None;
    }
    if "token_use" !in claims || claims["token_use"] != JString("access") {
      return None;
    }
    var username := TextOf(claims, "sub");
    if username.Err? || !ValidIdentity(username.value) {
      return None;
    }
    if "groups" !in claims || !claims["groups"].JArray? {
      return None;
    }
    var values := claims["groups"].items;
    var groups: seq<string> := [];
    for i := 0 to |values|
      invariant forall j | 0 <= j < i :: values[j].JString? && ValidIdentity(values[j].text)
      invariant |groups| == i && forall j | 0 <= j < i :: groups[j] == values[j].text
    {
      if !values[i].JString? || !ValidIdentity(values[i].text) {
        return None;
      }
      groups := groups + [values[i].text];
    }
    assert claims["sub"] == JString(username.value);
    assert groups == seq(|values|, i requires 0 <= i < |values| && values[i].JString? => values[i].text);
    return Some(Credential(username.value, groups));
  }

  function Verdict(t: Tokens, raw: Raw, now: int): Result<Credential, AuthError> {
    var errs := ParseErrors(t, raw, now);
    if errs != {} && Expired !in errs then Err(Unauthenticated)
    else if raw.Malformed? || CredentialOf(raw.claims).None? then Err(Unauthenticated)
    else if errs == {} then Ok(CredentialOf(raw.claims).value)
    else if errs * {InvalidIssuer, InvalidAudience, RequiredClaimMissing, InvalidType, UsedBeforeIssued, NotValidYet} != {}
    then Err(Unauthenticated)
    else Err(TokenExpired)
  }

  method Verify(t: Tokens, raw: Raw, now: int) returns (r: Result<Credential, AuthError>)
    ensures r == Verdict(t, raw, now)
  {
    var errs := ParseErrors(t, raw, now);
    if errs != {} && Expired !in errs {
      return Err(Unauthenticated);
    }
    var credential: Option<Credential> := None;
    if raw.Token? {
      credential := LdapTokenCredential(raw.claims);
    }
    if credential.None? {
      return Err(Unauthenticated);
    }
    if errs != {} {
      var others := [InvalidIssuer, InvalidAudience, RequiredClaimMissing, InvalidType, UsedBeforeIssued, NotValidYet];
      for i := 0 to |others|
        invariant forall j | 0 <= j < i :: others[j] !in errs
      {
        if others[i] in errs {
          assert others[i] in errs * {InvalidIssuer, InvalidAudience, RequiredClaimMissing, InvalidType, UsedBeforeIssued, NotValidYet};
          return Err(Unauthenticated);
        }
      }
      assert forall j | 0 <= j < |others| :: others[j] !in errs;
      assert others[0] !in errs && others[1] !in errs && others[2] !in errs && others[3] !in errs && others[4] !in errs && others[5] !in errs;
      assert errs * {InvalidIssuer, InvalidAudience, RequiredClaimMissing, InvalidType, UsedBeforeIssued, NotValidYet} == {};
      return Err(TokenExpired);
    }
    return Ok(credential.value);
  }

  // ---- What a verdict means ------------------------------------------------

  predicate Text(claims: Claims, name: string, text: string) {
    name in claims && claims[name] == JString(text)
  }

  predicate Started(claims: Claims, name: string, now: int) {
    name in claims ==> claims[name].JNumber? && (claims[name].number == 0 || claims[name].number * SECOND <= now)
  }

  predicate ForAudience(claims: Claims, audience: string) {
    "aud" in claims &&
    (claims["aud"] == JString(audience)
     || (claims["aud"].JArray? && JString(audience) in claims["aud"].items
         && forall i | 0 <= i < |claims["aud"].items| :: claims["aud"].items[i].JString?))
  }

  predicate HasExpiry(claims: Claims) {
    "exp" in claims && claims["exp"].JNumber? && claims["exp"].number != 0
  }

  /** Signed by a trusted key, for this service, and valid from now or earlier. */
  predicate Signed(t: Tokens, raw: Raw, now: int) {
    && raw.Token?
    && Text(raw.header, "alg", "EdDSA") && Text(raw.header, "typ", "JWT")
    && "kid" in raw.header && raw.header["kid"].JString? && raw.header["kid"].text in t.keys
    && raw.header["kid"].text != ""
    && raw.signature == Sign(t.keys[raw.header["kid"].text].private, raw.header, raw.claims)
    && Text(raw.claims, "iss", t.issuer) && ForAudience(raw.claims, t.audience)
    && Started(raw.claims, "iat", now) && Started(raw.claims, "nbf", now)
    && HasExpiry(raw.claims)
  }

  /** The claims say who the user is, in all four claims that do: each group is named, in order, and every name is acceptable. */
  predicate Carries(claims: Claims, c: Credential) {
    && "iat" in claims && claims["iat"].JNumber? && Text(claims, "token_use", "access") && Text(claims, "sub", c.user)
    && "groups" in claims && claims["groups"].JArray? && |claims["groups"].items| == |c.groups|
    && (forall i | 0 <= i < |c.groups| :: claims["groups"].items[i] == JString(c.groups[i]))
    && ValidIdentities(c.user, c.groups)
  }

  lemma CarriesExactly(claims: Claims, c: Credential)
    ensures CredentialOf(claims) == Some(c) <==> Carries(claims, c)
  {
    if Carries(claims, c) {
      var items := claims["groups"].items;
      assert forall i | 0 <= i < |items| :: items[i] == JString(c.groups[i]);
      assert CredentialOf(claims).value.groups == c.groups;
    }
  }

  /** Signed and right in everything but possibly its expiry. */
  predicate Genuine(t: Tokens, raw: Raw, now: int) {
    Signed(t, raw, now) && CredentialOf(raw.claims).Some?
  }

  /** The verdict on any token at all: whose it is, or why not. */
  lemma VerdictNames(t: Tokens, raw: Raw, now: int, c: Credential)
    requires t.issuer != "" && t.audience != ""
    ensures Verdict(t, raw, now) == Ok(c)
      <==> Signed(t, raw, now) && Carries(raw.claims, c) && now < raw.claims["exp"].number * SECOND
    ensures Signed(t, raw, now) && Carries(raw.claims, c) && raw.claims["exp"].number * SECOND <= now ==> Verdict(t, raw, now) == Err(TokenExpired)
    ensures Verdict(t, raw, now) == Err(TokenExpired) ==>
      Signed(t, raw, now) && raw.claims["exp"].number * SECOND <= now && exists c' :: Carries(raw.claims, c')
  {
    hide Verdict, CredentialOf, Carries;
    VerdictExact(t, raw, now);
    if raw.Token? {
      CarriesExactly(raw.claims, c);
      if CredentialOf(raw.claims).Some? {
        CarriesExactly(raw.claims, CredentialOf(raw.claims).value);
      }
    }
  }

  /** Nobody gets in under a reserved, padded or unprintable name, nor with such a group. */
  lemma AcceptedNames(t: Tokens, raw: Raw, now: int, name: string)
    requires Verdict(t, raw, now).Ok?
    requires name == Verdict(t, raw, now).value.user || name in Verdict(t, raw, now).value.groups
    ensures name != "" && !("system:" <= name)
    ensures forall c | c in name :: c >= ' ' && c != '\U{007F}'
    ensures name[0] != ' ' && name[|name| - 1] != ' '
  {
  }

  /**
   A token is accepted iff it is genuine and not yet expired, and reported as expired iff it is genuine
   and only its expiry has passed; anything else is just unauthenticated.
   */
  lemma VerdictExact(t: Tokens, raw: Raw, now: int)
    requires t.issuer != "" && t.audience != ""
    ensures Verdict(t, raw, now).Ok? <==> Genuine(t, raw, now) && now < raw.claims["exp"].number * SECOND
    ensures Verdict(t, raw, now) == Err(TokenExpired) <==> Genuine(t, raw, now) && raw.claims["exp"].number * SECOND <= now
    ensures Verdict(t, raw, now).Ok? ==> Some(Verdict(t, raw, now).value) == CredentialOf(raw.claims)
  {
    if raw.Token? && Text(raw.header, "alg", "EdDSA") && VerificationKey(t, raw.header).Some?
       && raw.signature == Sign(VerificationKey(t, raw.header).value.private, raw.header, raw.claims) {
      ClaimErrorsExact(t, raw.claims, now);
    }
  }

  lemma AudienceExact(claims: Claims, audience: string)
    requires audience != ""
    ensures AudienceErrors(claims, audience) == {} <==> ForAudience(claims, audience)
    ensures AudienceErrors(claims, audience) <= {InvalidAudience, RequiredClaimMissing, InvalidType}
  {
    if "aud" in claims && claims["aud"].JArray? && AudienceOf(claims).Ok? {
      var items, aud := claims["aud"].items, AudienceOf(claims).value;
      if audience in aud {
        var i :| 0 <= i < |aud| && aud[i] == audience;
        assert items[i] == JString(audience);
      }
      if JString(audience) in items {
        var i :| 0 <= i < |items| && items[i] == JString(audience);
        assert aud[i] == audience;
      }
    }
  }

  lemma ClaimErrorsExact(t: Tokens, claims: Claims, now: int)
    requires t.issuer != "" && t.audience != ""
    ensures var others := {InvalidIssuer, InvalidAudience, RequiredClaimMissing, InvalidType, UsedBeforeIssued, NotValidYet};
      var errs := ClaimErrors(t, claims, now);
      && errs <= others + {Expired}
      && (errs * others == {} <==>
            Text(claims, "iss", t.issuer) && ForAudience(claims, t.audience)
            && Started(claims, "iat", now) && Started(claims, "nbf", now) && HasExpiry(claims))
      && (HasExpiry(claims) ==> (Expired in errs <==> claims["exp"].number * SECOND <= now))
  {
    AudienceExact(claims, t.audience);
    var others := {InvalidIssuer, InvalidAudience, RequiredClaimMissing, InvalidType, UsedBeforeIssued, NotValidYet};
    var errs := ClaimErrors(t, claims, now);
    var parts := [ExpiryErrors(claims, now), StartErrors(claims, "nbf", NotValidYet, now),
                  StartErrors(claims, "iat", UsedBeforeIssued, now), AudienceErrors(claims, t.audience), IssuerErrors(claims, t.issuer)];
    assert errs == parts[0] + parts[1] + parts[2] + parts[3] + parts[4];
    assert parts[0] * others == {} <==> HasExpiry(claims);
    assert parts[1] * others == {} <==> Started(claims, "nbf", now);
    assert parts[2] * others == {} <==> Started(claims, "iat", now);
    assert parts[3] * others == {} <==> ForAudience(claims, t.audience) by {
      assert parts[3] * others == parts[3];
    }
    assert parts[4] * others == {} <==> Text(claims, "iss", t.issuer);
    assert errs * others == parts[0] * others + parts[1] * others + parts[2] * others + parts[3] * others + parts[4] * others;
  }

  /** An issued token says when it was issued and expires its time to live later, both in whole seconds. */
  lemma IssuedDates(t: Tokens, username: string, groups: seq<string>, now: int)
    ensures var claims := IssuedClaims(t, username, groups, now);
      && claims["iat"].JNumber? && claims["exp"].JNumber?
      && claims["iat"].number * SECOND <= now < (claims["iat"].number + 1) * SECOND
      && claims["exp"].number - claims["iat"].number == t.ttl
  {
  }

  predicate Usable(t: Tokens) {
    t.issuer != "" && t.audience != "" && t.keyID != "" && t.ttl > 0
  }

  lemma IssuedClaimsCarry(t: Tokens, username: string, groups: seq<string>, now: int)
    requires ValidIdentities(username, groups)
    ensures CredentialOf(IssuedClaims(t, username, groups, now)) == Some(Credential(username, groups))
  {
    var items := IssuedClaims(t, username, groups, now)["groups"].items;
    assert seq(|items|, i requires 0 <= i < |items| && items[i].JString? => items[i].text) == groups;
  }

  lemma IssuedTokenGenuine(t: Tokens, v: Tokens, username: string, groups: seq<string>, now: int, later: int)
    requires Usable(t) && v.issuer == t.issuer && v.audience == t.audience
    requires ValidIdentities(username, groups) && 0 <= now <= later
    ensures Genuine(v, IssuedToken(t, username, groups, now), later) <==> t.keyID in v.keys && v.keys[t.keyID] == PublicOf(t.private)
  {
    IssuedClaimsCarry(t, username, groups, now);
    assert now / SECOND * SECOND <= now;
  }

  /**
   A token issued at now lives longer than ttl - 1s and at most ttl. Until it expires a replica of the same
   issuer and audience accepts it, with the same user and groups, iff it trusts the signing key under its ID.
   */
  lemma VerifyInvertsIssue(t: Tokens, v: Tokens, username: string, groups: seq<string>, now: int, later: int)
    requires Usable(t) && v.issuer == t.issuer && v.audience == t.audience
    requires ValidIdentities(username, groups) && 0 <= now <= later
    ensures var raw, exp := IssuedToken(t, username, groups, now), (now / SECOND + t.ttl) * SECOND;
      var trusted := t.keyID in v.keys && v.keys[t.keyID] == PublicOf(t.private);
      && (t.ttl - 1) * SECOND < exp - now <= t.ttl * SECOND
      && (later < exp && trusted ==> Verdict(v, raw, later) == Ok(Credential(username, groups)))
      && (exp <= later && trusted ==> Verdict(v, raw, later) == Err(TokenExpired))
      && (!trusted ==> Verdict(v, raw, later) == Err(Unauthenticated))
  {
    IssuedTokenGenuine(t, v, username, groups, now, later);
    IssuedClaimsCarry(t, username, groups, now);
    VerdictExact(v, IssuedToken(t, username, groups, now), later);
  }
}
