/**
 * Session tokens issued at login: settings taken from configuration, the
 * nine string claims describing the user, issuer, audience and expiry.
 * Signing is not modelled; the key is carried along.
 */
module Jwt {
  import opened Wrappers
  import opened Models
  import opened Text

  /** Issuer and audience the bearer-token validator of the host accepts. */
  const ValidIssuer := "localhost"
  const ValidAudience := "localhost"

  /** The token settings: the signing key and the lifetime in minutes, as configured text. */
  datatype Jwt = Jwt(key: string, duration: string)

  /** A missing configuration value becomes the empty string. */
  function NewJwt(key: Option<string>, duration: Option<string>): Jwt {
    Jwt(if key.Some? then key.value else "", if duration.Some? then duration.value else "")
  }

  datatype Claim = Claim(claimType: string, value: string)

  /** The claim types of a token, in the order they are added. */
  const ClaimNames: seq<string> := ["id", "firstName", "lastName", "mobile", "email", "blocked", "active", "createdAt", "userType"]

  /** `UserType.ToString()`: the member's name. */
  function UserTypeName(t: UserType): string {
    match t
    case USER => "USER"
    case ADMIN => "ADMIN"
  }

  function Claims(u: User): seq<Claim> {
    [Claim("id", IntText(u.id)),
     Claim("firstName", u.firstName),
     Claim("lastName", u.lastName),
     Claim("mobile", u.mobile),
     Claim("email", u.email),
     Claim("blocked", BoolText(u.blocked)),
     Claim("active", BoolText(u.active)),
     Claim("createdAt", u.createdOn),
     Claim("userType", UserTypeName(u.userType))]
  }

  /** A token before signing; `expires` is in seconds, like the clock. */
  datatype Token = Token(issuer: string, audience: string, claims: seq<Claim>, expires: int, signingKey: string)

  /**
   * The token for `u` issued at `now`, or None when the key is empty (a
   * symmetric key of no bytes is refused) or the configured duration is not
   * a 32-bit integer (`Int32.Parse` throws).
   */
  function GenerateToken(jwt: Jwt, u: User, now: int): (r: Option<Token>)
    ensures r.Some? <==> jwt.key != "" && ParseInt32(jwt.duration).Some?
    ensures r.Some? ==> r.value.issuer == ValidIssuer && r.value.audience == ValidAudience
    ensures r.Some? ==> r.value.claims == Claims(u) && r.value.signingKey == jwt.key
  {
    if jwt.key == "" then None
    else
      match ParseInt32(jwt.duration)
      case None => None
      case Some(minutes) => Some(Token("localhost", "localhost", Claims(u), now + minutes * 60, jwt.key))
  }

  /** The claims as a JSON object: claim type to value. */
  function ClaimMap(cs: seq<Claim>): map<string, string>
    decreases |cs|
  {
    if |cs| == 0 then map[] else ClaimMap(cs[..|cs| - 1])[cs[|cs| - 1].claimType := cs[|cs| - 1].value]
  }

  /** The payload a client decodes: the claims plus the expiry, issuer and audience entries. */
  function Payload(t: Token): map<string, string> {
    ClaimMap(t.claims)["exp" := IntText(t.expires)]["iss" := t.issuer]["aud" := t.audience]
  }

  // ----- lemmas -----

  /** The nine claim types are pairwise distinct, so no claim hides another. */
  lemma ClaimNamesDistinct()
    ensures |ClaimNames| == 9
    ensures forall i, j :: 0 <= i < j < |ClaimNames| ==> ClaimNames[i] != ClaimNames[j]
  {
  }

  /** The claims of any user carry exactly the nine names, in order. */
  lemma ClaimsNamed(u: User)
    ensures |Claims(u)| == |ClaimNames|
    ensures forall i :: 0 <= i < |ClaimNames| ==> Claims(u)[i].claimType == ClaimNames[i]
  {
  }

  /** A lifetime configured as the decimal text of `m` minutes expires `m` minutes after issue. */
  lemma ExpiryIsDuration(key: string, m: int, u: User, now: int)
    requires key != "" && IsInt32(m)
    ensures GenerateToken(Jwt(key, IntText(m)), u, now).Some?
    ensures GenerateToken(Jwt(key, IntText(m)), u, now).value.expires == now + 60 * m
  {
    ParseIntText(m);
  }

  /** Without a configured key no token can be issued, whatever the lifetime. */
  lemma MissingKeyFails(duration: Option<string>, u: User, now: int)
    ensures GenerateToken(NewJwt(None, duration), u, now) == None
  {
  }

  /** Without a configured duration no token can be issued. */
  lemma MissingDurationFails(key: Option<string>, u: User, now: int)
    ensures GenerateToken(NewJwt(key, None), u, now) == None
  {
  }

  /** A lifetime holding any character other than a digit, a sign, white space or NUL is rejected. */
  lemma NonNumericDurationFails(key: string, d: string, u: User, now: int)
    requires exists i :: 0 <= i < |d| && NotNumberChar(d[i])
    ensures GenerateToken(Jwt(key, d), u, now) == None
  {
    var i :| 0 <= i < |d| && NotNumberChar(d[i]);
    ParseRejectsForeign(d, i);
  }

  lemma {:induction false} ClaimMapLookup(cs: seq<Claim>, k: nat)
    requires k < |cs|
    requires forall i, j :: 0 <= i < j < |cs| ==> cs[i].claimType != cs[j].claimType
    ensures cs[k].claimType in ClaimMap(cs) && ClaimMap(cs)[cs[k].claimType] == cs[k].value
    decreases |cs|
  {
    if k < |cs| - 1 {
      ClaimMapLookup(cs[..|cs| - 1], k);
    }
  }

  lemma {:induction false} ClaimMapKeys(cs: seq<Claim>)
    ensures forall k :: k in ClaimMap(cs) <==> exists i :: 0 <= i < |cs| && cs[i].claimType == k
    decreases |cs|
  {
    if |cs| > 0 {
      var n := |cs| - 1;
      ClaimMapKeys(cs[..n]);
      forall k | k in ClaimMap(cs)
        ensures exists i :: 0 <= i < |cs| && cs[i].claimType == k
      {
        if k != cs[n].claimType {
          assert k in ClaimMap(cs[..n]);
          var i :| 0 <= i < |cs[..n]| && cs[..n][i].claimType == k;
          assert cs[i].claimType == k;
        }
      }
      forall k | exists i :: 0 <= i < |cs| && cs[i].claimType == k
        ensures k in ClaimMap(cs)
      {
        var i :| 0 <= i < |cs| && cs[i].claimType == k;
        if i < n {
          assert cs[..n][i].claimType == k;
        }
      }
    }
  }

  /** The decoded payload has an entry for each of the nine claims and for expiry, issuer and audience, and no other. */
  lemma PayloadKeys(t: Token, u: User)
    requires t.claims == Claims(u)
    ensures forall k :: k in Payload(t) <==> k in ClaimNames || k == "exp" || k == "iss" || k == "aud"
  {
    var cs := Claims(u);
    ClaimMapKeys(cs);
    ClaimsNamed(u);
    forall k | k in ClaimNames
      ensures exists i :: 0 <= i < |cs| && cs[i].claimType == k
    {
      var i :| 0 <= i < |ClaimNames| && ClaimNames[i] == k;
      assert cs[i].claimType == k;
    }
  }

  /** The entries the token adds itself are named apart from every claim. */
  lemma RegisteredNamesApart()
    ensures forall k :: 0 <= k < |ClaimNames| ==> ClaimNames[k] != "exp" && ClaimNames[k] != "iss" && ClaimNames[k] != "aud"
  {
  }

  lemma PayloadEntry(t: Token, u: User, k: nat)
    requires t.claims == Claims(u)
    requires k < |ClaimNames|
    ensures ClaimNames[k] in Payload(t) && Payload(t)[ClaimNames[k]] == Claims(u)[k].value
  {
    ClaimsNamed(u);
    ClaimNamesDistinct();
    RegisteredNamesApart();
    ClaimMapLookup(Claims(u), k);
  }

  /**
   * The decoded payload holds each claim under its name: the id as decimal
   * text, the flags as "True"/"False", the type by name, the rest verbatim.
   */
  lemma PayloadValues(t: Token, u: User)
    requires t.claims == Claims(u)
    ensures "id" in Payload(t) && Payload(t)["id"] == IntText(u.id)
    ensures "firstName" in Payload(t) && Payload(t)["firstName"] == u.firstName
    ensures "lastName" in Payload(t) && Payload(t)["lastName"] == u.lastName
    ensures "mobile" in Payload(t) && Payload(t)["mobile"] == u.mobile
    ensures "email" in Payload(t) && Payload(t)["email"] == u.email
    ensures "blocked" in Payload(t) && Payload(t)["blocked"] == BoolText(u.blocked)
    ensures "active" in Payload(t) && Payload(t)["active"] == BoolText(u.active)
    ensures "createdAt" in Payload(t) && Payload(t)["createdAt"] == u.createdOn
    ensures "userType" in Payload(t) && Payload(t)["userType"] == UserTypeName(u.userType)
  {
    PayloadEntry(t, u, 0);
    PayloadEntry(t, u, 1);
    PayloadEntry(t, u, 2);
    PayloadEntry(t, u, 3);
    PayloadEntry(t, u, 4);
    PayloadEntry(t, u, 5);
    PayloadEntry(t, u, 6);
    PayloadEntry(t, u, 7);
    PayloadEntry(t, u, 8);
  }
}
