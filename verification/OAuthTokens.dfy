/**
  The authorization server's stored grants: one-time codes and rotating refresh tokens. Random
  secrets are numbers minted once each, and a hash is modelled by the secret it digests.
 */
module OAuthTokens {
  import opened Prelude

  const AUTH_CODE_TTL: int := 60
  const ACCESS_TOKEN_TTL: int := 3600
  const REFRESH_TOKEN_TTL: int := 7776000

  /** What a code or a lineage of tokens is bound to. offline is the offline_access scope. */
  datatype Grant = Grant(user: int, client: int, redirect: int, challenge: int, resource: int, offline: bool,
                         financeRead: bool)

  datatype Code = Code(grant: Grant, expiresAt: int, usedAt: Option<int>, hasOwner: bool)

  datatype Token = Token(access: nat, refresh: Option<nat>, family: nat, grant: Grant, hasOwner: bool,
                         accessExpiresAt: int, refreshExpiresAt: Option<int>,
                         rotatedAt: Option<int>, revokedAt: Option<int>)

  datatype Pair = Pair(access: nat, refresh: Option<nat>)

  datatype GrantError = BadGrant

  // ----- one-time codes -----

  /** Every check a redemption makes before it claims the code. resource None is an omitted one. */
  predicate Redeemable(c: Code, client: int, redirect: int, resource: Option<int>, challenge: int, now: int) {
    && c.usedAt.None? && now < c.expiresAt
    && c.grant.client == client && c.grant.redirect == redirect
    && (resource.Some? ==> resource.value == c.grant.resource)
    && c.grant.challenge == challenge
    && c.hasOwner
  }

  // ----- issuing and rotating -----

  /** A new row: two fresh secrets, a refresh token only with offline access. */
  function Issued(secret: nat, family: nat, grant: Grant, now: int): Token {
    Token(secret, if grant.offline then Some(secret + 1) else None, family, grant, true,
          now + ACCESS_TOKEN_TTL, if grant.offline then Some(now + REFRESH_TOKEN_TTL) else None, None, None)
  }

  /**
    What a new row promises: the grant and the family it is given, an hour of access, and with offline access,
    only then, ninety days to rotate it once.
   */
  predicate IssuedFor(t: Token, grant: Grant, family: nat, now: int) {
    && t.grant == grant && t.family == family && t.hasOwner
    && t.accessExpiresAt == now + 60 * 60
    && (t.refresh.Some? <==> grant.offline)
    && t.refreshExpiresAt == (if grant.offline then Some(now + 90 * 24 * 60 * 60) else None)
    && t.rotatedAt.None? && t.revokedAt.None?
    && t.refresh != Some(t.access)
  }

  predicate Rotatable(t: Token, client: int, now: int) {
    && t.revokedAt.None?
    && t.refreshExpiresAt.Some? && now < t.refreshExpiresAt.value
    && t.grant.client == client
    && t.hasOwner
  }

  /** Revoke every row of a family that is not revoked yet. */
  function Sweep(tokens: seq<Token>, family: nat, now: int): (out: seq<Token>)
    ensures |out| == |tokens|
    ensures forall i :: 0 <= i < |out| ==>
      out[i] == if tokens[i].family == family && tokens[i].revokedAt.None?
                then tokens[i].(revokedAt := Some(now)) else tokens[i]
  {
    seq(|tokens|, i requires 0 <= i < |tokens| =>
      if tokens[i].family == family && tokens[i].revokedAt.None? then tokens[i].(revokedAt := Some(now)) else tokens[i])
  }

  datatype Outcome = Refused | Swept | Rotated

  /** What becomes of a presented row: replayed if rotated already, else rotated if still good. */
  function Judge(t: Token, client: int, now: int): Outcome {
    if t.rotatedAt.Some? then Swept else if Rotatable(t, client, now) then Rotated else Refused
  }

  function Enact(tokens: seq<Token>, i: nat, outcome: Outcome, now: int, secret: nat): seq<Token>
    requires i < |tokens|
  {
    match outcome
    case Refused => tokens
    case Swept => Sweep(tokens, tokens[i].family, now)
    case Rotated =>
      tokens[i := tokens[i].(rotatedAt := Some(now))] + [Issued(secret, tokens[i].family, tokens[i].grant, now)]
  }

  /** A whole rotation request as one indivisible step. */
  function Rotate(tokens: seq<Token>, i: nat, client: int, now: int, secret: nat): seq<Token>
    requires i < |tokens|
  {
    Enact(tokens, i, Judge(tokens[i], client, now), now, secret)
  }

  /** The row a refresh token is stored in. */
  predicate PresentedRow(tokens: seq<Token>, refresh: nat, i: int) {
    0 <= i < |tokens| && tokens[i].refresh == Some(refresh)
  }

  // ----- the resource server's check -----

  /** Rotation is not looked at: only revocation, expiry, audience and scope. */
  predicate AccessLive(t: Token, audience: int, now: int) {
    t.revokedAt.None? && now < t.accessExpiresAt && t.grant.resource == audience && t.grant.financeRead
  }

  predicate VerifyAccess(tokens: seq<Token>, access: nat, audience: int, now: int) {
    exists i :: 0 <= i < |tokens| && tokens[i].access == access && AccessLive(tokens[i], audience, now)
  }

  // ----- the store, one request at a time -----

  /** Refresh tokens are unique: the index on the hash column. */
  ghost predicate RefreshUnique(tokens: seq<Token>) {
    forall i, j :: 0 <= i < j < |tokens| && tokens[i].refresh.Some? ==> tokens[i].refresh != tokens[j].refresh
  }

  /** Secrets are minted once: refresh tokens are below the counter and pairwise distinct. */
  ghost predicate SecretsFresh(tokens: seq<Token>, nextSecret: nat) {
    && RefreshUnique(tokens)
    && (forall i :: 0 <= i < |tokens| && tokens[i].refresh.Some? ==> tokens[i].refresh.value < nextSecret)
  }

  /** Neither sweeping nor rotating touches a secret already stored. */
  lemma EnactKeepsSecrets(tokens: seq<Token>, i: nat, outcome: Outcome, now: int, nextSecret: nat)
    requires SecretsFresh(tokens, nextSecret) && i < |tokens|
    ensures SecretsFresh(Enact(tokens, i, outcome, now, nextSecret),
                         if outcome == Rotated then nextSecret + 2 else nextSecret)
  {
  }

  class TokenStore {
    var tokens: seq<Token>
    var codes: map<nat, Code>
    var nextSecret: nat
    var nextFamily: nat

    /** Secrets are handed out in ascending order, so every one stored is below the next. */
    ghost predicate Valid()
      reads this
    {
      && SecretsFresh(tokens, nextSecret)
      && (forall code :: code in codes ==> code < nextSecret)
    }

    constructor ()
      ensures Valid() && tokens == [] && codes == map[] && nextSecret == 0 && nextFamily == 0
    {
      tokens, codes, nextSecret, nextFamily := [], map[], 0, 0;
    }

    method MintAuthCode(grant: Grant, now: int) returns (code: nat)
      requires Valid()
      modifies this`codes, this`nextSecret
      ensures Valid() && code !in old(codes)
      ensures codes == old(codes)[code := Code(grant, now + 60, None, true)]
    {
      code := nextSecret;
      nextSecret := nextSecret + 1;
      codes := codes[code := Code(grant, now + AUTH_CODE_TTL, None, true)];
    }

    /** A failed check leaves the code usable; only success burns it, and then it starts a family. */
    method RedeemAuthCode(code: nat, client: int, redirect: int, resource: Option<int>, challenge: int, now: int)
      returns (r: Result<Pair, GrantError>)
      requires Valid()
      modifies this
      ensures Valid()
      ensures r.Ok? <==> code in old(codes) && Redeemable(old(codes)[code], client, redirect, resource, challenge, now)
      ensures r.Ok? <==> && code in old(codes)
                         && var c := old(codes)[code];
                         && c.usedAt.None? && now < c.expiresAt && c.hasOwner
                         && client == c.grant.client && redirect == c.grant.redirect && challenge == c.grant.challenge
                         && (resource == None || resource == Some(c.grant.resource))
      ensures r.Err? ==> tokens == old(tokens) && codes == old(codes) && nextFamily == old(nextFamily)
      ensures r.Ok? ==> && codes == old(codes)[code := old(codes)[code].(usedAt := Some(now))]
                        && tokens != [] && tokens == old(tokens) + [tokens[|tokens| - 1]]
                        && IssuedFor(tokens[|tokens| - 1], old(codes)[code].grant, old(nextFamily), now)
                        && nextFamily == old(nextFamily) + 1
                        && r.value == Pair(tokens[|tokens| - 1].access, tokens[|tokens| - 1].refresh)
      ensures r.Ok? ==> && tokens[|tokens| - 1] == Issued(old(nextSecret), old(nextFamily), old(codes)[code].grant, now)
                        && nextSecret == old(nextSecret) + 2
    {
      if code !in codes {
        return Err(BadGrant);
      }
      var c := codes[code];
      if c.usedAt.Some? || c.expiresAt <= now {
        return Err(BadGrant);
      }
      if c.grant.client != client || c.grant.redirect != redirect
         || (resource.Some? && c.grant.resource != resource.value) || c.grant.challenge != challenge {
        return Err(BadGrant);
      }
      if !c.hasOwner {
        return Err(BadGrant);
      }
      codes := codes[code := c.(usedAt := Some(now))];
      var t := Issued(nextSecret, nextFamily, c.grant, now);
      tokens := tokens + [t];
      nextFamily, nextSecret := nextFamily + 1, nextSecret + 2;
      return Ok(Pair(t.access, t.refresh));
    }

    /** Locate, gather the family, re-find the row in it, then sweep or rotate row by row. */
    method RotateRefresh(refresh: nat, client: int, now: int) returns (r: Result<Pair, GrantError>)
      requires Valid()
      modifies this`tokens, this`nextSecret
      ensures Valid()
      ensures (forall i :: !PresentedRow(old(tokens), refresh, i)) ==> r.Err? && tokens == old(tokens)
      ensures forall i :: PresentedRow(old(tokens), refresh, i) ==>
        && tokens == Rotate(old(tokens), i, client, now, old(nextSecret))
        && (r.Ok? <==> Judge(old(tokens)[i], client, now) == Rotated)
        && (r.Ok? ==> r.value == Pair(tokens[|tokens| - 1].access, tokens[|tokens| - 1].refresh))
      ensures forall i :: PresentedRow(old(tokens), refresh, i) ==>
        var t := old(tokens)[i];
        && (r.Ok? <==> && t.rotatedAt.None? && t.revokedAt.None? && t.hasOwner && client == t.grant.client
                       && t.refreshExpiresAt.Some? && now < t.refreshExpiresAt.value)
        && (r.Ok? ==> && tokens != []
                      && tokens == old(tokens)[i := t.(rotatedAt := Some(now))] + [tokens[|tokens| - 1]]
                      && IssuedFor(tokens[|tokens| - 1], t.grant, t.family, now))
        && (r.Err? && t.rotatedAt.None? ==> tokens == old(tokens))
        && (t.rotatedAt.Some? ==>
              && |tokens| == |old(tokens)|
              && forall k :: 0 <= k < |tokens| ==>
                   if old(tokens)[k].family == t.family && old(tokens)[k].revokedAt.None?
                   then tokens[k] == old(tokens)[k].(revokedAt := Some(now)) else tokens[k] == old(tokens)[k])
    {
      var presented := 0;
      while presented < |tokens| && tokens[presented].refresh != Some(refresh)
        invariant 0 <= presented <= |tokens|
        invariant forall k :: 0 <= k < presented ==> tokens[k].refresh != Some(refresh)
      {
        presented := presented + 1;
      }
      if presented == |tokens| {
        return Err(BadGrant);
      }
      assert PresentedRow(tokens, refresh, presented);
      assert forall i :: PresentedRow(tokens, refresh, i) ==> i == presented;
      EnactKeepsSecrets(tokens, presented, Judge(tokens[presented], client, now), now, nextSecret);
      hide SecretsFresh, RefreshUnique;
      var row := tokens[presented];
      if presented !in FamilyRows(tokens, row.family) {
        return Err(BadGrant);
      }
      if row.rotatedAt.Some? {
        RevokeFamily(row.family, now);
        return Err(BadGrant);
      }
      if row.revokedAt.Some? || row.refreshExpiresAt.None? || row.refreshExpiresAt.value <= now
        || row.grant.client != client {
        return Err(BadGrant);
      }
      if !row.hasOwner {
        return Err(BadGrant);
      }
      tokens := tokens[presented := row.(rotatedAt := Some(now))];
      var t := Issued(nextSecret, row.family, row.grant, now);
      tokens := tokens + [t];
      nextSecret := nextSecret + 2;
      return Ok(Pair(t.access, t.refresh));
    }

    /** The sweep, row by row over the family. */
    method RevokeFamily(family: nat, now: int)
      modifies this`tokens
      ensures tokens == Sweep(old(tokens), family, now)
    {
      var ids := FamilyRows(tokens, family);
      for i := 0 to |tokens|
        invariant |tokens| == |old(tokens)|
        invariant forall k :: 0 <= k < i ==> tokens[k] == Sweep(old(tokens), family, now)[k]
        invariant forall k :: i <= k < |tokens| ==> tokens[k] == old(tokens)[k]
      {
        if i in ids && tokens[i].revokedAt.None? {
          tokens := tokens[i := tokens[i].(revokedAt := Some(now))];
        }
      }
    }
  }

  /** The ids of one family's rows. */
  function FamilyRows(tokens: seq<Token>, family: nat): (ids: set<int>)
    ensures forall i :: i in ids <==> 0 <= i < |tokens| && tokens[i].family == family
  {
    set i | 0 <= i < |tokens| && tokens[i].family == family
  }

  // ----- what one request does to access -----

  /** Rotating a row leaves every access token that was live live, its own included. */
  lemma RotationKeepsAccess(tokens: seq<Token>, i: nat, client: int, now: int, secret: nat, access: nat, audience: int,
                            later: int)
    requires i < |tokens| && Judge(tokens[i], client, now) == Rotated
    requires VerifyAccess(tokens, access, audience, later)
    ensures VerifyAccess(Rotate(tokens, i, client, now, secret), access, audience, later)
  {
    var k :| 0 <= k < |tokens| && tokens[k].access == access && AccessLive(tokens[k], audience, later);
    var out := Rotate(tokens, i, client, now, secret);
    assert out[k].access == access && AccessLive(out[k], audience, later);
  }

  /** Replaying a rotated row kills every access token of the family, at every later time. */
  lemma ReplayKillsAccess(tokens: seq<Token>, i: nat, client: int, now: int, secret: nat, k: nat, audience: int,
                          later: int)
    requires i < |tokens| && tokens[i].rotatedAt.Some?
    requires k < |tokens| && tokens[k].family == tokens[i].family
    ensures var out := Rotate(tokens, i, client, now, secret);
            |out| == |tokens| && out[k].revokedAt.Some? && !AccessLive(out[k], audience, later)
  {
  }
}
