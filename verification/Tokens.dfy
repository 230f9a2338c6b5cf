/** AuthService: refresh, logout and authentication with the Redis blacklist. Times are microseconds. */
module Tokens {
  import Calendar
  import opened Options

  const SECOND := Calendar.SECOND

  datatype Kind = Access | Refresh

  /** The subject claim: missing or empty, the UUID of a user, or text that is no UUID. */
  datatype Subject = Missing | UserId(id: nat) | NoUuid

  /** A signed token is its claims: equal claims make equal text. `exp` is in seconds (RFC 7519, section 4.1.4). */
  datatype Token = Token(kind: Kind, sub: Subject, exp: int)

  datatype User = User(id: nat, active: bool, deleted: bool, businessDeleted: bool)

  /** BadUuid is the ValueError of uuid.UUID, which no handler catches. */
  datatype Error = InvalidToken | NotFound | Unauthorized | BadUuid

  datatype Result<+T> = Ok(value: T) | Err(error: Error)

  const ACCESS_SECONDS := 30 * 60
  const REFRESH_SECONDS := 7 * 86_400

  /** int(x): truncation toward zero, of microseconds to seconds. */
  function Seconds(x: int): int {
    if x >= 0 then x / SECOND else -((-x) / SECOND)
  }

  /** ttl = max(int(exp - now), 0), in seconds. */
  function Ttl(t: Token, now: int): nat {
    var s := Seconds(t.exp * SECOND - now);
    if s > 0 then s else 0
  }

  /** The blacklist after revoking t: SETEX with a whole number of seconds, nothing when none is left. */
  function Revoked(blacklist: map<Token, int>, t: Token, now: int): map<Token, int> {
    if Ttl(t, now) > 0 then blacklist[t := now + Ttl(t, now) * SECOND] else blacklist
  }

  predicate Listed(blacklist: map<Token, int>, t: Token, now: int) {
    t in blacklist && now < blacklist[t]
  }

  /** Later revocations in a run: who is revoked, and when. */
  function AllRevoked(blacklist: map<Token, int>, events: seq<(Token, int)>): map<Token, int> {
    if events == [] then blacklist
    else
      var n := |events| - 1;
      Revoked(AllRevoked(blacklist, events[..n]), events[n].0, events[n].1)
  }

  /** An entry, whenever it was set, outlives all but the last second of the token. */
  lemma TtlReaches(t: Token, now: int)
    ensures now <= t.exp * SECOND - SECOND ==> Ttl(t, now) > 0
    ensures Ttl(t, now) > 0 ==> t.exp * SECOND - SECOND < now + Ttl(t, now) * SECOND <= t.exp * SECOND
  {
  }

  /** A single revocation rejects the token exactly until the truncated time to live is over. */
  lemma RevokedUntil(blacklist: map<Token, int>, t: Token, now: int, later: int)
    requires now <= later && !Listed(blacklist, t, now)
    ensures Listed(Revoked(blacklist, t, now), t, later) <==> later < now + Ttl(t, now) * SECOND
  {
  }

  /** Revoking one token changes nothing for another. */
  lemma RevokesNoOther(blacklist: map<Token, int>, t: Token, now: int, other: Token, later: int)
    requires other != t
    ensures Listed(Revoked(blacklist, t, now), other, later) <==> Listed(blacklist, other, later)
  {
  }

  /** A revoked token stays rejected at every later time up to one second before it expires, whatever is
      revoked after it, the token itself included. */
  lemma {:induction false} RevocationHolds(blacklist: map<Token, int>, t: Token, at: int, events: seq<(Token, int)>,
      later: int)
    requires at <= later <= t.exp * SECOND - SECOND
    ensures Listed(AllRevoked(Revoked(blacklist, t, at), events), t, later)
  {
    TtlReaches(t, at);
    if events != [] {
      var n := |events| - 1;
      RevocationHolds(blacklist, t, at, events[..n], later);
      TtlReaches(events[n].0, events[n].1);
    }
  }

  /** A refresh token of a user who exists and is active. */
  predicate MayRefresh(users: map<nat, User>, t: Token) {
    t.kind == Refresh && t.sub.UserId? && t.sub.id in users && users[t.sub.id].active
  }

  class AuthService {
    var blacklist: map<Token, int>
    var users: map<nat, User>

    constructor (users: map<nat, User>)
      ensures blacklist == map[] && this.users == users
    {
      blacklist, this.users := map[], users;
    }

    /** _blacklist_token. */
    method Blacklist(t: Token, now: int)
      modifies this`blacklist
      ensures blacklist == Revoked(old(blacklist), t, now)
    {
      var ttl := Ttl(t, now);
      if ttl > 0 {
        blacklist := blacklist[t := now + ttl * SECOND];
      }
    }

    /** refresh_tokens. `decodes` tells whether the JWT library accepts the token now. */
    method RefreshTokens(t: Token, decodes: bool, now: int) returns (r: Result<(Token, Token)>)
      modifies this`blacklist
      ensures r.Ok? <==> Exchanges(old(blacklist), users, DoRefresh(t, decodes, now))
      ensures r.Ok? <==>
                && decodes && t.kind == Refresh && !(t in old(blacklist) && now < old(blacklist)[t])
                && t.sub.UserId? && t.sub.id in users && users[t.sub.id].active
      ensures blacklist == AfterRequest(old(blacklist), users, DoRefresh(t, decodes, now))
      ensures blacklist == if r.Ok? then Revoked(old(blacklist), t, now) else old(blacklist)
      ensures r.Ok? ==> r.value == (Token(Access, t.sub, now / SECOND + ACCESS_SECONDS),
                                    Token(Refresh, t.sub, now / SECOND + REFRESH_SECONDS))
      ensures r.Err? ==>
                r.error == if !decodes || t.kind != Refresh || Listed(old(blacklist), t, now) || t.sub.Missing?
                           then InvalidToken
                           else if t.sub.NoUuid? then BadUuid else Unauthorized
    {
      if !decodes || t.kind != Refresh {
        return Err(InvalidToken);
      }
      if Listed(blacklist, t, now) || t.sub.Missing? {
        return Err(InvalidToken);
      }
      if t.sub.NoUuid? {
        return Err(BadUuid);
      }
      if t.sub.id !in users || !users[t.sub.id].active {
        return Err(Unauthorized);
      }
      Blacklist(t, now);
      r := Ok((Token(Access, t.sub, now / SECOND + ACCESS_SECONDS),
          Token(Refresh, t.sub, now / SECOND + REFRESH_SECONDS)));
    }

    /** logout: the access token, and the refresh token when given, as far as they still decode. */
    method Logout(access: Token, accessDecodes: bool, refresh: Option<Token>, refreshDecodes: bool, now: int)
      modifies this`blacklist
      ensures var b1 := if accessDecodes then Revoked(old(blacklist), access, now) else old(blacklist);
              blacklist == if refresh.Some? && refreshDecodes then Revoked(b1, refresh.value, now) else b1
      ensures blacklist
           == AfterRequest(old(blacklist), users, DoLogout(access, accessDecodes, refresh, refreshDecodes, now))
    {
      if accessDecodes {
        Blacklist(access, now);
      }
      if refresh.Some? && refreshDecodes {
        Blacklist(refresh.value, now);
      }
    }

    /** get_current_user. */
    method GetCurrentUser(t: Token, decodes: bool, now: int) returns (r: Result<User>)
      ensures r.Ok? <==>
                && decodes && t.kind == Access && !Listed(blacklist, t, now) && t.sub.UserId? && t.sub.id in users
                && users[t.sub.id].active && !users[t.sub.id].deleted && !users[t.sub.id].businessDeleted
      ensures r.Ok? ==> r.value == users[t.sub.id]
      ensures r.Err? ==>
                r.error == if !decodes || t.kind != Access || Listed(blacklist, t, now) || t.sub.Missing?
                           then InvalidToken
                           else if t.sub.NoUuid? then BadUuid
                           else if t.sub.id !in users || users[t.sub.id].deleted then NotFound
                           else Unauthorized
    {
      if !decodes || t.kind != Access {
        return Err(InvalidToken);
      }
      if Listed(blacklist, t, now) || t.sub.Missing? {
        return Err(InvalidToken);
      }
      if t.sub.NoUuid? {
        return Err(BadUuid);
      }
      if t.sub.id !in users || users[t.sub.id].deleted {
        return Err(NotFound);
      }
      var user := users[t.sub.id];
      if !user.active || user.businessDeleted {
        return Err(Unauthorized);
      }
      r := Ok(user);
    }
  }

  /** A request of a sequential run, with its time. */
  datatype Request =
    | DoRefresh(t: Token, decodes: bool, at: int)
    | DoLogout(access: Token, accessDecodes: bool, refresh: Option<Token>, refreshDecodes: bool, at: int)

  /** Does the request exchange its token, given the blacklist and who may refresh? */
  predicate Exchanges(blacklist: map<Token, int>, users: map<nat, User>, q: Request) {
    q.DoRefresh? && q.decodes && MayRefresh(users, q.t) && !Listed(blacklist, q.t, q.at)
  }

  function AfterRequest(blacklist: map<Token, int>, users: map<nat, User>, q: Request): map<Token, int> {
    match q
    case DoRefresh(t, _, at) => if Exchanges(blacklist, users, q) then Revoked(blacklist, t, at) else blacklist
    case DoLogout(a, da, r, dr, at) =>
      var b := if da then Revoked(blacklist, a, at) else blacklist;
      if r.Some? && dr then Revoked(b, r.value, at) else b
  }

  /** How often the run exchanges t at times up to one second before t expires. */
  function Exchanged(blacklist: map<Token, int>, users: map<nat, User>, run: seq<Request>, t: Token): nat
    decreases |run|
  {
    if run == [] then 0
    else
      (if Exchanges(blacklist, users, run[0]) && run[0].t == t && run[0].at <= t.exp * SECOND - SECOND then 1 else 0)
      + Exchanged(AfterRequest(blacklist, users, run[0]), users, run[1..], t)
  }

  /** Once t is listed for good, no request of the run exchanges it in time. */
  lemma {:induction false} NoMoreExchanges(blacklist: map<Token, int>, users: map<nat, User>, run: seq<Request>,
                                           t: Token)
    requires t in blacklist && t.exp * SECOND - SECOND < blacklist[t]
    ensures Exchanged(blacklist, users, run, t) == 0
    decreases |run|
  {
    if run != [] {
      StaysListed(blacklist, users, run[0], t);
      NoMoreExchanges(AfterRequest(blacklist, users, run[0]), users, run[1..], t);
    }
  }

  lemma StaysListed(blacklist: map<Token, int>, users: map<nat, User>, q: Request, t: Token)
    requires t in blacklist && t.exp * SECOND - SECOND < blacklist[t]
    ensures var b := AfterRequest(blacklist, users, q); t in b && t.exp * SECOND - SECOND < b[t]
  {
    TtlReaches(t, q.at);
  }

  /** In a sequential run a refresh token is exchanged at most once up to one second before it expires. */
  lemma {:induction false} ExchangedAtMostOnce(blacklist: map<Token, int>, users: map<nat, User>, run: seq<Request>,
                                               t: Token)
    ensures Exchanged(blacklist, users, run, t) <= 1
    decreases |run|
  {
    if run != [] {
      var b := AfterRequest(blacklist, users, run[0]);
      if Exchanges(blacklist, users, run[0]) && run[0].t == t && run[0].at <= t.exp * SECOND - SECOND {
        TtlReaches(t, run[0].at);
        NoMoreExchanges(b, users, run[1..], t);
      } else {
        ExchangedAtMostOnce(b, users, run[1..], t);
      }
    }
  }

  /** In the last second the blacklist takes no entry: a token that still decodes is exchanged every time. */
  lemma LastSecondExchangesRepeat(blacklist: map<Token, int>, users: map<nat, User>, t: Token, at: int)
    requires MayRefresh(users, t) && !Listed(blacklist, t, at)
    ensures var q := DoRefresh(t, true, at); var b := AfterRequest(blacklist, users, q);
            Exchanges(blacklist, users, q) && (Exchanges(b, users, q) <==> t.exp * SECOND - SECOND < at)
  {
    TtlReaches(t, at);
  }

  /** A fresh refresh token is usable unless it is already listed; it is the one just revoked exactly when
      the exchange happens in the second the old one was issued in. */
  lemma FreshTokenUsable(blacklist: map<Token, int>, t: Token, at: int)
    requires t.kind == Refresh && !Listed(blacklist, t, at)
    ensures var fresh' := Token(Refresh, t.sub, at / SECOND + REFRESH_SECONDS);
            !Listed(blacklist, fresh', at) && Ttl(t, at) > 0 ==>
              (Listed(Revoked(blacklist, t, at), fresh', at) <==> t.exp == at / SECOND + REFRESH_SECONDS)
  {
  }
}
