/** Refresh-token rotation: the SQL statements on `refresh_tokens`, the sequential handlers over
    them, and every interleaving of concurrent requests at statement granularity.

    Hashing is injective and a generated token is identified with its hash. */
module RefreshTokens {
  import opened Wrappers

  type UserId = nat
  type TokenHash = nat
  type Time = int

  datatype Row = Row(user: UserId, expiresAt: Time, revokedAt: Option<Time>)
  {
    predicate Live() { revokedAt.None? }

    /** `SET revoked_at = now() ... AND revoked_at IS NULL`. */
    function Revoke(now: Time): Row {
      if Live() then this.(revokedAt := Some(now)) else this
    }
  }

  /** The table, keyed by its UNIQUE column `token_hash`. */
  type Table = map<TokenHash, Row>

  function Claimable(t: Table, hash: TokenHash): bool {
    hash in t && t[hash].Live()
  }

  function RevokeOne(t: Table, hash: TokenHash, now: Time): Table {
    if hash in t then t[hash := t[hash].Revoke(now)] else t
  }

  function RevokeUser(t: Table, user: UserId, now: Time): Table {
    map h | h in t :: if t[h].user == user then t[h].Revoke(now) else t[h]
  }

  function LiveTokens(t: Table, user: UserId): (live: set<TokenHash>)
    ensures forall h :: h in live <==> h in t && t[h].user == user && t[h].revokedAt == None
  {
    set h | h in t && t[h].user == user && t[h].Live()
  }

  /** The rows of `hashes` that were not revoked are now, as of `now`; nothing else differs. */
  ghost predicate RevokedAmong(before: Table, after: Table, hashes: set<TokenHash>, now: Time) {
    && after.Keys == before.Keys
    && forall h :: h in before ==>
         after[h] == if h in hashes && before[h].revokedAt == None
                     then Row(before[h].user, before[h].expiresAt, Some(now)) else before[h]
  }

  // ----- the statements and the handlers, one request at a time -----

  datatype Claim = Claimed(user: UserId, expired: bool) | AlreadyRevoked(user: UserId) | NotFound

  datatype Reply = Pair(refresh: TokenHash) | NoContent | Status(code: nat)

  const ACTIVE := "active"

  /** What a refresh answers, by the state it starts in. */
  function RefreshReply(t: Table, status: map<UserId, string>, hash: TokenHash, minted: TokenHash, now: Time): Reply {
    if !Claimable(t, hash) || t[hash].expiresAt < now || t[hash].user !in status then Status(401)
    else if status[t[hash].user] != ACTIVE then Status(403)
    else if minted in t then Status(500)
    else Pair(minted)
  }

  /** What a refresh leaves behind: the token is rotated, spent, or its user's tokens are all revoked. */
  function RefreshTable(t: Table, status: map<UserId, string>, hash: TokenHash, minted: TokenHash,
                        expiresAt: Time, now: Time): Table {
    if RefreshReply(t, status, hash, minted, now).Pair? then
      RevokeOne(t, hash, now)[minted := Row(t[hash].user, expiresAt, None)]
    else if Claimable(t, hash) || hash !in t then RevokeOne(t, hash, now)
    else RevokeUser(t, t[hash].user, now)
  }

  /** An answered refresh exchanges one live token for another; a reused token leaves its user none; any
      other refusal spends at most the token presented. No other user is affected. */
  lemma {:induction false} RefreshExchanges(t: Table, status: map<UserId, string>, hash: TokenHash,
                                            minted: TokenHash, expiresAt: Time, now: Time, user: UserId)
    ensures
      var before := LiveTokens(t, user);
      var after := LiveTokens(RefreshTable(t, status, hash, minted, expiresAt, now), user);
      if hash !in t || t[hash].user != user then after == before
      else if RefreshReply(t, status, hash, minted, now).Pair? then after == before - {hash} + {minted}
      else if t[hash].Live() then after == before - {hash}
      else after == {}
  {
    var t' := RefreshTable(t, status, hash, minted, expiresAt, now);
    assert forall h :: h in LiveTokens(t', user) <==> h in t' && t'[h].user == user && t'[h].Live();
  }

  class Database {
    var tokens: Table
    var status: map<UserId, string>

    constructor (status: map<UserId, string>)
      ensures tokens == map[] && this.status == status
    {
      this.tokens, this.status := map[], status;
    }

    method StoreRefreshToken(user: UserId, hash: TokenHash, expiresAt: Time) returns (ok: bool)
      modifies this`tokens
      ensures ok <==> hash !in old(tokens)
      ensures tokens == if ok then old(tokens)[hash := Row(user, expiresAt, None)] else old(tokens)
    {
      ok := hash !in tokens;
      if ok {
        tokens := tokens[hash := Row(user, expiresAt, None)];
      }
    }

    method RevokeAndClaimRefresh(hash: TokenHash, now: Time) returns (claim: Claim)
      modifies this`tokens
      ensures tokens == RevokeOne(old(tokens), hash, now)
      ensures claim.Claimed? <==> hash in old(tokens) && old(tokens)[hash].revokedAt == None
      ensures claim.NotFound? <==> hash !in old(tokens)
      ensures RevokedAmong(old(tokens), tokens, {hash}, now)
      ensures !claim.NotFound? ==> claim.user == old(tokens)[hash].user
      ensures claim.Claimed? ==> claim.expired == (old(tokens)[hash].expiresAt < now)
    {
      if hash in tokens && tokens[hash].revokedAt.None? {
        var row := tokens[hash];
        tokens := tokens[hash := row.(revokedAt := Some(now))];
        return Claimed(row.user, row.expiresAt < now);
      }
      if hash in tokens {
        return AlreadyRevoked(tokens[hash].user);
      }
      return NotFound;
    }

    method RevokeRefreshToken(hash: TokenHash, now: Time)
      modifies this`tokens
      ensures tokens == RevokeOne(old(tokens), hash, now)
      ensures RevokedAmong(old(tokens), tokens, {hash}, now)
    {
      if hash in tokens && tokens[hash].revokedAt.None? {
        tokens := tokens[hash := tokens[hash].(revokedAt := Some(now))];
      }
    }

    method RevokeAllRefresh(user: UserId, now: Time)
      modifies this`tokens
      ensures tokens == RevokeUser(old(tokens), user, now)
      ensures RevokedAmong(old(tokens), tokens, (set h | h in old(tokens) && old(tokens)[h].user == user), now)
    {
      tokens := RevokeUser(tokens, user, now);
    }

    method IssuePair(user: UserId, minted: TokenHash, expiresAt: Time) returns (reply: Reply)
      modifies this`tokens
      ensures minted !in old(tokens) ==>
        reply == Pair(minted) && tokens == old(tokens)[minted := Row(user, expiresAt, None)]
      ensures minted in old(tokens) ==> reply == Status(500) && tokens == old(tokens)
    {
      var ok := StoreRefreshToken(user, minted, expiresAt);
      return if ok then Pair(minted) else Status(500);
    }

    /** The rotation as one uninterrupted request: a live, unexpired token of an active user is
        exchanged for the minted one; a reused token takes all of its user's tokens down. */
    method Refresh(hash: TokenHash, minted: TokenHash, expiresAt: Time, now: Time) returns (reply: Reply)
      modifies this`tokens
      ensures reply == RefreshReply(old(tokens), status, hash, minted, now)
      ensures tokens == RefreshTable(old(tokens), status, hash, minted, expiresAt, now)
      ensures
        var good := hash in old(tokens) && old(tokens)[hash].revokedAt == None && old(tokens)[hash].expiresAt >= now;
        reply ==
          if !good || old(tokens)[hash].user !in status then Status(401)
          else if status[old(tokens)[hash].user] != "active" then Status(403)
          else if minted in old(tokens) then Status(500)
          else Pair(minted)
    {
      var claim := RevokeAndClaimRefresh(hash, now);
      match claim
      case Claimed(user, expired) =>
        if expired {
          return Status(401);
        }
        if user !in status {
          return Status(401);
        }
        if status[user] != ACTIVE {
          return Status(403);
        }
        reply := IssuePair(user, minted, expiresAt);
      case AlreadyRevoked(user) =>
        RevokeAllRefresh(user, now);
        return Status(401);
      case NotFound =>
        return Status(401);
    }

    method Logout(hash: TokenHash, now: Time) returns (reply: Reply)
      modifies this`tokens
      ensures reply == NoContent && tokens == RevokeOne(old(tokens), hash, now)
      ensures RevokedAmong(old(tokens), tokens, {hash}, now)
      ensures hash in tokens ==> tokens[hash].revokedAt != None
    {
      RevokeRefreshToken(hash, now);
      return NoContent;
    }
  }

  // ----- all interleavings: one action is one SQL statement of one request -----

  type RequestId = nat
  type Session = nat

  /** Where a request stands between two statements. A session is one root issuance (login, register
      or OAuth) together with all its rotations. */
  datatype Request =
    | RefreshStart(hash: TokenHash)                  // before the claiming UPDATE
    | RefreshMissed(hash: TokenHash)                 // the UPDATE matched no row; before the SELECT
    | ReuseSeen(user: UserId)                        // before `revoke_all_refresh`
    | Rotating(user: UserId, session: Session)       // claimed; before the status check
    | Approved(user: UserId, session: Session)       // status checked; before the INSERT
    | LoginApproved(user: UserId)                    // credentials accepted; before the INSERT
    | Finished(reply: Reply)
  {
    predicate InFlight() { Rotating? || Approved? }
  }

  datatype Action =
    | BeginRefresh(r: RequestId, hash: TokenHash)
    | BeginLogin(r: RequestId, user: UserId)
    | ClaimUpdate(r: RequestId)
    | ClaimSelect(r: RequestId)
    | RevokeFamily(r: RequestId)
    | CheckStatus(r: RequestId)
    | Insert(r: RequestId, minted: TokenHash, expiresAt: Time, acknowledged: bool)
    | DbError(r: RequestId)
    | LogoutUpdate(hash: TokenHash)
    | RevokeAll(user: UserId)
    | SetStatus(user: UserId, status: string)
    | Tick(seconds: nat)

  /** The last three fields are history: the session of every token ever stored, the user of every
      session, and the tokens claimed, in order. */
  datatype State = State(
    tokens: Table,
    status: map<UserId, string>,
    now: Time,
    requests: map<RequestId, Request>,
    sessions: map<TokenHash, Session>,
    roots: seq<UserId>,
    claims: seq<TokenHash>)
  {
    predicate At(r: RequestId) { r in requests && !requests[r].Finished? }

    function Goto(r: RequestId, next: Request): State {
      this.(requests := requests[r := next])
    }

    function Answer(r: RequestId, reply: Reply): State {
      Goto(r, Finished(reply))
    }

    function Store(user: UserId, session: Session, minted: TokenHash, expiresAt: Time): State {
      this.(tokens := tokens[minted := Row(user, expiresAt, None)], sessions := sessions[minted := session])
    }

    function LiveOf(user: UserId): set<TokenHash> {
      LiveTokens(tokens, user)
    }

    function InFlightOf(user: UserId): (flying: set<RequestId>)
      ensures forall r :: r in flying <==>
                r in requests && exists i :: requests[r] in {Rotating(user, i), Approved(user, i)}
    {
      set r | r in requests && requests[r].InFlight() && requests[r].user == user
    }

    /** `x` holds session `i`: a live token, or a rotation between claim and store. */
    predicate Holds(x: Holder, i: Session) {
      match x
      case Token(h) => h in tokens && h in sessions && tokens[h].Live() && sessions[h] == i
      case Rotation(r) => r in requests && requests[r].InFlight() && requests[r].session == i
    }

    function UserOf(x: Holder, i: Session): UserId
      requires Holds(x, i)
    {
      match x case Token(h) => tokens[h].user case Rotation(r) => requests[r].user
    }

    ghost predicate Held(i: Session) {
      exists x :: Holds(x, i)
    }
  }

  datatype Holder = Token(h: TokenHash) | Rotation(r: RequestId)

  function ClaimStep(s: State, r: RequestId, hash: TokenHash): State {
    if Claimable(s.tokens, hash) && hash in s.sessions then
      var row := s.tokens[hash];
      var s' := s.(tokens := RevokeOne(s.tokens, hash, s.now), claims := s.claims + [hash]);
      if row.expiresAt < s.now then s'.Answer(r, Status(401))
      else s'.Goto(r, Rotating(row.user, s.sessions[hash]))
    else s.Goto(r, RefreshMissed(hash))
  }

  function SelectStep(s: State, r: RequestId, hash: TokenHash): State {
    if hash in s.tokens then s.Goto(r, ReuseSeen(s.tokens[hash].user)) else s.Answer(r, Status(401))
  }

  function StatusStep(s: State, r: RequestId, user: UserId, session: Session): State {
    if user !in s.status then s.Answer(r, Status(401))
    else if s.status[user] != ACTIVE then s.Answer(r, Status(403))
    else s.Goto(r, Approved(user, session))
  }

  /** An INSERT that takes effect while its acknowledgement is lost is answered as a failure. */
  function InsertStep(s: State, r: RequestId, minted: TokenHash, expiresAt: Time, acknowledged: bool): State
    requires s.At(r)
  {
    var reply := if acknowledged then Pair(minted) else Status(500);
    match s.requests[r]
    case Approved(user, session) =>
      if minted in s.tokens then s.Answer(r, Status(500))
      else s.Store(user, session, minted, expiresAt).Answer(r, reply)
    case LoginApproved(user) =>
      if minted in s.tokens then s.Answer(r, Status(500))
      else s.Store(user, |s.roots|, minted, expiresAt).(roots := s.roots + [user]).Answer(r, reply)
    case _ => s
  }

  /** An action that is not enabled changes nothing. */
  function Step(s: State, a: Action): State {
    match a
    case BeginRefresh(r, hash) => if r in s.requests then s else s.Goto(r, RefreshStart(hash))
    case BeginLogin(r, user) => if r in s.requests then s else s.Goto(r, LoginApproved(user))
    case ClaimUpdate(r) =>
      if s.At(r) && s.requests[r].RefreshStart? then ClaimStep(s, r, s.requests[r].hash) else s
    case ClaimSelect(r) =>
      if s.At(r) && s.requests[r].RefreshMissed? then SelectStep(s, r, s.requests[r].hash) else s
    case RevokeFamily(r) =>
      if s.At(r) && s.requests[r].ReuseSeen? then
        s.(tokens := RevokeUser(s.tokens, s.requests[r].user, s.now)).Answer(r, Status(401))
      else s
    case CheckStatus(r) =>
      if s.At(r) && s.requests[r].Rotating? then StatusStep(s, r, s.requests[r].user, s.requests[r].session) else s
    case Insert(r, minted, expiresAt, acknowledged) =>
      if s.At(r) then InsertStep(s, r, minted, expiresAt, acknowledged) else s
    case DbError(r) =>
      // a failed family revocation is ignored: the reuse is still refused
      if s.At(r) then s.Answer(r, Status(if s.requests[r].ReuseSeen? then 401 else 500)) else s
    case LogoutUpdate(hash) => s.(tokens := RevokeOne(s.tokens, hash, s.now))
    case RevokeAll(user) => s.(tokens := RevokeUser(s.tokens, user, s.now))
    case SetStatus(user, status) => s.(status := s.status[user := status])
    case Tick(seconds) => s.(now := s.now + seconds)
  }

  function Run(s: State, acts: seq<Action>): State
    decreases |acts|
  {
    if acts == [] then s else Run(Step(s, acts[0]), acts[1..])
  }

  const INIT := State(map[], map[], 0, map[], map[], [], [])

  /** A session belongs to one user and has at most one holder. */
  ghost predicate Exclusive(s: State) {
    && s.sessions.Keys == s.tokens.Keys
    && (forall x, i: Session :: s.Holds(x, i) ==> i < |s.roots| && s.roots[i] == s.UserOf(x, i))
    && (forall x, y, i :: s.Holds(x, i) && s.Holds(y, i) ==> x == y)
  }

  /** A claimed token is revoked, and no token is claimed twice. */
  ghost predicate ClaimedOnce(s: State) {
    && (forall i :: 0 <= i < |s.claims| ==> s.claims[i] in s.tokens && !s.tokens[s.claims[i]].Live())
    && (forall i, j :: 0 <= i < j < |s.claims| ==> s.claims[i] != s.claims[j])
  }

  ghost predicate Inv(s: State) {
    Exclusive(s) && ClaimedOnce(s)
  }

  // ----- one step -----

  /** No holder appears. */
  ghost predicate Sheds(s: State, s': State) {
    && s'.roots == s.roots && s'.sessions.Keys == s'.tokens.Keys
    && (forall x, i :: s'.Holds(x, i) ==> s.Holds(x, i) && s'.UserOf(x, i) == s.UserOf(x, i))
  }

  /** The session held by `from` is now held by `to`. */
  ghost predicate Moves(s: State, s': State, from: Holder, to: Holder) {
    && s'.roots == s.roots && s'.sessions.Keys == s'.tokens.Keys
    && (forall x, i :: s'.Holds(x, i) && x != to ==>
          x != from && s.Holds(x, i) && s'.UserOf(x, i) == s.UserOf(x, i))
    && (forall i :: s'.Holds(to, i) ==> s.Holds(from, i) && s'.UserOf(to, i) == s.UserOf(from, i))
  }

  /** A new session appears, held by `to` only. */
  ghost predicate Opens(s: State, s': State, user: UserId, to: Holder) {
    && s'.roots == s.roots + [user] && s'.sessions.Keys == s'.tokens.Keys
    && (forall x, i :: s'.Holds(x, i) && x != to ==> s.Holds(x, i) && s'.UserOf(x, i) == s.UserOf(x, i))
    && (forall i :: s'.Holds(to, i) ==> i == |s.roots| && s'.UserOf(to, i) == user)
  }

  lemma {:induction false} RequestSheds(s: State, r: RequestId, next: Request)
    requires s.sessions.Keys == s.tokens.Keys
    requires next.InFlight() ==>
      && r in s.requests && s.requests[r].InFlight()
      && s.requests[r].session == next.session && s.requests[r].user == next.user
    ensures Sheds(s, s.Goto(r, next))
  {
  }

  lemma {:induction false} RevokingSheds(s: State, t: Table)
    requires s.sessions.Keys == s.tokens.Keys == t.Keys
    requires forall h :: h in t ==> t[h].user == s.tokens[h].user && (t[h].Live() ==> s.tokens[h].Live())
    ensures Sheds(s, s.(tokens := t))
  {
  }

  lemma {:induction false} ClaimMoves(s: State, r: RequestId, hash: TokenHash)
    requires Exclusive(s) && s.At(r) && s.requests[r] == RefreshStart(hash) && Claimable(s.tokens, hash)
    ensures if s.tokens[hash].expiresAt < s.now then Sheds(s, ClaimStep(s, r, hash))
            else Moves(s, ClaimStep(s, r, hash), Token(hash), Rotation(r))
  {
  }

  lemma {:induction false} RotationStoreMoves(s: State, r: RequestId, minted: TokenHash, expiresAt: Time,
                                              acknowledged: bool)
    requires Exclusive(s) && s.At(r) && s.requests[r].Approved? && minted !in s.tokens
    ensures Moves(s, InsertStep(s, r, minted, expiresAt, acknowledged), Rotation(r), Token(minted))
  {
  }

  lemma {:induction false} LoginStoreOpens(s: State, r: RequestId, minted: TokenHash, expiresAt: Time,
                                           acknowledged: bool)
    requires Exclusive(s) && s.At(r) && s.requests[r].LoginApproved? && minted !in s.tokens
    ensures Opens(s, InsertStep(s, r, minted, expiresAt, acknowledged), s.requests[r].user, Token(minted))
  {
  }

  /** Every step sheds holders, moves one session, or opens one. */
  ghost predicate Accounted(s: State, s': State) {
    || Sheds(s, s')
    || (exists from, to :: Moves(s, s', from, to))
    || (exists user, to :: Opens(s, s', user, to))
  }

  lemma {:induction false} StepAccounted(s: State, a: Action)
    requires Exclusive(s)
    ensures Accounted(s, Step(s, a))
  {
    var s' := Step(s, a);
    match a
    case LogoutUpdate(hash) => RevokingSheds(s, RevokeOne(s.tokens, hash, s.now));
    case RevokeAll(user) => RevokingSheds(s, RevokeUser(s.tokens, user, s.now));
    case SetStatus(_, _) =>
    case Tick(_) =>
    case BeginRefresh(r, hash) =>
      RequestSheds(s, r, RefreshStart(hash));
    case BeginLogin(r, user) =>
      RequestSheds(s, r, LoginApproved(user));
    case _ =>
      if s.At(a.r) {
        RequestStepAccounted(s, a);
      }
  }

  lemma {:induction false} RequestStepAccounted(s: State, a: Action)
    requires Exclusive(s)
    requires a.ClaimUpdate? || a.ClaimSelect? || a.RevokeFamily? || a.CheckStatus? || a.Insert? || a.DbError?
    requires s.At(a.r)
    ensures Accounted(s, Step(s, a))
  {
    var r, s' := a.r, Step(s, a);
    var q := s.requests[r];
    if a.ClaimUpdate? && q.RefreshStart? && Claimable(s.tokens, q.hash) {
      ClaimMoves(s, r, q.hash);
    } else if a.Insert? && q.Approved? && a.minted !in s.tokens {
      RotationStoreMoves(s, r, a.minted, a.expiresAt, a.acknowledged);
    } else if a.Insert? && q.LoginApproved? && a.minted !in s.tokens {
      LoginStoreOpens(s, r, a.minted, a.expiresAt, a.acknowledged);
    } else if a.RevokeFamily? && q.ReuseSeen? {
      RevokingSheds(s, RevokeUser(s.tokens, q.user, s.now));
      RequestSheds(s.(tokens := s'.tokens), r, s'.requests[r]);
    } else {
      assert s' == s || s' == s.Goto(r, s'.requests[r]);
      RequestSheds(s, r, s'.requests[r]);
    }
  }

  lemma {:induction false} AccountedKeepsExclusive(s: State, s': State)
    requires Exclusive(s) && Accounted(s, s')
    ensures Exclusive(s')
  {
    if from, to :| Moves(s, s', from, to) {
    } else if user, to :| Opens(s, s', user, to) {
    }
  }

  /** A step removes no row and leaves revoked rows as they are. */
  lemma {:induction false} StepKeepsRows(s: State, a: Action, h: TokenHash)
    requires h in s.tokens
    ensures
      var t := Step(s, a).tokens;
      && h in t && t[h].user == s.tokens[h].user && t[h].expiresAt == s.tokens[h].expiresAt
      && (!s.tokens[h].Live() ==> t[h] == s.tokens[h])
  {
  }

  /** A step claims nothing, or one live token, which it revokes. */
  lemma {:induction false} StepClaims(s: State, a: Action)
    ensures
      var s' := Step(s, a);
      || s'.claims == s.claims
      || (exists h :: s'.claims == s.claims + [h] && Claimable(s.tokens, h) && h in s'.tokens && !s'.tokens[h].Live())
  {
    if a.ClaimUpdate? && s.At(a.r) && s.requests[a.r].RefreshStart? {
      var h := s.requests[a.r].hash;
      if Claimable(s.tokens, h) && h in s.sessions {
        assert Step(s, a).claims == s.claims + [h];
      }
    }
  }

  lemma {:induction false} StepKeepsClaimedOnce(s: State, a: Action)
    requires ClaimedOnce(s)
    ensures ClaimedOnce(Step(s, a))
  {
    hide Step;
    StepClaims(s, a);
    forall i | 0 <= i < |s.claims|
      ensures s.claims[i] in Step(s, a).tokens && !Step(s, a).tokens[s.claims[i]].Live()
    {
      StepKeepsRows(s, a, s.claims[i]);
    }
  }

  lemma {:induction false} StepKeepsInv(s: State, a: Action)
    requires Inv(s)
    ensures Inv(Step(s, a))
  {
    StepAccounted(s, a);
    AccountedKeepsExclusive(s, Step(s, a));
    StepKeepsClaimedOnce(s, a);
  }

  lemma {:induction false} RunKeepsInv(s: State, acts: seq<Action>)
    requires Inv(s)
    ensures Inv(Run(s, acts))
    decreases |acts|
  {
    if acts != [] {
      StepKeepsInv(s, acts[0]);
      RunKeepsInv(Step(s, acts[0]), acts[1..]);
    }
  }

  // ----- whole runs -----

  lemma {:induction false} InitHolds()
    ensures Inv(INIT)
  {
  }

  function SessionsOf(roots: seq<UserId>, user: UserId): set<Session> {
    set i: nat | i < |roots| && roots[i] == user
  }

  lemma {:induction false} SessionsAreIssuances(roots: seq<UserId>, user: UserId)
    ensures |SessionsOf(roots, user)| == multiset(roots)[user]
  {
    if roots != [] {
      var n := |roots| - 1;
      SessionsAreIssuances(roots[..n], user);
      assert roots == roots[..n] + [roots[n]];
      var before := SessionsOf(roots[..n], user);
      assert SessionsOf(roots, user) == if roots[n] == user then before + {n} else before;
    }
  }

  lemma {:induction false} InjectionSize<A, B>(dom: set<A>, f: A -> B, img: set<B>)
    requires forall a :: a in dom ==> f(a) in img
    requires forall a, b :: a in dom && b in dom && f(a) == f(b) ==> a == b
    ensures |dom| <= |img|
  {
    if a :| a in dom {
      InjectionSize(dom - {a}, f, img - {f(a)});
    }
  }

  function SessionOf(s: State, x: Holder): Session {
    match x
    case Token(h) => if h in s.sessions then s.sessions[h] else 0
    case Rotation(r) => if r in s.requests && s.requests[r].InFlight() then s.requests[r].session else 0
  }

  /** Rotation never multiplies sessions: a user's live tokens and rotations under way are never more
      than the logins whose token was stored. */
  lemma {:induction false} RotationNeverMultiplies(s: State, acts: seq<Action>, user: UserId)
    requires Inv(s)
    ensures
      var s' := Run(s, acts);
      |s'.LiveOf(user)| + |s'.InFlightOf(user)| <= multiset(s'.roots)[user]
  {
    var s' := Run(s, acts);
    RunKeepsInv(s, acts);
    var tokens := set h | h in s'.LiveOf(user) :: Token(h);
    var rotations := set r | r in s'.InFlightOf(user) :: Rotation(r);
    InjectionSize(s'.LiveOf(user), h => Token(h), tokens);
    InjectionSize(s'.InFlightOf(user), r => Rotation(r), rotations);
    var holders := tokens + rotations;
    assert |holders| == |tokens| + |rotations|;
    forall x | x in holders ensures s'.Holds(x, SessionOf(s', x)) && SessionOf(s', x) in SessionsOf(s'.roots, user) {
      assert s'.Holds(x, SessionOf(s', x));
    }
    InjectionSize(holders, x => SessionOf(s', x), SessionsOf(s'.roots, user));
    SessionsAreIssuances(s'.roots, user);
  }

  /** Each token is claimed by at most one request, over every interleaving. */
  lemma {:induction false} NoDoubleSpend(acts: seq<Action>, i: nat, j: nat)
    requires i < |Run(INIT, acts).claims| && j < |Run(INIT, acts).claims| && i != j
    ensures Run(INIT, acts).claims[i] != Run(INIT, acts).claims[j]
  {
    InitHolds();
    RunKeepsInv(INIT, acts);
  }

  // ----- what a step does to requests and rows, in their columns -----

  /** How a request gets where it is: the action, where it was, and what the tables said then. */
  ghost predicate Arrives(s: State, a: Action, r: RequestId, next: Request) {
    match next
    case RefreshStart(hash) => r !in s.requests && a == BeginRefresh(r, hash)
    case LoginApproved(user) => r !in s.requests && a == BeginLogin(r, user)
    case RefreshMissed(hash) =>
      && r in s.requests && s.requests[r] == RefreshStart(hash) && a == ClaimUpdate(r)
      && (hash !in s.tokens || s.tokens[hash].revokedAt != None)
    case ReuseSeen(user) =>
      && r in s.requests && s.requests[r].RefreshMissed? && a == ClaimSelect(r)
      && s.requests[r].hash in s.tokens && s.tokens[s.requests[r].hash].user == user
    case Rotating(user, session) =>
      && a == ClaimUpdate(r) && Starts(s, r)
      && var hash := s.requests[r].hash;
         && hash in s.tokens && s.tokens[hash] == Row(user, s.tokens[hash].expiresAt, None)
         && s.tokens[hash].expiresAt >= s.now && hash in s.sessions && s.sessions[hash] == session
    case Approved(user, session) =>
      && r in s.requests && s.requests[r] == Rotating(user, session) && a == CheckStatus(r)
      && user in s.status && s.status[user] == "active"
    case Finished(reply) => Answers(s, a, r, reply)
  }

  predicate Starts(s: State, r: RequestId) {
    r in s.requests && s.requests[r].RefreshStart?
  }

  ghost predicate Answers(s: State, a: Action, r: RequestId, reply: Reply) {
    && r in s.requests
    && var q := s.requests[r];
       match reply
       case NoContent => false
       case Pair(h) => a.Insert? && a.r == r && a.minted == h && a.acknowledged && h !in s.tokens && Stores(q)
       case Status(code) =>
         || (code == 500 && a == DbError(r) && !q.Finished? && !q.ReuseSeen?)
         || (code == 500 && a.Insert? && a.r == r && Stores(q) && (a.minted in s.tokens || !a.acknowledged))
         || (code == 403 && a == CheckStatus(r) && q.Rotating? && q.user in s.status && s.status[q.user] != "active")
         || (code == 401 && a == CheckStatus(r) && q.Rotating? && q.user !in s.status)
         || (code == 401 && (a == RevokeFamily(r) || a == DbError(r)) && q.ReuseSeen?)
         || (code == 401 && a == ClaimSelect(r) && q.RefreshMissed? && q.hash !in s.tokens)
         || (code == 401 && a == ClaimUpdate(r) && q.RefreshStart? && q.hash in s.tokens
             && s.tokens[q.hash].revokedAt == None && s.tokens[q.hash].expiresAt < s.now)
  }

  predicate Stores(q: Request) { q.Approved? || q.LoginApproved? }

  /** The action is the next statement of the request, or its failure, or its beginning. */
  predicate Due(s: State, a: Action, r: RequestId) {
    match a
    case BeginRefresh(x, _) => x == r && r !in s.requests
    case BeginLogin(x, _) => x == r && r !in s.requests
    case ClaimUpdate(x) => x == r && r in s.requests && s.requests[r].RefreshStart?
    case ClaimSelect(x) => x == r && r in s.requests && s.requests[r].RefreshMissed?
    case RevokeFamily(x) => x == r && r in s.requests && s.requests[r].ReuseSeen?
    case CheckStatus(x) => x == r && r in s.requests && s.requests[r].Rotating?
    case Insert(x, _, _, _) => x == r && r in s.requests && Stores(s.requests[r])
    case DbError(x) => x == r && r in s.requests && !s.requests[r].Finished?
    case _ => false
  }

  /** A request moves exactly by what is due, and only as `Arrives` says; an answer is never taken back. */
  lemma {:induction false} RequestMoves(s: State, a: Action, r: RequestId)
    requires s.sessions.Keys == s.tokens.Keys
    ensures
      var t := Step(s, a).requests;
      if Due(s, a, r) then r in t && (r in s.requests ==> t[r] != s.requests[r]) && Arrives(s, a, r, t[r])
      else (r in t <==> r in s.requests) && (r in t ==> t[r] == s.requests[r])
  {
    hide Step, Arrives;
    if Due(s, a, r) {
      DueMoves(s, a, r);
    } else {
      OthersStay(s, a, r);
    }
  }

  lemma {:induction false} DueMoves(s: State, a: Action, r: RequestId)
    requires s.sessions.Keys == s.tokens.Keys && Due(s, a, r)
    ensures
      var t := Step(s, a).requests;
      r in t && (r in s.requests ==> t[r] != s.requests[r]) && Arrives(s, a, r, t[r])
  {
  }

  lemma {:induction false} OthersStay(s: State, a: Action, r: RequestId)
    requires !Due(s, a, r)
    ensures
      var t := Step(s, a).requests;
      (r in t <==> r in s.requests) && (r in t ==> t[r] == s.requests[r])
  {
  }

  /** A failed statement stores nothing and approves nothing: it is answered, 401 to a reused token and 500
      otherwise. */
  lemma {:induction false} ErrorsAnswer(s: State, r: RequestId)
    requires r in s.requests && !s.requests[r].Finished?
    ensures
      var s' := Step(s, DbError(r));
      && r in s'.requests
      && s'.requests[r] == Finished(Status(if s.requests[r].ReuseSeen? then 401 else 500))
      && s'.tokens == s.tokens && s'.sessions == s.sessions && s'.roots == s.roots
  {
  }

  /** An INSERT of an approved request with an unused hash stores its user's token, and answers it if it is
      acknowledged. */
  lemma {:induction false} InsertAnswers(s: State, r: RequestId, h: TokenHash, expiresAt: Time, acknowledged: bool)
    requires r in s.requests && Stores(s.requests[r]) && h !in s.tokens
    ensures
      var s' := Step(s, Insert(r, h, expiresAt, acknowledged));
      && s'.tokens == s.tokens[h := Row(s.requests[r].user, expiresAt, None)]
      && r in s'.requests && s'.requests[r] == Finished(if acknowledged then Pair(h) else Status(500))
  {
  }

  /** The actions that revoke a row. */
  predicate Revokes(s: State, a: Action, h: TokenHash)
    requires h in s.tokens
  {
    match a
    case ClaimUpdate(r) => r in s.requests && s.requests[r] == RefreshStart(h)
    case LogoutUpdate(hash) => hash == h
    case RevokeAll(user) => user == s.tokens[h].user
    case RevokeFamily(r) => r in s.requests && s.requests[r] == ReuseSeen(s.tokens[h].user)
    case _ => false
  }

  /** What a step does to every row: none goes, one comes by an INSERT, and those not revoked are exactly when
      a statement names them. */
  lemma {:induction false} RowChanges(s: State, a: Action, h: TokenHash)
    requires s.sessions.Keys == s.tokens.Keys
    ensures
      var t := Step(s, a).tokens;
      if h in s.tokens then
        && h in t
        && t[h] == (if s.tokens[h].revokedAt == None && Revokes(s, a, h)
                    then Row(s.tokens[h].user, s.tokens[h].expiresAt, Some(s.now)) else s.tokens[h])
      else
        && (h in t <==> a.Insert? && a.minted == h && a.r in s.requests && Stores(s.requests[a.r]))
        && (h in t ==> t[h] == Row(s.requests[a.r].user, a.expiresAt, None))
  {
  }

  /** And to the rest: statuses, the clock, the sessions of tokens, the logins stored and the claims made. */
  lemma {:induction false} RestChanges(s: State, a: Action)
    requires s.sessions.Keys == s.tokens.Keys
    ensures
      var s' := Step(s, a);
      var inserts := a.Insert? && a.r in s.requests && a.minted !in s.tokens;
      && s'.status == (if a.SetStatus? then s.status[a.user := a.status] else s.status)
      && s'.now == (if a.Tick? then s.now + a.seconds else s.now)
      && s'.roots == (if inserts && s.requests[a.r].LoginApproved? then s.roots + [s.requests[a.r].user] else s.roots)
      && s'.sessions ==
           (if inserts && s.requests[a.r].LoginApproved? then s.sessions[a.minted := |s.roots|]
            else if inserts && s.requests[a.r].Approved? then s.sessions[a.minted := s.requests[a.r].session]
            else s.sessions)
      && s'.claims == (if a.ClaimUpdate? && Starts(s, a.r) && s.requests[a.r].hash in s.tokens
                          && s.tokens[s.requests[a.r].hash].revokedAt == None
                       then s.claims + [s.requests[a.r].hash] else s.claims)
  {
  }

  // ----- what every answered token has behind it -----

  /** In the run, action `a` came right after `before`. */
  ghost predicate Did(acts: seq<Action>, before: seq<Action>, a: Action) {
    before + [a] <= acts
  }

  /** The request began as a refresh with this token. */
  ghost predicate Began(acts: seq<Action>, r: RequestId, hash: TokenHash) {
    exists before :: Did(acts, before, BeginRefresh(r, hash))
  }

  ghost predicate LoggedIn(acts: seq<Action>, r: RequestId, user: UserId) {
    exists before :: Did(acts, before, BeginLogin(r, user))
  }

  /** It claimed that token of the user, then neither revoked nor expired. */
  ghost predicate HasClaimed(acts: seq<Action>, r: RequestId, user: UserId) {
    exists before, hash :: Did(acts, before, ClaimUpdate(r)) && Began(before, r, hash) &&
      var s := Run(INIT, before);
      hash in s.tokens && s.tokens[hash] == Row(user, s.tokens[hash].expiresAt, None)
      && s.tokens[hash].expiresAt >= s.now
  }

  /** And afterwards found the user active. */
  ghost predicate HasChecked(acts: seq<Action>, r: RequestId, user: UserId) {
    exists before :: Did(acts, before, CheckStatus(r)) && HasClaimed(before, r, user) &&
      var s := Run(INIT, before);
      user in s.status && s.status[user] == "active"
  }

  /** And afterwards stored the token, for this user. */
  ghost predicate HasStored(acts: seq<Action>, r: RequestId, h: TokenHash) {
    exists before, expiresAt, user ::
      && Did(acts, before, Insert(r, h, expiresAt, true))
      && (LoggedIn(before, r, user) || HasChecked(before, r, user))
      && h !in Run(INIT, before).tokens
      && var t := Run(INIT, before + [Insert(r, h, expiresAt, true)]).tokens;
         h in t && t[h] == Row(user, expiresAt, None)
  }

  /** What lies behind where a request stands. */
  ghost predicate Earned(acts: seq<Action>, r: RequestId, q: Request) {
    match q
    case RefreshStart(hash) => Began(acts, r, hash)
    case LoginApproved(user) => LoggedIn(acts, r, user)
    case Rotating(user, _) => HasClaimed(acts, r, user)
    case Approved(user, _) => HasChecked(acts, r, user)
    case Finished(reply) => reply.Pair? ==> HasStored(acts, r, reply.refresh)
    case _ => true
  }

  lemma {:induction false} EarnedStays(acts: seq<Action>, a: Action, r: RequestId, q: Request)
    requires Earned(acts, r, q)
    ensures Earned(acts + [a], r, q)
  {
    hide Run;
    forall before, b | Did(acts, before, b) ensures Did(acts + [a], before, b) {
    }
    hide Did;
  }

  lemma {:induction false} DidLast(acts: seq<Action>, a: Action)
    ensures Did(acts + [a], acts, a)
  {
  }

  lemma {:induction false} MoveEarns(acts: seq<Action>, a: Action, r: RequestId)
    requires var s := Run(INIT, acts); Inv(s) && Due(s, a, r)
    requires r in Run(INIT, acts).requests ==> Earned(acts, r, Run(INIT, acts).requests[r])
    ensures
      var s' := Step(Run(INIT, acts), a);
      r in s'.requests && Earned(acts + [a], r, s'.requests[r])
  {
    hide Step, Run, Did, Exclusive, ClaimedOnce;
    var s := Run(INIT, acts);
    KeysAgree(s);
    RequestMoves(s, a, r);
    DidLast(acts, a);
    if Step(s, a).requests[r].Finished? && Step(s, a).requests[r].reply.Pair? {
      StoreEarns(acts, a, r);
    }
  }

  lemma {:induction false} StoreEarns(acts: seq<Action>, a: Action, r: RequestId)
    requires var s := Run(INIT, acts); Inv(s) && r in s.requests && Stores(s.requests[r])
    requires Earned(acts, r, Run(INIT, acts).requests[r])
    requires a.Insert? && a.r == r && a.acknowledged && a.minted !in Run(INIT, acts).tokens
    ensures HasStored(acts + [a], r, a.minted)
  {
    hide Step, Run, Did, LoggedIn, HasChecked, Exclusive, ClaimedOnce;
    var s := Run(INIT, acts);
    KeysAgree(s);
    RowChanges(s, a, a.minted);
    RunLast(acts, a);
    DidLast(acts, a);
    assert a == Insert(r, a.minted, a.expiresAt, true);
  }

  lemma {:induction false} RunLast(acts: seq<Action>, a: Action)
    ensures Run(INIT, acts + [a]) == Step(Run(INIT, acts), a)
  {
    RunLastFrom(INIT, acts, a);
  }

  lemma {:induction false} RunLastFrom(s: State, acts: seq<Action>, a: Action)
    ensures Run(s, acts + [a]) == Step(Run(s, acts), a)
    decreases |acts|
  {
    if acts == [] {
      assert Run(s, [a]) == Run(Step(s, a), []);
    } else {
      assert (acts + [a])[1..] == acts[1..] + [a];
      RunLastFrom(Step(s, acts[0]), acts[1..], a);
    }
  }

  lemma {:induction false} AllEarned(acts: seq<Action>, r: RequestId)
    requires r in Run(INIT, acts).requests
    ensures Earned(acts, r, Run(INIT, acts).requests[r])
  {
    if acts != [] {
      hide Step, Run, Earned, Inv;
      var n := |acts| - 1;
      var pre, a := acts[..n], acts[n];
      assert acts == pre + [a];
      InitHolds();
      RunKeepsInv(INIT, pre);
      RunLast(pre, a);
      var s := Run(INIT, pre);
      if r in s.requests {
        AllEarned(pre, r);
      }
      KeysAgree(s);
      RequestMoves(s, a, r);
      if Due(s, a, r) {
        MoveEarns(pre, a, r);
      } else {
        EarnedStays(pre, a, r, s.requests[r]);
      }
    }
  }

  lemma {:induction false} KeysAgree(s: State)
    requires Inv(s)
    ensures s.sessions.Keys == s.tokens.Keys
  {
  }

  /** Over every interleaving, whoever is answered a token logged in, or presented a token of the same user that
      was neither revoked nor expired when this request claimed it, and was then found active; and the answered
      token was stored, unused before, for that user. */
  lemma {:induction false} AnsweredTokensAreEarned(acts: seq<Action>, r: RequestId, h: TokenHash)
    requires r in Run(INIT, acts).requests && Run(INIT, acts).requests[r] == Finished(Pair(h))
    ensures HasStored(acts, r, h)
  {
    AllEarned(acts, r);
  }

  /** A stored row stays, and once revoked it never changes again. */
  lemma {:induction false} RevocationIsForever(s: State, acts: seq<Action>, h: TokenHash)
    requires h in s.tokens
    ensures
      var t := Run(s, acts).tokens;
      && h in t && t[h].user == s.tokens[h].user && t[h].expiresAt == s.tokens[h].expiresAt
      && (!s.tokens[h].Live() ==> t[h] == s.tokens[h])
    decreases |acts|
  {
    if acts != [] {
      hide Step;
      StepKeepsRows(s, acts[0], h);
      RevocationIsForever(Step(s, acts[0]), acts[1..], h);
    }
  }

  lemma {:induction false} HeldBefore(s: State, s': State, i: Session)
    requires Accounted(s, s') && i < |s.roots| && s'.Held(i)
    ensures s.Held(i)
  {
    var x :| s'.Holds(x, i);
    if from, to :| Moves(s, s', from, to) {
      assert s.Holds(if x == to then from else x, i);
    } else if user, to :| Opens(s, s', user, to) {
      assert s.Holds(x, i);
    } else {
      assert s.Holds(x, i);
    }
  }

  /** A session without a holder never gets one back. */
  lemma {:induction false} EndedStaysEnded(s: State, acts: seq<Action>, i: Session)
    requires Exclusive(s) && i < |s.roots| && !s.Held(i)
    ensures !Run(s, acts).Held(i)
    decreases |acts|
  {
    if acts != [] {
      var s' := Step(s, acts[0]);
      StepAccounted(s, acts[0]);
      AccountedKeepsExclusive(s, s');
      if s'.Held(i) {
        HeldBefore(s, s', i);
      } else {
        EndedStaysEnded(s', acts[1..], i);
      }
    }
  }

  /** Logging out with a live token ends its session for good. */
  lemma {:induction false} LogoutEndsSession(s: State, h: TokenHash, acts: seq<Action>)
    requires Inv(s) && Claimable(s.tokens, h)
    ensures !Run(Step(s, LogoutUpdate(h)), acts).Held(s.sessions[h])
  {
    var s' := Step(s, LogoutUpdate(h));
    var i := s.sessions[h];
    assert s.Holds(Token(h), i);
    StepKeepsInv(s, LogoutUpdate(h));
    RevokingSheds(s, s'.tokens);
    EndedStaysEnded(s', acts, i);
  }

  /** A revoke-all leaves the user no live token, and touches neither sessions nor requests. */
  lemma {:induction false} RevokeAllEmpties(s: State, user: UserId)
    ensures
      var s' := Step(s, RevokeAll(user));
      && s'.LiveOf(user) == {} && s'.InFlightOf(user) == s.InFlightOf(user)
      && s'.roots == s.roots && s'.sessions == s.sessions
  {
  }

  lemma {:induction false} UnusedHash(used: set<TokenHash>) returns (h: TokenHash)
    ensures forall g :: g in used ==> g < h
  {
    if g :| g in used {
      var h' := UnusedHash(used - {g});
      h := if g < h' then h' else g + 1;
      assert forall f :: f in used ==> f == g || f in used - {g};
    } else {
      h := 0;
    }
  }

  /** No session of the user that already existed has a live token again, whatever happens next. */
  ghost predicate OldSessionsAreOver(s: State, user: UserId) {
    forall acts, h :: h in Run(s, acts).LiveOf(user) && h in Run(s, acts).sessions ==>
      Run(s, acts).sessions[h] >= |s.roots|
  }

  /** A revoke-all ends the user's sessions for good exactly when no rotation of the user is between its
      claim and its store at that moment. */
  lemma {:induction false} RevokeAllSettles(s: State, user: UserId)
    requires Inv(s)
    ensures OldSessionsAreOver(Step(s, RevokeAll(user)), user) <==> s.InFlightOf(user) == {}
  {
    hide Step;
    StepKeepsInv(s, RevokeAll(user));
    RevokeAllEmpties(s, user);
    SettledWithoutRotations(Step(s, RevokeAll(user)), user);
  }

  lemma {:induction false} SettledWithoutRotations(s: State, user: UserId)
    requires Inv(s) && s.LiveOf(user) == {}
    ensures OldSessionsAreOver(s, user) <==> s.InFlightOf(user) == {}
  {
    if s.InFlightOf(user) == {} {
      forall acts, h | h in Run(s, acts).LiveOf(user) && h in Run(s, acts).sessions
        ensures Run(s, acts).sessions[h] >= |s.roots|
      {
        NoRevival(s, user, acts, h);
      }
    } else {
      var r :| r in s.InFlightOf(user);
      RotationSurvives(s, user, r);
    }
  }

  lemma {:induction false} NoRevival(s: State, user: UserId, acts: seq<Action>, h: TokenHash)
    requires Inv(s) && s.LiveOf(user) == {} && s.InFlightOf(user) == {}
    requires h in Run(s, acts).LiveOf(user) && h in Run(s, acts).sessions
    ensures Run(s, acts).sessions[h] >= |s.roots|
  {
    var s', i := Run(s, acts), Run(s, acts).sessions[h];
    RunKeepsInv(s, acts);
    RootsGrow(s, acts);
    assert s'.Holds(Token(h), i);
    if i < |s.roots| {
      if s.Held(i) {
        HolderIsTheUsers(s, i);
      } else {
        EndedStaysEnded(s, acts, i);
      }
    }
  }

  lemma {:induction false} HolderIsTheUsers(s: State, i: Session)
    requires Exclusive(s) && s.Held(i)
    ensures i < |s.roots| && (s.LiveOf(s.roots[i]) != {} || s.InFlightOf(s.roots[i]) != {})
  {
    var x :| s.Holds(x, i);
    assert s.UserOf(x, i) == s.roots[i];
    match x
    case Token(h) => assert h in s.LiveOf(s.roots[i]);
    case Rotation(r) => assert r in s.InFlightOf(s.roots[i]);
  }

  lemma {:induction false} StepKeepsRoots(s: State, a: Action)
    ensures s.roots <= Step(s, a).roots
  {
  }

  lemma {:induction false} RootsGrow(s: State, acts: seq<Action>)
    ensures s.roots <= Run(s, acts).roots
    decreases |acts|
  {
    if acts != [] {
      hide Step;
      StepKeepsRoots(s, acts[0]);
      RootsGrow(Step(s, acts[0]), acts[1..]);
    }
  }

  lemma {:induction false} RotationSurvives(s: State, user: UserId, r: RequestId)
    requires Inv(s) && r in s.InFlightOf(user)
    ensures !OldSessionsAreOver(s, user)
  {
    var minted := UnusedHash(s.tokens.Keys);
    var a, b, c := SetStatus(user, ACTIVE), CheckStatus(r), Insert(r, minted, s.now, true);
    var i := s.requests[r].session;
    assert s.Holds(Rotation(r), i);
    var s1 := Step(s, a);
    var s2 := Step(s1, b);
    assert s2.requests[r] == Approved(user, i);
    var s3 := Step(s2, c);
    assert [a, b, c][1..] == [b, c] && [b, c][1..] == [c] && [c][1..] == [];
    assert Run(s1, [b, c]) == Run(s2, [c]) == Run(s3, []) == s3;
    assert Run(s, [a, b, c]) == s3;
    assert minted in s3.LiveOf(user) && s3.sessions[minted] == i;
  }

  /** All statements of one refresh request, uninterrupted. */
  function WholeRefresh(s: State, r: RequestId, hash: TokenHash, minted: TokenHash, expiresAt: Time): State {
    Step(Step(Step(WholeClaim(s, r, hash), RevokeFamily(r)), CheckStatus(r)), Insert(r, minted, expiresAt, true))
  }

  function WholeClaim(s: State, r: RequestId, hash: TokenHash): State {
    Step(Step(Step(s, BeginRefresh(r, hash)), ClaimUpdate(r)), ClaimSelect(r))
  }

  lemma {:induction false} WholeClaimIs(s: State, r: RequestId, hash: TokenHash)
    requires Inv(s) && r !in s.requests
    ensures
      var s' := WholeClaim(s, r, hash);
      && s'.status == s.status && s'.now == s.now
      && s'.tokens == (if Claimable(s.tokens, hash) then RevokeOne(s.tokens, hash, s.now) else s.tokens)
      && r in s'.requests
      && if hash !in s.tokens then s'.requests[r] == Finished(Status(401))
         else if !Claimable(s.tokens, hash) then s'.requests[r] == ReuseSeen(s.tokens[hash].user)
         else if s.tokens[hash].expiresAt < s.now then s'.requests[r] == Finished(Status(401))
         else s'.requests[r] == Rotating(s.tokens[hash].user, s.sessions[hash])
  {
  }

  /** The sequential handler and the interleaving model agree on a request nobody interrupts. */
  lemma {:induction false} UninterruptedRefresh(s: State, r: RequestId, hash: TokenHash, minted: TokenHash,
                                                expiresAt: Time)
    requires Inv(s) && r !in s.requests
    ensures
      var s' := WholeRefresh(s, r, hash, minted, expiresAt);
      && r in s'.requests && s'.requests[r] == Finished(RefreshReply(s.tokens, s.status, hash, minted, s.now))
      && s'.tokens == RefreshTable(s.tokens, s.status, hash, minted, expiresAt, s.now)
  {
    WholeClaimIs(s, r, hash);
    AfterClaim(WholeClaim(s, r, hash), r, minted, expiresAt);
  }

  lemma {:induction false} AfterClaim(s: State, r: RequestId, minted: TokenHash, expiresAt: Time)
    requires r in s.requests && (s.requests[r].Finished? || s.requests[r].ReuseSeen? || s.requests[r].Rotating?)
    ensures
      var s' := Step(Step(Step(s, RevokeFamily(r)), CheckStatus(r)), Insert(r, minted, expiresAt, true));
      && r in s'.requests
      && match s.requests[r]
         case ReuseSeen(user) =>
           s'.tokens == RevokeUser(s.tokens, user, s.now) && s'.requests[r] == Finished(Status(401))
         case Rotating(user, session) =>
           if user !in s.status then s'.tokens == s.tokens && s'.requests[r] == Finished(Status(401))
           else if s.status[user] != ACTIVE then s'.tokens == s.tokens && s'.requests[r] == Finished(Status(403))
           else if minted in s.tokens then s'.tokens == s.tokens && s'.requests[r] == Finished(Status(500))
           else s'.tokens == s.tokens[minted := Row(user, expiresAt, None)] && s'.requests[r] == Finished(Pair(minted))
         case _ => s' == s
  {
  }
}
