/** The RevenueCat webhook: grants, expirations, de-duplication and the stored subscription tier. */
module Billing {
  import opened Wrappers

  type UserId = nat
  type Micros = int

  const ACTIVE := "active"
  const EXPIRED := "expired"
  const REVENUECAT := "revenuecat"
  const SIMULATED := "simulated"

  datatype Sub = Sub(user: UserId, plan: string, source: string, status: string, startedAt: Micros,
                     expiresAt: Option<Micros>)
  {
    /** An active store row of this user and plan: what a grant or an expiration retires. */
    predicate ActiveRc(user: UserId, plan: string) {
      this.user == user && this.plan == plan && source == REVENUECAT && status == ACTIVE
    }

    /** `status = 'active' AND expires_at > now()`; a NULL expiry entitles to nothing. */
    predicate Entitles(user: UserId, now: Micros) {
      this.user == user && status == ACTIVE && expiresAt.Some? && expiresAt.value > now
    }
  }

  datatype Event = Event(kind: string, id: string, user: Option<UserId>, productId: string,
                         entitlementIds: seq<string>, expirationMs: Option<int>)

  // ----- plans, tiers, expiry -----

  function PlanRank(plan: string): nat {
    if plan == "unlimited" then 2 else if plan == "vibra_plus" then 1 else 0
  }

  function TierRank(tier: string): nat {
    if tier == "unlimited" then 2 else if tier == "xtra" then 1 else 0
  }

  /** `ORDER BY rank DESC LIMIT 1` over the user's entitling rows. */
  function BestPlan(subs: seq<Sub>, user: UserId, now: Micros): Option<string> {
    if subs == [] then None
    else
      var n := |subs| - 1;
      var best := BestPlan(subs[..n], user, now);
      if subs[n].Entitles(user, now) && (best.None? || PlanRank(subs[n].plan) > PlanRank(best.value))
      then Some(subs[n].plan) else best
  }

  function TierOf(best: Option<string>): string {
    match best
    case Some(plan) => if plan == "unlimited" then "unlimited" else if plan == "vibra_plus" then "xtra" else "free"
    case None => "free"
  }

  /** The tier is the highest any entitling row stands for, and free when there is none. */
  ghost predicate IsBestTier(tier: string, subs: seq<Sub>, user: UserId, now: Micros) {
    && tier in {"free", "xtra", "unlimited"}
    && (forall i :: 0 <= i < |subs| && subs[i].Entitles(user, now) ==> PlanRank(subs[i].plan) <= TierRank(tier))
    && (tier == "free" ||
        exists i :: 0 <= i < |subs| && subs[i].Entitles(user, now) && PlanRank(subs[i].plan) == TierRank(tier))
  }

  lemma {:induction false} BestPlanGivesBestTier(subs: seq<Sub>, user: UserId, now: Micros)
    ensures IsBestTier(TierOf(BestPlan(subs, user, now)), subs, user, now)
    ensures BestPlan(subs, user, now).None? ==> forall i :: 0 <= i < |subs| ==> !subs[i].Entitles(user, now)
  {
    if subs != [] {
      var n := |subs| - 1;
      BestPlanGivesBestTier(subs[..n], user, now);
      var before := TierOf(BestPlan(subs[..n], user, now));
      if before != "free" {
        var i :| 0 <= i < n && subs[..n][i].Entitles(user, now) && PlanRank(subs[..n][i].plan) == TierRank(before);
        assert subs[i].Entitles(user, now);
      }
      assert forall i :: 0 <= i < n ==> subs[i] == subs[..n][i];
    }
  }

  lemma {:induction false} BestTierUnique(t1: string, t2: string, subs: seq<Sub>, user: UserId, now: Micros)
    requires IsBestTier(t1, subs, user, now) && IsBestTier(t2, subs, user, now)
    ensures t1 == t2
  {
  }

  const KNOWN_PLAN_CODES := ["vibra_plus", "unlimited"]

  function MapPlan(entitlementIds: seq<string>, productId: string): (plan: Option<string>)
    ensures plan.Some? ==> plan.value in KNOWN_PLAN_CODES && (plan.value in entitlementIds || plan.value == productId)
    ensures plan.Some? && plan.value !in entitlementIds ==> forall e :: e in entitlementIds ==> e !in KNOWN_PLAN_CODES
    ensures plan.None? <==> productId !in KNOWN_PLAN_CODES && forall e :: e in entitlementIds ==> e !in KNOWN_PLAN_CODES
  {
    if entitlementIds == [] then if productId in KNOWN_PLAN_CODES then Some(productId) else None
    else if entitlementIds[0] in KNOWN_PLAN_CODES then Some(entitlementIds[0])
    else MapPlan(entitlementIds[1..], productId)
  }

  const MIN_UNIX_SECONDS := -377_705_116_800
  const MAX_UNIX_SECONDS := 253_402_300_799
  const SECOND: Micros := 1_000_000
  const DAY: Micros := 86_400 * SECOND

  /** Integer division that truncates toward zero. */
  function TruncDiv(a: int, b: int): int
    requires b > 0
  {
    if a >= 0 then a / b else -((-a) / b)
  }

  predicate HasValidExpiry(e: Event) {
    e.expirationMs.Some? && MIN_UNIX_SECONDS <= TruncDiv(e.expirationMs.value, 1000) <= MAX_UNIX_SECONDS
  }

  function ExpiryOf(e: Event, now: Micros): Micros {
    if HasValidExpiry(e) then TruncDiv(e.expirationMs.value, 1000) * SECOND else now + 30 * DAY
  }

  // ----- the state and one delivery -----

  /** `tiers` is `users.subscription_tier`: its keys are the existing users. */
  datatype State = State(subs: seq<Sub>, tiers: map<UserId, string>, processed: set<string>)

  function Retire(subs: seq<Sub>, user: UserId, plan: string, status: string): (r: seq<Sub>)
    ensures |r| == |subs|
    ensures forall i :: 0 <= i < |subs| ==>
      r[i] == if subs[i].ActiveRc(user, plan) then subs[i].(status := status) else subs[i]
  {
    seq(|subs|, i requires 0 <= i < |subs| =>
      if subs[i].ActiveRc(user, plan) then subs[i].(status := status) else subs[i])
  }

  function Grant(subs: seq<Sub>, user: UserId, plan: string, expiresAt: Micros, now: Micros): seq<Sub> {
    Retire(subs, user, plan, EXPIRED) + [Sub(user, plan, REVENUECAT, ACTIVE, now, Some(expiresAt))]
  }

  function Resolve(s: State, user: UserId, now: Micros): State {
    if user in s.tiers then s.(tiers := s.tiers[user := TierOf(BestPlan(s.subs, user, now))]) else s
  }

  const GRANT_EVENTS := ["INITIAL_PURCHASE", "RENEWAL", "PRODUCT_CHANGE", "UNCANCELLATION", "NON_RENEWING_PURCHASE"]

  predicate IsGrant(e: Event) { e.kind in GRANT_EVENTS }

  predicate IsExpiration(e: Event) { e.kind == "EXPIRATION" }

  /** A writing statement may take effect although its acknowledgement is lost. */
  datatype Outcome = Acknowledged | Failed | Unacknowledged
  {
    predicate TakesEffect() { !Failed? }

    predicate IsError() { !Acknowledged? }
  }

  /** How the database statements of a delivery end: the two lookups fail or not; `update` is the statement of
      the revocation, which a grant begins with. */
  datatype Faults = Faults(dedup: bool, user: bool, update: Outcome, insert: Outcome, resolve: Outcome, record: Outcome)

  predicate IsDuplicate(s: State, e: Event) {
    e.id != "" && e.id in s.processed
  }

  /** A lookup that fails counts as not found. */
  predicate Recognised(s: State, e: Event, f: Faults) {
    IsDuplicate(s, e) && !f.dedup
  }

  /** The event reaches step 5: it concerns an existing user and a known plan, and is no recognised
      duplicate. */
  predicate Handled(s: State, e: Event, f: Faults) {
    && e.kind != "TEST" && !Recognised(s, e, f)
    && e.user.Some? && !f.user && e.user.value in s.tiers && MapPlan(e.entitlementIds, e.productId).Some?
  }

  /** Step 5 fails, and the delivery with it. */
  predicate Fails(e: Event, f: Faults) {
    (IsGrant(e) && (f.update.IsError() || f.insert.IsError())) || (IsExpiration(e) && f.update.IsError())
  }

  predicate Completed(s: State, e: Event, f: Faults) {
    Handled(s, e, f) && !Fails(e, f)
  }

  /** A failed tier update is only logged. */
  function Effect(s: State, user: UserId, plan: string, e: Event, now: Micros, f: Faults): State {
    if IsGrant(e) then
      Resolved(s.(subs := Grant(s.subs, user, plan, ExpiryOf(e, now), now)), user, now, f)
    else if IsExpiration(e) then
      Resolved(s.(subs := Retire(s.subs, user, plan, EXPIRED)), user, now, f)
    else s
  }

  function Resolved(s: State, user: UserId, now: Micros, f: Faults): State {
    if f.resolve.TakesEffect() then Resolve(s, user, now) else s
  }

  /** What a grant or revocation leaves of the rows, however its statements end. */
  function Granted(subs: seq<Sub>, user: UserId, plan: string, expiresAt: Micros, now: Micros, f: Faults)
    : (r: seq<Sub>)
    ensures !f.update.IsError() && !f.insert.IsError() ==> r == Grant(subs, user, plan, expiresAt, now)
  {
    if !f.update.TakesEffect() then subs
    else if f.update.IsError() || !f.insert.TakesEffect() then Retire(subs, user, plan, EXPIRED)
    else Grant(subs, user, plan, expiresAt, now)
  }

  function Revoked(subs: seq<Sub>, user: UserId, plan: string, status: string, f: Faults): (r: seq<Sub>)
    ensures !f.update.IsError() ==> r == Retire(subs, user, plan, status)
  {
    if f.update.TakesEffect() then Retire(subs, user, plan, status) else subs
  }

  /** What a failing step 5 leaves: rows may be retired and even added, but the tier is not updated. */
  function Interrupted(s: State, user: UserId, plan: string, e: Event, now: Micros, f: Faults): State {
    if IsGrant(e) then s.(subs := Granted(s.subs, user, plan, ExpiryOf(e, now), now, f))
    else s.(subs := Revoked(s.subs, user, plan, EXPIRED, f))
  }

  /** A failed record is only logged. */
  function Record(s: State, e: Event, f: Faults): State {
    if e.id != "" && f.record.TakesEffect() then s.(processed := s.processed + {e.id}) else s
  }

  function Deliver(s: State, e: Event, now: Micros, f: Faults): State {
    if !Handled(s, e, f) then s
    else
      var user, plan := e.user.value, MapPlan(e.entitlementIds, e.productId).value;
      if Fails(e, f) then Interrupted(s, user, plan, e, now, f)
      else Record(Effect(s, user, plan, e, now, f), e, f)
  }

  datatype Reply = Done | Duplicate | Ignored(reason: string) | InvalidSecret | Unconfigured | ServerError

  function ReplyTo(s: State, secret: Option<seq<bv8>>, provided: seq<bv8>, e: Event, f: Faults): Reply {
    if secret.None? then Unconfigured
    else if provided != secret.value then InvalidSecret
    else if e.kind == "TEST" then Done
    else if Recognised(s, e, f) then Duplicate
    else if e.user.None? then Ignored("invalid_user_id")
    else if f.user then ServerError
    else if e.user.value !in s.tiers then Ignored("unknown_user")
    else if MapPlan(e.entitlementIds, e.productId).None? then Ignored("unmappable_plan")
    else if Fails(e, f) then ServerError
    else Done
  }

  // ----- a simulated purchase -----

  /** A row of `plan_prices` and whether its plan is active. */
  datatype Price = Price(plan: string, active: bool, monthly: bool, yearly: bool)
  {
    function Days(): int {
      if monthly then 30 else 365
    }
  }

  /** `enabled` is the gate of the environment; `price` is what the price id refers to. */
  datatype Order = Order(
    enabled: bool, user: UserId, price: Option<Price>, priceFails: bool, countFails: bool, insert: Outcome)

  datatype PurchaseReply = Created(sub: Sub) | Forbidden | PlanNotFound | AlreadyActive | DbError

  /** A row of the plan is in force, whatever its source. */
  predicate InForce(subs: seq<Sub>, user: UserId, plan: string, now: Micros) {
    exists i :: 0 <= i < |subs| && subs[i].Entitles(user, now) && subs[i].plan == plan
  }

  /** The request gets as far as the INSERT. */
  predicate Orders(s: State, o: Order, now: Micros) {
    && o.enabled && !o.priceFails && o.price.Some? && o.price.value.active
    && (o.price.value.monthly || o.price.value.yearly)
    && !o.countFails && !InForce(s.subs, o.user, o.price.value.plan, now)
  }

  /** The new row needs an existing user. */
  predicate Buys(s: State, o: Order, now: Micros) {
    Orders(s, o, now) && o.user in s.tiers && o.insert.TakesEffect()
  }

  function Bought(o: Order, now: Micros): Sub
    requires o.price.Some?
  {
    Sub(o.user, o.price.value.plan, SIMULATED, ACTIVE, now, Some(now + o.price.value.Days() * DAY))
  }

  /** The tier is not updated. */
  function Purchased(s: State, o: Order, now: Micros): State {
    if Buys(s, o, now) then s.(subs := s.subs + [Bought(o, now)]) else s
  }

  function PurchaseReplyTo(s: State, o: Order, now: Micros): PurchaseReply {
    if !o.enabled then Forbidden
    else if o.priceFails then DbError
    else if o.price.None? || !o.price.value.active then PlanNotFound
    else if !o.price.value.monthly && !o.price.value.yearly then PlanNotFound
    else if o.countFails then DbError
    else if InForce(s.subs, o.user, o.price.value.plan, now) then AlreadyActive
    else if o.user !in s.tiers || o.insert.IsError() then DbError
    else Created(Bought(o, now))
  }

  /** Compares without an early exit. */
  method ConstantTimeEq(a: seq<bv8>, b: seq<bv8>) returns (eq: bool)
    ensures eq <==> a == b
  {
    if |a| != |b| {
      return false;
    }
    var diff: bv8 := 0;
    for i := 0 to |a|
      invariant diff == 0 <==> a[..i] == b[..i]
    {
      XorOr(diff, a[i], b[i]);
      assert a[..i + 1] == a[..i] + [a[i]] && b[..i + 1] == b[..i] + [b[i]];
      diff := diff | (a[i] ^ b[i]);
    }
    assert a[..|a|] == a && b[..|b|] == b;
    return diff == 0;
  }

  lemma {:induction false} XorOr(d: bv8, x: bv8, y: bv8)
    ensures d | (x ^ y) == 0 <==> d == 0 && x == y
  {
  }

  method MapPlanCode(entitlementIds: seq<string>, productId: string) returns (plan: Option<string>)
    ensures plan == MapPlan(entitlementIds, productId)
  {
    for i := 0 to |entitlementIds|
      invariant MapPlan(entitlementIds, productId) == MapPlan(entitlementIds[i..], productId)
    {
      if entitlementIds[i] in KNOWN_PLAN_CODES {
        return Some(entitlementIds[i]);
      }
      assert entitlementIds[i..][1..] == entitlementIds[i + 1..];
    }
    if productId in KNOWN_PLAN_CODES {
      return Some(productId);
    }
    return None;
  }

  // ----- the same in columns -----

  /** The first entitlement with a known name, or else a known product id. */
  ghost predicate Names(e: Event, plan: string) {
    && (plan == "vibra_plus" || plan == "unlimited")
    && if exists i :: 0 <= i < |e.entitlementIds| && e.entitlementIds[i] in {"vibra_plus", "unlimited"} then
         exists i ::
           && 0 <= i < |e.entitlementIds| && e.entitlementIds[i] == plan
           && forall j :: 0 <= j < i ==> e.entitlementIds[j] !in {"vibra_plus", "unlimited"}
       else e.productId == plan
  }

  lemma {:induction false} MapsByName(entitlementIds: seq<string>, productId: string)
    ensures
      var known := exists i :: 0 <= i < |entitlementIds| && entitlementIds[i] in {"vibra_plus", "unlimited"};
      match MapPlan(entitlementIds, productId)
      case Some(plan) =>
        if known then exists i ::
          && 0 <= i < |entitlementIds| && entitlementIds[i] == plan && plan in {"vibra_plus", "unlimited"}
          && forall j :: 0 <= j < i ==> entitlementIds[j] !in {"vibra_plus", "unlimited"}
        else plan == productId && productId in {"vibra_plus", "unlimited"}
      case None => !known && productId !in {"vibra_plus", "unlimited"}
  {
    if entitlementIds != [] && entitlementIds[0] !in KNOWN_PLAN_CODES {
      var rest := entitlementIds[1..];
      MapsByName(rest, productId);
      if i :| 0 <= i < |entitlementIds| && entitlementIds[i] in {"vibra_plus", "unlimited"} {
        assert rest[i - 1] == entitlementIds[i];
      }
      if k :| && 0 <= k < |rest| && MapPlan(rest, productId) == Some(rest[k]) && rest[k] in {"vibra_plus", "unlimited"}
              && forall j :: 0 <= j < k ==> rest[j] !in {"vibra_plus", "unlimited"} {
        assert forall j :: 1 <= j < k + 1 ==> entitlementIds[j] == rest[j - 1];
        assert entitlementIds[k + 1] == rest[k];
      }
    }
  }

  /** The plan of an event is the one it names, if it names one. */
  lemma {:induction false} PlanIsNamed(e: Event, plan: string)
    ensures MapPlan(e.entitlementIds, e.productId) == Some(plan) <==> Names(e, plan)
  {
    MapsByName(e.entitlementIds, e.productId);
    if i, j :|
      && 0 <= i < |e.entitlementIds| && e.entitlementIds[i] in {"vibra_plus", "unlimited"}
      && (forall k :: 0 <= k < i ==> e.entitlementIds[k] !in {"vibra_plus", "unlimited"})
      && 0 <= j < |e.entitlementIds| && e.entitlementIds[j] == plan
      && (forall k :: 0 <= k < j ==> e.entitlementIds[k] !in {"vibra_plus", "unlimited"})
    {
      assert i == j || plan !in {"vibra_plus", "unlimited"};
    }
  }

  /** Milliseconds within the calendar are cut to whole seconds, towards zero; otherwise it is 30 days. */
  ghost predicate ExpiresAt(e: Event, now: Micros, x: Micros) {
    if e.expirationMs.Some? && -377_705_116_800_999 <= e.expirationMs.value <= 253_402_300_799_999 then
      var ms := e.expirationMs.value;
      && x % 1_000_000 == 0
      && if ms >= 0 then 0 <= ms * 1000 - x < 1_000_000 else 0 <= x - ms * 1000 < 1_000_000
    else x == now + 30 * 86_400_000_000
  }

  lemma {:induction false} TruncDivIs(a: int)
    ensures if a >= 0 then 1000 * TruncDiv(a, 1000) <= a < 1000 * TruncDiv(a, 1000) + 1000
            else 1000 * TruncDiv(a, 1000) - 1000 < a <= 1000 * TruncDiv(a, 1000)
  {
  }

  lemma {:induction false} ExpiryIs(e: Event, now: Micros)
    ensures ExpiresAt(e, now, ExpiryOf(e, now))
  {
    if e.expirationMs.Some? {
      TruncDivIs(e.expirationMs.value);
    }
  }

  /** A row that is active, from the store, of this user and plan. */
  predicate FromStore(sub: Sub, user: UserId, plan: string) {
    sub.user == user && sub.plan == plan && sub.source == "revenuecat" && sub.status == "active"
  }

  /** A row in force for the user, for this plan. */
  ghost predicate HasPlan(subs: seq<Sub>, user: UserId, plan: string, now: Micros) {
    exists i ::
      && 0 <= i < |subs| && subs[i].user == user && subs[i].plan == plan && subs[i].status == "active"
      && subs[i].expiresAt.Some? && subs[i].expiresAt.value > now
  }

  ghost function BestTier(subs: seq<Sub>, user: UserId, now: Micros): string {
    if HasPlan(subs, user, "unlimited", now) then "unlimited"
    else if HasPlan(subs, user, "vibra_plus", now) then "xtra"
    else "free"
  }

  lemma {:induction false} BestTierIs(subs: seq<Sub>, user: UserId, now: Micros)
    ensures TierOf(BestPlan(subs, user, now)) == BestTier(subs, user, now)
  {
    BestPlanGivesBestTier(subs, user, now);
    assert forall i :: 0 <= i < |subs| && subs[i].Entitles(user, now) ==> HasPlan(subs, user, subs[i].plan, now);
  }

  ghost predicate GrantKind(e: Event) {
    e.kind in {"INITIAL_PURCHASE", "RENEWAL", "PRODUCT_CHANGE", "UNCANCELLATION", "NON_RENEWING_PURCHASE"}
  }

  /** The event is not a test, no recognised duplicate, and of an existing user. */
  ghost predicate Arrives(s: State, e: Event, f: Faults) {
    && e.kind != "TEST" && (e.id == "" || e.id !in s.processed || f.dedup)
    && e.user.Some? && !f.user && e.user.value in s.tiers
  }

  /** Rows after a delivery: those of the store retired, and one added. */
  ghost predicate RowsBecome(before: seq<Sub>, after: seq<Sub>, e: Event, user: UserId, plan: string, now: Micros,
                             retired: bool, added: bool) {
    && |after| == |before| + (if added then 1 else 0)
    && (forall i :: 0 <= i < |before| ==>
          after[i] == if retired && FromStore(before[i], user, plan)
                      then Sub(user, plan, "revenuecat", "expired", before[i].startedAt, before[i].expiresAt)
                      else before[i])
    && (added ==> exists x ::
          ExpiresAt(e, now, x) && after[|before|] == Sub(user, plan, "revenuecat", "active", now, Some(x)))
  }

  /** What a delivery does to every column. */
  ghost predicate DeliveredAs(s: State, e: Event, now: Micros, f: Faults, s': State) {
    if !Arrives(s, e, f) || forall plan :: !Names(e, plan) then s' == s
    else
      var user := e.user.value;
      var grant, expiration := GrantKind(e), e.kind == "EXPIRATION";
      var failed := (grant && (f.update != Acknowledged || f.insert != Acknowledged))
                 || (expiration && f.update != Acknowledged);
      && (exists plan :: Names(e, plan) &&
            RowsBecome(s.subs, s'.subs, e, user, plan, now, (grant || expiration) && f.update != Failed,
                       grant && f.update == Acknowledged && f.insert != Failed))
      && s'.tiers == (if (grant || expiration) && !failed && f.resolve != Failed
                      then s.tiers[user := BestTier(s'.subs, user, now)] else s.tiers)
      && s'.processed == (if !failed && e.id != "" && f.record != Failed then s.processed + {e.id} else s.processed)
  }

  lemma {:induction false} RetiredRows(subs: seq<Sub>, e: Event, user: UserId, plan: string, now: Micros, f: Faults)
    ensures RowsBecome(subs, Granted(subs, user, plan, ExpiryOf(e, now), now, f), e, user, plan, now,
                       f.update != Failed, f.update == Acknowledged && f.insert != Failed)
    ensures RowsBecome(subs, Revoked(subs, user, plan, EXPIRED, f), e, user, plan, now, f.update != Failed, false)
    ensures RowsBecome(subs, subs, e, user, plan, now, false, false)
  {
    hide ExpiresAt, ExpiryOf;
    ExpiryIs(e, now);
    assert forall i :: 0 <= i < |subs| ==> (subs[i].ActiveRc(user, plan) <==> FromStore(subs[i], user, plan));
  }

  lemma {:induction false} GrantKindIs(e: Event)
    ensures (GrantKind(e) <==> IsGrant(e)) && (GrantKind(e) ==> !IsExpiration(e))
  {
  }

  /** A delivery changes exactly the rows, the tier and the record that its event calls for. */
  lemma {:induction false} DeliversInColumns(s: State, e: Event, now: Micros, f: Faults)
    ensures DeliveredAs(s, e, now, f, Deliver(s, e, now, f))
  {
    hide MapPlan, Names, RowsBecome, BestPlan, TierOf, BestTier, Granted, Revoked, Retire, Grant, ExpiryOf, GrantKind,
         IsGrant;
    GrantKindIs(e);
    forall plan ensures MapPlan(e.entitlementIds, e.productId) == Some(plan) <==> Names(e, plan) {
      PlanIsNamed(e, plan);
    }
    if Handled(s, e, f) {
      var user, plan := e.user.value, MapPlan(e.entitlementIds, e.productId).value;
      var s' := Deliver(s, e, now, f);
      RetiredRows(s.subs, e, user, plan, now, f);
      BestTierIs(s'.subs, user, now);
      assert Names(e, plan);
    }
  }

  /** And its answer says what was wrong, in the order of the checks. */
  ghost predicate RepliedAs(s: State, secret: Option<seq<bv8>>, provided: seq<bv8>, e: Event, f: Faults, reply: Reply) {
    var authentic := secret == Some(provided);
    var seen := e.kind != "TEST" && e.id != "" && e.id in s.processed && !f.dedup;
    var looked := authentic && e.kind != "TEST" && !seen;
    var known := looked && e.user.Some? && !f.user && e.user.value in s.tiers;
    var named := known && exists plan :: Names(e, plan);
    var failed := (GrantKind(e) && (f.update != Acknowledged || f.insert != Acknowledged))
               || (e.kind == "EXPIRATION" && f.update != Acknowledged);
    && (reply == Unconfigured <==> secret == None)
    && (reply == InvalidSecret <==> secret != None && !authentic)
    && (reply == Duplicate <==> authentic && seen)
    && (reply == Ignored("invalid_user_id") <==> looked && e.user == None)
    && (reply == Ignored("unknown_user") <==> looked && e.user.Some? && !f.user && e.user.value !in s.tiers)
    && (reply == Ignored("unmappable_plan") <==> known && !named)
    && (reply == ServerError <==> (looked && e.user.Some? && f.user) || (named && failed))
    && (reply == Done <==> (authentic && e.kind == "TEST") || (named && !failed))
  }

  lemma {:induction false} RepliesInColumns(s: State, secret: Option<seq<bv8>>, provided: seq<bv8>, e: Event, f: Faults)
    ensures RepliedAs(s, secret, provided, e, f, ReplyTo(s, secret, provided, e, f))
  {
    hide MapPlan, Names, GrantKind, IsGrant;
    GrantKindIs(e);
    forall plan ensures MapPlan(e.entitlementIds, e.productId) == Some(plan) <==> Names(e, plan) {
      PlanIsNamed(e, plan);
    }
    if MapPlan(e.entitlementIds, e.productId).Some? {
      assert Names(e, MapPlan(e.entitlementIds, e.productId).value);
    }
  }

  /** A purchase goes through exactly for an enabled gate, an active plan with a price, and no row of the plan in
      force; it adds one simulated row of 30 or 365 days, and nothing else. */
  ghost predicate PurchasedAs(s: State, o: Order, now: Micros, s': State, reply: PurchaseReply) {
    var priced := o.enabled && !o.priceFails && o.price.Some? && o.price.value.active
               && (o.price.value.monthly || o.price.value.yearly);
    var fails := priced && (o.countFails || (!HasPlan(s.subs, o.user, o.price.value.plan, now)
                                             && (o.user !in s.tiers || o.insert != Acknowledged)));
    var refused := priced && !o.countFails && HasPlan(s.subs, o.user, o.price.value.plan, now);
    && (reply == Forbidden <==> !o.enabled)
    && (reply == PlanNotFound <==> o.enabled && !o.priceFails && !priced)
    && (reply == AlreadyActive <==> refused)
    && (reply == DbError <==> (o.enabled && o.priceFails) || fails)
    && (reply.Created? <==> priced && !fails && !refused)
    && s'.tiers == s.tiers && s'.processed == s.processed
    && if priced && !o.countFails && !refused && o.user in s.tiers && o.insert != Failed then
         var days := if o.price.value.monthly then 30 else 365;
         var sub := Sub(o.user, o.price.value.plan, "simulated", "active", now, Some(now + days * 86_400_000_000));
         s'.subs == s.subs + [sub] && (reply.Created? ==> reply.sub == sub)
       else s'.subs == s.subs
  }

  lemma {:induction false} PurchasesInColumns(s: State, o: Order, now: Micros)
    ensures PurchasedAs(s, o, now, Purchased(s, o, now), PurchaseReplyTo(s, o, now))
  {
    if o.price.Some? {
      assert InForce(s.subs, o.user, o.price.value.plan, now) <==> HasPlan(s.subs, o.user, o.price.value.plan, now);
    }
  }

  class BillingDb {
    var subs: seq<Sub>
    var tiers: map<UserId, string>
    var processed: set<string>

    constructor (tiers: map<UserId, string>)
      ensures Abs() == State([], tiers, {})
    {
      this.subs, this.tiers, this.processed := [], tiers, {};
    }

    function Abs(): State
      reads this
    {
      State(subs, tiers, processed)
    }

    method GrantSubscription(user: UserId, plan: string, expiresAt: Micros, now: Micros, f: Faults) returns (ok: bool)
      modifies this`subs
      ensures ok <==> !f.update.IsError() && !f.insert.IsError()
      ensures subs == Granted(old(subs), user, plan, expiresAt, now, f)
    {
      ok := RevokeSubscription(user, plan, EXPIRED, f);
      if !ok {
        return false;
      }
      if f.insert.TakesEffect() {
        subs := subs + [Sub(user, plan, REVENUECAT, ACTIVE, now, Some(expiresAt))];
      }
      return !f.insert.IsError();
    }

    method RevokeSubscription(user: UserId, plan: string, status: string, f: Faults) returns (ok: bool)
      modifies this`subs
      ensures ok <==> !f.update.IsError()
      ensures subs == Revoked(old(subs), user, plan, status, f)
    {
      if f.update.TakesEffect() {
        subs := Retire(subs, user, plan, status);
      }
      return !f.update.IsError();
    }

    method ResolveSubscriptionTier(user: UserId, now: Micros, f: Faults)
      modifies this`tiers
      ensures Abs() == Resolved(old(Abs()), user, now, f)
      ensures user in tiers && f.resolve != Failed ==> tiers[user] == BestTier(subs, user, now)
    {
      BestTierIs(subs, user, now);
      if user in tiers && f.resolve.TakesEffect() {
        var best := BestPlan(subs, user, now);
        tiers := tiers[user := TierOf(best)];
      }
    }

    method Webhook(secret: Option<seq<bv8>>, provided: seq<bv8>, e: Event, now: Micros, f: Faults)
      returns (reply: Reply)
      modifies this
      ensures Abs() == if secret == Some(provided) then Deliver(old(Abs()), e, now, f) else old(Abs())
      ensures reply == ReplyTo(old(Abs()), secret, provided, e, f)
      ensures if secret == Some(provided) then DeliveredAs(old(Abs()), e, now, f, Abs()) else Abs() == old(Abs())
      ensures RepliedAs(old(Abs()), secret, provided, e, f, reply)
    {
      DeliversInColumns(Abs(), e, now, f);
      RepliesInColumns(Abs(), secret, provided, e, f);
      hide DeliveredAs, RepliedAs;
      hide Retire, Granted, Revoked, Resolve, MapPlan, ExpiryOf;
      if secret.None? {
        return Unconfigured;
      }
      var authentic := ConstantTimeEq(provided, secret.value);
      if !authentic {
        return InvalidSecret;
      }
      if e.kind == "TEST" {
        return Done;
      }
      if e.id != "" {
        var already := !f.dedup && e.id in processed;
        if already {
          return Duplicate;
        }
      }
      if e.user.None? {
        return Ignored("invalid_user_id");
      }
      var user := e.user.value;
      if f.user {
        return ServerError;
      }
      if user !in tiers {
        return Ignored("unknown_user");
      }
      var plan := MapPlanCode(e.entitlementIds, e.productId);
      if plan.None? {
        return Ignored("unmappable_plan");
      }
      if e.kind in GRANT_EVENTS {
        var ok := GrantSubscription(user, plan.value, ExpiryOf(e, now), now, f);
        if !ok {
          return ServerError;
        }
        ResolveSubscriptionTier(user, now, f);
      } else if e.kind == "CANCELLATION" {
        // paid through the end of the period: access stays
      } else if e.kind == "EXPIRATION" {
        var ok := RevokeSubscription(user, plan.value, EXPIRED, f);
        if !ok {
          return ServerError;
        }
        ResolveSubscriptionTier(user, now, f);
      }
      if e.id != "" && f.record.TakesEffect() {
        processed := processed + {e.id};
      }
      return Done;
    }

    method SimulatePurchase(o: Order, now: Micros) returns (reply: PurchaseReply)
      modifies this`subs
      ensures Abs() == Purchased(old(Abs()), o, now)
      ensures reply == PurchaseReplyTo(old(Abs()), o, now)
      ensures PurchasedAs(old(Abs()), o, now, Abs(), reply)
    {
      PurchasesInColumns(Abs(), o, now);
      hide PurchasedAs;
      if !o.enabled {
        return Forbidden;
      }
      if o.priceFails {
        return DbError;
      }
      if o.price.None? || !o.price.value.active {
        return PlanNotFound;
      }
      var price := o.price.value;
      var days;
      if price.monthly {
        days := 30;
      } else if price.yearly {
        days := 365;
      } else {
        return PlanNotFound;
      }
      if o.countFails {
        return DbError;
      }
      if exists i :: 0 <= i < |subs| && subs[i].Entitles(o.user, now) && subs[i].plan == price.plan {
        return AlreadyActive;
      }
      if o.user !in tiers {
        return DbError;
      }
      var sub := Sub(o.user, price.plan, SIMULATED, ACTIVE, now, Some(now + days * DAY));
      if o.insert.TakesEffect() {
        subs := subs + [sub];
      }
      return if o.insert.IsError() then DbError else Created(sub);
    }
  }

  // ----- what every delivery and purchase keeps -----

  /** At most one active store row per user and plan. */
  ghost predicate NoStacking(subs: seq<Sub>) {
    forall i, j :: 0 <= i < j < |subs| ==>
      var user, plan := subs[i].user, subs[i].plan;
      !(subs[i].ActiveRc(user, plan) && subs[j].ActiveRc(user, plan))
  }

  predicate Covered(s: State, sub: Sub, now: Micros) {
    sub.user in s.tiers && sub.Entitles(sub.user, now) ==> PlanRank(sub.plan) <= TierRank(s.tiers[sub.user])
  }

  /** No user's stored tier is below what an entitling row stands for. */
  ghost predicate Covers(s: State, now: Micros) {
    forall i :: 0 <= i < |s.subs| ==> Covered(s, s.subs[i], now)
  }

  /** A row in force for `unlimited` calls for that tier, one for `vibra_plus` for it or `xtra`. */
  lemma {:induction false} CoversMeans(s: State, now: Micros)
    ensures Covers(s, now) <==> forall user :: user in s.tiers ==>
              && (HasPlan(s.subs, user, "unlimited", now) ==> s.tiers[user] == "unlimited")
              && (HasPlan(s.subs, user, "vibra_plus", now) ==> s.tiers[user] in {"unlimited", "xtra"})
  {
    if Covers(s, now) {
      forall user, i | user in s.tiers && 0 <= i < |s.subs| && s.subs[i].Entitles(user, now)
        ensures PlanRank(s.subs[i].plan) <= TierRank(s.tiers[user])
      {
        assert Covered(s, s.subs[i], now);
      }
    } else {
      var i :| 0 <= i < |s.subs| && !Covered(s, s.subs[i], now);
      assert HasPlan(s.subs, s.subs[i].user, s.subs[i].plan, now);
    }
  }

  lemma {:induction false} CoversLater(s: State, now: Micros, later: Micros)
    requires Covers(s, now) && now <= later
    ensures Covers(s, later)
  {
  }

  lemma {:induction false} ResolveCovers(s: State, user: UserId, now: Micros)
    requires user in s.tiers
    requires forall i :: 0 <= i < |s.subs| && s.subs[i].user != user ==> Covered(s, s.subs[i], now)
    ensures Covers(Resolve(s, user, now), now)
  {
    BestPlanGivesBestTier(s.subs, user, now);
  }

  lemma {:induction false} RetireCovers(s: State, user: UserId, plan: string, now: Micros)
    requires Covers(s, now)
    ensures Covers(s.(subs := Retire(s.subs, user, plan, EXPIRED)), now)
  {
    forall i | 0 <= i < |s.subs|
      ensures Covered(s, Retire(s.subs, user, plan, EXPIRED)[i], now)
    {
      assert Covered(s, s.subs[i], now);
    }
  }

  lemma {:induction false} RetireKeepsNoStacking(subs: seq<Sub>, user: UserId, plan: string)
    requires NoStacking(subs)
    ensures NoStacking(Retire(subs, user, plan, EXPIRED))
  {
    var retired := Retire(subs, user, plan, EXPIRED);
    forall i, j | 0 <= i < j < |retired|
      ensures !(retired[i].ActiveRc(retired[i].user, retired[i].plan)
                && retired[j].ActiveRc(retired[i].user, retired[i].plan))
    {
      assert !(subs[i].ActiveRc(subs[i].user, subs[i].plan) && subs[j].ActiveRc(subs[i].user, subs[i].plan));
    }
  }

  lemma {:induction false} GrantKeepsNoStacking(subs: seq<Sub>, user: UserId, plan: string, expiresAt: Micros,
                                                now: Micros)
    requires NoStacking(subs)
    ensures NoStacking(Grant(subs, user, plan, expiresAt, now))
  {
    RetireKeepsNoStacking(subs, user, plan);
    var retired := Retire(subs, user, plan, EXPIRED);
    assert forall i :: 0 <= i < |retired| ==> !retired[i].ActiveRc(user, plan);
  }

  lemma {:induction false} DeliverKeepsNoStacking(s: State, e: Event, now: Micros, f: Faults)
    requires NoStacking(s.subs)
    ensures NoStacking(Deliver(s, e, now, f).subs)
  {
    if Handled(s, e, f) {
      var user, plan := e.user.value, MapPlan(e.entitlementIds, e.productId).value;
      RetireKeepsNoStacking(s.subs, user, plan);
      GrantKeepsNoStacking(s.subs, user, plan, ExpiryOf(e, now), now);
      hide NoStacking, Retire, Grant, MapPlan, ExpiryOf, BestPlan;
    }
  }

  /** A row is granted without a tier update, and stands for more than the stored tier. */
  predicate MissesTier(s: State, e: Event, now: Micros, f: Faults) {
    && Handled(s, e, f) && IsGrant(e) && f.update.Acknowledged?
    && (f.insert.Unacknowledged? || (f.insert.Acknowledged? && !f.resolve.TakesEffect()))
    && ExpiryOf(e, now) > now
    && PlanRank(MapPlan(e.entitlementIds, e.productId).value) > TierRank(s.tiers[e.user.value])
  }

  lemma {:induction false} GrantCovers(s: State, user: UserId, plan: string, expiresAt: Micros, now: Micros)
    requires Covers(s, now) && user in s.tiers
    ensures
      var s' := s.(subs := Grant(s.subs, user, plan, expiresAt, now));
      && Covers(Resolve(s', user, now), now)
      && (Covers(s', now) <==> !(expiresAt > now && PlanRank(plan) > TierRank(s.tiers[user])))
  {
    var s' := s.(subs := Grant(s.subs, user, plan, expiresAt, now));
    var retired := s.(subs := Retire(s.subs, user, plan, EXPIRED));
    RetireCovers(s, user, plan, now);
    forall i | 0 <= i < |s.subs|
      ensures Covered(s', s'.subs[i], now)
    {
      assert s'.subs[i] == retired.subs[i] && Covered(retired, retired.subs[i], now);
    }
    var last := s'.subs[|s.subs|];
    assert Covered(s', last, now) <==> !(expiresAt > now && PlanRank(plan) > TierRank(s.tiers[user]));
    ResolveCovers(s', user, now);
  }

  /** A delivery leaves a tier below its rows exactly when a higher grant is not followed by its tier update. */
  lemma {:induction false} DeliverKeepsCovers(s: State, e: Event, now: Micros, f: Faults)
    requires Covers(s, now)
    ensures Covers(Deliver(s, e, now, f), now) <==> !MissesTier(s, e, now, f)
  {
    if Handled(s, e, f) {
      var user, plan := e.user.value, MapPlan(e.entitlementIds, e.productId).value;
      RetireCovers(s, user, plan, now);
      if IsGrant(e) {
        GrantCovers(s, user, plan, ExpiryOf(e, now), now);
      } else if IsExpiration(e) {
        ResolveCovers(s.(subs := Retire(s.subs, user, plan, EXPIRED)), user, now);
      }
      if !Fails(e, f) {
        ProcessedDoesNotMatter(s, e, now, f);
      }
    }
  }

  /** So does a simulated purchase that adds a row of a higher plan: it never updates the tier. */
  lemma {:induction false} PurchaseKeepsCovers(s: State, o: Order, now: Micros)
    requires Covers(s, now)
    ensures Covers(Purchased(s, o, now), now) <==> !MissesTierBuying(s, o, now)
  {
    if Buys(s, o, now) {
      var s', n := Purchased(s, o, now), |s.subs|;
      assert Bought(o, now).expiresAt.value > now;
      assert Covered(s', s'.subs[n], now) <==> !MissesTierBuying(s, o, now);
      forall i | 0 <= i < n ensures Covered(s', s'.subs[i], now) {
        assert Covered(s, s.subs[i], now);
      }
    }
  }

  predicate MissesTierBuying(s: State, o: Order, now: Micros) {
    Buys(s, o, now) && PlanRank(o.price.value.plan) > TierRank(s.tiers[o.user])
  }

  lemma {:induction false} ProcessedDoesNotMatter(s: State, e: Event, now: Micros, f: Faults)
    requires Completed(s, e, f)
    ensures
      var effect := Effect(s, e.user.value, MapPlan(e.entitlementIds, e.productId).value, e, now, f);
      Covers(Deliver(s, e, now, f), now) <==> Covers(effect, now)
  {
    var effect := Effect(s, e.user.value, MapPlan(e.entitlementIds, e.productId).value, e, now, f);
    assert forall sub :: Covered(Record(effect, e, f), sub, now) <==> Covered(effect, sub, now);
  }

  /** Each completed grant or expiration whose tier update succeeds leaves the user's tier at the best of the
      rows then in force, and at nothing else. */
  lemma {:induction false} HandledEventSetsTier(s: State, e: Event, now: Micros, f: Faults)
    requires Completed(s, e, f) && (IsGrant(e) || IsExpiration(e)) && f.resolve.TakesEffect()
    ensures
      var s' := Deliver(s, e, now, f);
      && (forall tier :: IsBestTier(tier, s'.subs, e.user.value, now) <==> tier == s'.tiers[e.user.value])
      && s'.tiers[e.user.value] == BestTier(s'.subs, e.user.value, now)
  {
    var s' := Deliver(s, e, now, f);
    BestTierIs(s'.subs, e.user.value, now);
    BestPlanGivesBestTier(s'.subs, e.user.value, now);
    forall tier | IsBestTier(tier, s'.subs, e.user.value, now)
      ensures tier == s'.tiers[e.user.value]
    {
      BestTierUnique(tier, s'.tiers[e.user.value], s'.subs, e.user.value, now);
    }
  }

  // ----- whole runs -----

  datatype Request =
    | Delivery(e: Event, now: Micros, faults: Faults)
    | Purchase(order: Order, now: Micros)
  {
    function User(): Option<UserId> {
      if Delivery? then e.user else Some(order.user)
    }
  }

  function Step(s: State, q: Request): State {
    match q
    case Delivery(e, now, f) => Deliver(s, e, now, f)
    case Purchase(o, now) => Purchased(s, o, now)
  }

  /** Requests about one user leave the other users' tiers and rows alone. */
  lemma {:induction false} OthersUntouched(s: State, q: Request, other: UserId)
    requires q.User() != Some(other)
    ensures
      var s' := Step(s, q);
      && (other in s'.tiers <==> other in s.tiers) && (other in s.tiers ==> s'.tiers[other] == s.tiers[other])
      && |s'.subs| >= |s.subs|
      && (forall i :: 0 <= i < |s.subs| && s.subs[i].user == other ==> s'.subs[i] == s.subs[i])
      && (forall i :: |s.subs| <= i < |s'.subs| ==> s'.subs[i].user != other)
  {
    if q.Delivery? {
      DeliverKeepsOthers(s, q.e, q.now, q.faults, other);
      hide Deliver;
    }
  }

  lemma {:induction false} DeliverKeepsOthers(s: State, e: Event, now: Micros, f: Faults, other: UserId)
    requires e.user != Some(other)
    ensures
      var s' := Deliver(s, e, now, f);
      && KeepsRows(s.subs, s'.subs, other)
      && (other in s'.tiers <==> other in s.tiers) && (other in s.tiers ==> s'.tiers[other] == s.tiers[other])
  {
    hide Granted, Revoked, Retire, Grant, MapPlan, ExpiryOf, BestPlan, TierOf, KeepsRows, IsGrant, IsExpiration;
    assert KeepsRows(s.subs, s.subs, other) by { SameRows(s.subs, other); }
    if Handled(s, e, f) {
      var user, plan := e.user.value, MapPlan(e.entitlementIds, e.productId).value;
      RowsOfOthersStay(s.subs, user, plan, ExpiryOf(e, now), now, f, other);
    }
  }

  lemma {:induction false} SameRows(subs: seq<Sub>, user: UserId)
    ensures KeepsRows(subs, subs, user)
  {
  }

  /** The first rows keep those of the user, and the others are not the user's. */
  ghost predicate KeepsRows(before: seq<Sub>, after: seq<Sub>, user: UserId) {
    && |after| >= |before|
    && (forall i :: 0 <= i < |before| && before[i].user == user ==> after[i] == before[i])
    && (forall i :: |before| <= i < |after| ==> after[i].user != user)
  }

  lemma {:induction false} RowsOfOthersStay(subs: seq<Sub>, user: UserId, plan: string, expiresAt: Micros, now: Micros,
                                            f: Faults, other: UserId)
    requires user != other
    ensures KeepsRows(subs, Granted(subs, user, plan, expiresAt, now, f), other)
    ensures KeepsRows(subs, Grant(subs, user, plan, expiresAt, now), other)
    ensures KeepsRows(subs, Revoked(subs, user, plan, EXPIRED, f), other)
    ensures KeepsRows(subs, Retire(subs, user, plan, EXPIRED), other)
  {
  }

  function Run(s: State, qs: seq<Request>): State
    decreases |qs|
  {
    if qs == [] then s else Run(Step(s, qs[0]), qs[1..])
  }

  ghost predicate InOrder(start: Micros, qs: seq<Request>) {
    && (forall i :: 0 <= i < |qs| ==> start <= qs[i].now)
    && (forall i, j :: 0 <= i < j < |qs| ==> qs[i].now <= qs[j].now)
  }

  /** After each request no stored tier is below its rows. */
  ghost predicate CoversThroughout(s: State, qs: seq<Request>)
    decreases |qs|
  {
    qs == [] || (Covers(Step(s, qs[0]), qs[0].now) && CoversThroughout(Step(s, qs[0]), qs[1..]))
  }

  /** A row of a higher plan than the tier comes without a tier update. */
  predicate Misses(s: State, q: Request) {
    match q
    case Delivery(e, now, f) => MissesTier(s, e, now, f)
    case Purchase(o, now) => MissesTierBuying(s, o, now)
  }

  ghost predicate MissesNoTier(s: State, qs: seq<Request>)
    decreases |qs|
  {
    qs == [] || (!Misses(s, qs[0]) && MissesNoTier(Step(s, qs[0]), qs[1..]))
  }

  lemma {:induction false} StepKeepsCovers(s: State, q: Request)
    requires Covers(s, q.now)
    ensures Covers(Step(s, q), q.now) <==> !Misses(s, q)
  {
    hide Covers, Deliver, Purchased, MissesTier, MissesTierBuying;
    match q
    case Delivery(e, now, f) => DeliverKeepsCovers(s, e, now, f);
    case Purchase(o, now) => PurchaseKeepsCovers(s, o, now);
  }

  lemma {:induction false} RunCovers(s: State, start: Micros, qs: seq<Request>, later: Micros)
    requires NoStacking(s.subs) && Covers(s, start) && InOrder(start, qs)
    requires later >= if qs == [] then start else qs[|qs| - 1].now
    ensures NoStacking(Run(s, qs).subs)
    ensures CoversThroughout(s, qs) <==> MissesNoTier(s, qs)
    ensures MissesNoTier(s, qs) ==> Covers(Run(s, qs), later)
    decreases |qs|
  {
    if qs == [] {
      CoversLater(s, start, later);
    } else {
      hide Covers, NoStacking, Step, Misses;
      var q := qs[0];
      CoversLater(s, start, q.now);
      StepKeepsCovers(s, q);
      StepKeepsNoStacking(s, q);
      RunKeepsNoStacking(Step(s, q), qs[1..]);
      if Covers(Step(s, q), q.now) {
        RunCovers(Step(s, q), q.now, qs[1..], later);
      }
    }
  }

  /** Over any run of deliveries and simulated purchases, whatever fails: store rows never stack, and the stored
      tiers stay at or above what the rows in force stand for, then and later, exactly when every grant of a
      higher plan is followed by its tier update and no higher plan is bought by simulation. */
  lemma {:induction false} RunKeepsTiers(s: State, start: Micros, qs: seq<Request>, later: Micros)
    requires NoStacking(s.subs) && Covers(s, start) && InOrder(start, qs)
    requires later >= if qs == [] then start else qs[|qs| - 1].now
    ensures
      var subs := Run(s, qs).subs;
      forall i, j :: 0 <= i < j < |subs| ==>
        !(FromStore(subs[i], subs[i].user, subs[i].plan) && FromStore(subs[j], subs[i].user, subs[i].plan))
    ensures CoversThroughout(s, qs) <==> MissesNoTier(s, qs)
    ensures
      var s' := Run(s, qs);
      MissesNoTier(s, qs) ==> forall user :: user in s'.tiers ==>
        && (HasPlan(s'.subs, user, "unlimited", later) ==> s'.tiers[user] == "unlimited")
        && (HasPlan(s'.subs, user, "vibra_plus", later) ==> s'.tiers[user] in {"unlimited", "xtra"})
  {
    hide CoversThroughout, MissesNoTier, Run, HasPlan, Covers;
    RunCovers(s, start, qs, later);
    CoversMeans(Run(s, qs), later);
  }

  lemma {:induction false} StepKeepsNoStacking(s: State, q: Request)
    requires NoStacking(s.subs)
    ensures NoStacking(Step(s, q).subs)
  {
    if q.Delivery? {
      DeliverKeepsNoStacking(s, q.e, q.now, q.faults);
    }
  }

  lemma {:induction false} RunKeepsNoStacking(s: State, qs: seq<Request>)
    requires NoStacking(s.subs)
    ensures NoStacking(Run(s, qs).subs)
    decreases |qs|
  {
    if qs != [] {
      StepKeepsNoStacking(s, qs[0]);
      RunKeepsNoStacking(Step(s, qs[0]), qs[1..]);
    }
  }

  /** Cancellations, however many, change no row and no tier: access stays until the period ends. */
  lemma {:induction false} CancellationsKeepAccess(s: State, qs: seq<Request>)
    requires forall i :: 0 <= i < |qs| ==> qs[i].Delivery? && qs[i].e.kind == "CANCELLATION"
    ensures Run(s, qs).subs == s.subs && Run(s, qs).tiers == s.tiers
    decreases |qs|
  {
    if qs != [] {
      CancellationsKeepAccess(Step(s, qs[0]), qs[1..]);
    }
  }

  predicate IsRecognised(s: State, q: Request) {
    q.Delivery? && Recognised(s, q.e, q.faults)
  }

  /** `long` is `short` with recognised deliveries of already recorded events inserted. */
  ghost predicate AddsDuplicates(s: State, short: seq<Request>, long: seq<Request>)
    decreases |long|
  {
    if long == [] then short == []
    else
      || (short != [] && short[0] == long[0] && AddsDuplicates(Step(s, long[0]), short[1..], long[1..]))
      || (IsRecognised(s, long[0]) && AddsDuplicates(s, short, long[1..]))
  }

  /** Redeliveries of recorded events change nothing, wherever and however often they come. */
  lemma {:induction false} DuplicatesChangeNothing(s: State, short: seq<Request>, long: seq<Request>)
    requires AddsDuplicates(s, short, long)
    ensures Run(s, long) == Run(s, short)
    decreases |long|
  {
    if long != [] {
      if IsRecognised(s, long[0]) && AddsDuplicates(s, short, long[1..]) {
        DuplicatesChangeNothing(s, short, long[1..]);
      } else {
        DuplicatesChangeNothing(Step(s, long[0]), short[1..], long[1..]);
      }
    }
  }

  /** A completed and recorded event is a duplicate for the rest of time. */
  lemma {:induction false} RecordedForever(s: State, d: Request, qs: seq<Request>)
    requires d.Delivery? && Completed(s, d.e, d.faults) && d.e.id != "" && d.faults.record.TakesEffect()
    ensures IsDuplicate(Run(Step(s, d), qs), d.e)
  {
    ProcessedGrows(Step(s, d), qs);
  }

  lemma {:induction false} ProcessedGrows(s: State, qs: seq<Request>)
    ensures s.processed <= Run(s, qs).processed
    decreases |qs|
  {
    if qs != [] {
      ProcessedGrows(Step(s, qs[0]), qs[1..]);
    }
  }

  // ----- the active rows -----

  datatype Entitlement = Entitlement(user: UserId, plan: string, source: string, expiresAt: Option<Micros>)

  function AsEntitlement(sub: Sub): Entitlement {
    Entitlement(sub.user, sub.plan, sub.source, sub.expiresAt)
  }

  /** The active rows, without when they started. */
  ghost function ActiveRows(subs: seq<Sub>): multiset<Entitlement> {
    if subs == [] then multiset{}
    else
      var last := subs[|subs| - 1];
      ActiveRows(subs[..|subs| - 1])
      + (if last.status == ACTIVE then multiset{AsEntitlement(last)} else multiset{})
  }

  lemma {:induction false} GrantAddsOne(subs: seq<Sub>, user: UserId, plan: string, expiresAt: Micros, now: Micros)
    ensures ActiveRows(Grant(subs, user, plan, expiresAt, now)) ==
      ActiveRows(Retire(subs, user, plan, EXPIRED)) + multiset{Entitlement(user, plan, REVENUECAT, Some(expiresAt))}
  {
    var r := Retire(subs, user, plan, EXPIRED);
    assert Grant(subs, user, plan, expiresAt, now)[..|r|] == r;
  }

  /** Granting again retires exactly what the first grant added. */
  lemma {:induction false} RegrantRetires(subs: seq<Sub>, user: UserId, plan: string, expiresAt: Micros, now: Micros)
    ensures ActiveRows(Retire(Grant(subs, user, plan, expiresAt, now), user, plan, EXPIRED))
         == ActiveRows(Retire(subs, user, plan, EXPIRED))
  {
    var r := Retire(subs, user, plan, EXPIRED);
    var again := Retire(Grant(subs, user, plan, expiresAt, now), user, plan, EXPIRED);
    assert again[..|r|] == r;
  }

  lemma {:induction false} ActiveRowIn(subs: seq<Sub>, i: nat)
    requires i < |subs| && subs[i].status == ACTIVE
    ensures AsEntitlement(subs[i]) in ActiveRows(subs)
  {
    if i < |subs| - 1 {
      ActiveRowIn(subs[..|subs| - 1], i);
    }
  }

  lemma {:induction false} ActiveRowFrom(subs: seq<Sub>, x: Entitlement) returns (i: nat)
    requires x in ActiveRows(subs)
    ensures i < |subs| && subs[i].status == ACTIVE && AsEntitlement(subs[i]) == x
  {
    i := |subs| - 1;
    if subs[i].status != ACTIVE || AsEntitlement(subs[i]) != x {
      i := ActiveRowFrom(subs[..i], x);
    }
  }

  lemma {:induction false} SameRowEntitles(a: seq<Sub>, b: seq<Sub>, user: UserId, now: Micros, i: nat)
    returns (j: nat)
    requires ActiveRows(a) == ActiveRows(b) && i < |a| && a[i].Entitles(user, now)
    ensures j < |b| && b[j].Entitles(user, now) && b[j].plan == a[i].plan
  {
    ActiveRowIn(a, i);
    j := ActiveRowFrom(b, AsEntitlement(a[i]));
  }

  /** The active rows decide the best tier. */
  lemma {:induction false} ActiveRowsDecide(a: seq<Sub>, b: seq<Sub>, user: UserId, now: Micros)
    requires ActiveRows(a) == ActiveRows(b)
    ensures TierOf(BestPlan(a, user, now)) == TierOf(BestPlan(b, user, now))
  {
    var tier := TierOf(BestPlan(a, user, now));
    BestPlanGivesBestTier(a, user, now);
    BestPlanGivesBestTier(b, user, now);
    forall j | 0 <= j < |b| && b[j].Entitles(user, now)
      ensures PlanRank(b[j].plan) <= TierRank(tier)
    {
      var i := SameRowEntitles(b, a, user, now, j);
    }
    if tier != "free" {
      var i :| 0 <= i < |a| && a[i].Entitles(user, now) && PlanRank(a[i].plan) == TierRank(tier);
      var j := SameRowEntitles(a, b, user, now, i);
    }
    BestTierUnique(tier, TierOf(BestPlan(b, user, now)), b, user, now);
  }

  // ----- retrying after a failure -----

  /** Deliveries of one event, each answered with a server error. */
  ghost predicate AllFail(s: State, e: Event, secret: seq<bv8>, qs: seq<Request>)
    decreases |qs|
  {
    qs == [] ||
    (&& qs[0].Delivery? && qs[0].e == e && ReplyTo(s, Some(secret), secret, e, qs[0].faults) == ServerError
     && AllFail(Step(s, qs[0]), e, secret, qs[1..]))
  }

  /** The same users, tiers and records, and the same active rows. */
  ghost predicate Alike(s: State, t: State) {
    s.tiers == t.tiers && s.processed == t.processed && ActiveRows(s.subs) == ActiveRows(t.subs)
  }

  /** The states do not differ in what a completed delivery of the event keeps. */
  ghost predicate AlikeBut(s: State, t: State, e: Event) {
    || s == t
    || (&& (IsGrant(e) || IsExpiration(e)) && s.tiers == t.tiers && s.processed == t.processed
        && e.user.Some? && MapPlan(e.entitlementIds, e.productId).Some?
        && var user, plan := e.user.value, MapPlan(e.entitlementIds, e.productId).value;
           ActiveRows(Retire(s.subs, user, plan, EXPIRED)) == ActiveRows(Retire(t.subs, user, plan, EXPIRED)))
  }

  lemma {:induction false} RetireTwice(subs: seq<Sub>, user: UserId, plan: string)
    ensures Retire(Retire(subs, user, plan, EXPIRED), user, plan, EXPIRED) == Retire(subs, user, plan, EXPIRED)
  {
  }

  lemma {:induction false} FailureLeaves(s: State, e: Event, secret: seq<bv8>, failed: Request)
    requires failed.Delivery? && failed.e == e
    requires ReplyTo(s, Some(secret), secret, e, failed.faults) == ServerError
    ensures AlikeBut(Step(s, failed), s, e)
  {
    if Handled(s, e, failed.faults) {
      var user, plan := e.user.value, MapPlan(e.entitlementIds, e.productId).value;
      RetireTwice(s.subs, user, plan);
      RegrantRetires(s.subs, user, plan, ExpiryOf(e, failed.now), failed.now);
    }
  }

  lemma {:induction false} AlikeButTransitive(s: State, t: State, u: State, e: Event)
    requires AlikeBut(s, t, e) && AlikeBut(t, u, e)
    ensures AlikeBut(s, u, e)
  {
  }

  lemma {:induction false} CompletionEvens(s: State, t: State, d: Request)
    requires d.Delivery? && AlikeBut(s, t, d.e) && Completed(t, d.e, d.faults)
    ensures Completed(s, d.e, d.faults) && Alike(Step(s, d), Step(t, d))
  {
    if s != t {
      hide Deliver, Retire, Grant, ActiveRows, BestPlan, TierOf, MapPlan, ExpiryOf;
      var user, plan := d.e.user.value, MapPlan(d.e.entitlementIds, d.e.productId).value;
      var expiry := ExpiryOf(d.e, d.now);
      GrantAddsOne(s.subs, user, plan, expiry, d.now);
      GrantAddsOne(t.subs, user, plan, expiry, d.now);
      CompletedStep(s, d, user, plan);
      CompletedStep(t, d, user, plan);
      ActiveRowsDecide(Step(s, d).subs, Step(t, d).subs, user, d.now);
    }
  }

  lemma {:induction false} CompletedStep(s: State, d: Request, user: UserId, plan: string)
    requires d.Delivery? && (IsGrant(d.e) || IsExpiration(d.e)) && Completed(s, d.e, d.faults)
    requires d.e.user == Some(user) && MapPlan(d.e.entitlementIds, d.e.productId) == Some(plan)
    ensures
      var s' := Step(s, d);
      && s'.subs == (if IsGrant(d.e) then Grant(s.subs, user, plan, ExpiryOf(d.e, d.now), d.now)
                     else Retire(s.subs, user, plan, EXPIRED))
      && s'.tiers == (if !d.faults.resolve.TakesEffect() then s.tiers
                      else s.tiers[user := TierOf(BestPlan(s'.subs, user, d.now))])
      && s'.processed == (if d.e.id != "" && d.faults.record.TakesEffect() then s.processed + {d.e.id} else s.processed)
  {
    hide Retire, Grant, BestPlan, TierOf, MapPlan, ExpiryOf;
  }

  lemma {:induction false} AllFailLeave(s: State, e: Event, secret: seq<bv8>, qs: seq<Request>)
    requires AllFail(s, e, secret, qs)
    ensures AlikeBut(Run(s, qs), s, e)
    decreases |qs|
  {
    if qs != [] {
      hide AlikeBut, Step, ReplyTo;
      FailureLeaves(s, e, secret, qs[0]);
      AllFailLeave(Step(s, qs[0]), e, secret, qs[1..]);
      AlikeButTransitive(Run(s, qs), Step(s, qs[0]), s, e);
    } else {
      assert AlikeBut(s, s, e);
    }
  }

  lemma {:induction false} RunLast(s: State, qs: seq<Request>, d: Request)
    ensures Run(s, qs + [d]) == Step(Run(s, qs), d)
    decreases |qs|
  {
    if qs == [] {
      assert Run(s, [d]) == Run(Step(s, d), []);
    } else {
      RunLast(Step(s, qs[0]), qs[1..], d);
      assert (qs + [d])[1..] == qs[1..] + [d];
    }
  }

  /** Failed deliveries leave nothing in force behind once a retry completes: users, tiers, records and active
      rows are those of the retry alone, and if no failed insert took effect the whole state is. */
  lemma {:induction false} RetriesHeal(s: State, e: Event, secret: seq<bv8>, qs: seq<Request>, d: Request)
    requires AllFail(s, e, secret, qs) && d.Delivery? && d.e == e && Completed(s, e, d.faults)
    ensures Alike(Run(s, qs + [d]), Step(s, d))
    ensures (forall i :: 0 <= i < |qs| && qs[i].Delivery? ==> !qs[i].faults.insert.Unacknowledged?) ==>
      Run(s, qs + [d]) == Step(s, d)
  {
    hide AlikeBut, Alike, Step;
    AllFailLeave(s, e, secret, qs);
    CompletionEvens(Run(s, qs), s, d);
    RunLast(s, qs, d);
    if forall i :: 0 <= i < |qs| && qs[i].Delivery? ==> !qs[i].faults.insert.Unacknowledged? {
      RetriesHealExactly(s, e, secret, qs, d);
    }
  }

  lemma {:induction false} RetryHealsExactly(s: State, e: Event, secret: seq<bv8>, failed: Request, d: Request)
    requires failed.Delivery? && d.Delivery? && failed.e == d.e == e && Completed(s, e, d.faults)
    requires ReplyTo(s, Some(secret), secret, e, failed.faults) == ServerError
    requires !failed.faults.insert.Unacknowledged?
    ensures Completed(Step(s, failed), e, d.faults) && Step(Step(s, failed), d) == Step(s, d)
  {
    RetireTwice(s.subs, e.user.value, MapPlan(e.entitlementIds, e.productId).value);
  }

  lemma {:induction false} RetriesHealExactly(s: State, e: Event, secret: seq<bv8>, qs: seq<Request>, d: Request)
    requires AllFail(s, e, secret, qs) && d.Delivery? && d.e == e && Completed(s, e, d.faults)
    requires forall i :: 0 <= i < |qs| && qs[i].Delivery? ==> !qs[i].faults.insert.Unacknowledged?
    ensures Run(s, qs + [d]) == Step(s, d)
    decreases |qs|
  {
    if qs == [] {
      assert Run(s, [d]) == Run(Step(s, d), []);
    } else {
      hide Step, Completed, ReplyTo;
      RetryHealsExactly(s, e, secret, qs[0], d);
      RetriesHealExactly(Step(s, qs[0]), e, secret, qs[1..], d);
      assert (qs + [d])[1..] == qs[1..] + [d];
    }
  }

  // ----- repeating a completed grant -----

  /** Completing a grant again, as after a lost record, leaves the same active rows exactly when the expiry
      does not depend on the clock: the event carries a usable one, or no time has passed. */
  lemma {:induction false} RetryIsIdempotent(s: State, e: Event, first: Request, second: Request)
    requires first.Delivery? && second.Delivery? && first.e == second.e == e && IsGrant(e)
    requires Completed(s, e, first.faults) && Completed(Step(s, first), e, second.faults)
    ensures
      var once := Step(s, first);
      var twice := Step(once, second);
      ActiveRows(twice.subs) == ActiveRows(once.subs) <==> HasValidExpiry(e) || first.now == second.now
  {
    var now, later := first.now, second.now;
    var user, plan := e.user.value, MapPlan(e.entitlementIds, e.productId).value;
    var t1, t2 := ExpiryOf(e, now), ExpiryOf(e, later);
    var once := Grant(s.subs, user, plan, t1, now);
    GrantAddsOne(s.subs, user, plan, t1, now);
    GrantAddsOne(once, user, plan, t2, later);
    RegrantRetires(s.subs, user, plan, t1, now);
    var rest := ActiveRows(Retire(s.subs, user, plan, EXPIRED));
    var a, b := Entitlement(user, plan, REVENUECAT, Some(t1)), Entitlement(user, plan, REVENUECAT, Some(t2));
    assert Step(s, first).subs == once;
    assert ActiveRows(Step(Step(s, first), second).subs) == rest + multiset{b};
    if a != b {
      assert (rest + multiset{a})[a] == rest[a] + 1 && (rest + multiset{b})[a] == rest[a];
    }
  }
}
