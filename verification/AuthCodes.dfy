/** Verification codes (`auth_codes`): every issued code stands for a single guess. */
module AuthCodes {
  type UserId = nat
  type Time = int

  datatype Row = Row(user: UserId, kind: string, hash: nat, expiresAt: Time, createdAt: Time, consumed: bool)
  {
    predicate For(user: UserId, kind: string) {
      this.user == user && this.kind == kind
    }

    predicate Live(user: UserId, kind: string, now: Time) {
      For(user, kind) && !consumed && expiresAt > now
    }

    predicate Matches(user: UserId, kind: string, hash: nat, now: Time) {
      Live(user, kind, now) && this.hash == hash
    }
  }

  predicate AnyLive(rows: seq<Row>, user: UserId, kind: string, now: Time): (any: bool)
    ensures any <==> exists i ::
              && 0 <= i < |rows| && rows[i].user == user && rows[i].kind == kind
              && !rows[i].consumed && rows[i].expiresAt > now
  {
    exists i :: 0 <= i < |rows| && rows[i].Live(user, kind, now)
  }

  predicate AnyMatch(rows: seq<Row>, user: UserId, kind: string, hash: nat, now: Time) {
    exists i :: 0 <= i < |rows| && rows[i].Matches(user, kind, hash, now)
  }

  /** A most recent live row with this hash; among equally recent ones any may be the one taken. */
  ghost predicate IsNewestMatch(rows: seq<Row>, i: int, user: UserId, kind: string, hash: nat, now: Time) {
    && 0 <= i < |rows| && rows[i].Matches(user, kind, hash, now)
    && forall j :: 0 <= j < |rows| && rows[j].Matches(user, kind, hash, now) ==> rows[j].createdAt <= rows[i].createdAt
  }

  /** `post` is `pre` with live rows of (user, kind) consumed: one newest match if there is a match,
      otherwise all of them. */
  ghost predicate Consumes(pre: seq<Row>, user: UserId, kind: string, hash: nat, now: Time, ok: bool, post: seq<Row>) {
    && ok == AnyMatch(pre, user, kind, hash, now)
    && |post| == |pre|
    && if ok then
         exists i :: IsNewestMatch(pre, i, user, kind, hash, now) && post == pre[i := pre[i].(consumed := true)]
       else forall i :: 0 <= i < |pre| ==>
              post[i] == if pre[i].Live(user, kind, now) then pre[i].(consumed := true) else pre[i]
  }

  // ----- the same in columns -----

  function Spent(row: Row): Row {
    Row(row.user, row.kind, row.hash, row.expiresAt, row.createdAt, true)
  }

  /** One unconsumed, unexpired row with this user, kind and hash is consumed, and none of them is newer. */
  ghost predicate SpendsNewest(pre: seq<Row>, user: UserId, kind: string, hash: nat, now: Time, post: seq<Row>) {
    exists i ::
      && 0 <= i < |pre| && post == pre[i := Spent(pre[i])]
      && pre[i].user == user && pre[i].kind == kind && pre[i].hash == hash
      && !pre[i].consumed && pre[i].expiresAt > now
      && forall j ::
           (&& 0 <= j < |pre| && pre[j].user == user && pre[j].kind == kind && pre[j].hash == hash
            && !pre[j].consumed && pre[j].expiresAt > now) ==>
           pre[j].createdAt <= pre[i].createdAt
  }

  /** Exactly the unconsumed, unexpired rows of this user and kind are consumed. */
  ghost predicate SpendsAll(pre: seq<Row>, user: UserId, kind: string, now: Time, post: seq<Row>) {
    && |post| == |pre|
    && forall i :: 0 <= i < |pre| ==>
         post[i] == if pre[i].user == user && pre[i].kind == kind && !pre[i].consumed && pre[i].expiresAt > now
                    then Spent(pre[i]) else pre[i]
  }

  class CodeTable {
    var rows: seq<Row>

    constructor ()
      ensures rows == []
    {
      rows := [];
    }

    method IssueAuthCode(user: UserId, kind: string, hash: nat, expiresAt: Time, now: Time)
      modifies this
      ensures rows == old(rows) + [Row(user, kind, hash, expiresAt, now, false)]
      ensures Step(old(rows), Issue(user, kind, hash, expiresAt, now), rows)
    {
      rows := rows + [Row(user, kind, hash, expiresAt, now, false)];
    }

    method ConsumeAuthCode(user: UserId, kind: string, hash: nat, now: Time) returns (ok: bool)
      modifies this
      ensures Step(old(rows), Consume(user, kind, hash, now, ok), rows)
      ensures !ok ==> !AnyLive(rows, user, kind, now)
      ensures ok <==> exists i ::
                && 0 <= i < |old(rows)| && old(rows)[i].user == user && old(rows)[i].kind == kind
                && old(rows)[i].hash == hash && !old(rows)[i].consumed && old(rows)[i].expiresAt > now
      ensures ok ==> SpendsNewest(old(rows), user, kind, hash, now, rows)
      ensures !ok ==> SpendsAll(old(rows), user, kind, now, rows)
    {
      // the subselect: ORDER BY created_at DESC LIMIT 1
      var pick := -1;
      for i := 0 to |rows|
        invariant rows == old(rows)
        invariant -1 <= pick < i
        invariant pick == -1 ==> forall j :: 0 <= j < i ==> !rows[j].Matches(user, kind, hash, now)
        invariant pick >= 0 ==> IsNewestMatch(rows[..i], pick, user, kind, hash, now)
      {
        if rows[i].Matches(user, kind, hash, now) && (pick == -1 || rows[i].createdAt >= rows[pick].createdAt) {
          pick := i;
        }
      }
      assert rows[..|rows|] == rows;
      if pick >= 0 {
        rows := rows[pick := rows[pick].(consumed := true)];
        return true;
      }
      // the guess was wrong: every live code of this user and kind is spent
      rows := seq(|rows|, i requires 0 <= i < |rows| reads this =>
        if rows[i].Live(user, kind, now) then rows[i].(consumed := true) else rows[i]);
      return false;
    }
  }

  // ----- whole runs -----

  datatype Call =
    | Issue(user: UserId, kind: string, hash: nat, expiresAt: Time, now: Time)
    | Consume(user: UserId, kind: string, hash: nat, now: Time, ok: bool)

  ghost predicate Step(pre: seq<Row>, call: Call, post: seq<Row>) {
    match call
    case Issue(user, kind, hash, expiresAt, now) => post == pre + [Row(user, kind, hash, expiresAt, now, false)]
    case Consume(user, kind, hash, now, ok) => Consumes(pre, user, kind, hash, now, ok, post)
  }

  /** `tables` are the table contents before, between and after the calls. */
  ghost predicate Run(tables: seq<seq<Row>>, calls: seq<Call>) {
    && |tables| == |calls| + 1
    && forall i :: 0 <= i < |calls| ==> Step(tables[i], calls[i], tables[i + 1])
  }

  function Unspent(rows: seq<Row>, user: UserId, kind: string): nat {
    if rows == [] then 0
    else (if rows[|rows| - 1].For(user, kind) && !rows[|rows| - 1].consumed then 1 else 0)
         + Unspent(rows[..|rows| - 1], user, kind)
  }

  predicate Issues(call: Call, user: UserId, kind: string) {
    call.Issue? && call.user == user && call.kind == kind
  }

  /** A guess that has a live code to hit. */
  predicate Guesses(rows: seq<Row>, call: Call, user: UserId, kind: string) {
    call.Consume? && call.user == user && call.kind == kind && AnyLive(rows, user, kind, call.now)
  }

  ghost function Issued(calls: seq<Call>, user: UserId, kind: string): nat {
    if calls == [] then 0
    else Issued(calls[..|calls| - 1], user, kind) + (if Issues(calls[|calls| - 1], user, kind) then 1 else 0)
  }

  ghost function Guessed(tables: seq<seq<Row>>, calls: seq<Call>, user: UserId, kind: string): nat
    requires |tables| == |calls| + 1
  {
    if calls == [] then 0
    else var n := |calls| - 1;
      Guessed(tables[..n + 1], calls[..n], user, kind) + (if Guesses(tables[n], calls[n], user, kind) then 1 else 0)
  }

  /** Rows only ever go from unspent to spent; `at` is one that does, if given. */
  lemma {:induction false} SpendingLowers(pre: seq<Row>, post: seq<Row>, user: UserId, kind: string, at: int)
    requires |pre| == |post|
    requires forall i :: 0 <= i < |pre| ==> post[i] == pre[i] || post[i] == pre[i].(consumed := true)
    requires 0 <= at < |pre| ==> pre[at].For(user, kind) && !pre[at].consumed && post[at].consumed
    ensures Unspent(post, user, kind) + (if 0 <= at < |pre| then 1 else 0) <= Unspent(pre, user, kind)
  {
    if pre != [] {
      var n := |pre| - 1;
      SpendingLowers(pre[..n], post[..n], user, kind, if at == n then -1 else at);
    }
  }

  lemma {:induction false} StepBudget(pre: seq<Row>, call: Call, post: seq<Row>, user: UserId, kind: string)
    requires Step(pre, call, post)
    ensures Unspent(post, user, kind) + (if Guesses(pre, call, user, kind) then 1 else 0)
         <= Unspent(pre, user, kind) + (if Issues(call, user, kind) then 1 else 0)
  {
    if call.Issue? {
      assert post[..|post| - 1] == pre;
    } else if Guesses(pre, call, user, kind) {
      if call.ok {
        var i :| IsNewestMatch(pre, i, user, kind, call.hash, call.now) && post == pre[i := pre[i].(consumed := true)];
        SpendingLowers(pre, post, user, kind, i);
      } else {
        var i :| 0 <= i < |pre| && pre[i].Live(user, kind, call.now);
        SpendingLowers(pre, post, user, kind, i);
      }
    } else {
      SpendingLowers(pre, post, user, kind, -1);
    }
  }

  lemma {:induction false} CodesWithinIssued(tables: seq<seq<Row>>, calls: seq<Call>, user: UserId, kind: string)
    requires Run(tables, calls) && tables[0] == []
    ensures Guessed(tables, calls, user, kind) + Unspent(tables[|calls|], user, kind) <= Issued(calls, user, kind)
  {
    if calls != [] {
      var n := |calls| - 1;
      CodesWithinIssued(tables[..n + 1], calls[..n], user, kind);
      StepBudget(tables[n], calls[n], tables[n + 1], user, kind);
    }
  }

  /** Which calls issue a code of the user and kind. */
  function IssuesAt(calls: seq<Call>, user: UserId, kind: string): set<nat> {
    set i: nat | i < |calls| && calls[i].Issue? && calls[i].user == user && calls[i].kind == kind
  }

  /** Which calls guess while an unconsumed, unexpired code of the user and kind is there. */
  function GuessesAt(tables: seq<seq<Row>>, calls: seq<Call>, user: UserId, kind: string): set<nat>
    requires |tables| == |calls| + 1
  {
    set i: nat | i < |calls| && calls[i].Consume? && calls[i].user == user && calls[i].kind == kind
      && AnyLive(tables[i], user, kind, calls[i].now)
  }

  function UnspentAt(rows: seq<Row>, user: UserId, kind: string): set<nat> {
    set i: nat | i < |rows| && rows[i].user == user && rows[i].kind == kind && !rows[i].consumed
  }

  lemma {:induction false} SizeGrows(before: set<nat>, after: set<nat>, n: nat, adds: bool)
    requires forall i :: i in before ==> i < n
    requires forall i :: i in after <==> i in before || (adds && i == n)
    ensures |after| == |before| + (if adds then 1 else 0)
  {
    assert after == if adds then before + {n} else before;
  }

  lemma {:induction false} IssuedIsSize(calls: seq<Call>, user: UserId, kind: string)
    ensures Issued(calls, user, kind) == |IssuesAt(calls, user, kind)|
  {
    if calls != [] {
      var n := |calls| - 1;
      IssuedIsSize(calls[..n], user, kind);
      SizeGrows(IssuesAt(calls[..n], user, kind), IssuesAt(calls, user, kind), n, Issues(calls[n], user, kind));
    }
  }

  lemma {:induction false} GuessedIsSize(tables: seq<seq<Row>>, calls: seq<Call>, user: UserId, kind: string)
    requires |tables| == |calls| + 1
    ensures Guessed(tables, calls, user, kind) == |GuessesAt(tables, calls, user, kind)|
  {
    if calls != [] {
      hide AnyLive;
      var n := |calls| - 1;
      GuessedIsSize(tables[..n + 1], calls[..n], user, kind);
      SizeGrows(GuessesAt(tables[..n + 1], calls[..n], user, kind), GuessesAt(tables, calls, user, kind), n,
                Guesses(tables[n], calls[n], user, kind));
    }
  }

  lemma {:induction false} UnspentIsSize(rows: seq<Row>, user: UserId, kind: string)
    ensures Unspent(rows, user, kind) == |UnspentAt(rows, user, kind)|
  {
    if rows != [] {
      var n := |rows| - 1;
      UnspentIsSize(rows[..n], user, kind);
      SizeGrows(UnspentAt(rows[..n], user, kind), UnspentAt(rows, user, kind), n,
                rows[n].For(user, kind) && !rows[n].consumed);
    }
  }

  /** One guess per code: the guesses that had a live code to hit, together with the codes still
      unspent, never exceed the codes issued. */
  lemma {:induction false} OneGuessPerCode(tables: seq<seq<Row>>, calls: seq<Call>, user: UserId, kind: string)
    requires Run(tables, calls) && tables[0] == []
    ensures |GuessesAt(tables, calls, user, kind)| + |UnspentAt(tables[|calls|], user, kind)|
         <= |IssuesAt(calls, user, kind)|
  {
    CodesWithinIssued(tables, calls, user, kind);
    IssuedIsSize(calls, user, kind);
    GuessedIsSize(tables, calls, user, kind);
    UnspentIsSize(tables[|calls|], user, kind);
  }

  /** Each guess of a run spends rows as the two statements do. */
  lemma {:induction false} StepSpends(pre: seq<Row>, call: Call, post: seq<Row>)
    requires Step(pre, call, post) && call.Consume?
    ensures if call.ok then SpendsNewest(pre, call.user, call.kind, call.hash, call.now, post)
            else SpendsAll(pre, call.user, call.kind, call.now, post)
  {
    if call.ok {
      var i :| IsNewestMatch(pre, i, call.user, call.kind, call.hash, call.now)
        && post == pre[i := pre[i].(consumed := true)];
      assert post == pre[i := Spent(pre[i])];
    }
  }

  /** After a wrong guess no code is live until the next one is issued, as time goes on. */
  lemma {:induction false} WrongGuessLocksOut(tables: seq<seq<Row>>, calls: seq<Call>, k: nat, m: nat, now: Time)
    requires Run(tables, calls) && k < m <= |calls|
    requires calls[k].Consume? && !calls[k].ok && calls[k].now <= now
    requires forall j :: k < j < m ==> !Issues(calls[j], calls[k].user, calls[k].kind)
    ensures !AnyLive(tables[m], calls[k].user, calls[k].kind, now)
    decreases m
  {
    assert Step(tables[m - 1], calls[m - 1], tables[m]);
    if m > k + 1 {
      WrongGuessLocksOut(tables, calls, k, m - 1, now);
    }
  }
}
