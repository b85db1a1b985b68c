/** Message history by pages, and the per-connection filter of broadcast frames. */
module ChatHistory {
  import opened Wrappers

  type ConversationId = nat
  /** Microseconds since the earliest instant a timestamp column holds. */
  type Time = nat

  datatype Message = Message(id: nat, conversation: ConversationId, createdAt: Time)

  /** `WHERE conversation_id = $1 [AND created_at < $2]`. */
  predicate Matches(m: Message, conversation: ConversationId, before: Option<Time>) {
    m.conversation == conversation && (before.Some? ==> m.createdAt < before.value)
  }

  function Matching(table: set<Message>, conversation: ConversationId, before: Option<Time>): set<Message> {
    set m | m in table && Matches(m, conversation, before)
  }

  function Elements(rows: seq<Message>): set<Message> {
    set m | m in rows
  }

  ghost predicate Chronological(rows: seq<Message>) {
    && (forall i, j :: 0 <= i < j < |rows| ==> rows[i].createdAt <= rows[j].createdAt)
    && (forall i, j :: 0 <= i < j < |rows| ==> rows[i] != rows[j])
  }

  /** The newest `limit` rows of `candidates`, oldest first. */
  ghost predicate IsPage(candidates: set<Message>, limit: nat, rows: seq<Message>) {
    && Chronological(rows) && Elements(rows) <= candidates
    && |rows| == (if limit <= |candidates| then limit else |candidates|)
    && forall m, i :: m in candidates && m !in rows && 0 <= i < |rows| ==> m.createdAt <= rows[i].createdAt
  }

  function Clamp(limit: int): (clamped: nat)
    ensures 1 <= clamped <= 100 && (1 <= limit <= 100 ==> clamped == limit)
    ensures (limit < 1 ==> clamped == 1) && (limit > 100 ==> clamped == 100)
  {
    if limit < 1 then 1 else if limit > 100 then 100 else limit
  }

  function Reverse(rows: seq<Message>): (r: seq<Message>)
    ensures |r| == |rows| && forall i :: 0 <= i < |r| ==> r[i] == rows[|rows| - 1 - i]
  {
    seq(|rows|, i requires 0 <= i < |rows| => rows[|rows| - 1 - i])
  }

  lemma {:induction false} NewestExists(ms: set<Message>) returns (m: Message)
    requires ms != {}
    ensures m in ms && forall n :: n in ms ==> n.createdAt <= m.createdAt
  {
    m :| m in ms;
    var rest := ms - {m};
    assert forall n :: n in ms ==> n == m || n in rest;
    if rest != {} {
      var n := NewestExists(rest);
      if n.createdAt > m.createdAt {
        m := n;
      }
    }
  }

  /** The newest `limit` rows of `candidates`, newest first. */
  ghost predicate IsSelection(candidates: set<Message>, limit: nat, rows: seq<Message>) {
    IsPage(candidates, limit, Reverse(rows))
  }

  /** Some newest rows, newest first; `remaining` are the older others. */
  ghost predicate Selected(candidates: set<Message>, rows: seq<Message>, remaining: set<Message>) {
    && |rows| + |remaining| == |candidates|
    && (forall m :: m in candidates <==> m in rows || m in remaining)
    && (forall m :: m in remaining ==> m !in rows)
    && (forall i, j :: 0 <= i < j < |rows| ==> rows[j].createdAt <= rows[i].createdAt && rows[i] != rows[j])
    && (forall m, i :: m in remaining && 0 <= i < |rows| ==> m.createdAt <= rows[i].createdAt)
  }

  lemma {:induction false} SelectNext(candidates: set<Message>, rows: seq<Message>, remaining: set<Message>,
                                      next: Message)
    requires Selected(candidates, rows, remaining)
    requires next in remaining && forall n :: n in remaining ==> n.createdAt <= next.createdAt
    ensures Selected(candidates, rows + [next], remaining - {next})
  {
    assert forall m :: m in rows + [next] <==> m in rows || m == next;
  }

  lemma {:induction false} SelectedIsSelection(candidates: set<Message>, rows: seq<Message>,
                                               remaining: set<Message>, limit: nat)
    requires Selected(candidates, rows, remaining)
    requires |rows| == limit || (|rows| <= limit && remaining == {})
    ensures IsSelection(candidates, limit, rows)
  {
    var r := Reverse(rows);
    forall m ensures m in r <==> m in rows {
      ReverseKeeps(rows, m);
    }
  }

  lemma {:induction false} ReverseKeeps(rows: seq<Message>, m: Message)
    ensures m in Reverse(rows) <==> m in rows
  {
    if m in rows {
      var i :| 0 <= i < |rows| && rows[i] == m;
      assert Reverse(rows)[|rows| - 1 - i] == m;
    }
  }

  /** `ORDER BY created_at DESC LIMIT`; rows of the same instant come in any order. */
  method SelectNewestFirst(candidates: set<Message>, limit: nat) returns (rows: seq<Message>)
    ensures IsSelection(candidates, limit, rows)
  {
    var remaining := candidates;
    rows := [];
    while |rows| < limit && remaining != {}
      invariant |rows| <= limit && Selected(candidates, rows, remaining)
      decreases |remaining|
    {
      ghost var newest := NewestExists(remaining);
      var next :| next in remaining && forall n :: n in remaining ==> n.createdAt <= next.createdAt;
      SelectNext(candidates, rows, remaining, next);
      rows := rows + [next];
      remaining := remaining - {next};
    }
    SelectedIsSelection(candidates, rows, remaining, limit);
  }

  method ListMessages(table: set<Message>, conversation: ConversationId, before: Option<Time>, limit: nat)
    returns (rows: seq<Message>)
    ensures IsPage(Matching(table, conversation, before), limit, rows)
    ensures
      var candidates := set m | m in table && m.conversation == conversation &&
                                (before == None || m.createdAt < before.value);
      && (forall i :: 0 <= i < |rows| ==> rows[i] in candidates)
      && |rows| == (if |candidates| < limit then |candidates| else limit)
      && (forall i, j :: 0 <= i < j < |rows| ==> rows[i] != rows[j] && rows[i].createdAt <= rows[j].createdAt)
      && (forall m, i :: m in candidates && m !in rows && 0 <= i < |rows| ==> m.createdAt <= rows[i].createdAt)
  {
    MatchingIs(table, conversation, before);
    rows := SelectNewestFirst(Matching(table, conversation, before), limit);
    rows := Reverse(rows);
    assert forall i :: 0 <= i < |rows| ==> rows[i] in Elements(rows);
  }

  lemma {:induction false} MatchingIs(table: set<Message>, conversation: ConversationId, before: Option<Time>)
    ensures Matching(table, conversation, before) ==
      set m | m in table && m.conversation == conversation && (before == None || m.createdAt < before.value)
  {
  }

  /** Prepending an older page. */
  lemma {:induction false} PrependPage(page: seq<Message>, all: seq<Message>, before: Time)
    requires Chronological(page) && Chronological(all)
    requires forall m :: m in page ==> m.createdAt < before
    requires forall m :: m in all ==> before <= m.createdAt
    ensures Chronological(page + all)
  {
  }

  lemma {:induction false} SubsetSize<T>(a: set<T>, b: set<T>)
    requires a <= b
    ensures |a| <= |b|
    ensures |a| == |b| ==> a == b
  {
    assert b == a + (b - a);
  }

  lemma {:induction false} RowsAreAsMany(rows: seq<Message>)
    requires Chronological(rows)
    ensures |Elements(rows)| == |rows|
  {
    if rows != [] {
      var rest := rows[..|rows| - 1];
      RowsAreAsMany(rest);
      assert Elements(rows) == Elements(rest) + {rows[|rows| - 1]};
    }
  }

  // ----- where a limit cuts the messages of a conversation -----

  function AtOrAfter(ms: set<Message>, t: Time): set<Message> {
    set m | m in ms && t <= m.createdAt
  }

  function Before(ms: set<Message>, t: Time): (older: set<Message>)
    ensures |older| + |AtOrAfter(ms, t)| == |ms|
  {
    var older := set m | m in ms && m.createdAt < t;
    assert ms == older + AtOrAfter(ms, t);
    older
  }

  /** Counted from the newest, every `limit` messages end between two instants. */
  ghost predicate CutsClean(ms: set<Message>, limit: nat)
    requires limit > 0
    decreases |ms|
  {
    || |ms| <= limit
    || exists t: Time :: |AtOrAfter(ms, t)| == limit && CutsClean(Before(ms, t), limit)
  }

  ghost predicate DistinctTimes(ms: set<Message>) {
    forall m, n :: m in ms && n in ms && m.createdAt == n.createdAt ==> m == n
  }

  /** A page is the part a clean cut makes. */
  lemma {:induction false} CutIsPage(ms: set<Message>, limit: nat, rows: seq<Message>, t: Time)
    requires 0 < limit <= |ms| && IsPage(ms, limit, rows) && |AtOrAfter(ms, t)| == limit
    ensures AtOrAfter(ms, t) == Elements(rows) && Before(ms, t) == Before(ms, rows[0].createdAt)
  {
    RowsAreAsMany(rows);
    var cut := AtOrAfter(ms, t);
    if m :| m in cut && m !in rows {
      forall r | r in Elements(rows) ensures r in cut {
        assert m.createdAt <= r.createdAt;
      }
      SubsetSize(Elements(rows), cut);
    } else {
      SubsetSize(cut, Elements(rows));
    }
    assert cut == Elements(rows) && rows[0] in cut;
    forall m | m in ms
      ensures m.createdAt < t <==> m.createdAt < rows[0].createdAt
    {
      assert m !in rows ==> m !in cut;
      assert m in rows ==> m in cut;
    }
  }

  /** A page keeps everything, up to the messages still to come, exactly when it ends at a clean cut. */
  lemma {:induction false} PageStep(ms: set<Message>, limit: nat, rows: seq<Message>)
    requires limit > 0 && IsPage(ms, limit, rows) && rows != []
    ensures
      var older := Before(ms, rows[0].createdAt);
      CutsClean(ms, limit) <==> ms <= Elements(rows) + older && CutsClean(older, limit)
  {
    var t0 := rows[0].createdAt;
    RowsAreAsMany(rows);
    SubsetSize(Elements(rows), ms);
    if |ms| > limit {
      if CutsClean(ms, limit) {
        var t: Time :| |AtOrAfter(ms, t)| == limit && CutsClean(Before(ms, t), limit);
        CutIsPage(ms, limit, rows, t);
        assert ms == AtOrAfter(ms, t) + Before(ms, t);
      }
      if ms <= Elements(rows) + Before(ms, t0) {
        assert AtOrAfter(ms, t0) == Elements(rows);
      }
    }
  }

  // ----- which conversations every limit, or a limit of one, cuts clean -----

  lemma {:induction false} KthInstant(ms: set<Message>, k: nat) returns (t: Time)
    requires DistinctTimes(ms) && 1 <= k <= |ms|
    ensures |AtOrAfter(ms, t)| == k
    decreases k
  {
    var newest := NewestExists(ms);
    if k == 1 {
      t := newest.createdAt;
      assert AtOrAfter(ms, t) == {newest};
    } else {
      t := KthInstant(ms - {newest}, k - 1);
      assert exists n :: n in AtOrAfter(ms - {newest}, t);
      assert AtOrAfter(ms, t) == AtOrAfter(ms - {newest}, t) + {newest};
    }
  }

  lemma {:induction false} DistinctCutsClean(ms: set<Message>, limit: nat)
    requires limit > 0 && DistinctTimes(ms)
    ensures CutsClean(ms, limit)
    decreases |ms|
  {
    if |ms| > limit {
      var t := KthInstant(ms, limit);
      DistinctCutsClean(Before(ms, t), limit);
    }
  }

  lemma {:induction false} OneOrTwo(ms: set<Message>, m: Message, n: Message)
    requires m in ms && n in ms && |ms| <= 1
    ensures m == n
  {
    SubsetSize({m, n}, ms);
  }

  lemma {:induction false} CutByOneIsDistinct(ms: set<Message>)
    requires CutsClean(ms, 1)
    ensures DistinctTimes(ms)
    decreases |ms|
  {
    forall m, n | m in ms && n in ms && m.createdAt == n.createdAt
      ensures m == n
    {
      if |ms| <= 1 {
        OneOrTwo(ms, m, n);
      } else {
        var t: Time :| |AtOrAfter(ms, t)| == 1 && CutsClean(Before(ms, t), 1);
        if t <= m.createdAt {
          OneOrTwo(AtOrAfter(ms, t), m, n);
        } else {
          CutByOneIsDistinct(Before(ms, t));
        }
      }
    }
  }

  /** Pages of one lose a message exactly when two share an instant. */
  lemma {:induction false} TiesLoseMessages(ms: set<Message>)
    ensures CutsClean(ms, 1) <==> DistinctTimes(ms)
  {
    if DistinctTimes(ms) {
      DistinctCutsClean(ms, 1);
    } else if CutsClean(ms, 1) {
      CutByOneIsDistinct(ms);
    }
  }

  /** And every limit is safe exactly when no two do. */
  lemma {:induction false} EveryLimitIsSafe(ms: set<Message>)
    ensures (forall limit: nat :: limit > 0 ==> CutsClean(ms, limit)) <==> DistinctTimes(ms)
  {
    if DistinctTimes(ms) {
      forall limit: nat | limit > 0
        ensures CutsClean(ms, limit)
      {
        DistinctCutsClean(ms, limit);
      }
    } else {
      TiesLoseMessages(ms);
    }
  }

  // ----- paging back -----

  /** The table at request k; `arrivals(k)` are the messages committed since the first request. */
  function Then(table: set<Message>, arrivals: nat -> set<Message>, k: nat): set<Message> {
    table + arrivals(k)
  }

  /** What is loaded so far: in order, of this conversation and served by some request. */
  ghost predicate InOrder(table: set<Message>, arrivals: nat -> set<Message>, conversation: ConversationId,
                          rows: seq<Message>, all: seq<Message>)
  {
    && Chronological(all) && rows <= all
    && forall m :: m in all ==>
         m.conversation == conversation && (m in table || exists k :: m in Then(table, arrivals, k))
  }

  /** What is not loaded yet is older than the last page. */
  ghost predicate OthersOlder(ms: set<Message>, rows: seq<Message>, all: seq<Message>) {
    forall m :: m in ms && m !in all ==> rows != [] && m.createdAt < rows[0].createdAt
  }

  ghost predicate AlwaysDistinct(table: set<Message>, arrivals: nat -> set<Message>, conversation: ConversationId) {
    && DistinctTimes(Matching(table, conversation, None))
    && forall k :: DistinctTimes(Matching(Then(table, arrivals, k), conversation, None))
  }

  /** No message committed meanwhile is older than all of the newest `limit`. */
  ghost predicate Recent(table: set<Message>, arrivals: nat -> set<Message>, conversation: ConversationId, limit: nat) {
    var ms := Matching(table, conversation, None);
    forall k, m :: m in arrivals(k) && m.conversation == conversation && ms != {} ==> IsRecent(ms, limit, m.createdAt)
  }

  /** Some message is not newer than t and among the newest `limit`. */
  ghost predicate IsRecent(ms: set<Message>, limit: nat, t: Time) {
    exists n :: n in ms && n.createdAt <= t && |AtOrAfter(ms, n.createdAt + 1)| < limit
  }

  /** The messages `ms` are cut clean exactly when all are loaded or to come, and those to come are. */
  ghost predicate CutSoFar(ms: set<Message>, limit: nat, rows: seq<Message>, all: seq<Message>)
    requires limit > 0
  {
    && Elements(all) <= ms
    && (forall m :: m in all && rows != [] ==> rows[0].createdAt <= m.createdAt)
    && var rest := if rows == [] then {} else Before(ms, rows[0].createdAt);
       CutsClean(ms, limit) <==> ms <= Elements(all) + rest && CutsClean(rest, limit)
  }

  lemma {:induction false} RecentIsOnFirstPage(ms: set<Message>, limit: nat, rows: seq<Message>, t: Time)
    requires IsPage(ms, limit, rows) && rows != [] && IsRecent(ms, limit, t)
    ensures rows[0].createdAt <= t
  {
    var n :| n in ms && n.createdAt <= t && |AtOrAfter(ms, n.createdAt + 1)| < limit;
    RowsAreAsMany(rows);
    if rows[0].createdAt > n.createdAt {
      SubsetSize(Elements(rows), AtOrAfter(ms, n.createdAt + 1));
      SubsetSize(AtOrAfter(ms, n.createdAt + 1), ms);
    }
  }

  /** What a page leaves out is older than its oldest row, if timestamps are distinct. */
  lemma {:induction false} PageLeavesOlder(ms: set<Message>, limit: nat, rows: seq<Message>, m: Message)
    requires DistinctTimes(ms) && limit > 0 && IsPage(ms, limit, rows) && m in ms && m !in rows
    ensures rows != [] && m.createdAt < rows[0].createdAt
  {
    assert rows[0] in Elements(rows);
  }

  lemma {:induction false} NextInOrder(table: set<Message>, arrivals: nat -> set<Message>,
                                       conversation: ConversationId, limit: nat, k: nat,
                                       rows: seq<Message>, all: seq<Message>, page: seq<Message>)
    requires InOrder(table, arrivals, conversation, rows, all) && rows != []
    requires IsPage(Matching(Then(table, arrivals, k), conversation, Some(rows[0].createdAt)), limit, page)
    ensures InOrder(table, arrivals, conversation, page, page + all)
  {
    var before := rows[0].createdAt;
    assert rows[0] == all[0];
    forall m | m in page
      ensures m.createdAt < before && m.conversation == conversation && m in Then(table, arrivals, k)
    {
      assert m in Elements(page);
    }
    PrependPage(page, all, before);
  }

  lemma {:induction false} NextOthersOlder(table: set<Message>, arrivals: nat -> set<Message>,
                                           conversation: ConversationId, limit: nat, k: nat,
                                           rows: seq<Message>, all: seq<Message>, page: seq<Message>)
    requires limit > 0 && AlwaysDistinct(table, arrivals, conversation) && rows != []
    requires OthersOlder(Matching(table, conversation, None), rows, all)
    requires IsPage(Matching(Then(table, arrivals, k), conversation, Some(rows[0].createdAt)), limit, page)
    ensures OthersOlder(Matching(table, conversation, None), page, page + all)
  {
    var candidates := Matching(Then(table, arrivals, k), conversation, Some(rows[0].createdAt));
    assert candidates <= Matching(Then(table, arrivals, k), conversation, None);
    forall m | m in Matching(table, conversation, None) && m !in page + all
      ensures page != [] && m.createdAt < page[0].createdAt
    {
      assert m !in all && m !in page;
      PageLeavesOlder(candidates, limit, page, m);
    }
  }

  lemma {:induction false} NextCut(ms: set<Message>, limit: nat, rows: seq<Message>, all: seq<Message>,
                                   page: seq<Message>)
    requires limit > 0 && rows != [] && CutSoFar(ms, limit, rows, all)
    requires IsPage(Before(ms, rows[0].createdAt), limit, page)
    ensures CutSoFar(ms, limit, page, page + all)
  {
    hide CutsClean, IsPage;
    var rest := Before(ms, rows[0].createdAt);
    var next := if page == [] then {} else Before(ms, page[0].createdAt);
    PageStepOfRest(ms, rows[0].createdAt, limit, page);
    ElementsOfBoth(page, all);
    forall m | m in page + all && page != []
      ensures page[0].createdAt <= m.createdAt
    {
      assert page[0] in Elements(page);
    }
    Covered(ms, Elements(all), rest, Elements(page), next);
  }

  lemma {:induction false} ElementsOfBoth(page: seq<Message>, all: seq<Message>)
    ensures Elements(page + all) == Elements(page) + Elements(all)
  {
  }

  lemma {:induction false} PageStepOfRest(ms: set<Message>, before: Time, limit: nat, page: seq<Message>)
    requires limit > 0 && IsPage(Before(ms, before), limit, page)
    ensures
      var next := if page == [] then {} else Before(ms, page[0].createdAt);
      && Elements(page) + next <= Before(ms, before)
      && (CutsClean(Before(ms, before), limit) <==>
            Before(ms, before) <= Elements(page) + next && CutsClean(next, limit))
    ensures forall m :: m in page ==> page[0].createdAt <= m.createdAt
  {
    if page == [] {
      assert Before(ms, before) == {};
    } else {
      hide CutsClean;
      PageStep(Before(ms, before), limit, page);
      assert page[0] in Elements(page);
      assert Before(Before(ms, before), page[0].createdAt) == Before(ms, page[0].createdAt);
    }
  }

  lemma {:induction false} Covered(ms: set<Message>, all: set<Message>, rest: set<Message>, page: set<Message>,
                                   next: set<Message>)
    requires page + next <= rest <= ms && rest !! all
    ensures ms <= page + all + next <==> ms <= all + rest && rest <= page + next
  {
  }

  lemma {:induction false} NothingLeft(limit: nat)
    requires limit > 0
    ensures CutsClean({}, limit)
  {
  }

  lemma {:induction false} FirstCut(ms: set<Message>, limit: nat, rows: seq<Message>)
    requires limit > 0 && IsPage(ms, limit, rows)
    ensures CutSoFar(ms, limit, rows, rows)
  {
    if rows != [] {
      hide CutsClean;
      PageStep(ms, limit, rows);
    } else {
      assert ms == {};
    }
  }

  lemma {:induction false} ArrivalsDoNotMatch(table: set<Message>, arrivals: nat -> set<Message>,
                                              conversation: ConversationId, limit: nat, k: nat,
                                              first: seq<Message>, before: Time)
    requires Recent(table, arrivals, conversation, limit) && first != []
    requires IsPage(Matching(table, conversation, None), limit, first) && before <= first[0].createdAt
    ensures Matching(Then(table, arrivals, k), conversation, Some(before)) ==
      Before(Matching(table, conversation, None), before)
  {
    assert first[0] in Elements(first);
    forall m | m in arrivals(k) && m.conversation == conversation
      ensures before <= m.createdAt
    {
      RecentIsOnFirstPage(Matching(table, conversation, None), limit, first, m.createdAt);
    }
  }

  lemma {:induction false} PageIsOlder(table: set<Message>, conversation: ConversationId, before: Time, limit: nat,
                                       page: seq<Message>)
    requires IsPage(Matching(table, conversation, Some(before)), limit, page) && page != []
    ensures page[0].createdAt < before
  {
    assert page[0] in Elements(page);
  }

  lemma {:induction false} FirstPage(table: set<Message>, arrivals: nat -> set<Message>,
                                     conversation: ConversationId, limit: nat, rows: seq<Message>)
    requires limit > 0 && IsPage(Matching(table, conversation, None), limit, rows)
    ensures InOrder(table, arrivals, conversation, rows, rows)
    ensures AlwaysDistinct(table, arrivals, conversation) ==>
      OthersOlder(Matching(table, conversation, None), rows, rows)
  {
    forall m | m in rows ensures m in Matching(table, conversation, None) {
      assert m in Elements(rows);
    }
    if AlwaysDistinct(table, arrivals, conversation) {
      forall m | m in Matching(table, conversation, None) && m !in rows
        ensures rows != [] && m.createdAt < rows[0].createdAt
      {
        PageLeavesOlder(Matching(table, conversation, None), limit, rows, m);
      }
    }
  }

  /** A client pages back until a page is empty, asking for what is older than the oldest row it has and
      prepending what it gets, while other messages are committed. It ends with messages of the
      conversation, in order and none twice; with every message of the first request when timestamps are
      distinct; and when what was committed meanwhile is recent, with those of the first request exactly
      if the limit cuts them clean. */
  method LoadHistory(table: set<Message>, arrivals: nat -> set<Message>, conversation: ConversationId, limit: int)
    returns (all: seq<Message>)
    ensures Chronological(all)
    ensures forall m :: m in all ==>
              m.conversation == conversation && (m in table || exists k :: m in Then(table, arrivals, k))
    ensures AlwaysDistinct(table, arrivals, conversation) ==> Matching(table, conversation, None) <= Elements(all)
    ensures
      var ms := Matching(table, conversation, None);
      Recent(table, arrivals, conversation, Clamp(limit)) ==>
        Elements(all) <= ms && (Elements(all) == ms <==> CutsClean(ms, Clamp(limit)))
  {
    hide CutsClean, Recent, AlwaysDistinct, IsPage;
    var rows := ListMessages(table, conversation, None, Clamp(limit));
    ghost var ms := Matching(table, conversation, None);
    ghost var first := rows;
    FirstPage(table, arrivals, conversation, Clamp(limit), rows);
    FirstCut(ms, Clamp(limit), rows);
    all := rows;
    var k: nat := 0;
    while rows != []
      invariant InOrder(table, arrivals, conversation, rows, all)
      invariant AlwaysDistinct(table, arrivals, conversation) ==> OthersOlder(ms, rows, all)
      invariant Recent(table, arrivals, conversation, Clamp(limit)) ==> CutSoFar(ms, Clamp(limit), rows, all)
      invariant rows != [] ==> first != [] && rows[0].createdAt <= first[0].createdAt
      decreases if rows == [] then 0 else 1 + rows[0].createdAt
    {
      var before := rows[0].createdAt;
      k := k + 1;
      var page := ListMessages(Then(table, arrivals, k), conversation, Some(before), Clamp(limit));
      NextInOrder(table, arrivals, conversation, Clamp(limit), k, rows, all, page);
      if AlwaysDistinct(table, arrivals, conversation) {
        NextOthersOlder(table, arrivals, conversation, Clamp(limit), k, rows, all, page);
      }
      if Recent(table, arrivals, conversation, Clamp(limit)) {
        ArrivalsDoNotMatch(table, arrivals, conversation, Clamp(limit), k, first, before);
        NextCut(ms, Clamp(limit), rows, all, page);
      }
      if page != [] {
        PageIsOlder(Then(table, arrivals, k), conversation, before, Clamp(limit), page);
      }
      rows, all := page, page + all;
    }
    NothingLeft(Clamp(limit));
  }
}

module ChatFilter {
  import opened Wrappers

  type ConversationId = nat

  /** A broadcast frame; `conversation` is what parsing its text yields. */
  datatype Frame = Frame(conversation: Option<ConversationId>, text: string)

  /** The lookup made when frame i arrives; None is a database error. */
  type Lookup = (ConversationId, nat) -> Option<bool>

  /** The first frame of the same conversation. */
  ghost function First(frames: seq<Frame>, c: ConversationId): (i: nat)
    requires Seen(frames, |frames|, c)
    ensures i < |frames| && frames[i].conversation == Some(c)
    ensures forall j :: 0 <= j < i ==> frames[j].conversation != Some(c)
  {
    if frames[0].conversation == Some(c) then 0
    else
      assert Seen(frames[1..], |frames[1..]|, c) by {
        var j :| 0 <= j < |frames| && frames[j].conversation == Some(c);
        assert frames[1..][j - 1].conversation == Some(c);
      }
      var i := 1 + First(frames[1..], c);
      assert forall j :: 1 <= j < i ==> frames[j] == frames[1..][j - 1];
      i
  }

  /** The frame belongs to a conversation whose first lookup on this connection said "member". */
  ghost predicate Passes(frames: seq<Frame>, member: Lookup, i: nat)
    requires i < |frames|
  {
    frames[i].conversation.Some? &&
    var c := frames[i].conversation.value;
    assert Seen(frames, |frames|, c);
    member(c, First(frames, c)) == Some(true)
  }

  /** The frames forwarded among the first n. */
  ghost function Forwarded(frames: seq<Frame>, member: Lookup, n: nat): seq<Frame>
    requires n <= |frames|
  {
    if n == 0 then []
    else Forwarded(frames, member, n - 1) + (if Passes(frames, member, n - 1) then [frames[n - 1]] else [])
  }

  /** Where the loop ends: at the first forwarded frame whose send fails, or after the last frame. */
  ghost predicate Stops(frames: seq<Frame>, member: Lookup, sendOk: nat -> bool, n: nat) {
    && n <= |frames|
    && (forall i :: 0 <= i < n && Passes(frames, member, i) ==> sendOk(i))
    && (n < |frames| ==> Passes(frames, member, n) && !sendOk(n))
  }

  /** The conversation has a frame among the first n. */
  ghost predicate Seen(frames: seq<Frame>, n: nat, c: ConversationId) {
    exists i :: 0 <= i < n && i < |frames| && frames[i].conversation == Some(c)
  }

  /** One lookup for each conversation seen among the first n frames. */
  ghost predicate OncePerConversation(frames: seq<Frame>, n: nat, lookups: seq<ConversationId>) {
    && (forall k, l :: 0 <= k < l < |lookups| ==> lookups[k] != lookups[l])
    && (forall c :: c in lookups <==> Seen(frames, n, c))
  }

  ghost predicate Cached(frames: seq<Frame>, member: Lookup, n: nat, cache: map<ConversationId, bool>) {
    && n <= |frames|
    && (forall c :: c in cache <==> Seen(frames, n, c))
    && (forall c :: c in cache ==>
          Seen(frames, |frames|, c) && cache[c] == (member(c, First(frames, c)) == Some(true)))
  }

  lemma {:induction false} FirstIs(frames: seq<Frame>, c: ConversationId, i: nat)
    requires i < |frames| && frames[i].conversation == Some(c) && !Seen(frames, i, c)
    ensures Seen(frames, |frames|, c) && First(frames, c) == i
  {
    assert Seen(frames, |frames|, c);
    var f := First(frames, c);
  }

  lemma {:induction false} SeenStep(frames: seq<Frame>, i: nat, c: ConversationId)
    requires i < |frames|
    ensures Seen(frames, i + 1, c) <==> Seen(frames, i, c) || frames[i].conversation == Some(c)
  {
    if Seen(frames, i, c) {
      var j :| 0 <= j < i && j < |frames| && frames[j].conversation == Some(c);
      assert j < i + 1;
    }
  }

  /** Frame i is looked up: its conversation was not cached. */
  lemma {:induction false} CacheMiss(frames: seq<Frame>, member: Lookup, i: nat, cache: map<ConversationId, bool>,
                                     lookups: seq<ConversationId>, c: ConversationId)
    requires Cached(frames, member, i, cache) && OncePerConversation(frames, i, lookups)
    requires i < |frames| && frames[i].conversation == Some(c) && c !in cache
    ensures Passes(frames, member, i) <==> member(c, i) == Some(true)
    ensures Cached(frames, member, i + 1, cache[c := member(c, i) == Some(true)])
    ensures OncePerConversation(frames, i + 1, lookups + [c])
  {
    FirstIs(frames, c, i);
    PassesMiss(frames, member, i, c);
    SeenNext(frames, i, c);
    OnceMore(frames, i, cache, lookups, c);
  }

  lemma {:induction false} SeenNext(frames: seq<Frame>, i: nat, c: ConversationId)
    requires i < |frames| && frames[i].conversation == Some(c)
    ensures forall d :: Seen(frames, i + 1, d) <==> Seen(frames, i, d) || d == c
  {
    forall d ensures Seen(frames, i + 1, d) <==> Seen(frames, i, d) || d == c {
      SeenStep(frames, i, d);
    }
  }

  lemma {:induction false} OnceMore(frames: seq<Frame>, i: nat, cache: map<ConversationId, bool>,
                                    lookups: seq<ConversationId>, c: ConversationId)
    requires OncePerConversation(frames, i, lookups) && (forall d :: d in cache <==> Seen(frames, i, d))
    requires i < |frames| && frames[i].conversation == Some(c) && c !in cache
    ensures OncePerConversation(frames, i + 1, lookups + [c])
  {
    SeenNext(frames, i, c);
    hide Seen;
    assert c !in lookups;
  }

  lemma {:induction false} PassesMiss(frames: seq<Frame>, member: Lookup, i: nat, c: ConversationId)
    requires i < |frames| && frames[i].conversation == Some(c) && !Seen(frames, i, c)
    ensures Passes(frames, member, i) <==> member(c, i) == Some(true)
  {
    FirstIs(frames, c, i);
  }

  /** Frame i needs no lookup: it has no conversation, or a cached one. */
  lemma {:induction false} CacheHit(frames: seq<Frame>, member: Lookup, i: nat, cache: map<ConversationId, bool>,
                                    lookups: seq<ConversationId>)
    requires Cached(frames, member, i, cache) && OncePerConversation(frames, i, lookups)
    requires i < |frames| && (frames[i].conversation.Some? ==> frames[i].conversation.value in cache)
    ensures Passes(frames, member, i) <==> frames[i].conversation.Some? && cache[frames[i].conversation.value]
    ensures Cached(frames, member, i + 1, cache)
    ensures OncePerConversation(frames, i + 1, lookups)
  {
    forall d ensures Seen(frames, i + 1, d) <==> Seen(frames, i, d) {
      SeenStep(frames, i, d);
    }
  }

  /** The first n frames are dealt with, and no send has failed. */
  ghost predicate Sent(frames: seq<Frame>, member: Lookup, sendOk: nat -> bool, n: nat, sent: seq<Frame>) {
    && n <= |frames| && sent == Forwarded(frames, member, n)
    && forall j :: 0 <= j < n && Passes(frames, member, j) ==> sendOk(j)
  }

  lemma {:induction false} LoopStarts(frames: seq<Frame>, member: Lookup, sendOk: nat -> bool)
    ensures Cached(frames, member, 0, map[]) && OncePerConversation(frames, 0, [])
    ensures Sent(frames, member, sendOk, 0, [])
  {
  }

  lemma {:induction false} SendStep(frames: seq<Frame>, member: Lookup, sendOk: nat -> bool, n: nat,
                                    sent: seq<Frame>)
    requires n < |frames| && Sent(frames, member, sendOk, n, sent)
    ensures !Passes(frames, member, n) ==> Sent(frames, member, sendOk, n + 1, sent)
    ensures Passes(frames, member, n) && sendOk(n) ==> Sent(frames, member, sendOk, n + 1, sent + [frames[n]])
    ensures Passes(frames, member, n) && !sendOk(n) ==>
      Stops(frames, member, sendOk, n) && sent == Forwarded(frames, member, n)
  {
    hide Passes;
    assert sent + [] == sent;
  }

  lemma {:induction false} SendEnds(frames: seq<Frame>, member: Lookup, sendOk: nat -> bool, sent: seq<Frame>,
                                    n: nat)
    requires Sent(frames, member, sendOk, n, sent)
    ensures sent == Forwarded(frames, member, n) && (n == |frames| ==> Stops(frames, member, sendOk, n))
  {
    hide Passes;
  }

  // ----- the same in columns -----

  /** The frame's conversation was first seen at frame f, where its lookup said "member". */
  ghost predicate FirstSeenAsMember(frames: seq<Frame>, member: Lookup, i: nat, f: nat)
    requires f <= i < |frames|
  {
    && frames[i].conversation.Some? && frames[f].conversation == frames[i].conversation
    && (forall j :: 0 <= j < f ==> frames[j].conversation != frames[i].conversation)
    && member(frames[i].conversation.value, f) == Some(true)
  }

  lemma {:induction false} PassesMeans(frames: seq<Frame>, member: Lookup, i: nat)
    requires i < |frames|
    ensures Passes(frames, member, i) <==> exists f :: 0 <= f <= i && FirstSeenAsMember(frames, member, i, f)
  {
    if frames[i].conversation.Some? {
      var c := frames[i].conversation.value;
      assert Seen(frames, |frames|, c);
      var f := First(frames, c);
      assert f <= i;
      if g :| 0 <= g <= i && FirstSeenAsMember(frames, member, i, g) {
        assert f == g;
      }
      assert Passes(frames, member, i) ==> FirstSeenAsMember(frames, member, i, f);
    }
  }

  /** `sent` are the frames at `picked`, in order: exactly those among the first n whose conversation was first
      seen as a member's. */
  ghost predicate Picks(frames: seq<Frame>, member: Lookup, n: nat, sent: seq<Frame>, picked: seq<nat>)
    requires n <= |frames|
  {
    && |sent| == |picked|
    && (forall k, l :: 0 <= k < l < |picked| ==> picked[k] < picked[l])
    && (forall k :: 0 <= k < |picked| ==> picked[k] < n && sent[k] == frames[picked[k]])
    && (forall i :: 0 <= i < n ==>
          (i in picked <==> exists f :: 0 <= f <= i && FirstSeenAsMember(frames, member, i, f)))
  }

  lemma {:induction false} ForwardedArePicked(frames: seq<Frame>, member: Lookup, n: nat) returns (picked: seq<nat>)
    requires n <= |frames|
    ensures Picks(frames, member, n, Forwarded(frames, member, n), picked)
  {
    if n == 0 {
      picked := [];
    } else {
      hide Passes, FirstSeenAsMember;
      var before := ForwardedArePicked(frames, member, n - 1);
      PassesMeans(frames, member, n - 1);
      picked := if Passes(frames, member, n - 1) then before + [n - 1] else before;
      PickNext(frames, member, n - 1, Forwarded(frames, member, n - 1), before, Passes(frames, member, n - 1));
    }
  }

  lemma {:induction false} PickNext(frames: seq<Frame>, member: Lookup, i: nat, sent: seq<Frame>, picked: seq<nat>,
                                    passes: bool)
    requires i < |frames| && Picks(frames, member, i, sent, picked)
    requires passes <==> exists f :: 0 <= f <= i && FirstSeenAsMember(frames, member, i, f)
    ensures Picks(frames, member, i + 1, sent + (if passes then [frames[i]] else []),
                  if passes then picked + [i] else picked)
  {
    hide FirstSeenAsMember;
    assert sent + [] == sent;
    assert forall j: nat :: j in picked + [i] <==> j in picked || j == i;
  }

  /** The loop ended at n: every frame before was sent if it was to be, and frame n, if any, was to be and failed. */
  ghost predicate EndsAt(frames: seq<Frame>, member: Lookup, sendOk: nat -> bool, n: nat) {
    && n <= |frames|
    && (forall i, f :: 0 <= f <= i < n && FirstSeenAsMember(frames, member, i, f) ==> sendOk(i))
    && (n < |frames| ==> !sendOk(n) && exists f :: 0 <= f <= n && FirstSeenAsMember(frames, member, n, f))
  }

  lemma {:induction false} StopsMeans(frames: seq<Frame>, member: Lookup, sendOk: nat -> bool, n: nat)
    requires Stops(frames, member, sendOk, n)
    ensures EndsAt(frames, member, sendOk, n)
  {
    hide Passes, FirstSeenAsMember;
    forall i | 0 <= i < |frames|
      ensures Passes(frames, member, i) <==> exists f :: 0 <= f <= i && FirstSeenAsMember(frames, member, i, f)
    {
      PassesMeans(frames, member, i);
    }
  }

  /** The send loop of a connection. `lookups` lists the conversations looked up, in order; `n` is where
      the loop ended. */
  method SendLoop(frames: seq<Frame>, member: Lookup, sendOk: nat -> bool)
    returns (sent: seq<Frame>, lookups: seq<ConversationId>, n: nat)
    ensures Stops(frames, member, sendOk, n)
    ensures sent == Forwarded(frames, member, n)
    ensures OncePerConversation(frames, if n < |frames| then n + 1 else n, lookups)
    ensures EndsAt(frames, member, sendOk, n) && exists picked :: Picks(frames, member, n, sent, picked)
    ensures (forall k, l :: 0 <= k < l < |lookups| ==> lookups[k] != lookups[l]) && forall c ::
              c in lookups <==> exists i :: 0 <= i <= n && i < |frames| && frames[i].conversation == Some(c)
  {
    hide *;
    var cache: map<ConversationId, bool> := map[];
    sent, lookups, n := [], [], 0;
    LoopStarts(frames, member, sendOk);
    while n < |frames|
      invariant n <= |frames| && Cached(frames, member, n, cache) && OncePerConversation(frames, n, lookups)
      invariant Sent(frames, member, sendOk, n, sent)
    {
      var isMember := false;
      if frames[n].conversation.None? {
        CacheHit(frames, member, n, cache, lookups);
      } else {
        var c := frames[n].conversation.value;
        if c in cache {
          CacheHit(frames, member, n, cache, lookups);
          isMember := cache[c];
        } else {
          CacheMiss(frames, member, n, cache, lookups, c);
          isMember := member(c, n) == Some(true);
          cache := cache[c := isMember];
          lookups := lookups + [c];
        }
      }
      SendStep(frames, member, sendOk, n, sent);
      if isMember {
        if !sendOk(n) {
          LoopEnds(frames, member, sendOk, n, n + 1, lookups);
          return;
        }
        sent := sent + [frames[n]];
      }
      n := n + 1;
    }
    SendEnds(frames, member, sendOk, sent, n);
    LoopEnds(frames, member, sendOk, n, n, lookups);
  }

  lemma {:induction false} LoopEnds(frames: seq<Frame>, member: Lookup, sendOk: nat -> bool, n: nat, seen: nat,
                                    lookups: seq<ConversationId>)
    requires Stops(frames, member, sendOk, n) && OncePerConversation(frames, seen, lookups)
    requires seen == if n < |frames| then n + 1 else n
    ensures EndsAt(frames, member, sendOk, n)
    ensures n <= |frames| && exists picked :: Picks(frames, member, n, Forwarded(frames, member, n), picked)
    ensures (forall k, l :: 0 <= k < l < |lookups| ==> lookups[k] != lookups[l]) && forall c ::
              c in lookups <==> exists i :: 0 <= i <= n && i < |frames| && frames[i].conversation == Some(c)
  {
    StopsMeans(frames, member, sendOk, n);
    var picked := ForwardedArePicked(frames, member, n);
    hide Picks, EndsAt, Stops;
    forall c: ConversationId
      ensures Seen(frames, seen, c) <==> exists i :: 0 <= i <= n && i < |frames| && frames[i].conversation == Some(c)
    {
    }
  }

  /** The filter without a cache: membership looked up for every frame. */
  function Uncached(frames: seq<Frame>, member: Lookup, n: nat): seq<Frame>
    requires n <= |frames|
  {
    if n == 0 then []
    else
      var f := frames[n - 1];
      Uncached(frames, member, n - 1)
      + (if f.conversation.Some? && member(f.conversation.value, n - 1) == Some(true) then [f] else [])
  }

  ghost predicate SameSoFar(frames: seq<Frame>, member: Lookup, n: nat) {
    n <= |frames| && Forwarded(frames, member, n) == Uncached(frames, member, n)
  }

  /** The lookup at the arrival of frame i says the same as the first one of its conversation. */
  ghost predicate Agrees(frames: seq<Frame>, member: Lookup, i: nat) {
    i < |frames| && (frames[i].conversation.Some? ==>
      (Passes(frames, member, i) <==> member(frames[i].conversation.value, i) == Some(true)))
  }

  lemma {:induction false} SameStep(frames: seq<Frame>, member: Lookup, i: nat)
    requires i < |frames| && SameSoFar(frames, member, i)
    ensures SameSoFar(frames, member, i + 1) <==> Agrees(frames, member, i)
  {
    var a := Forwarded(frames, member, i);
    assert |a + [frames[i]]| == |a + []| + 1;
  }

  /** The two filters agree on a stream exactly when they agree on each of its frames. */
  lemma {:induction false} SameWhereAgreeing(frames: seq<Frame>, member: Lookup, n: nat)
    requires n <= |frames|
    ensures (forall m :: 0 <= m <= n ==> SameSoFar(frames, member, m)) <==>
      forall i :: 0 <= i < n ==> Agrees(frames, member, i)
  {
    hide SameSoFar, Agrees;
    SameAtStart(frames, member);
    if n > 0 {
      SameWhereAgreeing(frames, member, n - 1);
      if SameSoFar(frames, member, n - 1) {
        SameStep(frames, member, n - 1);
      }
    }
  }

  lemma {:induction false} SameAtStart(frames: seq<Frame>, member: Lookup)
    ensures SameSoFar(frames, member, 0)
  {
  }

  /** Later lookups of a conversation say "member" exactly when the earlier ones do. */
  ghost predicate Steady(member: Lookup) {
    forall c, f, i :: f <= i ==> (member(c, f) == Some(true) <==> member(c, i) == Some(true))
  }

  lemma {:induction false} SteadyAgrees(frames: seq<Frame>, member: Lookup, i: nat)
    requires Steady(member) && i < |frames|
    ensures Agrees(frames, member, i)
  {
    if frames[i].conversation.Some? {
      var c := frames[i].conversation.value;
      assert Seen(frames, |frames|, c);
      var f := First(frames, c);
      assert f <= i;
    }
  }

  /** Frames of the conversation c at f and at i only. */
  function TwoFrames(c: ConversationId, f: nat, i: nat): (frames: seq<Frame>)
    requires f < i
    ensures |frames| == i + 1
  {
    seq(i + 1, k => Frame(if k == f || k == i then Some(c) else None, ""))
  }

  lemma {:induction false} TwoFramesTell(member: Lookup, c: ConversationId, f: nat, i: nat)
    requires f < i && (member(c, f) == Some(true)) != (member(c, i) == Some(true))
    ensures !Agrees(TwoFrames(c, f, i), member, i)
  {
    var frames := TwoFrames(c, f, i);
    FirstIs(frames, c, f);
    assert Seen(frames, |frames|, c);
  }

  /** The cache is invisible on every stream of frames exactly when the lookups are steady: it hides a
      membership that begins or ends meanwhile, and it keeps the effect of a failed lookup. */
  lemma {:induction false} CacheIsInvisible(member: Lookup)
    ensures (forall frames, n :: 0 <= n <= |frames| ==> SameSoFar(frames, member, n)) <==> Steady(member)
  {
    hide Agrees, SameSoFar;
    if Steady(member) {
      forall frames: seq<Frame>, n | 0 <= n <= |frames|
        ensures SameSoFar(frames, member, n)
      {
        forall i | 0 <= i < n ensures Agrees(frames, member, i) {
          SteadyAgrees(frames, member, i);
        }
        SameWhereAgreeing(frames, member, n);
      }
    } else {
      var c, f, i :| f <= i && (member(c, f) == Some(true)) != (member(c, i) == Some(true));
      var frames := TwoFrames(c, f, i);
      TwoFramesTell(member, c, f, i);
      SameWhereAgreeing(frames, member, i + 1);
    }
  }

  /** With unchanging membership and lookups that always answer, the connection forwards exactly the
      frames of the user's conversations. */
  lemma {:induction false} StableMembership(frames: seq<Frame>, member: Lookup, n: nat)
    requires n <= |frames|
    requires forall c, i, j :: member(c, i) == member(c, j)
    ensures Forwarded(frames, member, n) == Uncached(frames, member, n)
  {
    CacheIsInvisible(member);
    assert SameSoFar(frames, member, n);
  }
}
