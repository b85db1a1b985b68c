/** The story list: one pass over rows ordered by user builds the per-user groups. */
module Stories {
  import opened Wrappers

  type UserId = nat
  type StoryId = nat

  datatype Row = Row(id: StoryId, user: UserId, displayName: Option<string>, avatarKey: Option<string>)

  datatype Story = Story(row: Row, viewed: bool, viewCount: nat)

  datatype Group = Group(user: UserId, displayName: Option<string>, avatarKey: Option<string>, stories: seq<Story>,
                         allViewed: bool)

  function Annotate(row: Row, viewed: set<StoryId>, counts: map<StoryId, nat>): Story {
    Story(row, row.id in viewed, if row.id in counts then counts[row.id] else 0)
  }

  function AnnotateAll(rows: seq<Row>, viewed: set<StoryId>, counts: map<StoryId, nat>): (ss: seq<Story>)
    ensures |ss| == |rows|
  {
    seq(|rows|, i requires 0 <= i < |rows| => Annotate(rows[i], viewed, counts))
  }

  function Flatten(groups: seq<Group>): seq<Story> {
    if groups == [] then [] else Flatten(groups[..|groups| - 1]) + groups[|groups| - 1].stories
  }

  predicate AllOf(stories: seq<Story>, user: UserId) {
    forall i :: 0 <= i < |stories| ==> stories[i].row.user == user
  }

  predicate AllViewed(stories: seq<Story>) {
    forall i :: 0 <= i < |stories| ==> stories[i].viewed
  }

  /** A group is a non-empty run of one user's stories, headed by the first one's name and avatar. */
  ghost predicate WellFormed(g: Group) {
    && g.stories != [] && AllOf(g.stories, g.user)
    && g.displayName == g.stories[0].row.displayName && g.avatarKey == g.stories[0].row.avatarKey
    && (g.allViewed <==> AllViewed(g.stories))
  }

  /** The groups of `stories`: in order, without loss, cut exactly where the user changes. */
  ghost predicate Groups(groups: seq<Group>, stories: seq<Story>) {
    && Flatten(groups) == stories
    && (forall i :: 0 <= i < |groups| ==> WellFormed(groups[i]))
    && (forall i :: 0 < i < |groups| ==> groups[i].user != groups[i - 1].user)
  }

  /** The pass so far: `groups` are closed, `userStories` is the open group of `lastUser`. */
  ghost predicate Building(groups: seq<Group>, userStories: seq<Story>, lastUser: Option<UserId>, done: seq<Story>) {
    && Groups(groups, Flatten(groups)) && Flatten(groups) + userStories == done
    && (lastUser.None? ==> groups == [] && userStories == [])
    && (lastUser.Some? ==> userStories != [] && AllOf(userStories, lastUser.value))
    && (groups != [] ==> lastUser.Some? && groups[|groups| - 1].user != lastUser.value)
  }

  lemma {:induction false} GroupsAppend(groups: seq<Group>, g: Group)
    requires Groups(groups, Flatten(groups)) && WellFormed(g)
    requires groups != [] ==> groups[|groups| - 1].user != g.user
    ensures Groups(groups + [g], Flatten(groups) + g.stories)
  {
    assert (groups + [g])[..|groups|] == groups;
  }

  lemma {:induction false} SameUserStep(groups: seq<Group>, userStories: seq<Story>, lastUser: Option<UserId>,
                                        done: seq<Story>, next: Story)
    requires Building(groups, userStories, lastUser, done) && lastUser == Some(next.row.user)
    ensures Building(groups, userStories + [next], lastUser, done + [next])
  {
    assert Flatten(groups) + (userStories + [next]) == done + [next];
  }

  lemma {:induction false} NewUserStep(groups: seq<Group>, g: Group, lastUser: Option<UserId>, done: seq<Story>,
                                       next: Story)
    requires Building(groups, g.stories, lastUser, done) && lastUser == Some(g.user) && WellFormed(g)
    requires g.user != next.row.user
    ensures Building(groups + [g], [next], Some(next.row.user), done + [next])
  {
    GroupsAppend(groups, g);
    assert Flatten(groups + [g]) == done;
  }

  method MakeGroup(user: UserId, userStories: seq<Story>) returns (g: Group)
    requires userStories != [] && AllOf(userStories, user)
    ensures WellFormed(g) && g.user == user && g.stories == userStories
  {
    var allViewed := true;
    for i := 0 to |userStories|
      invariant allViewed <==> AllViewed(userStories[..i])
    {
      assert userStories[..i + 1] == userStories[..i] + [userStories[i]];
      allViewed := allViewed && userStories[i].viewed;
    }
    assert userStories[..|userStories|] == userStories;
    return Group(user, userStories[0].row.displayName, userStories[0].row.avatarKey, userStories, allViewed);
  }

  method ListStories(rows: seq<Row>, viewed: set<StoryId>, counts: map<StoryId, nat>)
    returns (stories: seq<Story>, groups: seq<Group>)
    ensures stories == AnnotateAll(rows, viewed, counts)
    ensures Groups(groups, stories)
    ensures |stories| == |rows| && forall i :: 0 <= i < |rows| ==>
              && stories[i].row == rows[i] && (stories[i].viewed <==> rows[i].id in viewed)
              && stories[i].viewCount == if rows[i].id in counts then counts[rows[i].id] else 0
    ensures forall i :: 0 <= i < |groups| ==>
              && groups[i].stories != [] && groups[i].displayName == groups[i].stories[0].row.displayName
              && groups[i].avatarKey == groups[i].stories[0].row.avatarKey
              && (groups[i].allViewed <==> forall k :: 0 <= k < |groups[i].stories| ==> groups[i].stories[k].viewed)
              && forall k :: 0 <= k < |groups[i].stories| ==> groups[i].stories[k].row.user == groups[i].user
  {
    hide Building, Groups, WellFormed, AllOf, Flatten;
    var userStories: seq<Story> := [];
    var lastUser: Option<UserId> := None;
    groups := [];
    ghost var all := AnnotateAll(rows, viewed, counts);
    NothingYet();
    for i := 0 to |rows|
      invariant Building(groups, userStories, lastUser, all[..i])
    {
      var sj := Annotate(rows[i], viewed, counts);
      assert all[..i + 1] == all[..i] + [sj];
      OpenGroup(groups, userStories, lastUser, all[..i]);
      if lastUser != Some(rows[i].user) {
        if |userStories| != 0 {
          var g := MakeGroup(lastUser.value, userStories);
          NewUserStep(groups, g, lastUser, all[..i], sj);
          groups := groups + [g];
          userStories := [];
        } else {
          FirstStep(groups, all[..i], sj);
        }
        lastUser := Some(rows[i].user);
        assert userStories + [sj] == [sj];
      } else {
        SameUserStep(groups, userStories, lastUser, all[..i], sj);
      }
      userStories := userStories + [sj];
    }
    assert all[..|rows|] == all;
    OpenGroup(groups, userStories, lastUser, all);
    if |userStories| != 0 {
      if lastUser.Some? {
        var g := MakeGroup(lastUser.value, userStories);
        LastStep(groups, g, lastUser, all);
        groups := groups + [g];
      }
    }
    GroupsInColumns(groups, all);
    stories := FlattenLoop(groups);
    FlattenIs(groups, all);
  }

  lemma {:induction false} GroupsInColumns(groups: seq<Group>, stories: seq<Story>)
    requires Groups(groups, stories)
    ensures forall i :: 0 <= i < |groups| ==>
              && groups[i].stories != [] && groups[i].displayName == groups[i].stories[0].row.displayName
              && groups[i].avatarKey == groups[i].stories[0].row.avatarKey
              && (groups[i].allViewed <==> forall k :: 0 <= k < |groups[i].stories| ==> groups[i].stories[k].viewed)
              && forall k :: 0 <= k < |groups[i].stories| ==> groups[i].stories[k].row.user == groups[i].user
  {
  }

  lemma {:induction false} OpenGroup(groups: seq<Group>, userStories: seq<Story>, lastUser: Option<UserId>,
                                     done: seq<Story>)
    requires Building(groups, userStories, lastUser, done)
    ensures lastUser.Some? <==> userStories != []
    ensures lastUser.Some? ==> AllOf(userStories, lastUser.value)
    ensures lastUser.None? ==> Groups(groups, done)
  {
    assert Flatten(groups) + [] == Flatten(groups);
  }

  lemma {:induction false} LastStep(groups: seq<Group>, g: Group, lastUser: Option<UserId>, done: seq<Story>)
    requires Building(groups, g.stories, lastUser, done) && lastUser == Some(g.user) && WellFormed(g)
    ensures Groups(groups + [g], done)
  {
    GroupsAppend(groups, g);
  }

  lemma {:induction false} NothingYet()
    ensures Building([], [], None, [])
  {
  }

  lemma {:induction false} FirstStep(groups: seq<Group>, done: seq<Story>, next: Story)
    requires Building(groups, [], None, done)
    ensures Building(groups, [next], Some(next.row.user), done + [next])
  {
  }

  lemma {:induction false} FlattenIs(groups: seq<Group>, stories: seq<Story>)
    requires Groups(groups, stories)
    ensures Flatten(groups) == stories
  {
  }

  /** The flat list beside the groups. */
  method FlattenLoop(groups: seq<Group>) returns (stories: seq<Story>)
    ensures stories == Flatten(groups)
  {
    stories := [];
    for i := 0 to |groups|
      invariant stories == Flatten(groups[..i])
    {
      assert groups[..i + 1][..i] == groups[..i];
      stories := stories + groups[i].stories;
    }
    assert groups[..|groups|] == groups;
  }

  lemma {:induction false} GroupsPrefix(groups: seq<Group>, stories: seq<Story>)
    requires Groups(groups, stories) && groups != []
    ensures
      var n := |groups| - 1;
      Groups(groups[..n], Flatten(groups[..n])) && stories == Flatten(groups[..n]) + groups[n].stories
  {
  }

  // ----- what the grouping means -----

  function OfUser(stories: seq<Story>, user: UserId): seq<Story> {
    if stories == [] then []
    else
      var n := |stories| - 1;
      OfUser(stories[..n], user) + (if stories[n].row.user == user then [stories[n]] else [])
  }

  ghost predicate SortedByUser(stories: seq<Story>) {
    forall i, j :: 0 <= i < j < |stories| ==> stories[i].row.user <= stories[j].row.user
  }

  lemma {:induction false} SortedPrefix(a: seq<Story>, b: seq<Story>)
    requires SortedByUser(a + b)
    ensures SortedByUser(a)
  {
    assert forall i :: 0 <= i < |a| ==> (a + b)[i] == a[i];
  }

  lemma {:induction false} OfUserConcat(a: seq<Story>, b: seq<Story>, user: UserId)
    ensures OfUser(a + b, user) == OfUser(a, user) + OfUser(b, user)
  {
    if b == [] {
      assert a + b == a;
    } else {
      assert (a + b)[..|a + b| - 1] == a + b[..|b| - 1];
      OfUserConcat(a, b[..|b| - 1], user);
    }
  }

  lemma {:induction false} OfUserUniform(stories: seq<Story>, owner: UserId, user: UserId)
    requires AllOf(stories, owner)
    ensures OfUser(stories, user) == if owner == user then stories else []
  {
    if stories != [] {
      OfUserUniform(stories[..|stories| - 1], owner, user);
      assert stories == stories[..|stories| - 1] + [stories[|stories| - 1]];
    }
  }

  lemma {:induction false} OfUserNone(stories: seq<Story>, user: UserId)
    requires forall i :: 0 <= i < |stories| ==> stories[i].row.user != user
    ensures OfUser(stories, user) == []
  {
    if stories != [] {
      OfUserNone(stories[..|stories| - 1], user);
    }
  }

  /** With rows ordered by user the groups' users strictly increase, so no user has two groups. */
  lemma {:induction false} UsersIncrease(groups: seq<Group>, stories: seq<Story>)
    requires Groups(groups, stories) && SortedByUser(stories)
    ensures forall i, j :: 0 <= i < j < |groups| ==> groups[i].user < groups[j].user
    ensures groups != [] ==> stories != [] && stories[|stories| - 1].row.user == groups[|groups| - 1].user
  {
    if groups != [] {
      var n := |groups| - 1;
      var before, g := Flatten(groups[..n]), groups[n];
      GroupsPrefix(groups, stories);
      SortedPrefix(before, g.stories);
      UsersIncrease(groups[..n], before);
      assert stories[|before|] == g.stories[0];
      if n > 0 {
        assert before[|before| - 1] == stories[|before| - 1];
        assert groups[n - 1].user < g.user;
      }
    }
  }

  /** Every row's user has a group. */
  lemma {:induction false} UsersHaveGroups(groups: seq<Group>, stories: seq<Story>, k: nat)
    requires Groups(groups, stories) && k < |stories|
    ensures exists i :: 0 <= i < |groups| && groups[i].user == stories[k].row.user
  {
    var n := |groups| - 1;
    var before := Flatten(groups[..n]);
    GroupsPrefix(groups, stories);
    if k < |before| {
      UsersHaveGroups(groups[..n], before, k);
      var i :| 0 <= i < n && groups[..n][i].user == before[k].row.user;
      assert groups[i].user == stories[k].row.user;
    } else {
      assert groups[n].user == stories[k].row.user;
    }
  }

  /** Each group holds exactly its user's stories, in order. */
  lemma {:induction false} GroupHoldsItsUser(groups: seq<Group>, stories: seq<Story>, i: nat)
    requires Groups(groups, stories) && SortedByUser(stories) && i < |groups|
    ensures groups[i].stories == OfUser(stories, groups[i].user)
  {
    var n := |groups| - 1;
    var before, g := Flatten(groups[..n]), groups[n];
    UsersIncrease(groups, stories);
    GroupsPrefix(groups, stories);
    SortedPrefix(before, g.stories);
    UsersIncrease(groups[..n], before);
    OfUserConcat(before, g.stories, groups[i].user);
    OfUserUniform(g.stories, g.user, groups[i].user);
    if i < n {
      GroupHoldsItsUser(groups[..n], before, i);
    } else {
      forall k | 0 <= k < |before| ensures before[k].row.user != g.user {
        UsersHaveGroups(groups[..n], before, k);
        var j :| 0 <= j < n && groups[..n][j].user == before[k].row.user;
      }
      OfUserNone(before, g.user);
    }
  }

  /** The grouping is unique: the contract of the pass leaves no freedom. */
  lemma {:induction false} GroupingUnique(a: seq<Group>, b: seq<Group>, stories: seq<Story>)
    requires Groups(a, stories) && Groups(b, stories)
    ensures a == b
  {
    if a != [] && b != [] {
      var m, n := |a| - 1, |b| - 1;
      var x, y := a[m].stories, b[n].stories;
      assert stories[|stories| - 1] == x[|x| - 1] == y[|y| - 1];
      assert a[m].user == b[n].user;
      LastRunNotLonger(a, b, stories);
      LastRunNotLonger(b, a, stories);
      assert x == stories[|stories| - |x|..] && y == stories[|stories| - |y|..];
      assert Flatten(a[..m]) == stories[..|stories| - |x|];
      assert Flatten(b[..n]) == stories[..|stories| - |y|];
      GroupingUnique(a[..m], b[..n], Flatten(a[..m]));
      assert a == a[..m] + [a[m]] && b == b[..n] + [b[n]];
    }
  }

  lemma {:induction false} LastRunNotLonger(a: seq<Group>, b: seq<Group>, stories: seq<Story>)
    requires Groups(a, stories) && Groups(b, stories) && a != [] && b != []
    requires a[|a| - 1].user == b[|b| - 1].user
    ensures |a[|a| - 1].stories| <= |b[|b| - 1].stories|
  {
    var x, y := a[|a| - 1].stories, b[|b| - 1].stories;
    var n := |b| - 1;
    var before := Flatten(b[..n]);
    assert stories == before + y;
    if n > 0 {
      var z := b[n - 1].stories;
      assert b[..n][..n - 1] == b[..n - 1];
      assert before == Flatten(b[..n - 1]) + z;
      var k := |before| - 1;
      assert stories[k] == z[|z| - 1] && stories[k].row.user != b[n].user;
      assert forall i :: |stories| - |x| <= i < |stories| ==> stories[i] == x[i - (|stories| - |x|)];
    }
  }
}
