/** The profile gallery: which photo is primary, and the copy of its key in `profiles`. */
module Photos {
  import opened Wrappers

  type UserId = nat
  type PhotoId = nat

  datatype Photo = Photo(user: UserId, key: string, position: int, isPrimary: bool)

  /** `profileKeys` has one entry per user with a profile row. */
  datatype State = State(photos: map<PhotoId, Photo>, profileKeys: map<UserId, Option<string>>)
  {
    function PhotosOf(user: UserId): set<PhotoId> {
      set p | p in photos && photos[p].user == user
    }

    predicate Owns(user: UserId, p: PhotoId) { p in photos && photos[p].user == user }

    predicate Primary(user: UserId, p: PhotoId) { Owns(user, p) && photos[p].isPrimary }

    /** `UPDATE profiles SET profile_photo_key = ... WHERE user_id = ...`. */
    function SyncKey(user: UserId, key: Option<string>): State {
      if user in profileKeys then this.(profileKeys := profileKeys[user := key]) else this
    }
  }

  /** `profileKind` is an upload of kind "profile"; every other insert of a photo (another kind, the
      onboarding card, an album) leaves position and flag at their defaults. Copying the key is a statement of
      its own and may fail. */
  function AfterInsert(s: State, id: PhotoId, user: UserId, key: string, profileKind: bool, copied: bool): State {
    if !profileKind then s.(photos := s.photos[id := Photo(user, key, 0, false)])
    else
      var count := |s.PhotosOf(user)|;
      var s' := s.(photos := s.photos[id := Photo(user, key, count, count == 0)]);
      if count == 0 && copied then s'.SyncKey(user, Some(key)) else s'
  }

  function AfterSetPrimary(s: State, user: UserId, id: PhotoId): State {
    if !s.Owns(user, id) then s
    else
      s.(photos := map p | p in s.photos ::
           if s.photos[p].user == user then s.photos[p].(isPrimary := p == id) else s.photos[p])
       .SyncKey(user, Some(s.photos[id].key))
  }

  /** `INSERT INTO profiles (user_id, ...) ON CONFLICT (user_id) ...`, which sets no photo key. */
  function AfterCreateProfile(s: State, user: UserId): State {
    if user in s.profileKeys then s else s.(profileKeys := s.profileKeys[user := None])
  }

  predicate Lowest(s: State, user: UserId, p: PhotoId) {
    s.Owns(user, p) &&
    forall q :: q in s.photos && s.photos[q].user == user ==> s.photos[p].position <= s.photos[q].position
  }

  function Without(s: State, id: PhotoId): State {
    s.(photos := s.photos - {id})
  }

  function Promote(s: State, user: UserId, next: PhotoId): State
    requires next in s.photos
  {
    s.(photos := s.photos[next := s.photos[next].(isPrimary := true)]).SyncKey(user, Some(s.photos[next].key))
  }

  /** Positions are not unique after deletions: any photo at the lowest one may be promoted. */
  ghost predicate Deletes(s: State, user: UserId, id: PhotoId, s': State) {
    if !s.Owns(user, id) then s' == s
    else if !s.photos[id].isPrimary then s' == Without(s, id)
    else if Without(s, id).PhotosOf(user) == {} then s' == Without(s, id).SyncKey(user, None)
    else exists next :: Lowest(Without(s, id), user, next) && s' == Promote(Without(s, id), user, next)
  }

  lemma {:induction false} LowestExists(s: State, user: UserId, candidates: set<PhotoId>) returns (p: PhotoId)
    requires candidates != {} && candidates <= s.PhotosOf(user)
    ensures p in candidates && forall q :: q in candidates ==> s.photos[p].position <= s.photos[q].position
  {
    p :| p in candidates;
    var rest := candidates - {p};
    assert forall r :: r in candidates ==> r == p || r in rest;
    if rest != {} {
      var q := LowestExists(s, user, rest);
      if s.photos[q].position < s.photos[p].position {
        p := q;
      }
    }
  }

  // ----- the same in columns -----

  /** The profile row of the user, if there is one, and no other. */
  function Keyed(s: State, user: UserId, key: Option<string>): map<UserId, Option<string>> {
    map u | u in s.profileKeys :: if u == user then key else s.profileKeys[u]
  }

  /** An insert stores the photo: a profile upload after the photos there are and primary if there is none, any
      other at position 0 and not primary. */
  ghost predicate InsertedAs(s: State, id: PhotoId, user: UserId, key: string, profileKind: bool, copied: bool,
                             s': State) {
    var count := |set p | p in s.photos && s.photos[p].user == user|;
    && s'.photos == s.photos[id := Photo(user, key, if profileKind then count else 0, profileKind && count == 0)]
    && s'.profileKeys == (if profileKind && count == 0 && copied then Keyed(s, user, Some(key)) else s.profileKeys)
  }

  /** A deletion takes the user's photo away; a primary one is followed by one at the lowest position left, with
      its key, or by no key. */
  ghost predicate DeletedAs(s: State, user: UserId, id: PhotoId, s': State) {
    if id !in s.photos || s.photos[id].user != user then s' == s
    else if !s.photos[id].isPrimary then s' == State(s.photos - {id}, s.profileKeys)
    else if forall p :: p in s.photos && p != id ==> s.photos[p].user != user then
      s' == State(s.photos - {id}, Keyed(s, user, None))
    else exists next ::
      && next in s.photos && next != id && s.photos[next].user == user
      && (forall p :: p in s.photos && p != id && s.photos[p].user == user ==>
            s.photos[next].position <= s.photos[p].position)
      && var was := s.photos[next];
         s' == State((s.photos - {id})[next := Photo(user, was.key, was.position, true)],
                     Keyed(s, user, Some(was.key)))
  }

  /** Choosing a primary photo sets its flag, clears the user's other flags and copies its key. */
  ghost predicate ChosenAs(s: State, user: UserId, id: PhotoId, s': State) {
    if id !in s.photos || s.photos[id].user != user then s' == s
    else
      && s'.profileKeys == Keyed(s, user, Some(s.photos[id].key)) && s'.photos.Keys == s.photos.Keys
      && forall p :: p in s.photos ==>
           var was := s.photos[p];
           s'.photos[p] == if was.user == user then Photo(user, was.key, was.position, p == id) else was
  }

  lemma {:induction false} SyncInColumns(s: State, user: UserId, key: Option<string>)
    ensures s.SyncKey(user, key) == State(s.photos, Keyed(s, user, key))
  {
  }

  lemma {:induction false} InsertInColumns(s: State, id: PhotoId, user: UserId, key: string, profileKind: bool,
                                           copied: bool)
    ensures InsertedAs(s, id, user, key, profileKind, copied, AfterInsert(s, id, user, key, profileKind, copied))
  {
    var s' := s.(photos := s.photos[id := Photo(user, key, |s.PhotosOf(user)|, |s.PhotosOf(user)| == 0)]);
    SyncInColumns(s', user, Some(key));
    assert s.PhotosOf(user) == set p | p in s.photos && s.photos[p].user == user;
  }

  lemma {:induction false} DeleteInColumns(s: State, user: UserId, id: PhotoId, s': State)
    requires Deletes(s, user, id, s')
    ensures DeletedAs(s, user, id, s')
  {
    var rest := Without(s, id);
    SyncInColumns(rest, user, None);
    if s.Owns(user, id) && s.photos[id].isPrimary {
      assert rest.PhotosOf(user) == {} <==> forall p :: p in s.photos && p != id ==> s.photos[p].user != user by {
        assert forall p :: p in rest.PhotosOf(user) <==> p in s.photos && p != id && s.photos[p].user == user;
      }
      if next :| Lowest(rest, user, next) && s' == Promote(rest, user, next) && rest.PhotosOf(user) != {} {
        var promoted := rest.(photos := rest.photos[next := rest.photos[next].(isPrimary := true)]);
        SyncInColumns(promoted, user, Some(rest.photos[next].key));
        assert forall p :: p in s.photos && p != id && s.photos[p].user == user ==> p in rest.photos;
      }
    }
  }

  lemma {:induction false} ChooseInColumns(s: State, user: UserId, id: PhotoId)
    ensures ChosenAs(s, user, id, AfterSetPrimary(s, user, id))
  {
    if s.Owns(user, id) {
      var flagged := s.(photos := map p | p in s.photos ::
        if s.photos[p].user == user then s.photos[p].(isPrimary := p == id) else s.photos[p]);
      SyncInColumns(flagged, user, Some(s.photos[id].key));
    }
  }

  class Gallery {
    var photos: map<PhotoId, Photo>
    var profileKeys: map<UserId, Option<string>>

    constructor (profiles: set<UserId>)
      ensures Abs() == State(map[], map u | u in profiles :: None)
    {
      photos := map[];
      profileKeys := map u | u in profiles :: None;
    }

    function Abs(): State
      reads this
    {
      State(photos, profileKeys)
    }

    method SyncProfileKey(user: UserId, key: Option<string>)
      modifies this`profileKeys
      ensures Abs() == old(Abs()).SyncKey(user, key)
    {
      if user in profileKeys {
        profileKeys := profileKeys[user := key];
      }
    }

    method CreatePhoto(id: PhotoId, user: UserId, key: string, profileKind: bool, copied: bool)
      requires id !in photos
      modifies this
      ensures Abs() == AfterInsert(old(Abs()), id, user, key, profileKind, copied)
      ensures InsertedAs(old(Abs()), id, user, key, profileKind, copied, Abs())
    {
      InsertInColumns(Abs(), id, user, key, profileKind, copied);
      hide InsertedAs;
      if profileKind {
        var existing := |Abs().PhotosOf(user)|;
        var isFirst := existing == 0;
        photos := photos[id := Photo(user, key, existing, isFirst)];
        if isFirst && copied {
          SyncProfileKey(user, Some(key));
        }
      } else {
        photos := photos[id := Photo(user, key, 0, false)];
      }
    }

    method DeletePhoto(user: UserId, id: PhotoId) returns (deleted: bool)
      modifies this
      ensures deleted == old(Abs()).Owns(user, id) && Deletes(old(Abs()), user, id, Abs())
      ensures deleted <==> id in old(photos) && old(photos)[id].user == user
      ensures DeletedAs(old(Abs()), user, id, Abs())
    {
      forall s' | Deletes(Abs(), user, id, s') ensures DeletedAs(Abs(), user, id, s') {
        DeleteInColumns(Abs(), user, id, s');
      }
      hide DeletedAs;
      if id !in photos || photos[id].user != user {
        return false;
      }
      var wasPrimary := photos[id].isPrimary;
      photos := photos - {id};
      if wasPrimary {
        ghost var rest := Abs();
        if rest.PhotosOf(user) != {} {
          var lowest := LowestExists(rest, user, rest.PhotosOf(user));
          assert Lowest(rest, user, lowest);
        }
        if exists p :: p in photos && Lowest(Abs(), user, p) {
          var next :| next in photos && Lowest(Abs(), user, next);
          SyncProfileKey(user, Some(photos[next].key));
          photos := photos[next := photos[next].(isPrimary := true)];
          assert Abs() == Promote(rest, user, next);
        } else {
          SyncProfileKey(user, None);
        }
      }
      return true;
    }

    method SetPrimaryPhoto(user: UserId, id: PhotoId) returns (done: bool)
      modifies this
      ensures done == old(Abs()).Owns(user, id) && Abs() == AfterSetPrimary(old(Abs()), user, id)
      ensures done <==> id in old(photos) && old(photos)[id].user == user
      ensures ChosenAs(old(Abs()), user, id, Abs())
    {
      ChooseInColumns(Abs(), user, id);
      hide ChosenAs;
      if id !in photos || photos[id].user != user {
        return false;
      }
      var key := photos[id].key;
      photos := map p | p in photos :: if photos[p].user == user then photos[p].(isPrimary := false) else photos[p];
      photos := photos[id := photos[id].(isPrimary := true)];
      SyncProfileKey(user, Some(key));
      return true;
    }

    method CreateProfile(user: UserId)
      modifies this`profileKeys
      ensures Abs() == AfterCreateProfile(old(Abs()), user)
      ensures photos == old(photos)
      ensures profileKeys == if user in old(profileKeys) then old(profileKeys) else old(profileKeys)[user := None]
    {
      if user !in profileKeys {
        profileKeys := profileKeys[user := None];
      }
    }

    /** The profile update takes the key as it comes. */
    method PatchProfile(user: UserId, key: Option<string>)
      modifies this`profileKeys
      ensures Abs() == if key.Some? then old(Abs()).SyncKey(user, key) else old(Abs())
      ensures photos == old(photos)
      ensures profileKeys == if key == None then old(profileKeys) else Keyed(old(Abs()), user, key)
    {
      SyncInColumns(Abs(), user, key);
      if key.Some? {
        SyncProfileKey(user, key);
      }
    }

    method AnonymizeProfile(user: UserId)
      modifies this`profileKeys
      ensures Abs() == old(Abs()).SyncKey(user, None)
      ensures photos == old(photos) && profileKeys == Keyed(old(Abs()), user, None)
    {
      SyncInColumns(Abs(), user, None);
      SyncProfileKey(user, None);
    }
  }

  // ----- what the operations keep -----

  ghost predicate HasPrimary(s: State, user: UserId) {
    exists p :: s.Primary(user, p)
  }

  ghost predicate AtMostOnePrimary(s: State, user: UserId) {
    forall p, q :: s.Primary(user, p) && s.Primary(user, q) ==> p == q
  }

  ghost predicate IsPrimaryKey(s: State, user: UserId, key: string) {
    exists p :: s.Primary(user, p) && s.photos[p].key == key
  }

  /** The profile row, if any, holds the key of a primary photo, or NULL without one. */
  ghost predicate KeyInStep(s: State, user: UserId) {
    user in s.profileKeys ==>
      match s.profileKeys[user]
      case None => !HasPrimary(s, user)
      case Some(key) => IsPrimaryKey(s, user, key)
  }

  ghost predicate Consistent(s: State, user: UserId): (yes: bool)
    ensures
      var primary := set p | p in s.photos && s.photos[p].user == user && s.photos[p].isPrimary;
      yes <==>
        && (forall p, q :: p in primary && q in primary ==> p == q)
        && (user in s.profileKeys && s.profileKeys[user] == None ==> primary == {})
        && (user in s.profileKeys && s.profileKeys[user] != None ==>
              exists p :: p in primary && s.profileKeys[user] == Some(s.photos[p].key))
  {
    PrimariesOf(s, user);
    AtMostOnePrimary(s, user) && KeyInStep(s, user)
  }

  lemma {:induction false} PrimariesOf(s: State, user: UserId)
    ensures
      var primary := set p | p in s.photos && s.photos[p].user == user && s.photos[p].isPrimary;
      && (forall p :: p in primary <==> s.Primary(user, p)) && (HasPrimary(s, user) <==> primary != {})
  {
  }

  datatype Op =
    | Insert(id: PhotoId, user: UserId, key: string, profileKind: bool, copied: bool)
    | Delete(user: UserId, id: PhotoId)
    | SetPrimary(user: UserId, id: PhotoId)
    | CreateProfile(user: UserId)
    | PatchKey(user: UserId, key: string)
    | Anonymize(user: UserId)
  {
    predicate ProfileOnly() { CreateProfile? || PatchKey? || Anonymize? }
  }

  ghost predicate Step(s: State, op: Op, s': State) {
    match op
    case Insert(id, user, key, profileKind, copied) =>
      id !in s.photos && s' == AfterInsert(s, id, user, key, profileKind, copied)
    case Delete(user, id) => Deletes(s, user, id, s')
    case SetPrimary(user, id) => s' == AfterSetPrimary(s, user, id)
    case CreateProfile(user) => s' == AfterCreateProfile(s, user)
    case PatchKey(user, key) => s' == s.SyncKey(user, Some(key))
    case Anonymize(user) => s' == s.SyncKey(user, None)
  }

  /** The key a step writes without looking at the photos, if it writes one, is right, and the key of a first
      profile photo is copied. */
  ghost predicate Safe(s: State, op: Op) {
    match op
    case Insert(_, user, _, profileKind, copied) =>
      copied || !profileKind || s.PhotosOf(user) != {} || user !in s.profileKeys
    case CreateProfile(user) => user in s.profileKeys || !HasPrimary(s, user)
    case PatchKey(user, key) => user !in s.profileKeys || IsPrimaryKey(s, user, key)
    case Anonymize(user) => user !in s.profileKeys || !HasPrimary(s, user)
    case _ => true
  }

  /** Nothing about the user differs. */
  ghost predicate SameFor(s: State, s': State, user: UserId) {
    && (forall p :: s.Owns(user, p) <==> s'.Owns(user, p))
    && (forall p :: s.Owns(user, p) ==> s'.photos[p] == s.photos[p])
    && (user in s.profileKeys <==> user in s'.profileKeys)
    && (user in s.profileKeys ==> s'.profileKeys[user] == s.profileKeys[user])
  }

  lemma {:induction false} OthersUntouched(s: State, op: Op, s': State, other: UserId)
    requires Step(s, op, s') && other != op.user
    ensures SameFor(s, s', other)
  {
  }

  lemma {:induction false} SameIsConsistent(s: State, s': State, user: UserId)
    requires SameFor(s, s', user)
    ensures AtMostOnePrimary(s, user) ==> AtMostOnePrimary(s', user)
    ensures KeyInStep(s, user) ==> KeyInStep(s', user)
  {
    assert forall p :: s'.Primary(user, p) <==> s.Primary(user, p);
  }

  /** `p` is the user's only primary photo in `s'`, and the profile row, if any, has its key. */
  lemma {:induction false} OnlyPrimary(s': State, user: UserId, p: PhotoId)
    requires s'.Primary(user, p) && forall q :: s'.Primary(user, q) ==> q == p
    requires user in s'.profileKeys ==> s'.profileKeys[user] == Some(s'.photos[p].key)
    ensures Consistent(s', user) && HasPrimary(s', user)
  {
  }

  /** The photos of the user and their flags are the same, and so is the profile row. */
  lemma {:induction false} SamePrimaries(s: State, s': State, user: UserId)
    requires forall p :: s'.Primary(user, p) <==> s.Primary(user, p)
    requires forall p :: s.Primary(user, p) ==> s'.Primary(user, p) && s'.photos[p] == s.photos[p]
    requires s'.profileKeys == s.profileKeys
    ensures AtMostOnePrimary(s, user) ==> AtMostOnePrimary(s', user)
    ensures KeyInStep(s, user) ==> KeyInStep(s', user)
    ensures HasPrimary(s', user) <==> HasPrimary(s, user)
  {
  }

  lemma {:induction false} InsertKeeps(s: State, op: Op, s': State)
    requires op.Insert? && Step(s, op, s')
    ensures AtMostOnePrimary(s, op.user) ==> AtMostOnePrimary(s', op.user)
    ensures KeyInStep(s, op.user) ==> (KeyInStep(s', op.user) <==> Safe(s, op))
    ensures HasPrimary(s', op.user) <==> HasPrimary(s, op.user) || (op.profileKind && s.PhotosOf(op.user) == {})
  {
    var user := op.user;
    assert s.PhotosOf(user) == {} <==> |s.PhotosOf(user)| == 0;
    assert forall p :: s.Owns(user, p) ==> p in s.PhotosOf(user);
    if op.profileKind && s.PhotosOf(user) == {} {
      assert forall q :: s'.Primary(user, q) ==> q == op.id || s.Owns(user, q);
      assert s'.Primary(user, op.id) && !HasPrimary(s, user);
      if op.copied || user !in s.profileKeys {
        OnlyPrimary(s', user, op.id);
      }
    } else {
      SamePrimaries(s, s', user);
    }
  }

  /** Choosing a primary photo restores a gallery in whatever state. */
  lemma {:induction false} SetPrimaryRestores(s: State, op: Op, s': State)
    requires op.SetPrimary? && Step(s, op, s') && s.Owns(op.user, op.id)
    ensures Consistent(s', op.user) && HasPrimary(s', op.user)
  {
    OnlyPrimary(s', op.user, op.id);
  }

  lemma {:induction false} DeleteKeeps(s: State, op: Op, s': State)
    requires op.Delete? && Step(s, op, s')
    ensures AtMostOnePrimary(s, op.user) ==> AtMostOnePrimary(s', op.user)
    ensures Consistent(s, op.user) ==> KeyInStep(s', op.user)
    ensures HasPrimary(s', op.user) <==> HasPrimary(s, op.user) && s'.PhotosOf(op.user) != {}
  {
    var user := op.user;
    if !s.Owns(user, op.id) || !s.photos[op.id].isPrimary {
      SamePrimaries(s, s', user);
      if p :| s'.Primary(user, p) {
        assert p in s'.PhotosOf(user);
      }
    } else {
      assert s.Primary(user, op.id);
      PrimaryDeleted(s, op, s');
    }
  }

  lemma {:induction false} PrimaryDeleted(s: State, op: Op, s': State)
    requires op.Delete? && Step(s, op, s') && s.Primary(op.user, op.id)
    ensures AtMostOnePrimary(s, op.user) ==> Consistent(s', op.user)
    ensures HasPrimary(s', op.user) <==> s'.PhotosOf(op.user) != {}
  {
    var user := op.user;
    var rest := Without(s, op.id);
    if rest.PhotosOf(user) == {} {
      assert forall p :: s'.Owns(user, p) ==> p in rest.PhotosOf(user);
      assert s'.PhotosOf(user) == {};
    } else {
      var next :| Lowest(rest, user, next) && s' == Promote(rest, user, next);
      assert forall q :: s'.Primary(user, q) ==> q == next || (q != op.id && s.Primary(user, q));
      assert s'.Primary(user, next) && next in s'.PhotosOf(user);
      if AtMostOnePrimary(s, user) {
        OnlyPrimary(s', user, next);
      }
    }
  }

  /** A step that touches the profile row only. */
  lemma {:induction false} ProfileStep(s: State, op: Op, s': State)
    requires op.ProfileOnly() && Step(s, op, s')
    ensures s'.photos == s.photos && (HasPrimary(s', op.user) <==> HasPrimary(s, op.user))
    ensures AtMostOnePrimary(s, op.user) ==> AtMostOnePrimary(s', op.user)
    ensures KeyInStep(s, op.user) ==> (KeyInStep(s', op.user) <==> Safe(s, op))
  {
    var user := op.user;
    assert forall p :: s'.Primary(user, p) <==> s.Primary(user, p);
    assert forall key :: IsPrimaryKey(s', user, key) <==> IsPrimaryKey(s, user, key);
  }

  /** Whatever happens, a user never comes to have two primary photos. */
  lemma {:induction false} StepKeepsOnePrimary(s: State, op: Op, s': State, user: UserId)
    requires Step(s, op, s') && AtMostOnePrimary(s, user)
    ensures AtMostOnePrimary(s', user)
  {
    if user != op.user {
      OthersUntouched(s, op, s', user);
      SameIsConsistent(s, s', user);
    } else {
      match op
      case Insert(_, _, _, _, _) => InsertKeeps(s, op, s');
      case Delete(_, _) => DeleteKeeps(s, op, s');
      case SetPrimary(_, id) => if s.Owns(user, id) { SetPrimaryRestores(s, op, s'); }
      case _ => ProfileStep(s, op, s');
    }
  }

  /** A step keeps a user's gallery consistent exactly when it is of another user or safe. */
  lemma {:induction false} StepConsistent(s: State, op: Op, s': State, user: UserId)
    requires Step(s, op, s') && Consistent(s, user)
    ensures Consistent(s', user) <==> user != op.user || Safe(s, op)
  {
    StepKeepsOnePrimary(s, op, s', user);
    if user != op.user {
      OthersUntouched(s, op, s', user);
      SameIsConsistent(s, s', user);
    } else {
      match op
      case Insert(_, _, _, _, _) => InsertKeeps(s, op, s');
      case Delete(_, _) => DeleteKeeps(s, op, s');
      case SetPrimary(_, id) => if s.Owns(user, id) { SetPrimaryRestores(s, op, s'); }
      case _ => ProfileStep(s, op, s');
    }
  }

  /** A user with photos has a primary one. */
  ghost predicate Shown(s: State, user: UserId): (yes: bool)
    ensures
      var mine := set p | p in s.photos && s.photos[p].user == user;
      var primary := set p | p in s.photos && s.photos[p].user == user && s.photos[p].isPrimary;
      yes <==> mine == {} || primary != {}
  {
    PrimariesOf(s, user);
    assert s.PhotosOf(user) == set p | p in s.photos && s.photos[p].user == user;
    s.PhotosOf(user) != {} ==> HasPrimary(s, user)
  }

  /** The one way to end up with photos and no primary: the first photo is no upload of kind "profile", as
      when it comes from the onboarding card. */
  lemma {:induction false} LosesPrimaryExactly(s: State, op: Op, s': State)
    requires Step(s, op, s') && Shown(s, op.user)
    ensures !Shown(s', op.user) <==> op.Insert? && !op.profileKind && s.PhotosOf(op.user) == {}
  {
    var user := op.user;
    match op
    case Insert(id, _, _, _, _) =>
      InsertKeeps(s, op, s');
      assert id in s'.PhotosOf(user);
      if p :| s.Primary(user, p) {
        assert p in s.PhotosOf(user);
      }
    case Delete(_, _) =>
      DeleteKeeps(s, op, s');
      assert s'.PhotosOf(user) <= s.PhotosOf(user);
    case SetPrimary(_, id) =>
      if s.Owns(user, id) {
        SetPrimaryRestores(s, op, s');
      }
    case _ =>
      ProfileStep(s, op, s');
      assert s'.PhotosOf(user) == s.PhotosOf(user);
  }

  /** And the two ways out of it: choosing a primary photo, or deleting the last photo. */
  lemma {:induction false} RegainsPrimaryExactly(s: State, op: Op, s': State)
    requires Step(s, op, s') && !Shown(s, op.user)
    ensures Shown(s', op.user) <==>
      || (op.SetPrimary? && s.Owns(op.user, op.id))
      || (op.Delete? && s.PhotosOf(op.user) == {op.id})
  {
    var user := op.user;
    match op
    case Insert(id, _, _, _, _) =>
      InsertKeeps(s, op, s');
      assert id in s'.PhotosOf(user);
    case Delete(_, id) =>
      DeleteKeeps(s, op, s');
      assert s'.PhotosOf(user) == s.PhotosOf(user) - {id};
    case SetPrimary(_, id) =>
      if s.Owns(user, id) {
        SetPrimaryRestores(s, op, s');
      }
    case _ =>
      ProfileStep(s, op, s');
      assert s'.PhotosOf(user) == s.PhotosOf(user);
  }

  ghost predicate Run(states: seq<State>, ops: seq<Op>) {
    && |states| == |ops| + 1
    && forall i :: 0 <= i < |ops| ==> Step(states[i], ops[i], states[i + 1])
  }

  /** No user ever has two primary photos. */
  lemma {:induction false} RunKeepsOnePrimary(states: seq<State>, ops: seq<Op>, user: UserId)
    requires Run(states, ops) && AtMostOnePrimary(states[0], user)
    ensures AtMostOnePrimary(states[|ops|], user)
  {
    if ops != [] {
      var n := |ops| - 1;
      RunKeepsOnePrimary(states[..n + 1], ops[..n], user);
      StepKeepsOnePrimary(states[n], ops[n], states[n + 1], user);
    }
  }

  ghost predicate SafeFor(s: State, op: Op, user: UserId) {
    op.user == user ==> Safe(s, op)
  }

  lemma {:induction false} SafeRun(states: seq<State>, ops: seq<Op>, user: UserId, n: nat)
    requires Run(states, ops) && Consistent(states[0], user) && n <= |ops|
    requires forall i :: 0 <= i < n ==> SafeFor(states[i], ops[i], user)
    ensures Consistent(states[n], user)
  {
    if n > 0 {
      SafeRun(states, ops, user, n - 1);
      StepConsistent(states[n - 1], ops[n - 1], states[n], user);
    }
  }

  /** Over a run a user's gallery stays consistent exactly when every step of the user is safe. */
  lemma {:induction false} RunConsistent(states: seq<State>, ops: seq<Op>, user: UserId)
    requires Run(states, ops) && Consistent(states[0], user)
    ensures (forall i :: 0 <= i <= |ops| ==> Consistent(states[i], user)) <==>
      forall i :: 0 <= i < |ops| ==> SafeFor(states[i], ops[i], user)
  {
    hide Step, Consistent, Safe;
    if forall i :: 0 <= i < |ops| ==> SafeFor(states[i], ops[i], user) {
      forall i | 0 <= i <= |ops| ensures Consistent(states[i], user) {
        SafeRun(states, ops, user, i);
      }
    } else {
      var i :| 0 <= i < |ops| && !SafeFor(states[i], ops[i], user);
      if Consistent(states[i], user) {
        StepConsistent(states[i], ops[i], states[i + 1], user);
        assert !Consistent(states[i + 1], user);
      }
    }
  }

  ghost predicate Empty(s: State) {
    s.photos == map[] && forall u :: u in s.profileKeys ==> s.profileKeys[u] == None
  }

  lemma {:induction false} EmptyIsConsistent(s: State, user: UserId)
    requires Empty(s)
    ensures Consistent(s, user) && Shown(s, user)
  {
  }

  /** From an empty gallery: never two primary photos, and the copied key right in every state exactly when
      every step of the user is safe. */
  lemma {:induction false} RunFromEmpty(states: seq<State>, ops: seq<Op>, user: UserId)
    requires Run(states, ops) && Empty(states[0])
    ensures AtMostOnePrimary(states[|ops|], user)
    ensures (forall i :: 0 <= i <= |ops| ==> Consistent(states[i], user)) <==>
      forall i :: 0 <= i < |ops| ==> SafeFor(states[i], ops[i], user)
    ensures (forall i :: 0 <= i < |ops| && ops[i].Insert? && ops[i].user == user ==> ops[i].profileKind) ==>
      Shown(states[|ops|], user)
  {
    hide Step, Safe;
    EmptyIsConsistent(states[0], user);
    RunKeepsOnePrimary(states, ops, user);
    RunConsistent(states, ops, user);
    if forall i :: 0 <= i < |ops| && ops[i].Insert? && ops[i].user == user ==> ops[i].profileKind {
      ProfileOnlyRunShows(states, ops, user);
    }
  }

  /** With uploads of kind "profile" only, a user with photos always has a primary one. */
  lemma {:induction false} ProfileOnlyRunShows(states: seq<State>, ops: seq<Op>, user: UserId)
    requires Run(states, ops) && Shown(states[0], user)
    requires forall i :: 0 <= i < |ops| && ops[i].Insert? && ops[i].user == user ==> ops[i].profileKind
    ensures Shown(states[|ops|], user)
  {
    if ops != [] {
      var n := |ops| - 1;
      ProfileOnlyRunShows(states[..n + 1], ops[..n], user);
      if ops[n].user == user {
        LosesPrimaryExactly(states[n], ops[n], states[n + 1]);
      } else {
        OthersUntouched(states[n], ops[n], states[n + 1], user);
        SameIsShown(states[n], states[n + 1], user);
      }
    }
  }

  lemma {:induction false} SameIsShown(s: State, s': State, user: UserId)
    requires SameFor(s, s', user) && Shown(s, user)
    ensures Shown(s', user)
  {
    if p :| s.Primary(user, p) {
      assert s'.Primary(user, p);
    } else {
      forall p | p in s'.PhotosOf(user) ensures p in s.PhotosOf(user) {
        assert s'.Owns(user, p);
      }
    }
  }

  // ----- positions -----

  predicate Uploads(op: Op, user: UserId) {
    op.Insert? && op.user == user
  }

  /** How many of the first n steps insert a photo of the user. */
  function UploadCount(ops: seq<Op>, user: UserId, n: nat): nat
    requires n <= |ops|
  {
    if n == 0 then 0 else UploadCount(ops, user, n - 1) + (if Uploads(ops[n - 1], user) then 1 else 0)
  }

  /** The user only uploads profile photos and deletes none; other users do what they like. */
  ghost predicate UploadsOnly(ops: seq<Op>, user: UserId) {
    forall i :: 0 <= i < |ops| && ops[i].user == user ==> !ops[i].Delete? && (ops[i].Insert? ==> ops[i].profileKind)
  }

  /** The photos of the user are the uploads so far, the k-th of them at position k. */
  ghost predicate InUploadOrder(s: State, ops: seq<Op>, user: UserId, n: nat)
    requires n <= |ops|
  {
    && (forall i :: 0 <= i < n && Uploads(ops[i], user) ==>
          && ops[i].id in s.photos && s.photos[ops[i].id].user == user
          && s.photos[ops[i].id].position == UploadCount(ops, user, i))
    && (forall p :: p in s.photos && s.photos[p].user == user ==>
          exists i :: 0 <= i < n && Uploads(ops[i], user) && ops[i].id == p)
    && |s.PhotosOf(user)| == UploadCount(ops, user, n)
  }

  lemma {:induction false} UploadStep(s: State, op: Op, s': State, ops: seq<Op>, user: UserId, n: nat)
    requires n < |ops| && op == ops[n] && Step(s, op, s') && UploadsOnly(ops, user)
    requires InUploadOrder(s, ops, user, n)
    ensures InUploadOrder(s', ops, user, n + 1)
  {
    hide Step, InUploadOrder;
    if op.user != user {
      OthersUntouched(s, op, s', user);
      SamePhotos(s, s', user);
      OrderStays(s, s', ops, user, n);
    } else if op.Insert? {
      OrderGrows(s, s', ops, user, n);
    } else {
      SamePositions(s, op, s');
      OrderStays(s, s', ops, user, n);
    }
  }

  lemma {:induction false} OrderStays(s: State, s': State, ops: seq<Op>, user: UserId, n: nat)
    requires n < |ops| && !Uploads(ops[n], user) && InUploadOrder(s, ops, user, n)
    requires s'.PhotosOf(user) == s.PhotosOf(user)
    requires forall p :: p in s.PhotosOf(user) ==> s'.photos[p].position == s.photos[p].position
    ensures InUploadOrder(s', ops, user, n + 1)
  {
    forall p | p in s'.photos && s'.photos[p].user == user
      ensures exists i :: 0 <= i < n + 1 && Uploads(ops[i], user) && ops[i].id == p
    {
      assert p in s'.PhotosOf(user);
    }
    forall i | 0 <= i < n && Uploads(ops[i], user)
      ensures ops[i].id in s'.photos && s'.photos[ops[i].id].user == user
      ensures s'.photos[ops[i].id].position == UploadCount(ops, user, i)
    {
      assert ops[i].id in s.PhotosOf(user);
    }
  }

  lemma {:induction false} OrderGrows(s: State, s': State, ops: seq<Op>, user: UserId, n: nat)
    requires n < |ops| && Uploads(ops[n], user) && ops[n].profileKind && Step(s, ops[n], s')
    requires InUploadOrder(s, ops, user, n)
    ensures InUploadOrder(s', ops, user, n + 1)
  {
    var id, count := ops[n].id, |s.PhotosOf(user)|;
    assert id !in s.photos && s'.photos == s.photos[id := Photo(user, ops[n].key, count, count == 0)] by {
      InsertInColumns(s, id, user, ops[n].key, true, ops[n].copied);
    }
    hide Step;
    assert s'.PhotosOf(user) == s.PhotosOf(user) + {id};
    assert |s'.PhotosOf(user)| == UploadCount(ops, user, n + 1);
    forall i | 0 <= i < n + 1 && Uploads(ops[i], user)
      ensures ops[i].id in s'.photos && s'.photos[ops[i].id].user == user
      ensures s'.photos[ops[i].id].position == UploadCount(ops, user, i)
    {
      assert i < n ==> ops[i].id in s.photos;
    }
    forall p | p in s'.photos && s'.photos[p].user == user
      ensures exists i :: 0 <= i < n + 1 && Uploads(ops[i], user) && ops[i].id == p
    {
      if p == id {
        assert Uploads(ops[n], user);
      } else {
        assert p in s.photos && s.photos[p].user == user;
      }
    }
  }

  lemma {:induction false} SamePhotos(s: State, s': State, user: UserId)
    requires SameFor(s, s', user)
    ensures s'.PhotosOf(user) == s.PhotosOf(user)
    ensures forall p :: p in s.PhotosOf(user) ==> s'.photos[p] == s.photos[p]
  {
    assert forall p :: s.Owns(user, p) <==> p in s.PhotosOf(user);
    assert forall p :: s'.Owns(user, p) <==> p in s'.PhotosOf(user);
  }

  lemma {:induction false} SamePositions(s: State, op: Op, s': State)
    requires Step(s, op, s') && !op.Insert? && !op.Delete?
    ensures s'.PhotosOf(op.user) == s.PhotosOf(op.user)
    ensures forall p :: p in s.PhotosOf(op.user) ==> s'.photos[p].position == s.photos[p].position
  {
  }

  /** Over profile uploads without deletions positions are 0, 1, 2 and so on. */
  lemma {:induction false} UploadsAreNumbered(states: seq<State>, ops: seq<Op>, user: UserId, n: nat)
    requires Run(states, ops) && states[0].PhotosOf(user) == {} && UploadsOnly(ops, user) && n <= |ops|
    ensures InUploadOrder(states[n], ops, user, n)
  {
    if n == 0 {
      assert forall p :: p in states[0].photos && states[0].photos[p].user == user ==> p in states[0].PhotosOf(user);
    } else {
      UploadsAreNumbered(states, ops, user, n - 1);
      assert Step(states[n - 1], ops[n - 1], states[n]);
      UploadStep(states[n - 1], ops[n - 1], states[n], ops, user, n - 1);
    }
  }

  lemma {:induction false} CountGrows(ops: seq<Op>, user: UserId, i: nat, j: nat)
    requires i < j <= |ops| && Uploads(ops[i], user)
    ensures UploadCount(ops, user, i) < UploadCount(ops, user, j)
    decreases j
  {
    if i < j - 1 {
      CountGrows(ops, user, i, j - 1);
    }
  }

  /** And deleting the primary one then promotes the earliest upload left. */
  lemma {:induction false} EarliestIsPromoted(states: seq<State>, ops: seq<Op>, user: UserId, id: PhotoId, s': State)
    returns (first: nat)
    requires Run(states, ops) && states[0].PhotosOf(user) == {} && UploadsOnly(ops, user)
    requires states[|ops|].Primary(user, id) && Step(states[|ops|], Delete(user, id), s')
    requires exists i :: 0 <= i < |ops| && Uploads(ops[i], user) && ops[i].id != id
    ensures first < |ops| && Uploads(ops[first], user) && ops[first].id != id
    ensures ops[first].id in s'.photos && s'.photos[ops[first].id].isPrimary
    ensures user in s'.profileKeys ==> s'.profileKeys[user] == Some(s'.photos[ops[first].id].key)
    ensures forall i :: 0 <= i < |ops| && Uploads(ops[i], user) && ops[i].id != id ==> first <= i
  {
    var s := states[|ops|];
    UploadsAreNumbered(states, ops, user, |ops|);
    var next := LowestLeft(s, user, id, s', ops);
    first :| 0 <= first < |ops| && Uploads(ops[first], user) && ops[first].id == next;
    forall i | 0 <= i < |ops| && Uploads(ops[i], user) && ops[i].id != id
      ensures first <= i
    {
      hide Step;
      assert UploadCount(ops, user, first) <= UploadCount(ops, user, i);
      if i < first {
        CountGrows(ops, user, i, first);
      }
    }
  }

  lemma {:induction false} LowestLeft(s: State, user: UserId, id: PhotoId, s': State, ops: seq<Op>)
    returns (next: PhotoId)
    requires s.Primary(user, id) && Deletes(s, user, id, s') && InUploadOrder(s, ops, user, |ops|)
    requires exists i :: 0 <= i < |ops| && Uploads(ops[i], user) && ops[i].id != id
    ensures next in s.photos && next != id && s.photos[next].user == user
    ensures forall p :: p in s.photos && p != id && s.photos[p].user == user ==>
              s.photos[next].position <= s.photos[p].position
    ensures next in s'.photos && s'.photos[next].isPrimary
    ensures user in s'.profileKeys ==> s'.profileKeys[user] == Some(s'.photos[next].key)
  {
    DeleteInColumns(s, user, id, s');
    hide Deletes;
    var other :| 0 <= other < |ops| && Uploads(ops[other], user) && ops[other].id != id;
    assert ops[other].id in s.photos;
    next :| next in s.photos && next != id && s.photos[next].user == user
      && (forall p :: p in s.photos && p != id && s.photos[p].user == user ==>
            s.photos[next].position <= s.photos[p].position)
      && s' == State((s.photos - {id})[next := Photo(user, s.photos[next].key, s.photos[next].position, true)],
                     Keyed(s, user, Some(s.photos[next].key)));
  }
}
