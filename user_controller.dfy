/**
 * backend/src/api/controllers/userController.ts: the profile of the
 * caller, a `$set` update of it, lookup by id and search. The regular
 * expression match is an oracle parameter.
 */
module UserController {
  import opened Wrappers
  import opened ErrorTypes
  import opened ObjectIds
  import opened Collections
  import opened Store

  /** UserProfileResponse: it has no password field, so no response can expose one. */
  datatype UserProfile = UserProfile(
    id: UserId,
    name: string,
    email: string,
    profilePicture: Option<string>,
    about: Option<string>,
    lastSeen: nat,
    isOnline: bool)

  function ProfileOf(id: UserId, u: User): (p: UserProfile)
    ensures p.id == id && p.name == u.name && p.email == u.email
    ensures p.profilePicture == u.profilePicture && p.about == u.about
    ensures p.lastSeen == u.lastSeen && p.isOnline == u.isOnline
  {
    UserProfile(id, u.name, u.email, u.profilePicture, u.about, u.lastSeen, u.isOnline)
  }

  function GetCurrentUser(t: Tables, caller: Option<UserId>): (r: Result<UserProfile, Failure>)
    ensures caller.None? ==> r == Err(App(UnauthorizedError("User not authenticated")))
    ensures caller.Some? && caller.value !in t.users ==> r == Err(App(NotFoundError("User not found")))
    ensures r.Ok? <==> caller.Some? && caller.value in t.users
    ensures r.Ok? ==> r.value == ProfileOf(caller.value, t.users[caller.value])
  {
    if caller.None? then Err(App(UnauthorizedError("User not authenticated")))
    else if caller.value !in t.users then Err(App(NotFoundError("User not found")))
    else Ok(ProfileOf(caller.value, t.users[caller.value]))
  }

  /** The `$set` of an UpdateProfileRequest: only the supplied fields change. */
  function ApplyProfileUpdate(u: User, name: Option<string>, about: Option<string>, profilePicture: Option<string>): (v: User)
    ensures v.name == (if name.Some? then name.value else u.name)
    ensures v.about == (if about.Some? then about else u.about)
    ensures v.profilePicture == (if profilePicture.Some? then profilePicture else u.profilePicture)
    ensures v.email == u.email && v.password == u.password && v.lastSeen == u.lastSeen && v.isOnline == u.isOnline
  {
    var u1 := if name.Some? then u.(name := name.value) else u;
    var u2 := if about.Some? then u1.(about := about) else u1;
    if profilePicture.Some? then u2.(profilePicture := profilePicture) else u2
  }

  /** Re-sending the same update changes nothing more. */
  lemma ProfileUpdateIdempotent(u: User, name: Option<string>, about: Option<string>, profilePicture: Option<string>)
    ensures var v := ApplyProfileUpdate(u, name, about, profilePicture);
      ApplyProfileUpdate(v, name, about, profilePicture) == v
  {
  }

  /** An update leaves emails untouched, so it keeps them unique. */
  lemma ProfileUpdateKeepsEmailsUnique(users: map<UserId, User>, id: UserId, name: Option<string>, about: Option<string>, profilePicture: Option<string>)
    requires UniqueEmails(users) && id in users
    ensures UniqueEmails(users[id := ApplyProfileUpdate(users[id], name, about, profilePicture)])
  {
    var v := ApplyProfileUpdate(users[id], name, about, profilePicture);
    assert v.email == users[id].email;
  }

  method UpdateProfile(db: Database, caller: Option<UserId>, name: Option<string>, about: Option<string>, profilePicture: Option<string>)
    returns (r: Result<UserProfile, Failure>)
    requires db.Valid()
    modifies db
    ensures db.Valid()
    ensures db.chats == old(db.chats) && db.messages == old(db.messages) && db.nextId == old(db.nextId)
    ensures caller.None? ==> r == Err(App(UnauthorizedError("User not authenticated"))) && db.users == old(db.users)
    ensures caller.Some? && caller.value !in old(db.users) ==>
      r == Err(App(NotFoundError("User not found"))) && db.users == old(db.users)
    ensures caller.Some? && caller.value in old(db.users) ==>
      var v := ApplyProfileUpdate(old(db.users)[caller.value], name, about, profilePicture);
      db.users == old(db.users)[caller.value := v] && r == Ok(ProfileOf(caller.value, v))
  {
    if caller.None? {
      return Err(App(UnauthorizedError("User not authenticated")));
    }
    var id := caller.value;
    if id !in db.users {
      return Err(App(NotFoundError("User not found")));
    }
    var updated := ApplyProfileUpdate(db.users[id], name, about, profilePicture);
    ProfileUpdateKeepsEmailsUnique(db.users, id, name, about, profilePicture);
    db.users := db.users[id := updated];
    r := Ok(ProfileOf(id, updated));
  }

  function GetUserById(t: Tables, userId: IdInput): (r: Result<UserProfile, Failure>)
    ensures userId.Uncastable? ==> r == Err(CastFailure("User", "_id", userId.text))
    ensures userId.Castable? && userId.id !in t.users ==> r == Err(App(NotFoundError("User not found")))
    ensures r.Ok? <==> userId.Castable? && userId.id in t.users
    ensures r.Ok? ==> r.value == ProfileOf(userId.id, t.users[userId.id])
  {
    match CastId(userId, "User", "_id")
    case Err(e) => Err(e)
    case Ok(id) =>
      if id !in t.users then Err(App(NotFoundError("User not found")))
      else Ok(ProfileOf(id, t.users[id]))
  }

  const SearchLimit: nat := 20

  /** `matches(query, field)`: the case-insensitive `$regex` test of `field` against `query`. */
  type Matcher = (string, string) -> bool

  /**
   * The ids searchUsers returns: users other than the caller whose name or
   * email matches, in natural order, at most 20; fewer than 20 only when
   * no other user matches.
   */
  function SearchIds(t: Tables, caller: UserId, query: string, matches: Matcher): (r: seq<UserId>)
    ensures |r| <= SearchLimit
    ensures forall i :: 0 <= i < |r| ==>
      r[i] in t.users && r[i] != caller && (matches(query, t.users[r[i]].name) || matches(query, t.users[r[i]].email))
    ensures forall i, j :: 0 <= i < j < |r| ==> r[i] < r[j]
    ensures |r| < SearchLimit ==> forall id :: (id in t.users && id < t.nextId && id != caller
      && (matches(query, t.users[id].name) || matches(query, t.users[id].email))) ==> id in r
  {
    var p := (id: nat, u: User) => id != caller && (matches(query, u.name) || matches(query, u.email));
    var all := Matching(t.users, p, t.nextId);
    MatchingExact(t.users, p, t.nextId);
    var r := Window(all, 0, SearchLimit);
    assert |r| < SearchLimit ==> r == all;
    r
  }

  function ProfilesOf(t: Tables, ids: seq<UserId>): (r: seq<UserProfile>)
    requires forall i :: 0 <= i < |ids| ==> ids[i] in t.users
    ensures |r| == |ids| && forall i :: 0 <= i < |ids| ==> r[i] == ProfileOf(ids[i], t.users[ids[i]])
  {
    seq(|ids|, i requires 0 <= i < |ids| => ProfileOf(ids[i], t.users[ids[i]]))
  }

  function SearchUsers(t: Tables, caller: Option<UserId>, query: string, matches: Matcher): (r: Result<seq<UserProfile>, Failure>)
    ensures caller.None? ==> r == Err(App(UnauthorizedError("User not authenticated")))
    ensures caller.Some? ==> r.Ok? && r.value == ProfilesOf(t, SearchIds(t, caller.value, query, matches))
  {
    if caller.None? then Err(App(UnauthorizedError("User not authenticated")))
    else Ok(ProfilesOf(t, SearchIds(t, caller.value, query, matches)))
  }
}
