/** The user session store: a login flag and the current user's profile,
    mirrored into a key-value storage under the keys `isLoggedIn` and `user`
    (src/stores/userStore.ts). */
module SessionStore {
  import opened Wrappers

  /** A user profile. `id` and `avatar` are optional, `role` is an open string. */
  datatype User = User(id: Option<string>, username: string, role: string, avatar: Option<string>)

  /** A `Partial<User>`: every field may be missing. */
  datatype UserPatch = UserPatch(
    id: Option<string>, username: Option<string>, role: Option<string>, avatar: Option<string>)

  /** The patch that carries no field at all (`{}`). */
  const EmptyPatch := UserPatch(None, None, None, None)

  /** The store's state as a value: `{ isLoggedIn, user }`. */
  datatype Session = Session(isLoggedIn: bool, user: Option<User>)

  /** What a storage key can hold. `Serialized(u)` is the JSON text the store
      writes for the user `u`; `Text(s)` is any other text, one that is not the
      serialisation of a user. */
  datatype StoredValue = Text(s: string) | Serialized(u: User)

  type Storage = map<string, StoredValue>

  /** Reading the persisted `user` value failed: `JSON.parse` of the stored
      text throws, or yields something that is not a user. */
  datatype LoadError = MalformedUser

  const IsLoggedInKey := "isLoggedIn"
  const UserKey := "user"
  const TrueText := "true"

  const AdminRole := "验收小组"
  const TeacherRole := "teacher"
  const TeacherRoleLocal := "教师"
  const ParentRole := "parent"
  const ParentRoleLocal := "家长"

  /** The login flag as read from storage: set exactly when the key holds the
      text "true". */
  function LoadLoggedIn(st: Storage): (b: bool)
    ensures b <==> IsLoggedInKey in st && st[IsLoggedInKey] == Text(TrueText)
  {
    IsLoggedInKey in st && st[IsLoggedInKey] == Text(TrueText)
  }

  /** The whitespace JSON allows around a value (section 2 of RFC 8259):
      space, tab, line feed and carriage return. */
  predicate IsJsonSpace(c: char)
  {
    c == ' ' || c == '\t' || c == '\n' || c == '\r'
  }

  /** `s` without its leading JSON whitespace. */
  function TrimStart(s: string): (r: string)
    ensures |r| <= |s| && r == s[|s| - |r|..]
    ensures forall i :: 0 <= i < |s| - |r| ==> IsJsonSpace(s[i])
    ensures r == [] || !IsJsonSpace(r[0])
    decreases |s|
  {
    if s != [] && IsJsonSpace(s[0]) then TrimStart(s[1..]) else s
  }

  /** `s` without its trailing JSON whitespace. */
  function TrimEnd(s: string): (r: string)
    ensures |r| <= |s| && r == s[..|r|]
    ensures forall i :: |r| <= i < |s| ==> IsJsonSpace(s[i])
    ensures r == [] || !IsJsonSpace(r[|r| - 1])
    decreases |s|
  {
    if s != [] && IsJsonSpace(s[|s| - 1]) then TrimEnd(s[..|s| - 1]) else s
  }

  /** `s` is JSON text for `null`: the literal with only whitespace around it. */
  predicate IsJsonNull(s: string)
  {
    TrimEnd(TrimStart(s)) == "null"
  }

  /** Leading whitespace is exactly what `TrimStart` removes. */
  lemma {:induction false} TrimStartPadded(pre: string, x: string)
    requires forall i :: 0 <= i < |pre| ==> IsJsonSpace(pre[i])
    requires x != [] && !IsJsonSpace(x[0])
    ensures TrimStart(pre + x) == x
    decreases |pre|
  {
    if pre == [] {
      assert pre + x == x;
    } else {
      var s := pre + x;
      assert s[0] == pre[0];
      assert s[1..] == pre[1..] + x;
      TrimStartPadded(pre[1..], x);
      assert TrimStart(s) == TrimStart(s[1..]);
    }
  }

  /** Trailing whitespace is exactly what `TrimEnd` removes. */
  lemma {:induction false} TrimEndPadded(x: string, post: string)
    requires forall i :: 0 <= i < |post| ==> IsJsonSpace(post[i])
    requires x != [] && !IsJsonSpace(x[|x| - 1])
    ensures TrimEnd(x + post) == x
    decreases |post|
  {
    if post == [] {
      assert x + post == x;
    } else {
      var s := x + post;
      assert s[|s| - 1] == post[|post| - 1];
      assert s[..|s| - 1] == x + post[..|post| - 1];
      TrimEndPadded(x, post[..|post| - 1]);
    }
  }

  /** The literal `null` with any whitespace around it is JSON text for `null`. */
  lemma JsonNullPadded(pre: string, post: string)
    requires forall i :: 0 <= i < |pre| ==> IsJsonSpace(pre[i])
    requires forall i :: 0 <= i < |post| ==> IsJsonSpace(post[i])
    ensures IsJsonNull(pre + "null" + post)
  {
    assert pre + "null" + post == pre + ("null" + post);
    TrimStartPadded(pre, "null" + post);
    TrimEndPadded("null", post);
  }

  /** The user as read from storage. An absent key or an empty text (falsy)
      gives no user without parsing; JSON text for `null` parses to no user; a
      serialised user parses back to that user; any other text is an error. */
  function LoadUser(st: Storage): (r: Result<Option<User>, LoadError>)
    ensures UserKey !in st ==> r == Ok(None)
    ensures UserKey in st && st[UserKey].Serialized? ==> r == Ok(Some(st[UserKey].u))
    ensures r.Ok? && r.value.Some? ==> UserKey in st && st[UserKey] == Serialized(r.value.value)
    ensures r.Err? <==> UserKey in st && st[UserKey].Text? && st[UserKey].s != "" && !IsJsonNull(st[UserKey].s)
  {
    if UserKey !in st then Ok(None)
    else match st[UserKey]
      case Serialized(u) => Ok(Some(u))
      case Text(s) => if s == "" || IsJsonNull(s) then Ok(None) else Err(MalformedUser)
  }

  /** A stored `user` text that is `null` with whitespace around it, such as
      " null" or "null\n", loads as no user rather than as an error. */
  lemma LoadPaddedNull(st: Storage, pre: string, post: string)
    requires forall i :: 0 <= i < |pre| ==> IsJsonSpace(pre[i])
    requires forall i :: 0 <= i < |post| ==> IsJsonSpace(post[i])
    ensures LoadUser(st[UserKey := Text(pre + "null" + post)]) == Ok(None)
    ensures LoadUser(map[UserKey := Text(" null")]) == Ok(None)
  {
    JsonNullPadded(pre, post);
    JsonNullPadded(" ", "");
    assert " " + "null" + "" == " null";
  }

  /** The initial state the store computes from storage. */
  function LoadSession(st: Storage): (r: Result<Session, LoadError>)
    ensures r.Ok? <==> LoadUser(st).Ok?
    ensures r.Ok? ==> r.value.isLoggedIn == LoadLoggedIn(st) && r.value.user == LoadUser(st).value
  {
    match LoadUser(st)
    case Ok(u) => Ok(Session(LoadLoggedIn(st), u))
    case Err(e) => Err(e)
  }

  /** The user that `login` builds: a missing username or role becomes the
      empty string, `id` and `avatar` are taken as given. */
  function LoginUser(p: UserPatch): (u: User)
    ensures p.username.Some? ==> u.username == p.username.value
    ensures p.username.None? ==> u.username == ""
    ensures p.role.Some? ==> u.role == p.role.value
    ensures p.role.None? ==> u.role == ""
    ensures u.id == p.id && u.avatar == p.avatar
  {
    User(p.id, p.username.GetOr(""), p.role.GetOr(""), p.avatar)
  }

  /** `{ ...u, ...p }`: every field the patch carries replaces the user's. */
  function Merge(u: User, p: UserPatch): (r: User)
    ensures p.id.Some? ==> r.id == p.id
    ensures p.id.None? ==> r.id == u.id
    ensures r.username == p.username.GetOr(u.username)
    ensures r.role == p.role.GetOr(u.role)
    ensures p.avatar.Some? ==> r.avatar == p.avatar
    ensures p.avatar.None? ==> r.avatar == u.avatar
  {
    User(
      if p.id.Some? then p.id else u.id,
      p.username.GetOr(u.username),
      p.role.GetOr(u.role),
      if p.avatar.Some? then p.avatar else u.avatar)
  }

  /** `{ ...p, ...q }`: the fields of `q` win over those of `p`. */
  function Combine(p: UserPatch, q: UserPatch): (r: UserPatch)
    ensures r.id == (if q.id.Some? then q.id else p.id)
    ensures r.username == (if q.username.Some? then q.username else p.username)
    ensures r.role == (if q.role.Some? then q.role else p.role)
    ensures r.avatar == (if q.avatar.Some? then q.avatar else p.avatar)
  {
    UserPatch(
      if q.id.Some? then q.id else p.id,
      if q.username.Some? then q.username else p.username,
      if q.role.Some? then q.role else p.role,
      if q.avatar.Some? then q.avatar else p.avatar)
  }

  /** Merging the empty patch leaves a user as it is. */
  lemma MergeEmpty(u: User)
    ensures Merge(u, EmptyPatch) == u
  {
  }

  /** Merging the same patch a second time changes nothing more. */
  lemma MergeIdempotent(u: User, p: UserPatch)
    ensures Merge(Merge(u, p), p) == Merge(u, p)
  {
  }

  /** Two updates in a row are one update by the combined patch, the later
      patch winning on every field both carry. */
  lemma MergeTwice(u: User, p: UserPatch, q: UserPatch)
    ensures Merge(Merge(u, p), q) == Merge(u, Combine(p, q))
  {
  }

  /** A patch that carries every field turns any user into the user that
      `login` builds from the same input. */
  lemma MergeFullPatch(u: User, p: UserPatch)
    requires p.username.Some? && p.role.Some? && p.id.Some? && p.avatar.Some?
    ensures Merge(u, p) == LoginUser(p)
  {
  }

  /** Writing a logged-in session and reading it back gives that session. */
  lemma LoadAfterLogin(st: Storage, u: User)
    ensures LoadSession(st[IsLoggedInKey := Text(TrueText)][UserKey := Serialized(u)]) == Ok(Session(true, Some(u)))
  {
  }

  /** Removing both keys and reading back gives the logged-out session. */
  lemma LoadAfterLogout(st: Storage)
    ensures LoadSession(st - {IsLoggedInKey, UserKey}) == Ok(Session(false, None))
  {
  }

  /** Rewriting only the `user` key leaves the login flag read from storage
      unchanged and makes the user read back the one written. */
  lemma LoadAfterUserWrite(st: Storage, u: User)
    ensures LoadSession(st[UserKey := Serialized(u)]) == Ok(Session(LoadLoggedIn(st), Some(u)))
  {
  }

  /** The store: the two state fields plus the storage they are mirrored in. */
  class UserStore {
    var isLoggedIn: bool
    var user: Option<User>
    var storage: Storage

    /** The login flag agrees with the presence of a user. */
    ghost predicate Consistent()
      reads this
    {
      isLoggedIn <==> user.Some?
    }

    /** Re-initialising a store from its storage gives its present state. */
    ghost predicate Mirrored()
      reads this
    {
      LoadSession(storage) == Ok(Session(isLoggedIn, user))
    }

    /** The store's state as a value. */
    function State(): (s: Session)
      reads this
      ensures s.isLoggedIn == isLoggedIn && s.user == user
    {
      Session(isLoggedIn, user)
    }

    /** Initialisation from storage. The source throws when the stored user
        cannot be parsed, so a store exists only when loading succeeds. */
    constructor (st: Storage)
      requires LoadSession(st).Ok?
      ensures storage == st
      ensures State() == LoadSession(st).value
      ensures isLoggedIn == LoadLoggedIn(st)
      ensures Mirrored()
    {
      var s := LoadSession(st).value;
      isLoggedIn := s.isLoggedIn;
      user := s.user;
      storage := st;
    }

    /** The current role, or none when there is no user or the role is empty. */
    function UserRole(): (r: Option<string>)
      reads this
      ensures r.None? <==> user.None? || user.value.role == ""
      ensures r.Some? ==> user.Some? && r.value == user.value.role && r.value != ""
    {
      if user.Some? && user.value.role != "" then Some(user.value.role) else None
    }

    /** The user belongs to the inspection team. */
    function IsAdmin(): (b: bool)
      reads this
      ensures b <==> user.Some? && user.value.role == AdminRole
    {
      user.Some? && user.value.role == AdminRole
    }

    /** The user is a teacher, under the English or the Chinese role name. */
    function IsTeacher(): (b: bool)
      reads this
      ensures b <==> user.Some? && (user.value.role == TeacherRole || user.value.role == TeacherRoleLocal)
    {
      var role := if user.Some? then user.value.role else "";
      role == TeacherRole || role == TeacherRoleLocal
    }

    /** The user is a parent, under the English or the Chinese role name. */
    function IsParent(): (b: bool)
      reads this
      ensures b <==> user.Some? && (user.value.role == ParentRole || user.value.role == ParentRoleLocal)
    {
      var role := if user.Some? then user.value.role else "";
      role == ParentRole || role == ParentRoleLocal
    }

    /** `login(userData)`: logged in as the user built from the input, and
        both keys written. */
    method Login(p: UserPatch)
      modifies this
      ensures isLoggedIn && user == Some(LoginUser(p))
      ensures storage == old(storage)[IsLoggedInKey := Text(TrueText)][UserKey := Serialized(LoginUser(p))]
      ensures Consistent() && Mirrored()
    {
      isLoggedIn := true;
      user := Some(LoginUser(p));
      storage := storage[IsLoggedInKey := Text(TrueText)];
      storage := storage[UserKey := Serialized(user.value)];
      LoadAfterLogin(old(storage), user.value);
    }

    /** `logout()`: logged out, no user, both keys removed. A logout of a
        store that is already logged out and has neither key changes nothing. */
    method Logout()
      modifies this
      ensures !isLoggedIn && user.None?
      ensures storage == old(storage) - {IsLoggedInKey, UserKey}
      ensures Consistent() && Mirrored()
      ensures old(!isLoggedIn && user.None? && IsLoggedInKey !in storage && UserKey !in storage) ==> unchanged(this)
    {
      isLoggedIn := false;
      user := None;
      storage := storage - {IsLoggedInKey};
      storage := storage - {UserKey};
      assert storage == old(storage) - {IsLoggedInKey, UserKey};
      if IsLoggedInKey !in old(storage) && UserKey !in old(storage) {
        assert storage.Keys == old(storage).Keys;
        assert storage == old(storage);
      }
      LoadAfterLogout(old(storage));
    }

    /** `updateUserInfo(userData)`: with no user, nothing at all changes;
        otherwise the user is merged with the patch and re-written, and the
        login flag stays as it was. */
    method UpdateUserInfo(p: UserPatch)
      modifies this
      ensures old(user).None? ==> unchanged(this)
      ensures old(user).Some? ==> user == Some(Merge(old(user).value, p))
      ensures old(user).Some? ==> storage == old(storage)[UserKey := Serialized(user.value)]
      ensures isLoggedIn == old(isLoggedIn)
      ensures old(Consistent()) ==> Consistent()
      ensures old(Mirrored()) ==> Mirrored()
    {
      if user.Some? {
        user := Some(Merge(user.value, p));
        storage := storage[UserKey := Serialized(user.value)];
        LoadAfterUserWrite(old(storage), user.value);
      }
    }
  }

  /** No user is both a teacher and a parent, and neither without a user. */
  lemma RolesExclusive(s: UserStore)
    ensures !(s.IsTeacher() && s.IsParent())
    ensures s.user.None? ==> !s.IsTeacher() && !s.IsParent() && !s.IsAdmin()
  {
  }

  /** Every recognised role is also reported by `userRole`. */
  lemma RecognisedRolesHaveRole(s: UserStore)
    ensures s.IsTeacher() || s.IsParent() || s.IsAdmin() ==> s.UserRole() == Some(s.user.value.role)
  {
  }

  /** A session's life: load, log in, update, reload, log out, log out again. */
  method SessionLifecycle(st: Storage)
    requires LoadSession(st).Ok?
  {
    var store := new UserStore(st);
    store.Login(UserPatch(None, Some("a"), Some(TeacherRole), None));
    assert store.isLoggedIn && store.user.value.role == TeacherRole && store.user.value.id.None?;
    assert store.IsTeacher() && !store.IsParent();

    store.UpdateUserInfo(UserPatch(None, None, None, Some("x")));
    assert store.user == Some(User(None, "a", TeacherRole, Some("x")));

    var reloaded := new UserStore(store.storage);
    assert reloaded.State() == store.State();

    store.Logout();
    var afterOnce := store.State();
    var storageOnce := store.storage;
    store.Logout();
    assert store.State() == afterOnce && store.storage == storageOnce;

    store.UpdateUserInfo(UserPatch(None, None, None, Some("x")));
    assert store.State() == afterOnce && store.storage == storageOnce;
  }
}
