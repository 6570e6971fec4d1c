/** Profile reads and updates and the bookmark toggle
    (backend/controllers/User.controller.js). Every route here sits behind
    `authenticate`, so the caller's identity is always present. Cloudinary's
    upload result arrives as the new avatar URL. */
module UserController {
  import opened Wrappers
  import opened Text
  import opened Http
  import opened Identity
  import opened Seqs
  import opened Db

  const UserIdRequired := "User ID is required."
  const UserNotFound := "User not found."
  const BlogNotFound := "Blog not found."
  const OwnProfileOnly := "You can only update your own profile."
  const NullBioMessage := "Cannot read properties of null (reading 'trim')"
  const MinPasswordLength := 8

  /** `getUser`: the user without its password. */
  method GetUser(db: UserTable, userid: string) returns (r: Reply<PublicUser>)
    ensures userid == "" ==> r == Fail(HttpError(400, UserIdRequired))
    ensures userid != "" && (forall k :: 0 <= k < |db.users| ==> db.users[k].id != userid) ==>
              r == Fail(HttpError(404, UserNotFound))
    ensures userid != "" && (exists k :: 0 <= k < |db.users| && db.users[k].id == userid) ==> r.Ok?
    ensures r.Ok? ==> exists k :: 0 <= k < |db.users| && db.users[k].id == userid && r.value == Public(db.users[k])
  {
    NoUserWithId(db.users, userid);
    if userid == "" {
      return Fail(HttpError(400, UserIdRequired));
    }
    var i := UserIndexById(db.users, userid);
    if i < 0 {
      return Fail(HttpError(404, UserNotFound));
    }
    r := Ok(200, Public(db.users[i]));
  }

  /** The `bio` field of the submitted JSON: absent, `null`, or a string. */
  datatype BioField = BioUndefined | BioNull | BioText(text: string)

  datatype ProfileData = ProfileData(name: Option<string>, email: Option<string>, bio: BioField, password: Option<string>)

  /** Only the owner of a profile or an admin may change it. */
  predicate MayEdit(caller: Payload, userid: string) {
    caller.id == userid || caller.role == "admin"
  }

  predicate StrongEnough(password: Option<string>) {
    Truthy(password) && |password.value| >= MinPasswordLength
  }

  /** The user after `updateUser`'s field assignments. */
  function UpdatedProfile(u: UserRecord, data: ProfileData, hash: string -> string, avatarUrl: Option<string>): (v: UserRecord)
    requires !data.bio.BioNull?
    ensures v.id == u.id && v.role == u.role && v.bookmarks == u.bookmarks
  {
    u.(name := NewName(u, data), email := NewEmail(u, data), bio := NewBio(u, data),
       password := NewPassword(u, data, hash), avatar := NewAvatar(u, avatarUrl))
  }

  /** A truthy name is stored trimmed, a truthy e-mail lower-cased and
      trimmed (and so in normal form), a string bio trimmed, an uploaded
      avatar as given; the password changes exactly when a new one of at
      least eight characters is sent, to its hash; absent fields keep their
      values. */
  lemma UpdatedProfileChanges(u: UserRecord, data: ProfileData, hash: string -> string, avatarUrl: Option<string>)
    requires !data.bio.BioNull?
    ensures var v := UpdatedProfile(u, data, hash, avatarUrl);
            && v.id == u.id && v.role == u.role && v.bookmarks == u.bookmarks
            && (v.password != u.password ==> StrongEnough(data.password) && v.password == hash(data.password.value))
            && (StrongEnough(data.password) ==> v.password == hash(data.password.value))
            && (Truthy(data.name) ==> v.name == Trim(data.name.value) && IsTrimmed(v.name))
            && (Truthy(data.email) ==> v.email == Normalize(data.email.value) && Normalize(v.email) == v.email)
            && (data.bio.BioText? ==> v.bio == Some(Trim(data.bio.text)))
            && (avatarUrl.Some? ==> v.avatar == avatarUrl)
            && (!Truthy(data.name) ==> v.name == u.name)
            && (!Truthy(data.email) ==> v.email == u.email)
            && (data.bio.BioUndefined? ==> v.bio == u.bio)
            && (avatarUrl.None? ==> v.avatar == u.avatar)
  {
    if Truthy(data.email) {
      NormalizeIdempotent(data.email.value);
    }
  }

  function NewName(u: UserRecord, data: ProfileData): string {
    if Truthy(data.name) then Trim(data.name.value) else u.name
  }

  function NewEmail(u: UserRecord, data: ProfileData): string {
    if Truthy(data.email) then Normalize(data.email.value) else u.email
  }

  function NewBio(u: UserRecord, data: ProfileData): Option<string> {
    if data.bio.BioText? then Some(Trim(data.bio.text)) else u.bio
  }

  function NewPassword(u: UserRecord, data: ProfileData, hash: string -> string): string {
    if StrongEnough(data.password) then hash(data.password.value) else u.password
  }

  function NewAvatar(u: UserRecord, avatarUrl: Option<string>): Option<string> {
    if avatarUrl.Some? then avatarUrl else u.avatar
  }

  /** `updateUser`: authorise, then assign the supplied fields one by one and save. */
  method UpdateUser(db: UserTable, caller: Payload, userid: string, data: ProfileData,
                    hash: string -> string, avatarUrl: Option<string>) returns (r: Reply<PublicUser>)
    modifies db
    ensures !MayEdit(caller, userid) ==> r == Fail(HttpError(403, OwnProfileOnly))
    ensures MayEdit(caller, userid) && UserIndexById(old(db.users), userid) == -1 ==>
              r == Fail(HttpError(404, UserNotFound))
    ensures MayEdit(caller, userid) && UserIndexById(old(db.users), userid) >= 0 && data.bio.BioNull? ==>
              r == Fail(HttpError(500, NullBioMessage))
    ensures MayEdit(caller, userid) && UserIndexById(old(db.users), userid) >= 0 && !data.bio.BioNull? ==> r.Ok?
    ensures r.Fail? ==> db.users == old(db.users)
    ensures r.Ok? ==>
              var i := UserIndexById(old(db.users), userid);
              0 <= i && !data.bio.BioNull?
              && db.users == old(db.users)[i := UpdatedProfile(old(db.users)[i], data, hash, avatarUrl)]
              && r == Ok(200, Public(db.users[i]))
  {
    if caller.id != userid && caller.role != "admin" {
      return Fail(HttpError(403, OwnProfileOnly));
    }
    var i := UserIndexById(db.users, userid);
    if i < 0 {
      return Fail(HttpError(404, UserNotFound));
    }
    var user := db.users[i];
    ghost var u := user;
    if Truthy(data.name) {
      user := user.(name := Trim(data.name.value));
    }
    assert user == u.(name := NewName(u, data));
    if Truthy(data.email) {
      user := user.(email := Normalize(data.email.value));
    }
    assert user == u.(name := NewName(u, data), email := NewEmail(u, data));
    match data.bio {
      case BioNull =>
        return Fail(HttpError(500, NullBioMessage));
      case BioText(t) =>
        user := user.(bio := Some(Trim(t)));
      case BioUndefined =>
    }
    assert user == u.(name := NewName(u, data), email := NewEmail(u, data), bio := NewBio(u, data));
    if Truthy(data.password) && |data.password.value| >= MinPasswordLength {
      user := user.(password := hash(data.password.value));
    }
    assert user == u.(name := NewName(u, data), email := NewEmail(u, data), bio := NewBio(u, data),
                      password := NewPassword(u, data, hash));
    if avatarUrl.Some? {
      user := user.(avatar := avatarUrl);
    }
    db.users := db.users[i := user];
    r := Ok(200, Public(user));
  }

  /** The bookmark list after `toggleBookmark`, and the `isBookmarked` it reports:
      push when absent, otherwise splice out the first occurrence. */
  function Toggle(bookmarks: seq<string>, blogid: string): (r: (seq<string>, bool))
    ensures r.1 <==> blogid !in bookmarks
    ensures r.1 ==> r.0 == bookmarks + [blogid]
    ensures !r.1 ==> |r.0| == |bookmarks| - 1 && multiset(r.0) == multiset(bookmarks) - multiset{blogid}
  {
    IndexOfFirst(bookmarks, blogid);
    var i := IndexOf(bookmarks, blogid);
    if i == -1 then (bookmarks + [blogid], true)
    else
      assert bookmarks == bookmarks[..i] + [blogid] + bookmarks[i + 1..];
      (bookmarks[..i] + bookmarks[i + 1..], false)
  }

  /** Toggling twice a blog that was not bookmarked restores the exact list. */
  lemma ToggleTwiceAbsent(bookmarks: seq<string>, blogid: string)
    requires blogid !in bookmarks
    ensures Toggle(bookmarks, blogid) == (bookmarks + [blogid], true)
    ensures Toggle(Toggle(bookmarks, blogid).0, blogid) == (bookmarks, false)
  {
    var once := bookmarks + [blogid];
    IndexOfSplit(bookmarks, blogid, []);
    assert once == bookmarks + [blogid] + [];
    assert once[..|bookmarks|] + once[|bookmarks| + 1..] == bookmarks;
  }

  /** Removing the first occurrence: the toggle of a list split around it. */
  lemma ToggleSplit(a: seq<string>, b: seq<string>, blogid: string)
    requires blogid !in a
    ensures Toggle(a + [blogid] + b, blogid) == (a + b, false)
  {
    var s := a + [blogid] + b;
    IndexOfSplit(a, blogid, b);
    assert s[..|a|] == a && s[|a| + 1..] == b;
  }

  /** Moving an occurrence of `x` does not change what remains without `x`. */
  lemma WithoutMoved(a: seq<string>, b: seq<string>, x: string)
    ensures Without(a + b + [x], x) == Without(a + [x] + b, x)
  {
    assert Without([x], x) == [];
    WithoutConcat(a, b, x);
    WithoutConcat(a + b, [x], x);
    WithoutConcat(a, [x], x);
    WithoutConcat(a + [x], b, x);
  }

  /** The bookmark list after two toggles of the same blog. */
  function Twice(bookmarks: seq<string>, blogid: string): seq<string>
  {
    Toggle(Toggle(bookmarks, blogid).0, blogid).0
  }

  function Last(s: seq<string>): string
    requires 0 < |s|
  {
    s[|s| - 1]
  }

  /** Toggling twice a blog bookmarked once keeps the same bookmarks, moves
      that blog to the end and keeps the order of the others. */
  lemma ToggleTwicePresentOnce(bookmarks: seq<string>, blogid: string)
    requires multiset(bookmarks)[blogid] == 1
    ensures multiset(Twice(bookmarks, blogid)) == multiset(bookmarks)
    ensures 0 < |Twice(bookmarks, blogid)| && Last(Twice(bookmarks, blogid)) == blogid
    ensures Without(Twice(bookmarks, blogid), blogid) == Without(bookmarks, blogid)
  {
    assert blogid in multiset(bookmarks);
    IndexOfFirst(bookmarks, blogid);
    var i := IndexOf(bookmarks, blogid);
    var a, b := bookmarks[..i], bookmarks[i + 1..];
    assert bookmarks == a + [blogid] + b;
    OccursOnce(a, b, blogid);
    TwiceMovesToEnd(a, b, blogid);
  }

  /** The three facts above, for a list split around its only `x`. */
  lemma TwiceMovesToEnd(a: seq<string>, b: seq<string>, x: string)
    requires x !in a && x !in b
    ensures multiset(Twice(a + [x] + b, x)) == multiset(a + [x] + b)
    ensures 0 < |Twice(a + [x] + b, x)| && Last(Twice(a + [x] + b, x)) == x
    ensures Without(Twice(a + [x] + b, x), x) == Without(a + [x] + b, x)
  {
    TwiceOfSplit(a, b, x);
    assert multiset(a + b + [x]) == multiset(a + [x] + b);
    WithoutMoved(a, b, x);
  }

  lemma TwiceOfSplit(a: seq<string>, b: seq<string>, x: string)
    requires x !in a && x !in b
    ensures Twice(a + [x] + b, x) == a + b + [x]
  {
    ToggleSplit(a, b, x);
    ToggleTwiceAbsent(a + b, x);
  }

  lemma OccursOnce(a: seq<string>, b: seq<string>, x: string)
    requires multiset(a + [x] + b)[x] == 1
    ensures x !in a && x !in b && x !in a + b
  {
    assert multiset(a + [x] + b) == multiset(a) + multiset{x} + multiset(b);
  }

  /** Starting from a list without duplicates, the reported `isBookmarked`
      is what `checkBookmark` answers afterwards, and no duplicate appears. */
  lemma ToggleAgreesWithCheck(bookmarks: seq<string>, blogid: string)
    requires NoDuplicates(bookmarks)
    ensures var r := Toggle(bookmarks, blogid);
            (blogid in r.0 <==> r.1) && NoDuplicates(r.0)
  {
    var r := Toggle(bookmarks, blogid);
    if !r.1 {
      IndexOfFirst(bookmarks, blogid);
      var i := IndexOf(bookmarks, blogid);
      var a, b := bookmarks[..i], bookmarks[i + 1..];
      assert bookmarks == a + [blogid] + b;
      assert r.0 == a + b;
      assert forall p :: 0 <= p < |r.0| ==> r.0[p] == bookmarks[if p < i then p else p + 1];
    }
  }

  /** `toggleBookmark` for the caller: 404 when the blog or the user is missing. */
  method ToggleBookmark(db: UserTable, blogs: BlogTable, caller: Payload, blogid: string) returns (r: Reply<bool>)
    modifies db
    ensures BlogIndexById(blogs.blogs, blogid) == -1 ==> r == Fail(HttpError(404, BlogNotFound))
    ensures BlogIndexById(blogs.blogs, blogid) >= 0 && UserIndexById(old(db.users), caller.id) == -1 ==>
              r == Fail(HttpError(404, UserNotFound))
    ensures BlogIndexById(blogs.blogs, blogid) >= 0 && UserIndexById(old(db.users), caller.id) >= 0 ==> r.Ok?
    ensures r.Fail? ==> db.users == old(db.users)
    ensures r.Ok? ==>
              var i := UserIndexById(old(db.users), caller.id);
              var u := old(db.users)[i];
              0 <= i
              && db.users == old(db.users)[i := u.(bookmarks := Toggle(u.bookmarks, blogid).0)]
              && r.value == Toggle(u.bookmarks, blogid).1
  {
    if BlogIndexById(blogs.blogs, blogid) < 0 {
      return Fail(HttpError(404, BlogNotFound));
    }
    var i := UserIndexById(db.users, caller.id);
    if i < 0 {
      return Fail(HttpError(404, UserNotFound));
    }
    var user := db.users[i];
    var bookmarkIndex := IndexOf(user.bookmarks, blogid);
    var isBookmarked;
    if bookmarkIndex == -1 {
      user := user.(bookmarks := user.bookmarks + [blogid]);
      isBookmarked := true;
    } else {
      user := user.(bookmarks := user.bookmarks[..bookmarkIndex] + user.bookmarks[bookmarkIndex + 1..]);
      isBookmarked := false;
    }
    db.users := db.users[i := user];
    r := Ok(200, isBookmarked);
  }

  /** `checkBookmark`: whether the caller's bookmarks hold the blog; read only. */
  method CheckBookmark(db: UserTable, caller: Payload, blogid: string) returns (r: Reply<bool>)
    ensures (forall k :: 0 <= k < |db.users| ==> db.users[k].id != caller.id) <==> r == Fail(HttpError(404, UserNotFound))
    ensures (exists k :: 0 <= k < |db.users| && db.users[k].id == caller.id) ==> r.Ok?
    ensures r.Ok? ==> exists k :: 0 <= k < |db.users| && db.users[k].id == caller.id
                                  && (r.value <==> blogid in db.users[k].bookmarks)
  {
    var i := UserIndexById(db.users, caller.id);
    NoUserWithId(db.users, caller.id);
    if i < 0 {
      return Fail(HttpError(404, UserNotFound));
    }
    var bookmarks := db.users[i].bookmarks;
    var isBookmarked := exists k | 0 <= k < |bookmarks| :: bookmarks[k] == blogid;
    r := Ok(200, isBookmarked);
  }
}
