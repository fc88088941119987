/** The profile handlers of the user controller (controllers/userController.js): reading a
    profile with its image path normalised, updating name and email under the email format
    check, and recording an uploaded profile image. No router mounts these handlers; the paths
    they were written for are served by the inline handlers of the users router, modelled in
    `UserRoutes`. */
module Users {
  import opened Wrappers
  import opened Seqs
  import opened Js
  import opened Db
  import opened Http

  /** The id check each profile handler makes before anything else: `!id || isNaN(parseInt(id))`
      refuses the id. */
  predicate ValidId(id: string) {
    id != "" && ParseIntString(id).Some?
  }

  /** `SELECT … FROM users WHERE id = ?`: the first user with that id. */
  function UserById(users: seq<User>, id: int): (r: Option<User>)
    ensures r.Some? ==> r.value in users && r.value.id == id
    ensures r.None? <==> forall i :: 0 <= i < |users| ==> users[i].id != id
  {
    match Find(users, (u: User) => u.id == id)
    case None => None
    case Some(k) => Some(users[k])
  }

  // ------------------------------------------------------------------------------------------
  // Image paths

  const UploadsPrefix := "uploads/"
  const ProfilesPrefix := "uploads/profiles/"

  /** The image a profile is shown with: a truthy path outside `uploads/` is taken to be a bare
      file name of the profile folder and gets `uploads/profiles/` in front; anything else is
      shown as stored. */
  function ProfileImage(image: Option<string>): (r: Option<string>)
    ensures Present(r) <==> Present(image)
    ensures Present(r) ==> StartsWith(r.value, UploadsPrefix)
    ensures Present(image) && StartsWith(image.value, UploadsPrefix) ==> r == image
    ensures Present(image) && !StartsWith(image.value, UploadsPrefix) ==>
              r == Some(ProfilesPrefix + image.value)
    ensures !Present(image) ==> r == image
  {
    if Present(image) && !StartsWith(image.value, UploadsPrefix) then
      var r := ProfilesPrefix + image.value;
      assert r[..|UploadsPrefix|] == UploadsPrefix;
      Some(r)
    else image
  }

  /** Normalising twice is normalising once. */
  lemma ProfileImageIdempotent(image: Option<string>)
    ensures ProfileImage(ProfileImage(image)) == ProfileImage(image)
  {
  }

  // ------------------------------------------------------------------------------------------
  // The email check

  /** A character of the class `[^\s@]`. */
  predicate Plain(c: char) {
    !IsSpace(c) && c != '@'
  }

  predicate AllPlain(s: string) {
    forall k :: 0 <= k < |s| ==> Plain(s[k])
  }

  /** The strings `^[^\s@]+@[^\s@]+\.[^\s@]+$` matches: a non-empty plain run, `@`, a non-empty
      plain run, `.`, a non-empty plain run. The middle run may itself contain dots; the match
      succeeds when some dot splits the part after the `@` in two non-empty runs. */
  ghost predicate EmailShape(s: string) {
    exists i, j :: 0 < i && i + 1 < j && j + 1 < |s| && s[i] == '@' && s[j] == '.' &&
                   AllPlain(s[..i]) && AllPlain(s[i + 1..j]) && AllPlain(s[j + 1..])
  }

  /** The matcher: the first `@` is not at the start, the text around it is plain, and a dot
      follows it with at least one character on each side. */
  function ValidEmail(s: string): (ok: bool)
    ensures ok <==> EmailShape(s)
  {
    match Find(s, (c: char) => c == '@')
    case None =>
      assert !EmailShape(s);
      false
    case Some(i) =>
      var ok := 0 < i && AllPlain(s[..i]) && AllPlain(s[i + 1..]) &&
                exists j :: i + 1 < j < |s| - 1 && s[j] == '.';
      EmailShapeAt(s, i);
      ok
  }

  /** Every position of `s` in `[a, b)` holds a plain character. */
  predicate PlainBetween(s: string, a: int, b: int) {
    forall k :: a <= k < b && 0 <= k < |s| ==> Plain(s[k])
  }

  /** A slice is plain exactly when its positions in the whole string are. */
  lemma AllPlainSlice(s: string, a: nat, b: nat)
    requires a <= b <= |s|
    ensures AllPlain(s[a..b]) <==> PlainBetween(s, a, b)
  {
    if AllPlain(s[a..b]) {
      forall k | a <= k < b
        ensures Plain(s[k])
      {
        assert s[k] == s[a..b][k - a];
      }
    }
  }

  /** A match of the shape puts its `@` at the first one. */
  lemma EmailShapeFirstAt(s: string, i: nat, i': nat, j: nat)
    requires i < |s| && s[i] == '@' && forall k :: 0 <= k < i ==> s[k] != '@'
    requires 0 < i' && i' + 1 < j && j + 1 < |s| && s[i'] == '@' && s[j] == '.'
    requires AllPlain(s[..i']) && AllPlain(s[i' + 1..j]) && AllPlain(s[j + 1..])
    ensures 0 < i && AllPlain(s[..i]) && AllPlain(s[i + 1..]) && i + 1 < j < |s| - 1
  {
    assert s[..i'] == s[0..i'] && s[j + 1..] == s[j + 1..|s|];
    AllPlainSlice(s, 0, i');
    AllPlainSlice(s, i' + 1, j);
    AllPlainSlice(s, j + 1, |s|);
    assert i' == i;
    assert s[..i] == s[0..i] && s[i + 1..] == s[i + 1..|s|];
    AllPlainSlice(s, 0, i);
    AllPlainSlice(s, i + 1, |s|);
  }

  /** A dot splitting the plain text after the first `@` gives a match of the shape. */
  lemma EmailShapeFromDot(s: string, i: nat, j: nat)
    requires 0 < i && i < |s| && s[i] == '@' && AllPlain(s[..i]) && AllPlain(s[i + 1..])
    requires i + 1 < j < |s| - 1 && s[j] == '.'
    ensures AllPlain(s[i + 1..j]) && AllPlain(s[j + 1..])
  {
    assert s[i + 1..] == s[i + 1..|s|] && s[j + 1..] == s[j + 1..|s|];
    AllPlainSlice(s, i + 1, |s|);
    AllPlainSlice(s, i + 1, j);
    AllPlainSlice(s, j + 1, |s|);
  }

  /** With `i` the first `@`, the shape holds exactly when the matcher's conditions do. */
  lemma EmailShapeAt(s: string, i: nat)
    requires i < |s| && s[i] == '@' && forall k :: 0 <= k < i ==> s[k] != '@'
    ensures EmailShape(s) <==>
              0 < i && AllPlain(s[..i]) && AllPlain(s[i + 1..]) &&
              exists j :: i + 1 < j < |s| - 1 && s[j] == '.'
  {
    if EmailShape(s) {
      var i', j :| 0 < i' && i' + 1 < j && j + 1 < |s| && s[i'] == '@' && s[j] == '.' &&
                   AllPlain(s[..i']) && AllPlain(s[i' + 1..j]) && AllPlain(s[j + 1..]);
      EmailShapeFirstAt(s, i, i', j);
    }
    if 0 < i && AllPlain(s[..i]) && AllPlain(s[i + 1..]) &&
       exists j :: i + 1 < j < |s| - 1 && s[j] == '.' {
      var j :| i + 1 < j < |s| - 1 && s[j] == '.';
      EmailShapeFromDot(s, i, j);
    }
  }

  /** Addresses the format accepts: one `@` and a dot inside the domain, and a dot right after
      the `@` still passes when another one follows. */
  lemma EmailsAccepted()
    ensures ValidEmail("a@b.c")
    ensures ValidEmail("a@.b.c")
  {
    var e1 := "a@b.c";
    assert e1[1] == '@' && e1[3] == '.' && AllPlain(e1[..1]) && AllPlain(e1[2..3]) && AllPlain(e1[4..]);
    var e2 := "a@.b.c";
    assert e2[1] == '@' && e2[4] == '.' && AllPlain(e2[..1]) && AllPlain(e2[2..4]) && AllPlain(e2[5..]);
  }

  /** Addresses the format refuses: no dot in the domain, a second `@`, nothing before the `@`. */
  lemma EmailsRefused()
    ensures !ValidEmail("a@b")
    ensures !ValidEmail("a@@b.c")
    ensures !ValidEmail("@b.c")
  {
    assert "a@@b.c"[2] == '@';
  }

  // ------------------------------------------------------------------------------------------
  // Endpoints

  /** A profile as the profile endpoints return it. */
  datatype Profile = Profile(id: int, name: string, email: string, image: Option<string>)

  /** The controller's `getUserProfile` (not mounted; routes/users.js:123 serves the path
      itself): 400 for an id `parseInt` cannot read, 404 for an unknown user,
      otherwise the profile with its image normalised. The lookup itself reads the id as the
      database does. */
  function GetUserProfile(s: Store, id: string): (h: Handled<Profile>)
    ensures h.store == s && h.destroyed == []
    ensures !ValidId(id) ==> h.reply == Fail(400, "Invalid user ID")
    ensures ValidId(id) && UserById(s.users, KeyOf(id)).None? ==> h.reply == Fail(404, "User not found")
    ensures h.reply.Ok? <==> ValidId(id) && UserById(s.users, KeyOf(id)).Some?
    ensures h.reply.Ok? ==>
              var u := UserById(s.users, KeyOf(id)).value;
              h.reply == Ok(200, Profile(u.id, u.name, u.email, ProfileImage(u.image)))
  {
    if !ValidId(id) then Refuse(s, 400, "Invalid user ID")
    else
      match UserById(s.users, KeyOf(id))
      case None => Refuse(s, 404, "User not found")
      case Some(u) => Handled(s, Ok(200, Profile(u.id, u.name, u.email, ProfileImage(u.image))), [])
  }

  /** `UPDATE users SET <column> WHERE id = ?` for name and email. */
  function SetNameEmail(users: seq<User>, id: int, name: string, email: string): (r: seq<User>)
    ensures |r| == |users|
    ensures forall i :: 0 <= i < |users| ==>
              r[i] == (if users[i].id == id then users[i].(name := name, email := email) else users[i])
  {
    Map(users, (u: User) => if u.id == id then u.(name := name, email := email) else u)
  }

  /** Another user already has the email: the unique index on `email` rejects the update. */
  predicate EmailTaken(users: seq<User>, id: int, email: string) {
    exists i :: 0 <= i < |users| && users[i].id != id && users[i].email == email
  }

  /** The reply of a successful profile update. */
  datatype Updated = Updated(message: string, user: Profile)

  /** The controller's `updateUserProfile` (not mounted; routes/users.js:135 serves the path
      itself): the id, then the presence of name and email, then the email format
      are checked, each failure a 400 with nothing written. An unknown user matches no row:
      404. An email another user holds violates the unique index: 409. Otherwise the user's
      name and email are replaced and the row is returned as stored, its image not
      normalised. */
  function UpdateUserProfile(s: Store, id: string, name: Val, email: Val): (h: Handled<Updated>)
    ensures h.destroyed == []
    ensures !ValidId(id) ==> h == Refuse(s, 400, "Invalid user ID")
    ensures ValidId(id) && !(Truthy(name) && Truthy(email)) ==>
              h == Refuse(s, 400, "Name and email are required")
    ensures ValidId(id) && Truthy(name) && Truthy(email) && !EmailShape(ToStr(email)) ==>
              h == Refuse(s, 400, "Invalid email format")
    ensures h.reply.Fail? ==> h.store == s
    ensures h.reply.Ok? <==>
              ValidId(id) && Truthy(name) && Truthy(email) && EmailShape(ToStr(email)) &&
              UserById(s.users, KeyOf(id)).Some? && !EmailTaken(s.users, KeyOf(id), ToStr(email))
    ensures (ValidId(id) && Truthy(name) && Truthy(email) && EmailShape(ToStr(email)) &&
             UserById(s.users, KeyOf(id)).Some? && EmailTaken(s.users, KeyOf(id), ToStr(email))) ==>
              h.reply == Fail(409, "Email already in use")
    ensures h.reply.Ok? ==>
              var u := UserById(s.users, KeyOf(id)).value;
              h.store == s.(users := SetNameEmail(s.users, KeyOf(id), ToStr(name), ToStr(email))) &&
              h.reply == Ok(200, Updated("Profile updated successfully",
                                         Profile(u.id, ToStr(name), ToStr(email), u.image)))
  {
    if !ValidId(id) then Refuse(s, 400, "Invalid user ID")
    else if !(Truthy(name) && Truthy(email)) then Refuse(s, 400, "Name and email are required")
    else if !ValidEmail(ToStr(email)) then Refuse(s, 400, "Invalid email format")
    else
      var key := KeyOf(id);
      match UserById(s.users, key)
      case None => Refuse(s, 404, "User not found or no changes made")
      case Some(u) =>
        if EmailTaken(s.users, key, ToStr(email)) then Refuse(s, 409, "Email already in use")
        else
          var users := SetNameEmail(s.users, key, ToStr(name), ToStr(email));
          assert UserById(users, key) == Some(u.(name := ToStr(name), email := ToStr(email))) by {
            FindSamePositions(s.users, users, (x: User) => x.id == key);
          }
          Handled(s.(users := users),
                  Ok(200, Updated("Profile updated successfully",
                                  Profile(u.id, ToStr(name), ToStr(email), u.image))), [])
  }

  /** No two different users share an email; rows of the same id may. */
  predicate EmailsDistinct(users: seq<User>) {
    forall i, j :: 0 <= i < |users| && 0 <= j < |users| && i != j ==>
      users[i].email != users[j].email || users[i].id == users[j].id
  }

  /** Setting a user's email to one no other user holds keeps emails distinct. */
  lemma SetNameEmailKeepsDistinct(users: seq<User>, id: int, name: string, email: string)
    requires EmailsDistinct(users) && !EmailTaken(users, id, email)
    ensures EmailsDistinct(SetNameEmail(users, id, name, email))
  {
    var r := SetNameEmail(users, id, name, email);
    forall i, j | 0 <= i < |r| && 0 <= j < |r| && i != j
      ensures r[i].email != r[j].email || r[i].id == r[j].id
    {
      assert r[i].id == users[i].id && r[j].id == users[j].id;
      if users[i].id != id && users[j].id == id {
        assert r[j].email == email && r[i] == users[i];
      } else if users[i].id == id && users[j].id != id {
        assert r[i].email == email && r[j] == users[j];
      }
    }
  }

  /** A successful update keeps emails unique when they were: no two users share one after it. */
  lemma UpdateKeepsEmailsUnique(s: Store, id: string, name: Val, email: Val)
    requires EmailsDistinct(s.users)
    ensures EmailsDistinct(UpdateUserProfile(s, id, name, email).store.users)
  {
    var h := UpdateUserProfile(s, id, name, email);
    if h.reply.Ok? {
      SetNameEmailKeepsDistinct(s.users, KeyOf(id), ToStr(name), ToStr(email));
    }
  }

  /** The path an uploaded profile image is stored under. */
  function UploadedPath(filename: string): (p: string)
    ensures StartsWith(p, ProfilesPrefix) && p[|ProfilesPrefix|..] == filename
    ensures StartsWith(p, UploadsPrefix)
  {
    var p := ProfilesPrefix + filename;
    assert p[..|ProfilesPrefix|] == ProfilesPrefix;
    assert p[..|UploadsPrefix|] == ProfilesPrefix[..|UploadsPrefix|] == UploadsPrefix;
    p
  }

  /** `UPDATE users SET image = ? WHERE id = ?`. */
  function SetImage(users: seq<User>, id: int, path: string): (r: seq<User>)
    ensures |r| == |users|
    ensures forall i :: 0 <= i < |users| ==>
              r[i] == (if users[i].id == id then users[i].(image := Some(path)) else users[i])
  {
    Map(users, (u: User) => if u.id == id then u.(image := Some(path)) else u)
  }

  /** The reply of a successful upload. */
  datatype Uploaded = Uploaded(message: string, path: string)

  /** The controller's `uploadProfileImage` (not mounted; routes/users.js:148 serves the
      upload itself), with the stored file's name, if a file came: the id is
      checked, then the file, then that the user exists; then the image column is set to the
      file under `uploads/profiles/`. */
  function UploadProfileImage(s: Store, id: string, filename: Option<string>): (h: Handled<Uploaded>)
    ensures h.destroyed == []
    ensures !ValidId(id) ==> h == Refuse(s, 400, "Invalid user ID")
    ensures ValidId(id) && filename.None? ==> h == Refuse(s, 400, "No image uploaded")
    ensures ValidId(id) && filename.Some? && UserById(s.users, KeyOf(id)).None? ==>
              h == Refuse(s, 404, "User not found")
    ensures h.reply.Ok? <==> ValidId(id) && filename.Some? && UserById(s.users, KeyOf(id)).Some?
    ensures h.reply.Ok? ==>
              h.store == s.(users := SetImage(s.users, KeyOf(id), UploadedPath(filename.value))) &&
              h.reply == Ok(200, Uploaded("Image uploaded successfully", UploadedPath(filename.value)))
  {
    if !ValidId(id) then Refuse(s, 400, "Invalid user ID")
    else if filename.None? then Refuse(s, 400, "No image uploaded")
    else
      match UserById(s.users, KeyOf(id))
      case None => Refuse(s, 404, "User not found")
      case Some(_) =>
        var path := UploadedPath(filename.value);
        Handled(s.(users := SetImage(s.users, KeyOf(id), path)),
                Ok(200, Uploaded("Image uploaded successfully", path)), [])
  }

  /** After an upload the profile shows exactly the stored path: normalisation leaves a path
      under `uploads/` alone. */
  lemma UploadThenProfile(s: Store, id: string, filename: string)
    requires UploadProfileImage(s, id, Some(filename)).reply.Ok?
    ensures var h := GetUserProfile(UploadProfileImage(s, id, Some(filename)).store, id);
      h.reply.Ok? && h.reply.body.image == Some(UploadedPath(filename))
  {
    var key := KeyOf(id);
    var path := UploadedPath(filename);
    var users := SetImage(s.users, key, path);
    assert UploadProfileImage(s, id, Some(filename)).store == s.(users := users);
    var u := UserById(s.users, key).value;
    FindSamePositions(s.users, users, (x: User) => x.id == key);
    assert UserById(users, key) == Some(u.(image := Some(path)));
    assert ProfileImage(Some(path)) == Some(path);
  }
}
