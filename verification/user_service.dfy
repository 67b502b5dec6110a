/** The user service: looking up the signed-in user, editing the profile,
    the profile-image decision and the password change. The signed-in user's
    email (the security context's principal) is a parameter; so are the
    password encoder and the random name given to a stored image. Only the
    stored file NAME is modelled, not the files on disk. */
module UserService {
  import opened Wrappers
  import opened Exceptions
  import opened Entities
  import Text

  const MAX_FILE_SIZE: nat := 10 * 1024 * 1024
  const ALLOWED_EXTENSIONS: seq<string> := [".jpg", ".jpeg", ".png", ".gif"]

  /** `getCurrentUser`: the one user whose email is the principal. */
  function GetCurrentUser(users: Users, principal: string): (r: Result<User, Exception>)
    ensures r.Ok? ==> r.value in users.Values && r.value.email == principal
    ensures r == Fail(NotFound, "User not found") <==> forall id :: id in users ==> users[id].email != principal
    ensures r.Err? ==> r.error.ResponseStatus? || r.error.NonUniqueResult?
  {
    match FindByEmail(users, principal)
    case NoRow => Fail(NotFound, "User not found")
    case ManyRows => Err(NonUniqueResult("query did not return a unique result"))
    case OneRow(id) => Ok(users[id])
  }

  /** In a store with unique emails, a user's own email always finds that user. */
  lemma CurrentUserFound(users: Users, id: UserId)
    requires EmailsUnique(users) && id in users
    ensures GetCurrentUser(users, users[id].email) == Ok(users[id])
  {
    UniqueEmailFindsOne(users, id);
  }

  /** `getUserById` */
  function GetUserById(users: Users, id: UserId): (r: Result<User, Exception>)
    ensures r.Ok? <==> id in users
    ensures r.Ok? ==> r.value == users[id]
    ensures r.Err? ==> r == Fail(NotFound, "User not found")
  {
    if id in users then Ok(users[id]) else Fail(NotFound, "User not found")
  }

  /** `u` and `v` agree on every field except name, job title and bio. */
  predicate SameExceptProfile(u: User, v: User) {
    && u.id == v.id && u.email == v.email && u.password == v.password
    && u.profileImage == v.profileImage
    && u.verificationToken == v.verificationToken && u.verificationTokenExpiry == v.verificationTokenExpiry
    && u.resetPasswordToken == v.resetPasswordToken && u.resetPasswordTokenExpiry == v.resetPasswordTokenExpiry
  }

  /** Every user other than `id` keeps its row. */
  predicate OthersUnchanged(before: Users, after: Users, id: UserId) {
    && after.Keys == before.Keys + {id}
    && forall k :: k in before && k != id ==> after[k] == before[k]
  }

  /** `updateProfile`: overwrites exactly name, job title and bio of the
      signed-in user and saves it. */
  function UpdateProfile(users: Users, principal: string, req: UserProfileRequest): (r: Result<(Users, User), Exception>)
    ensures r.Err? <==> GetCurrentUser(users, principal).Err?
    ensures r.Err? ==> r.error == GetCurrentUser(users, principal).error
    ensures r.Ok? ==> var (after, u) := r.value;
      && var before := GetCurrentUser(users, principal).value;
      && u.name == req.name && u.jobTitle == req.jobTitle && u.bio == req.bio
      && SameExceptProfile(before, u)
      && u.id in after && after[u.id] == u && OthersUnchanged(users, after, u.id)
  {
    var user :- GetCurrentUser(users, principal);
    var u := user.(name := req.name, jobTitle := req.jobTitle, bio := req.bio);
    Ok((Save(users, u), u))
  }

  /** The removal shared by `deleteProfileImage` and an empty upload: clear a
      stored image name and save, or return the user untouched. */
  function RemoveImage(users: Users, user: User): (r: (Users, User))
    ensures r.1.profileImage.None?
    ensures user.profileImage.None? ==> r == (users, user)
    ensures user.profileImage.Some? ==> r.1 == user.(profileImage := None) && r.0 == Save(users, r.1)
  {
    if user.profileImage.Some? then
      var u := user.(profileImage := None);
      (Save(users, u), u)
    else (users, user)
  }

  /** `deleteProfileImage` */
  function DeleteProfileImage(users: Users, principal: string): (r: Result<(Users, User), Exception>)
    ensures r.Err? <==> GetCurrentUser(users, principal).Err?
    ensures r.Err? ==> r.error == GetCurrentUser(users, principal).error
    ensures r.Ok? ==> r.value.1.profileImage.None?
    ensures r.Ok? && GetCurrentUser(users, principal).value.profileImage.None? ==> r.value.0 == users
    ensures r.Ok? && GetCurrentUser(users, principal).value.profileImage.Some? ==>
              var before := GetCurrentUser(users, principal).value;
              && r.value.1 == before.(profileImage := None)
              && before.id in r.value.0 && r.value.0[before.id] == r.value.1
              && OthersUnchanged(users, r.value.0, before.id)
  {
    var user :- GetCurrentUser(users, principal);
    Ok(RemoveImage(users, user))
  }

  /** An uploaded part: its size and its original file name (nullable). An
      upload is empty when it has no bytes. */
  datatype Upload = Upload(size: nat, originalFilename: Option<string>)

  datatype ImageDecision = RemoveStored | Reject(error: Exception) | Accept(extension: string)

  /** `originalFilename.substring(originalFilename.lastIndexOf(".")).toLowerCase()`,
      or "" when there is no name. With no '.' in the name the start index
      is -1 and `substring` throws. */
  function ExtensionOf(filename: Option<string>): (r: Result<string, Exception>)
    ensures filename.None? ==> r == Ok("")
    ensures filename.Some? && '.' !in filename.value ==> r.Err? && r.error.IndexOutOfBounds?
    ensures filename.Some? && '.' !in filename.value ==>
              var n := Text.IntText(Text.Utf16Length(filename.value));
              r.error.msg == "begin -1, end " + n + ", length " + n
    ensures filename.Some? && '.' in filename.value ==>
              var i := Text.LastIndexOf(filename.value, '.');
              r == Ok(Text.Lower(filename.value[i..])) && '.' !in filename.value[i + 1..]
  {
    match filename
    case None => Ok("")
    case Some(f) =>
      var i := Text.LastIndexOf(f, '.');
      if i < 0 then
        var n := Text.IntText(Text.Utf16Length(f));
        Err(IndexOutOfBounds("begin -1, end " + n + ", length " + n))
      else Ok(Text.Lower(f[i..]))
  }

  /** Java's index error reports the name's `length()` in UTF-16 code units:
      an emoji, outside the Basic Multilingual Plane, counts as two. */
  lemma EmojiNameLengthInCodeUnits()
    ensures ExtensionOf(Some("\U{1F600}")) == Err(IndexOutOfBounds("begin -1, end 2, length 2"))
  {
    assert Text.LastIndexOf("\U{1F600}", '.') == -1;
    assert Text.Utf16Length("\U{1F600}") == 2 && Text.IntText(2) == "2";
    assert "begin -1, end " + "2" + ", length " + "2" == "begin -1, end 2, length 2";
  }

  /** For a name of characters in the Basic Multilingual Plane the reported
      length is the number of characters. */
  lemma PlainNameLengthInCodeUnits()
    ensures ExtensionOf(Some("photo")) == Err(IndexOutOfBounds("begin -1, end 5, length 5"))
  {
    assert Text.LastIndexOf("photo", '.') == -1;
    assert Text.Utf16Length("photo") == 5 && Text.IntText(5) == "5";
    assert "begin -1, end " + "5" + ", length " + "5" == "begin -1, end 5, length 5";
  }

  /** The checks `updateProfileImage` makes of the upload, in order: removal,
      size, extension. */
  function DecideImage(file: Option<Upload>): (d: ImageDecision)
    ensures d.RemoveStored? <==> file.None? || file.value.size == 0
    ensures file.Some? && file.value.size > MAX_FILE_SIZE ==>
              d == Reject(ResponseStatus(BadRequest, "File size must be less than 10MB"))
    ensures d.Accept? ==> d.extension in ALLOWED_EXTENSIONS && 0 < file.value.size <= MAX_FILE_SIZE
    ensures d.Accept? ==> ExtensionOf(file.value.originalFilename) == Ok(d.extension)
    ensures file.Some? && 0 < file.value.size <= MAX_FILE_SIZE && ExtensionOf(file.value.originalFilename).Ok? ==>
              (d.Accept? <==> ExtensionOf(file.value.originalFilename).value in ALLOWED_EXTENSIONS)
    ensures file.Some? && 0 < file.value.size <= MAX_FILE_SIZE && ExtensionOf(file.value.originalFilename).Err? ==>
              d == Reject(ExtensionOf(file.value.originalFilename).error)
    ensures file.Some? && 0 < file.value.size <= MAX_FILE_SIZE && ExtensionOf(file.value.originalFilename).Ok?
            && ExtensionOf(file.value.originalFilename).value !in ALLOWED_EXTENSIONS ==>
              d == Reject(ResponseStatus(BadRequest, "Only JPG, PNG and GIF files are allowed"))
  {
    if file.None? || file.value.size == 0 then RemoveStored
    else if file.value.size > MAX_FILE_SIZE then Reject(ResponseStatus(BadRequest, "File size must be less than 10MB"))
    else match ExtensionOf(file.value.originalFilename)
      case Err(e) => Reject(e)
      case Ok(ext) =>
        if ext in ALLOWED_EXTENSIONS then Accept(ext)
        else Reject(ResponseStatus(BadRequest, "Only JPG, PNG and GIF files are allowed"))
  }

  /** `updateProfileImage`: after finding the signed-in user, an absent or
      empty upload removes the stored image, a rejected one throws, and an
      accepted one is stored under `uuid` followed by its extension. The
      checks are the ones the code makes, so a name without '.' ends in an
      index error. */
  function UpdateProfileImage(users: Users, principal: string, file: Option<Upload>, uuid: string): (r: Result<(Users, User), Exception>)
    ensures GetCurrentUser(users, principal).Err? ==> r.Err? && r.error == GetCurrentUser(users, principal).error
    ensures GetCurrentUser(users, principal).Ok? ==>
              var user := GetCurrentUser(users, principal).value;
              match DecideImage(file)
              case RemoveStored => r == Ok(RemoveImage(users, user))
              case Reject(e) => r == Err(e)
              case Accept(ext) =>
                r.Ok? && r.value.1 == user.(profileImage := Some(uuid + ext))
                && r.value.0 == Save(users, r.value.1)
  {
    var user :- GetCurrentUser(users, principal);
    Store(users, user, DecideImage(file), uuid)
  }

  /** Carries out a decision about the signed-in user's image. */
  function Store(users: Users, user: User, d: ImageDecision, uuid: string): (r: Result<(Users, User), Exception>)
    ensures d.RemoveStored? ==> r == Ok(RemoveImage(users, user))
    ensures d.Reject? ==> r == Err(d.error)
    ensures d.Accept? ==>
              && r.Ok? && r.value.1 == user.(profileImage := Some(uuid + d.extension))
              && r.value.0 == Save(users, r.value.1)
  {
    match d
    case RemoveStored => Ok(RemoveImage(users, user))
    case Reject(e) => Err(e)
    case Accept(ext) =>
      var u := user.(profileImage := Some(uuid + ext));
      Ok((Save(users, u), u))
  }

  /** Uploading nothing and deleting the image are the same operation. */
  lemma EmptyUploadIsDelete(users: Users, principal: string, uuid: string, size: nat, name: Option<string>)
    ensures UpdateProfileImage(users, principal, None, uuid) == DeleteProfileImage(users, principal)
    ensures UpdateProfileImage(users, principal, Some(Upload(0, name)), uuid) == DeleteProfileImage(users, principal)
  {
  }

  /** The size check comes first: an oversize upload is refused for its size
      whatever its name; exactly 10 MB is not oversize. */
  lemma SizeCheckedBeforeName(name: Option<string>)
    ensures DecideImage(Some(Upload(MAX_FILE_SIZE + 1, name))) == Reject(ResponseStatus(BadRequest, "File size must be less than 10MB"))
    ensures DecideImage(Some(Upload(MAX_FILE_SIZE, Some("me.PNG")))) == Accept(".png")
  {
    assert Text.LastIndexOf("me.PNG", '.') == 2;
    assert Text.Lower(".PNG") == ".png";
  }

  /** A null file name is treated as the empty extension and refused with
      400; a name without any '.' does NOT get the 400 but an index error,
      which the exception handler turns into a 500. */
  lemma NamelessAndDotlessUploads()
    ensures DecideImage(Some(Upload(1, None))) == Reject(ResponseStatus(BadRequest, "Only JPG, PNG and GIF files are allowed"))
    ensures DecideImage(Some(Upload(1, Some("photo")))).Reject?
    ensures DecideImage(Some(Upload(1, Some("photo")))).error.IndexOutOfBounds?
  {
    assert "" !in ALLOWED_EXTENSIONS;
  }

  /** The extension the evidently intended check works from: the same suffix,
      or "" when there is no name or no '.' in it. */
  function ExtensionOfCorrected(filename: Option<string>): (r: string)
    ensures filename.Some? && '.' in filename.value ==> Ok(r) == ExtensionOf(filename)
    ensures filename.None? || '.' !in filename.value ==> r == ""
  {
    match filename
    case None => ""
    case Some(f) =>
      var i := Text.LastIndexOf(f, '.');
      if i < 0 then "" else Text.Lower(f[i..])
  }

  function DecideImageCorrected(file: Option<Upload>): (d: ImageDecision)
    ensures d.Reject? ==> d.error.ResponseStatus? && d.error.status == BadRequest
    ensures file.Some? && 0 < file.value.size <= MAX_FILE_SIZE && !d.Accept? ==>
              d == Reject(ResponseStatus(BadRequest, "Only JPG, PNG and GIF files are allowed"))
    ensures !(file.Some? && file.value.originalFilename.Some? && '.' !in file.value.originalFilename.value) ==>
              d == DecideImage(file)
  {
    if file.None? || file.value.size == 0 then RemoveStored
    else if file.value.size > MAX_FILE_SIZE then Reject(ResponseStatus(BadRequest, "File size must be less than 10MB"))
    else
      var ext := ExtensionOfCorrected(file.value.originalFilename);
      if ext in ALLOWED_EXTENSIONS then Accept(ext)
      else Reject(ResponseStatus(BadRequest, "Only JPG, PNG and GIF files are allowed"))
  }

  /** With the intended extension rule, a dotless name is refused with the
      400 extension message like any other name that is not an image. */
  lemma DotlessRejectedWith400(size: nat, name: string)
    requires 0 < size <= MAX_FILE_SIZE && '.' !in name
    ensures DecideImageCorrected(Some(Upload(size, Some(name)))) == Reject(ResponseStatus(BadRequest, "Only JPG, PNG and GIF files are allowed"))
  {
    assert "" !in ALLOWED_EXTENSIONS;
  }

  /** `updateProfileImage` with the intended extension rule. */
  function UpdateProfileImageCorrected(users: Users, principal: string, file: Option<Upload>, uuid: string): (r: Result<(Users, User), Exception>)
    ensures GetCurrentUser(users, principal).Err? ==> r.Err? && r.error == GetCurrentUser(users, principal).error
    ensures r.Err? && GetCurrentUser(users, principal).Ok? ==> r.error.ResponseStatus? && r.error.status == BadRequest
    ensures !(file.Some? && file.value.originalFilename.Some? && '.' !in file.value.originalFilename.value) ==>
              r == UpdateProfileImage(users, principal, file, uuid)
  {
    var user :- GetCurrentUser(users, principal);
    Store(users, user, DecideImageCorrected(file), uuid)
  }

  /** The operation as written answers a 1-byte upload named "photo" with an
      index error, which the exception handler makes a 500; the corrected one
      answers it with the 400 extension message. */
  lemma DotlessUploadOutcomes(users: Users, principal: string, uuid: string)
    requires GetCurrentUser(users, principal).Ok?
    ensures UpdateProfileImage(users, principal, Some(Upload(1, Some("photo"))), uuid).Err?
    ensures UpdateProfileImage(users, principal, Some(Upload(1, Some("photo"))), uuid).error.IndexOutOfBounds?
    ensures UpdateProfileImageCorrected(users, principal, Some(Upload(1, Some("photo"))), uuid)
         == Err(ResponseStatus(BadRequest, "Only JPG, PNG and GIF files are allowed"))
  {
    NamelessAndDotlessUploads();
    DotlessRejectedWith400(1, "photo");
  }

  datatype ChangePasswordRequest = ChangePasswordRequest(currentPassword: string, newPassword: string, confirmPassword: string)

  /** `changePassword`: the current password is checked before the
      confirmation; either failure leaves the store as it was; success stores
      the encoded new password and changes nothing else. */
  function ChangePassword(users: Users, principal: string, req: ChangePasswordRequest, encoder: PasswordEncoder): (r: Result<Users, Exception>)
    ensures GetCurrentUser(users, principal).Err? ==> r == Err(GetCurrentUser(users, principal).error)
    ensures GetCurrentUser(users, principal).Ok? ==>
              var user := GetCurrentUser(users, principal).value;
              && (!encoder.matches(req.currentPassword, user.password) ==>
                    r == Fail(BadRequest, "Current password is incorrect"))
              && (encoder.matches(req.currentPassword, user.password) && req.newPassword != req.confirmPassword ==>
                    r == Fail(BadRequest, "New password and confirmation do not match"))
              && (encoder.matches(req.currentPassword, user.password) && req.newPassword == req.confirmPassword ==>
                    r == Ok(Save(users, user.(password := encoder.encode(req.newPassword)))))
  {
    var user :- GetCurrentUser(users, principal);
    if !encoder.matches(req.currentPassword, user.password) then Fail(BadRequest, "Current password is incorrect")
    else if req.newPassword != req.confirmPassword then Fail(BadRequest, "New password and confirmation do not match")
    else Ok(Save(users, user.(password := encoder.encode(req.newPassword))))
  }
}
