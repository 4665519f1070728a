/** The profile page (`src/pages/dashboard/UserProfile.tsx`): the editable
    fields, the save, the cancel that restores them, and the avatar upload
    with its type and size checks. */
module UserProfile {
  import opened Wrappers
  import opened Strings

  /** The signed-in user as the page reads it; only the name is required. */
  datatype ProfileUser = ProfileUser(name: string, phone: Option<string>, address: Option<string>,
                                     city: Option<string>, country: Option<string>,
                                     postalCode: Option<string>, bio: Option<string>)

  /** The seven editable fields, `""` when empty. */
  datatype Fields = Fields(name: string, phone: string, address: string, city: string,
                           country: string, postalCode: string, bio: string)

  /** The page's state; `""` means no message is shown. */
  datatype Profile = Profile(editing: bool, fields: Fields, loading: bool, uploading: bool,
                             success: string, error: string)

  const SavedMessage := "Profil ba\U{15F}ar\U{131}yla g\U{FC}ncellendi!"
  const SaveFailedMessage := "Profil g\U{FC}ncellenemedi!"
  const NotImageMessage := "L\U{FC}tfen bir resim dosyas\U{131} se\U{E7}in!"
  const TooLargeMessage := "Dosya boyutu 5MB'dan k\U{FC}\U{E7}\U{FC}k olmal\U{131}d\U{131}r!"
  const AvatarSavedMessage := "Profil foto\U{11F}raf\U{131} g\U{FC}ncellendi!"
  const AvatarFailedMessage := "Foto\U{11F}raf y\U{FC}klenemedi!"

  /** The largest accepted avatar: five mebibytes. */
  const MaxAvatarBytes: nat := 5 * 1024 * 1024

  /** The first render: each field from the user (`user?.x || ''`), not
      editing, no message. */
  function Initial(user: Option<ProfileUser>): (p: Profile)
    ensures !p.editing && !p.loading && !p.uploading && p.success == "" && p.error == ""
    ensures user.None? ==> p.fields == Fields("", "", "", "", "", "", "")
    ensures user.Some? ==> p.fields.name == user.value.name && p.fields.bio == OrElse(user.value.bio, "")
  {
    var f := match user
      case None => Fields("", "", "", "", "", "", "")
      case Some(u) =>
        Fields(OrElse(Some(u.name), ""), OrElse(u.phone, ""), OrElse(u.address, ""), OrElse(u.city, ""),
               OrElse(u.country, ""), OrElse(u.postalCode, ""), OrElse(u.bio, ""));
    Profile(false, f, false, false, "", "")
  }

  /** Typing into the form replaces the fields and nothing else. */
  function Edit(p: Profile, f: Fields): (r: Profile)
    ensures r.fields == f && r == p.(fields := f)
  {
    p.(fields := f)
  }

  /** The cancel button: leave edit mode, put back every field from the user
      (`user.name`, the others `|| ''`) and clear the error. */
  function Cancel(p: Profile, u: ProfileUser): (r: Profile)
    ensures !r.editing && r.error == ""
    ensures r.loading == p.loading && r.uploading == p.uploading && r.success == p.success
    ensures r.fields.name == u.name && r.fields.phone == OrElse(u.phone, "")
    ensures r.fields.address == OrElse(u.address, "") && r.fields.city == OrElse(u.city, "")
    ensures r.fields.country == OrElse(u.country, "") && r.fields.postalCode == OrElse(u.postalCode, "")
    ensures r.fields.bio == OrElse(u.bio, "")
  {
    p.(editing := false, error := "",
       fields := Fields(u.name, OrElse(u.phone, ""), OrElse(u.address, ""), OrElse(u.city, ""),
                        OrElse(u.country, ""), OrElse(u.postalCode, ""), OrElse(u.bio, "")))
  }

  /** Whatever was typed, cancelling brings back the fields the page opened
      with, and cancelling twice is cancelling once. */
  lemma CancelRestores(p: Profile, typed: Fields, u: ProfileUser)
    ensures Cancel(Edit(p, typed), u).fields == Initial(Some(u)).fields
    ensures Cancel(Cancel(p, u), u) == Cancel(p, u)
    ensures Cancel(Edit(p, typed), u) == Cancel(p, u)
  {
  }

  /** The effect of a save: the fields sent, and the state afterwards. */
  datatype SaveEffect = SaveEffect(call: Fields, state: Profile)

  /** `handleSave`: the seven fields are sent as they are; success shows the
      confirmation and leaves edit mode; failure shows the error's message or
      the default and stays in edit mode. Loading ends either way. */
  function Save(p: Profile, update: Fields -> Result<()>): (r: SaveEffect)
    ensures r.call == p.fields && r.state.fields == p.fields && !r.state.loading
    ensures r.state.uploading == p.uploading
    ensures update(p.fields).Success? ==> r.state.success == SavedMessage && r.state.error == "" && !r.state.editing
    ensures update(p.fields).Failure? ==>
      r.state.success == "" && r.state.editing == p.editing
      && r.state.error == OrElse(Some(update(p.fields).error), SaveFailedMessage)
  {
    var started := p.(loading := true, success := "", error := "");
    match update(p.fields)
    case Success(_) => SaveEffect(p.fields, started.(success := SavedMessage, editing := false, loading := false))
    case Failure(e) => SaveEffect(p.fields, started.(error := OrElse(Some(e), SaveFailedMessage), loading := false))
  }

  /** A failed save never loses what was typed: cancelling afterwards is the
      only way back to the stored values. */
  lemma FailedSaveKeepsEdits(p: Profile, update: Fields -> Result<()>, u: ProfileUser)
    requires update(p.fields).Failure?
    ensures Save(p, update).state.fields == p.fields && Save(p, update).state.editing == p.editing
    ensures Cancel(Save(p, update).state, u).fields == Initial(Some(u)).fields
  {
  }

  /** The selected file: its MIME type and its size in bytes. */
  datatype FileInfo = FileInfo(mimeType: string, size: nat)

  /** What the upload checks let through: an `image/` type of at most
      five mebibytes. */
  predicate AcceptableAvatar(f: FileInfo) {
    StartsWith(f.mimeType, "image/") && f.size <= MaxAvatarBytes
  }

  datatype AvatarEffect = AvatarEffect(call: Option<FileInfo>, state: Profile)

  /** `handleAvatarUpload`: no file does nothing; a non-image type is
      rejected, then an oversized file; only then is the file uploaded.
      Success shows the confirmation; failure shows the error's message or
      the default. Uploading ends either way. */
  function AvatarUpload(p: Profile, file: Option<FileInfo>, upload: FileInfo -> Result<()>): (r: AvatarEffect)
    ensures r.call.Some? <==> file.Some? && AcceptableAvatar(file.value)
    ensures r.call.Some? ==> r.call.value == file.value
    ensures r.state.fields == p.fields && r.state.editing == p.editing && r.state.loading == p.loading
    ensures file.None? ==> r.state == p
    ensures file.Some? && !StartsWith(file.value.mimeType, "image/") ==> r.state == p.(error := NotImageMessage)
    ensures file.Some? && StartsWith(file.value.mimeType, "image/") && file.value.size > MaxAvatarBytes ==>
      r.state == p.(error := TooLargeMessage)
    ensures r.call.Some? ==> !r.state.uploading
    ensures r.call.Some? && upload(file.value).Success? ==> r.state.success == AvatarSavedMessage && r.state.error == ""
    ensures r.call.Some? && upload(file.value).Failure? ==>
      r.state.success == p.success && r.state.error == OrElse(Some(upload(file.value).error), AvatarFailedMessage)
  {
    match file
    case None => AvatarEffect(None, p)
    case Some(f) =>
      if !StartsWith(f.mimeType, "image/") then AvatarEffect(None, p.(error := NotImageMessage))
      else if f.size > MaxAvatarBytes then AvatarEffect(None, p.(error := TooLargeMessage))
      else
        var started := p.(uploading := true, error := "");
        match upload(f)
        case Success(_) => AvatarEffect(Some(f), started.(success := AvatarSavedMessage, uploading := false))
        case Failure(e) => AvatarEffect(Some(f), started.(error := OrElse(Some(e), AvatarFailedMessage), uploading := false))
  }

  /** The type check comes first: a non-image file gets the type message
      whatever its size; the size bound is inclusive, so exactly five
      mebibytes is uploaded and one byte more is not. */
  lemma AvatarChecksOrder(p: Profile, mimeType: string, size: nat, upload: FileInfo -> Result<()>)
    ensures !StartsWith(mimeType, "image/") ==>
      AvatarUpload(p, Some(FileInfo(mimeType, size)), upload).state.error == NotImageMessage
    ensures StartsWith(mimeType, "image/") ==>
      AvatarUpload(p, Some(FileInfo(mimeType, MaxAvatarBytes)), upload).call.Some?
      && AvatarUpload(p, Some(FileInfo(mimeType, MaxAvatarBytes + 1)), upload).call.None?
      && AvatarUpload(p, Some(FileInfo(mimeType, MaxAvatarBytes + 1)), upload).state.error == TooLargeMessage
    ensures AvatarUpload(p, Some(FileInfo("image/png", size)), upload).call.Some? <==> size <= 5242880
  {
    assert StartsWith("image/png", "image/");
  }
}
