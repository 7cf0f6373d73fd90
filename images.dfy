/**
 * The admission checks of routes/imageRoutes.js as decisions: which
 * outcome an upload request or a delete request gets, given what the request
 * carries and what the image host answered.
 */
module Images {
  import opened Wrappers
  import opened Text

  /** The upload size bound: 2 MiB. */
  const MaxUploadBytes: nat := 2 * 1024 * 1024

  /** The accepted MIME types. */
  const AllowedTypes: seq<string> := ["image/jpeg", "image/png", "image/gif", "image/webp"]

  /** `isValidFileType`: membership in the whitelist, compared exactly. */
  function IsValidFileType(mimetype: string): (r: bool)
    ensures r <==> mimetype == "image/jpeg" || mimetype == "image/png" ||
                   mimetype == "image/gif" || mimetype == "image/webp"
  {
    mimetype in AllowedTypes
  }

  /** The comparison is exact: no other image type and no other spelling is accepted. */
  lemma FileTypeExamples()
    ensures IsValidFileType("image/png")
    ensures !IsValidFileType("image/svg+xml") && !IsValidFileType("IMAGE/PNG") && !IsValidFileType("")
  {
  }

  /** An uploaded file as the upload middleware describes it. */
  datatype UploadedFile = UploadedFile(size: nat, mimetype: string)

  datatype UploadOutcome =
    | NoFiles                 // 400
    | TooLarge                // 400
    | InvalidType             // 400
    | Uploaded(folder: string)// 200, stored under `folder`
    | UploadFailed            // 500

  /** The folder an accepted upload of user `userId` goes to. */
  function UserFolder(userId: string): string
  {
    "emailbuilder/" + userId
  }

  /**
   * The upload route. No files at all is refused first. The file must sit
   * under the field `image`: a request with files but none under that name
   * fails with a server error when its size is read. Then the size bound is
   * checked, then the type, and only then is the file sent to the host,
   * whose failure is a server error.
   */
  function Upload(files: map<string, UploadedFile>, userId: string, hostOk: bool): (r: UploadOutcome)
    ensures r == NoFiles <==> files == map[]
    ensures r == TooLarge <==> "image" in files && files["image"].size > MaxUploadBytes
    ensures r == InvalidType <==>
              "image" in files && files["image"].size <= MaxUploadBytes && !IsValidFileType(files["image"].mimetype)
    ensures r.Uploaded? <==>
              "image" in files && files["image"].size <= MaxUploadBytes && IsValidFileType(files["image"].mimetype) && hostOk
    ensures r.Uploaded? ==> r.folder == UserFolder(userId)
    ensures r == UploadFailed <==> files != map[] && ("image" !in files || (files["image"].size <= MaxUploadBytes && IsValidFileType(files["image"].mimetype) && !hostOk))
  {
    if files == map[] then NoFiles
    else if "image" !in files then UploadFailed
    else
      var file := files["image"];
      if file.size > MaxUploadBytes then TooLarge
      else if !IsValidFileType(file.mimetype) then InvalidType
      else if !hostOk then UploadFailed
      else Uploaded(UserFolder(userId))
  }

  /** The HTTP status of an upload outcome. */
  function UploadStatus(r: UploadOutcome): nat
  {
    match r
    case NoFiles => 400
    case TooLarge => 400
    case InvalidType => 400
    case Uploaded(_) => 200
    case UploadFailed => 500
  }

  /** The size is checked before the type: a file that is too large and of a bad type reports the size. */
  lemma SizeCheckedFirst(file: UploadedFile, userId: string, hostOk: bool)
    requires file.size > MaxUploadBytes && !IsValidFileType(file.mimetype)
    ensures Upload(map["image" := file], userId, hostOk) == TooLarge
  {
  }

  /** The bound is inclusive: a file of exactly 2 MiB of an accepted type is stored. */
  lemma ExactLimitAccepted(userId: string)
    ensures Upload(map["image" := UploadedFile(2097152, "image/jpeg")], userId, true) == Uploaded(UserFolder(userId))
    ensures Upload(map["image" := UploadedFile(2097153, "image/jpeg")], userId, true) == TooLarge
  {
  }

  /** Every outcome other than a stored upload is an error status. */
  lemma UploadStatusIsError(files: map<string, UploadedFile>, userId: string, hostOk: bool)
    ensures (UploadStatus(Upload(files, userId, hostOk)) == 200) <==> Upload(files, userId, hostOk).Uploaded?
    ensures Upload(files, userId, hostOk).Uploaded? ==> files != map[]
  {
  }

  // ---------------------------------------------------------------------
  // Deleting.
  // ---------------------------------------------------------------------

  datatype DeleteOutcome =
    | MissingPublicId   // 400
    | AccessDenied      // 403
    | DeleteRejected    // 400, the host did not answer "ok"
    | Deleted           // 200
    | DeleteFailed      // 500, the host call threw

  /**
   * The delete route. An empty public id is refused first; then the id must
   * contain the user's folder name somewhere; then the host's answer decides:
   * none (the call threw) is a server error, anything but `ok` is a refusal.
   */
  function Delete(publicId: string, userId: string, hostResult: Option<string>): (r: DeleteOutcome)
    ensures r == MissingPublicId <==> publicId == ""
    ensures r == AccessDenied <==> publicId != "" && !Contains(publicId, UserFolder(userId))
    ensures r == Deleted <==> publicId != "" && Contains(publicId, UserFolder(userId)) && hostResult == Some("ok")
    ensures r == DeleteRejected <==>
              publicId != "" && Contains(publicId, UserFolder(userId)) && hostResult.Some? && hostResult.value != "ok"
    ensures r == DeleteFailed <==> publicId != "" && Contains(publicId, UserFolder(userId)) && hostResult.None?
  {
    if publicId == "" then MissingPublicId
    else if !Contains(publicId, UserFolder(userId)) then AccessDenied
    else if hostResult.None? then DeleteFailed
    else if hostResult.value != "ok" then DeleteRejected
    else Deleted
  }

  /** The HTTP status of a delete outcome. */
  function DeleteStatus(r: DeleteOutcome): nat
  {
    match r
    case MissingPublicId => 400
    case AccessDenied => 403
    case DeleteRejected => 400
    case Deleted => 200
    case DeleteFailed => 500
  }

  /** An image stored by an accepted upload, whatever name the host gives it in the folder, passes the ownership test of its uploader. */
  lemma OwnUploadsDeletable(files: map<string, UploadedFile>, userId: string, hostOk: bool, name: string)
    requires Upload(files, userId, hostOk).Uploaded?
    ensures var publicId := Upload(files, userId, hostOk).folder + "/" + name;
            Delete(publicId, userId, Some("ok")) == Deleted
  {
    var folder := UserFolder(userId);
    var publicId := folder + "/" + name;
    assert publicId[0..|folder|] == folder;
    assert OccursAt(publicId, folder, 0);
  }

  /** The ownership test is a substring test: the folder name need not be a prefix. */
  lemma OwnershipIsSubstring()
    ensures Delete("archive/emailbuilder/42/pic", "42", Some("ok")) == Deleted
    ensures Delete("emailbuilder/7/pic", "42", Some("ok")) == AccessDenied
    ensures Delete("emailbuilder/42/pic", "4", Some("ok")) == Deleted
  {
    assert OccursAt("emailbuilder/42/pic", UserFolder("4"), 0);
    var s, p := "archive/emailbuilder/42/pic", UserFolder("42");
    assert s[8..8 + |p|] == p;
    assert OccursAt(s, p, 8);
    var t := "emailbuilder/7/pic";
    assert p[13] == '4';
    assert forall k :: 0 <= k < |t| ==> t[k] != '4';
    assert !Contains(t, p);
  }

  /** Deleting an image the host no longer has is not a success, so repeating a delete is refused. */
  lemma RepeatedDeleteRefused(publicId: string, userId: string)
    requires publicId != "" && Contains(publicId, UserFolder(userId))
    ensures Delete(publicId, userId, Some("not found")) == DeleteRejected
    ensures DeleteStatus(Delete(publicId, userId, Some("not found"))) == 400
  {
  }

  /** An empty id is refused before ownership is looked at, whoever asks. */
  lemma EmptyIdFirst(userId: string, hostResult: Option<string>)
    ensures DeleteStatus(Delete("", userId, hostResult)) == 400
  {
  }
}
