/** The add-plant form: the field checks run before submission, and the submission itself,
    which uploads the photo, then inserts the plant, then navigates to the new plant's page. */
module AddForm {
  import opened Wrappers
  import opened Store
  import Actions
  import opened CommonNames

  /** Largest accepted photo, in bytes (10 MB). */
  const MaxFileSize: nat := 10 * 1024 * 1024

  const AcceptedFileTypes: seq<string> := ["image/jpeg", "image/png", "image/webp"]

  /** The selected file: its MIME type and size in bytes. */
  datatype ImageFile = ImageFile(mimeType: string, size: nat)

  /** The form's values; `imageFile` is None when no file was chosen. */
  datatype FormData = FormData(
    scientificName: string,
    commonNames: string,
    plantDescription: string,
    imageFile: Option<ImageFile>)

  /** The schema's verdict: the messages shown under each field, in the schema's order. */
  datatype FieldErrors = FieldErrors(
    scientificName: seq<string>,
    commonNames: seq<string>,
    plantDescription: seq<string>,
    imageFile: seq<string>)
  {
    predicate Passed() {
      scientificName == [] && commonNames == [] && plantDescription == [] && imageFile == []
    }
  }

  /** The message of a check that failed, or nothing. */
  function Check(failed: bool, message: string): (messages: seq<string>)
    ensures messages != [] <==> failed
  {
    if failed then [message] else []
  }

  /** The scientific name is required and must not be one of the names already catalogued
      (an exact, case-sensitive comparison). */
  function ScientificNameErrors(name: string, existingNames: seq<string>): (messages: seq<string>)
    ensures messages != [] <==> name == "" || name in existingNames
  {
    Check(|name| < 1, "Scientific name is required")
    + Check(name in existingNames, "Scientific name already exists")
  }

  /** The photo must be a JPEG, PNG or WebP file of at most 10 MB. */
  predicate AcceptedFile(f: ImageFile) {
    f.mimeType in AcceptedFileTypes && f.size <= MaxFileSize
  }

  /** The limits at their edges: each accepted type passes at exactly 10 MB and fails one byte
      over; `image/jpg`, `image/gif` and an empty type fail at any size; and a file that passes
      still passes when it is smaller. */
  lemma AcceptedFileLimits(f: ImageFile, smaller: nat, size: nat)
    requires AcceptedFile(f) && smaller <= f.size
    ensures AcceptedFile(ImageFile(f.mimeType, smaller))
    ensures AcceptedFile(ImageFile("image/jpeg", 10485760)) && !AcceptedFile(ImageFile("image/jpeg", 10485761))
    ensures AcceptedFile(ImageFile("image/png", 10485760)) && !AcceptedFile(ImageFile("image/png", 10485761))
    ensures AcceptedFile(ImageFile("image/webp", 10485760)) && !AcceptedFile(ImageFile("image/webp", 10485761))
    ensures !AcceptedFile(ImageFile("image/jpg", size)) && !AcceptedFile(ImageFile("image/gif", size))
    ensures !AcceptedFile(ImageFile("", size))
  {
  }

  /** A missing file stops the file checks; otherwise the type and the size are both checked. */
  function ImageFileErrors(file: Option<ImageFile>): (messages: seq<string>)
    ensures messages != [] <==> file.None? || !AcceptedFile(file.value)
    ensures file.None? ==> |messages| == 1
  {
    match file
    case None => Check(true, "Image file is required")
    case Some(f) =>
      Check(f.mimeType !in AcceptedFileTypes, "Only JPG, JPEG, PNG, and WEBP files are accepted.")
      + Check(f.size > MaxFileSize, "File size must be less than 10MB.")
  }

  /** The schema check. The submission runs only when it passes. */
  function Validate(d: FormData, existingNames: seq<string>): (v: FieldErrors)
    ensures v.scientificName != [] <==> d.scientificName == "" || d.scientificName in existingNames
    ensures v.commonNames != [] <==> d.commonNames == ""
    ensures v.plantDescription != [] <==> d.plantDescription == ""
    ensures v.imageFile != [] <==> d.imageFile.None? || !AcceptedFile(d.imageFile.value)
    ensures v.Passed() <==>
      && d.scientificName != "" && d.scientificName !in existingNames
      && d.commonNames != "" && d.plantDescription != ""
      && d.imageFile.Some? && AcceptedFile(d.imageFile.value)
  {
    assert |d.commonNames| < 1 <==> d.commonNames == "";
    assert |d.plantDescription| < 1 <==> d.plantDescription == "";
    FieldErrors(
      ScientificNameErrors(d.scientificName, existingNames),
      Check(|d.commonNames| < 1, "Common name(s) is required"),
      Check(|d.plantDescription| < 1, "Plant description is required"),
      ImageFileErrors(d.imageFile))
  }

  /** The image upload's answer: whether the response was ok, and the link and hash it carries. */
  datatype UploadResponse = UploadResponse(ok: bool, link: string, hash: string)

  /** What a submission leaves behind: the entry it sent to the insert action (if any) and that
      action's answer, where the browser was sent, the toast titles shown, whether the form is
      still marked as submitting, and the world. */
  datatype Submission = Submission(
    request: Option<Actions.Entry>,
    response: Option<Response>,
    navigatedTo: Option<string>,
    toasts: seq<string>,
    submitting: bool,
    world: World)

  const SuccessToast: string := "Image uploaded successfully!"
  const ErrorToast: string := "Error uploading image"

  /** `onSubmit`: upload the photo (a successful upload adds its hash to the image host), and
      only if the upload answered ok insert the plant with the upload's link and hash and the
      parsed common names; navigate only when the insert succeeded with a redirect URL. A failed
      insert shows no toast at all. */
  function OnSubmit(d: FormData, upload: UploadResponse, w: World, caller: Option<Id>, o: Oracle): (r: Submission)
    ensures !r.submitting
    ensures r.request.Some? <==> upload.ok
    ensures r.response.Some? <==> upload.ok
    ensures !upload.ok ==> r.world == w && r.navigatedTo.None? && r.toasts == [ErrorToast]
    ensures upload.ok ==>
      && r.request.value.imageLink == upload.link
      && r.request.value.imageHash == upload.hash
      && r.request.value.scientificName == d.scientificName
      && r.request.value.description == d.plantDescription
      && r.request.value.commonNames == ParseCommonNames(d.commonNames)
      && upload.hash in r.world.host
    ensures r.navigatedTo.Some? <==>
      r.response.Some? && r.response.value.success && r.response.value.redirectUrl.Some?
    ensures r.navigatedTo.Some? ==>
      && r.response.value.plantId.Some?
      && var id := r.response.value.plantId.value;
      && r.navigatedTo == Some(PlantPath(id))
      && id in r.world.plants
      && r.world.plants[id].photoLink == upload.link
      && r.world.plants[id].imgurHash == upload.hash
      && r.toasts == [SuccessToast]
    ensures upload.ok && !r.response.value.success ==>
      r.world.plants == w.plants && r.navigatedTo.None? && r.toasts == []
  {
    var names := ParseCommonNames(d.commonNames);
    if !upload.ok then Submission(None, None, None, [ErrorToast], false, w)
    else
      var w1 := w.(host := w.host + {upload.hash});
      var entry := Actions.Entry(d.scientificName, names, d.plantDescription, upload.link, upload.hash);
      var s := Actions.AddEntry(w1, caller, entry, o);
      if !s.response.success then Submission(Some(entry), Some(s.response), None, [], false, s.world)
      else if s.response.redirectUrl.Some? then
        Submission(Some(entry), Some(s.response), s.response.redirectUrl, [SuccessToast], false, s.world)
      else
        Submission(Some(entry), Some(s.response), None, [SuccessToast, ErrorToast], false, s.world)
  }

  /** `form.handleSubmit(onSubmit)`: the submission runs only when the schema check passes;
      otherwise nothing is uploaded or inserted. */
  function HandleSubmit(d: FormData, existingNames: seq<string>, upload: UploadResponse, w: World,
                        caller: Option<Id>, o: Oracle): (r: Submission)
    ensures !Validate(d, existingNames).Passed() ==> r.world == w && r.request.None? && r.navigatedTo.None?
    ensures r.request.Some? ==>
      && upload.ok
      && r.request.value.scientificName != ""
      && r.request.value.scientificName !in existingNames
      && |r.request.value.commonNames| == Occurrences(d.commonNames, ',') + 1
  {
    if !Validate(d, existingNames).Passed() then Submission(None, None, None, [], false, w)
    else OnSubmit(d, upload, w, caller, o)
  }

  /** An insert that succeeds always navigates: the insert action sets a redirect URL whenever it
      succeeds, so the "Redirect URL is undefined" branch is never taken. */
  lemma SuccessfulInsertNavigates(d: FormData, upload: UploadResponse, w: World, caller: Option<Id>, o: Oracle)
    requires upload.ok
    requires OnSubmit(d, upload, w, caller, o).response.value.success
    ensures OnSubmit(d, upload, w, caller, o).navigatedTo.Some?
  {
  }

  /** A failed insert after a successful upload orphans the uploaded photo: its hash is live on
      the image host and no plant row is added. */
  lemma FailedInsertOrphansUpload(d: FormData, upload: UploadResponse, w: World, caller: Option<Id>, o: Oracle)
    requires upload.ok && (caller.None? || o.insertFails)
    ensures
      var r := OnSubmit(d, upload, w, caller, o);
      && upload.hash in r.world.host
      && r.world.plants == w.plants
      && r.navigatedTo.None?
  {
  }
}
