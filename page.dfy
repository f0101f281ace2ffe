/** The CreateListing page's state and its event handlers. Each handler runs
    to completion here: the page's state after an await-ing handler is its
    state once every update the handler scheduled has been applied. */
module CreateListing {
  import opened Wrappers
  import opened Seqs
  import opened Listing
  import opened Upload

  class CreateListingPage {
    /** Files chosen but not uploaded yet, in selection order. */
    var files: seq<StagedFile>
    /** Last reported upload percentage per staged-file id. */
    var uploadProgress: map<string, int>
    var uploading: bool
    var imageUploadError: string
    var loading: bool
    var error: string
    var formData: Draft
    /** The route last handed to the router, if any. */
    var route: Option<string>

    /** The draft never holds more than six images. */
    ghost predicate Valid()
      reads this
    {
      |formData.imageUrls| <= MaxImages
    }

    constructor ()
      ensures Valid()
      ensures files == [] && uploadProgress == map[] && !uploading && imageUploadError == ""
      ensures !loading && error == "" && formData == InitialDraft && route == None
    {
      files := [];
      uploadProgress := map[];
      uploading := false;
      imageUploadError := "";
      loading := false;
      error := "";
      formData := InitialDraft;
      route := None;
    }

    /** File selection. A selection that would take the uploaded images past
        six is refused whole (files already staged are not counted); otherwise
        the accepted files are staged after the current ones, and the error
        says whether any file was dropped. */
    method HandleFileChange(selected: seq<LocalFile>)
      requires Valid()
      modifies this`files, this`imageUploadError
      ensures Valid()
      ensures |selected| + |formData.imageUrls| > MaxImages ==>
                files == old(files) && imageUploadError == CapOnSelectError
      ensures |selected| + |formData.imageUrls| <= MaxImages ==>
                && files == old(files) + StageAccepted(selected)
                && imageUploadError == if forall i :: 0 <= i < |selected| ==> IsAcceptedImage(selected[i])
                                       then "" else InvalidFilesError
    {
      if |selected| + |formData.imageUrls| > MaxImages {
        imageUploadError := CapOnSelectError;
        return;
      }
      var staged := StageAccepted(selected);
      if |staged| < |selected| {
        imageUploadError := InvalidFilesError;
      } else {
        imageUploadError := "";
      }
      files := files + staged;
    }

    /** Removing a staged file: every entry with that id goes, and so does its progress. */
    method HandleRemoveSelectedFile(id: string)
      requires Valid()
      modifies this`files, this`uploadProgress
      ensures Valid()
      ensures files == WithoutStaged(old(files), id)
      ensures uploadProgress == old(uploadProgress) - {id}
    {
      files := WithoutStaged(files, id);
      uploadProgress := uploadProgress - {id};
    }

    /** The upload button. With nothing staged, or with more staged than the
        remaining room, only the error changes. Otherwise the staged files
        are uploaded in order; if all succeed their images are appended to
        the draft and the staging area is cleared, and at the first failure
        the draft and the staged files stay as they were. */
    method HandleImageUpload(server: (nat, StagedFile) -> Transfer, clock: nat -> string)
      requires Valid()
      modifies this`files, this`uploadProgress, this`uploading, this`imageUploadError, this`formData
      ensures Valid()
      ensures old(files) == [] ==>
                && imageUploadError == NoFilesError && files == old(files) && formData == old(formData)
                && uploadProgress == old(uploadProgress) && uploading == old(uploading)
      ensures old(files) != [] && |old(files)| + |old(formData.imageUrls)| > MaxImages ==>
                && imageUploadError == CapOnUploadError && files == old(files) && formData == old(formData)
                && uploadProgress == old(uploadProgress) && uploading == old(uploading)
      ensures old(files) != [] && |old(files)| + |old(formData.imageUrls)| <= MaxImages ==>
                var outcome := UploadFrom(old(files), server, clock, 0);
                && !uploading
                && (outcome.AllUploaded? ==>
                      && formData == old(formData).(imageUrls := old(formData.imageUrls) + outcome.images)
                      && files == [] && uploadProgress == map[] && imageUploadError == "")
                && (outcome.Stopped? ==>
                      && formData == old(formData) && files == old(files) && outcome.at < |old(files)|
                      && uploadProgress == ProgressAfter(old(files), server, outcome.at + 1)
                      && imageUploadError == UploadErrorPrefix + outcome.message)
    {
      if |files| == 0 {
        imageUploadError := NoFilesError;
        return;
      }
      if |files| + |formData.imageUrls| > MaxImages {
        imageUploadError := CapOnUploadError;
        return;
      }
      uploading := true;
      imageUploadError := "";
      uploadProgress := map[];
      var outcome, progress := UploadBatch(files, server, clock);
      UploadFromMeaning(files, server, clock, 0);
      uploadProgress := progress;
      match outcome {
        case AllUploaded(images) =>
          formData := formData.(imageUrls := formData.imageUrls + images);
          files := [];
          uploadProgress := map[];
        case Stopped(_, message) =>
          imageUploadError := UploadErrorPrefix + message;
      }
      uploading := false;
    }

    /** Deleting the uploaded image at `index`. */
    method HandleRemoveImage(index: int)
      requires Valid()
      modifies this`formData
      ensures Valid()
      ensures formData == old(formData).(imageUrls := WithoutIndex(old(formData.imageUrls), index))
    {
      formData := formData.(imageUrls := WithoutIndex(formData.imageUrls, index));
    }

    /** A change event from one of the form's inputs. */
    method HandleChange(target: InputTarget)
      requires Valid() && IsFormInput(target)
      modifies this`formData
      ensures Valid()
      ensures formData == ApplyChange(old(formData), target)
    {
      formData := ApplyChange(formData, target);
    }

    /** Submission. A draft failing the checks only sets the error and sends
        nothing. Otherwise the draft and the user's id are posted (the
        returned request), the error is cleared, and the reply either sets
        the error or navigates to the new listing. */
    method HandleSubmit(userRef: string, reply: SubmitReply) returns (request: Option<CreateRequest>)
      requires Valid()
      modifies this`error, this`loading, this`route
      ensures Valid()
      ensures ValidateDraft(formData).Some? ==>
                && request == None && error == ValidateDraft(formData).value
                && loading == old(loading) && route == old(route)
      ensures ValidateDraft(formData).None? ==>
                && request == Some(CreateRequest(formData, userRef)) && !loading
                && match ClassifySubmitReply(reply)
                   case Rejected(message) => error == message && route == old(route)
                   case Navigate(to) => error == "" && route == Some(to)
    {
      var invalid := ValidateDraft(formData);
      if invalid.Some? {
        error := invalid.value;
        return None;
      }
      loading := true;
      error := "";
      request := Some(CreateRequest(formData, userRef));
      loading := false;
      match ClassifySubmitReply(reply)
      case Rejected(message) =>
        error := message;
      case Navigate(to) =>
        route := Some(to);
    }
  }
}
