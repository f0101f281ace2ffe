/** Two runs of the page driven only through its handlers' contracts. */
module Scenarios {
  import opened Wrappers
  import opened Listing
  import opened Upload
  import opened CreateListing

  function Png(name: string): LocalFile {
    LocalFile(name, 1000, 1700000000000, "image/png")
  }

  lemma PngIsAccepted(files: seq<LocalFile>)
    requires forall i :: 0 <= i < |files| ==> files[i] == Png(files[i].name)
    ensures forall i :: 0 <= i < |files| ==> IsAcceptedImage(files[i])
  {
    assert StartsWith("image/png", "image/");
  }

  /** An image host that refuses the second request of a batch. */
  function RefuseSecond(i: nat, e: StagedFile): Transfer {
    if i == 1 then Transfer([40], Loaded(400, Parsed(JsonObject(None, Some("Invalid image file")))))
    else Transfer([100], Loaded(200, Parsed(JsonObject(Some("https://img/" + e.name), None))))
  }

  function Clock(i: nat): string {
    "2024-01-01T00:00:00.000Z"
  }

  /** A batch of three whose second request is refused stops there, after
      exactly two requests, with the service's message. */
  lemma StopsAfterTwoRequests(batch: seq<StagedFile>)
    requires |batch| == 3
    ensures UploadFrom(batch, RefuseSecond, Clock, 0) == Stopped(1, "Invalid image file")
    ensures Attempts(UploadFrom(batch, RefuseSecond, Clock, 0), |batch|) == 2
    ensures ProgressAfter(batch, RefuseSecond, 2) == map[batch[0].id := 100][batch[1].id := 40]
  {
    assert RefuseSecond(0, batch[0]).progress == [100];
    assert RefuseSecond(1, batch[1]).progress == [40];
    assert ProgressAfter(batch, RefuseSecond, 1) == map[batch[0].id := 100];
  }

  /** Three staged files whose second upload is refused: the batch stops
      after two requests, the draft gets no image, the staged files stay and
      the service's message is shown. */
  method SecondUploadFails() {
    var page := new CreateListingPage();
    var selection := [Png("a"), Png("b"), Png("c")];
    PngIsAccepted(selection);
    page.HandleFileChange(selection);
    assert |page.files| == 3;
    var staged := page.files;
    assert page.formData.imageUrls == [] && |staged| + |page.formData.imageUrls| <= MaxImages;
    StopsAfterTwoRequests(staged);
    ghost var outcome := UploadFrom(staged, RefuseSecond, Clock, 0);
    assert outcome == Stopped(1, "Invalid image file");
    page.HandleImageUpload(RefuseSecond, Clock);
    assert page.formData.imageUrls == [] && page.files == staged;
    assert page.imageUploadError == UploadErrorPrefix + "Invalid image file";
    assert !page.uploading;
    assert page.uploadProgress == ProgressAfter(staged, RefuseSecond, 2);
  }

  /** The cap on selection counts uploaded images only, so two selections of
      four stage eight files; the upload button then refuses the batch. */
  method StagedFilesEscapeTheSelectionCap() {
    var page := new CreateListingPage();
    var four := [Png("1"), Png("2"), Png("3"), Png("4")];
    PngIsAccepted(four);
    page.HandleFileChange(four);
    assert |page.files| == 4;
    page.HandleFileChange(four);
    assert |page.files| == 8 && page.imageUploadError == "";
    var staged := page.files;
    page.HandleImageUpload((i: nat, e: StagedFile) => Transfer([], Errored), Clock);
    assert page.imageUploadError == CapOnUploadError && page.files == staged;
  }
}
