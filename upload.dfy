/** Uploading staged files to the image host: how one finished request is
    read (status code and JSON body), and the batch loop that sends the staged
    files one at a time and stops at the first failure. The network is an
    oracle: `server(i, entry)` is what the i-th request of the batch, for that
    entry, did; `clock(i)` is the time text taken when it finished. */
module Upload {
  import opened Wrappers
  import opened Listing

  const ParseFailedError := "Upload succeeded but parsing failed"
  const UploadFailedError := "Upload failed"
  const NetworkError := "Network or CORS error"

  /** The parsed response text: `null`; an object with its `secure_url` and
      its `error.message` when these are present and non-empty; or any other
      JSON value (an array, a number, a string, a boolean), on which both
      properties read as `undefined`. */
  datatype Json = JsonNull | JsonObject(secureUrl: Option<string>, errorMessage: Option<string>) | JsonOther

  /** `res.secure_url || ""` for a value that is not `null`. */
  function UrlOf(json: Json): string
    requires !json.JsonNull?
  {
    if json.JsonObject? then json.secureUrl.GetOr("") else ""
  }

  /** The response text: not JSON at all, or parsed. */
  datatype Body = Unparseable | Parsed(json: Json)

  /** How the request ended: the load event with its status, or the error event. */
  datatype XhrResponse = Loaded(status: int, body: Body) | Errored

  /** One request as the page saw it: the percentages its progress events
      reported, in order, then how it ended. */
  datatype Transfer = Transfer(progress: seq<int>, response: XhrResponse)

  predicate IsOkStatus(status: int) {
    200 <= status < 300
  }

  /** The result of one upload: the image built from the entry, or the
      message of the error it was rejected with. A 2xx reply whose text is
      not JSON, or is JSON `null` (reading `secure_url` off it throws), is a
      parse failure; any other JSON value succeeds, with "" as the url unless
      it is an object with a `secure_url`. Any other status reports the
      body's `error.message`, falling back to "Upload failed". */
  function ClassifyUpload(entry: StagedFile, response: XhrResponse, now: string): (r: Result<UploadedImage, string>)
    ensures r.Success? <==> response.Loaded? && IsOkStatus(response.status) && response.body.Parsed? && !response.body.json.JsonNull?
    ensures r.Success? ==>
              && r.value.id == entry.id && r.value.name == entry.name && r.value.uploadedAt == now
              && r.value.url == (if response.body.json.JsonObject? then response.body.json.secureUrl.GetOr("") else "")
    ensures r.Failure? ==> r.error != ""
    ensures r.Failure? && response.Loaded? && IsOkStatus(response.status) ==> r.error == ParseFailedError
    ensures r.Failure? && response.Loaded? && !IsOkStatus(response.status) ==>
              r.error == match response.body
                         case Parsed(JsonObject(_, Some(m))) => if m == "" then UploadFailedError else m
                         case _ => UploadFailedError
    ensures response.Errored? ==> r == Failure(NetworkError)
  {
    match response
    case Errored => Failure(NetworkError)
    case Loaded(status, body) =>
      if IsOkStatus(status) then
        match body
        case Parsed(json) =>
          if json.JsonNull? then Failure(ParseFailedError)
          else Success(UploadedImage(entry.id, UrlOf(json), entry.name, now))
        case Unparseable => Failure(ParseFailedError)
      else
        match body
        case Parsed(JsonObject(_, Some(m))) => Failure(if m == "" then UploadFailedError else m)
        case _ => Failure(UploadFailedError)
  }

  /** The upload of the batch's i-th entry. */
  function Attempt(batch: seq<StagedFile>, server: (nat, StagedFile) -> Transfer, clock: nat -> string, i: nat)
    : Result<UploadedImage, string>
    requires i < |batch|
  {
    ClassifyUpload(batch[i], server(i, batch[i]).response, clock(i))
  }

  /** Every image of the batch, in staged order, or the position and message
      of the first upload that failed. */
  datatype BatchOutcome = AllUploaded(images: seq<UploadedImage>) | Stopped(at: nat, message: string)

  /** Uploading entries i.. of the batch one at a time, stopping at the first failure. */
  function UploadFrom(batch: seq<StagedFile>, server: (nat, StagedFile) -> Transfer, clock: nat -> string, i: nat)
    : (r: BatchOutcome)
    requires i <= |batch|
    ensures r.AllUploaded? ==> |r.images| == |batch| - i
    ensures r.Stopped? ==> i <= r.at < |batch|
    decreases |batch| - i
  {
    if i == |batch| then AllUploaded([])
    else match Attempt(batch, server, clock, i)
      case Failure(e) => Stopped(i, e)
      case Success(image) =>
        match UploadFrom(batch, server, clock, i + 1)
        case AllUploaded(rest) => AllUploaded([image] + rest)
        case Stopped(at, e) => Stopped(at, e)
  }

  /** The batch succeeds exactly when every upload from position i on
      succeeds, and then holds their images in staged order; otherwise it
      names the first failing position and that upload's message. */
  lemma {:induction false} UploadFromMeaning(batch: seq<StagedFile>, server: (nat, StagedFile) -> Transfer,
                                             clock: nat -> string, i: nat)
    requires i <= |batch|
    ensures var r := UploadFrom(batch, server, clock, i);
      && (r.AllUploaded? <==> forall j :: i <= j < |batch| ==> Attempt(batch, server, clock, j).Success?)
      && (r.AllUploaded? ==>
            && |r.images| == |batch| - i
            && forall j :: i <= j < |batch| ==> r.images[j - i] == Attempt(batch, server, clock, j).value)
      && (r.Stopped? ==>
            && i <= r.at < |batch|
            && Attempt(batch, server, clock, r.at) == Failure(r.message)
            && forall j :: i <= j < r.at ==> Attempt(batch, server, clock, j).Success?)
    decreases |batch| - i
  {
    if i < |batch| && Attempt(batch, server, clock, i).Success? {
      UploadFromMeaning(batch, server, clock, i + 1);
    }
  }

  /** How many uploads a batch outcome took: all of them, or up to and including the failing one. */
  function Attempts(outcome: BatchOutcome, size: nat): nat {
    match outcome
    case AllUploaded(_) => size
    case Stopped(at, _) => at + 1
  }

  /** `uploadProgress` after the first n uploads of the batch, starting from
      {}: each request's last reported percentage, keyed by its entry's id. */
  function ProgressAfter(batch: seq<StagedFile>, server: (nat, StagedFile) -> Transfer, n: nat): map<string, int>
    requires n <= |batch|
  {
    if n == 0 then map[]
    else
      var before := ProgressAfter(batch, server, n - 1);
      var events := server(n - 1, batch[n - 1]).progress;
      if events == [] then before else before[batch[n - 1].id := events[|events| - 1]]
  }

  /** The request at position j reported at least one progress event. */
  predicate Reported(batch: seq<StagedFile>, server: (nat, StagedFile) -> Transfer, j: nat)
    requires j < |batch|
  {
    server(j, batch[j]).progress != []
  }

  /** The last percentage the request at position j reported. */
  function LastReport(batch: seq<StagedFile>, server: (nat, StagedFile) -> Transfer, j: nat): int
    requires j < |batch| && Reported(batch, server, j)
  {
    var events := server(j, batch[j]).progress;
    events[|events| - 1]
  }

  /** No request after position j and before n, for an entry with j's id,
      reported progress: j's report is the last word on that id. */
  predicate LatestReportFor(batch: seq<StagedFile>, server: (nat, StagedFile) -> Transfer, j: nat, n: nat)
    requires j < n <= |batch|
  {
    forall k :: j < k < n && batch[k].id == batch[j].id ==> !Reported(batch, server, k)
  }

  /** Every request among the first n that reported progress leaves its
      entry's id in `uploadProgress`. */
  lemma {:induction false} ProgressRecordsEveryReport(batch: seq<StagedFile>, server: (nat, StagedFile) -> Transfer, n: nat)
    requires n <= |batch|
    ensures forall j :: 0 <= j < n && Reported(batch, server, j) ==> batch[j].id in ProgressAfter(batch, server, n)
  {
    if n > 0 {
      ProgressRecordsEveryReport(batch, server, n - 1);
    }
  }

  /** The value kept for an id is the last percentage of the latest request
      for that id that reported progress: an id staged twice keeps the later
      request's value. */
  lemma {:induction false} ProgressKeepsLatestReport(batch: seq<StagedFile>, server: (nat, StagedFile) -> Transfer, n: nat)
    requires n <= |batch|
    ensures forall j :: 0 <= j < n && Reported(batch, server, j) && LatestReportFor(batch, server, j, n) ==>
              && batch[j].id in ProgressAfter(batch, server, n)
              && ProgressAfter(batch, server, n)[batch[j].id] == LastReport(batch, server, j)
  {
    if n > 0 {
      ProgressKeepsLatestReport(batch, server, n - 1);
      ProgressRecordsEveryReport(batch, server, n - 1);
      forall j | 0 <= j < n - 1 && Reported(batch, server, j) && LatestReportFor(batch, server, j, n)
        ensures batch[j].id in ProgressAfter(batch, server, n)
        ensures ProgressAfter(batch, server, n)[batch[j].id] == LastReport(batch, server, j)
      {
        assert LatestReportFor(batch, server, j, n - 1);
      }
    }
  }

  /** Progress is only ever recorded for the ids of requests that were made
      and reported progress. */
  lemma {:induction false} ProgressOfAttempted(batch: seq<StagedFile>, server: (nat, StagedFile) -> Transfer, n: nat)
    requires n <= |batch|
    ensures forall id :: id in ProgressAfter(batch, server, n) ==>
              exists j :: 0 <= j < n && batch[j].id == id && Reported(batch, server, j) && LatestReportFor(batch, server, j, n)
  {
    if n > 0 {
      ProgressOfAttempted(batch, server, n - 1);
      var last := n - 1;
      forall id | id in ProgressAfter(batch, server, n)
        ensures exists j :: 0 <= j < n && batch[j].id == id && Reported(batch, server, j) && LatestReportFor(batch, server, j, n)
      {
        if Reported(batch, server, last) && batch[last].id == id {
          assert LatestReportFor(batch, server, last, n);
        } else {
          assert id in ProgressAfter(batch, server, n - 1);
          var j :| 0 <= j < n - 1 && batch[j].id == id && Reported(batch, server, j) && LatestReportFor(batch, server, j, n - 1);
          assert LatestReportFor(batch, server, j, n);
        }
      }
    }
  }

  /** Adds the images already uploaded in front of the outcome of the rest. */
  function Prepend(done: seq<UploadedImage>, rest: BatchOutcome): BatchOutcome {
    match rest
    case AllUploaded(images) => AllUploaded(done + images)
    case Stopped(at, e) => Stopped(at, e)
  }

  /** The loop of the upload handler: each entry in staged order, awaiting one
      upload before starting the next, and leaving at the first failure.
      Returns the outcome and the progress map the requests' events built. */
  method UploadBatch(batch: seq<StagedFile>, server: (nat, StagedFile) -> Transfer, clock: nat -> string)
    returns (outcome: BatchOutcome, progress: map<string, int>)
    ensures outcome == UploadFrom(batch, server, clock, 0)
    ensures outcome.Stopped? ==> outcome.at < |batch|
    ensures progress == ProgressAfter(batch, server, Attempts(outcome, |batch|))
  {
    var uploaded: seq<UploadedImage> := [];
    progress := map[];
    var i := 0;
    while i < |batch|
      invariant 0 <= i <= |batch|
      invariant UploadFrom(batch, server, clock, 0) == Prepend(uploaded, UploadFrom(batch, server, clock, i))
      invariant progress == ProgressAfter(batch, server, i)
    {
      var entry := batch[i];
      var transfer := server(i, entry);
      if transfer.progress != [] {
        progress := progress[entry.id := transfer.progress[|transfer.progress| - 1]];
      }
      assert progress == ProgressAfter(batch, server, i + 1);
      var result := Attempt(batch, server, clock, i);
      if result.Failure? {
        StopStep(batch, server, clock, i, uploaded);
        outcome := Stopped(i, result.error);
        return;
      }
      PrependStep(batch, server, clock, i, uploaded);
      uploaded := uploaded + [result.value];
      i := i + 1;
    }
    assert uploaded + [] == uploaded;
    outcome := AllUploaded(uploaded);
  }

  lemma StopStep(batch: seq<StagedFile>, server: (nat, StagedFile) -> Transfer, clock: nat -> string,
                 i: nat, done: seq<UploadedImage>)
    requires i < |batch| && Attempt(batch, server, clock, i).Failure?
    ensures Prepend(done, UploadFrom(batch, server, clock, i)) == Stopped(i, Attempt(batch, server, clock, i).error)
  {
  }

  lemma PrependStep(batch: seq<StagedFile>, server: (nat, StagedFile) -> Transfer, clock: nat -> string,
                    i: nat, done: seq<UploadedImage>)
    requires i < |batch| && Attempt(batch, server, clock, i).Success?
    ensures Prepend(done, UploadFrom(batch, server, clock, i))
         == Prepend(done + [Attempt(batch, server, clock, i).value], UploadFrom(batch, server, clock, i + 1))
  {
  }
}
