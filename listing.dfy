/** The listing draft of the CreateListing page and the pure logic around it:
    file ids, the type/size filter on selected files, the field-update
    dispatcher, the ordered submit checks and the reading of the server's reply. */
module Listing {
  import opened Wrappers
  import opened Decimal
  import opened JsNumbers
  import opened Seqs

  /** The page accepts at most this many images per listing. */
  const MaxImages: nat := 6
  /** Largest accepted file: 5 MiB. */
  const MaxFileSize: nat := 5 * 1024 * 1024

  const CapOnSelectError := "You can only upload up to 6 images."
  const InvalidFilesError := "Some files were invalid (not image or > 5MB)."
  const NoFilesError := "Please choose images first."
  const CapOnUploadError := "You can only upload a maximum of 6 images."
  const UploadErrorPrefix := "Upload error: "
  const NoImageError := "You must upload at least one image"
  const PriceError := "Discount price must be lower than regular price"
  const ListingRoute := "/listing/"

  /** A file the browser hands over on selection (its MIME type, size in bytes
      and last-modified timestamp in milliseconds). */
  datatype LocalFile = LocalFile(name: string, size: nat, lastModified: int, mimeType: string)

  /** A selected file waiting for upload. */
  datatype StagedFile = StagedFile(id: string, file: LocalFile, name: string)

  /** An image already on the image host; `uploadedAt` is the time text the
      page stamped on it. */
  datatype UploadedImage = UploadedImage(id: string, url: string, name: string, uploadedAt: string)

  /** `formData`; `dealType` is the source's `type` ("sale" or "rent"). */
  datatype Draft = Draft(
    name: string,
    description: string,
    address: string,
    dealType: string,
    parking: bool,
    furnished: bool,
    offer: bool,
    bedrooms: JsNumber,
    bathrooms: JsNumber,
    regularPrice: JsNumber,
    discountPrice: JsNumber,
    imageUrls: seq<UploadedImage>)

  const InitialDraft := Draft("", "", "", "rent", false, false, false,
                              Finite(1.0), Finite(1.0), Finite(50.0), Finite(0.0), [])

  // ---------------------------------------------------------------- file ids

  /** `${name}_${size}_${lastModified}`. */
  function MakeFileId(f: LocalFile): (id: string)
    ensures |id| >= |f.name| + 4
    ensures id[..|f.name| + 1] == f.name + "_"
    ensures IsDigit(id[|id| - 1])
  {
    f.name + "_" + NatToString(f.size) + "_" + IntToString(f.lastModified)
  }

  /** Splits `s` at its last occurrence of `c`. */
  function SplitAtLast(s: string, c: char): Option<(string, string)> {
    if s == [] then None
    else if s[|s| - 1] == c then Some((s[..|s| - 1], ""))
    else match SplitAtLast(s[..|s| - 1], c)
      case None => None
      case Some((before, after)) => Some((before, after + [s[|s| - 1]]))
  }

  /** Reads a file id back into the name, size and timestamp it was made from:
      the last two '_'-separated fields are the numbers, the rest is the name. */
  function ParseFileId(id: string): Option<(string, nat, int)> {
    match SplitAtLast(id, '_')
    case None => None
    case Some((rest, stamp)) =>
      match SplitAtLast(rest, '_')
      case None => None
      case Some((name, size)) =>
        if |size| >= 1 && AllDigits(size) && ParseInt(stamp).Some? then
          Some((name, DigitsValue(size), ParseInt(stamp).value))
        else None
  }

  lemma {:induction false} SplitAtLastOfJoin(before: string, c: char, after: string)
    requires forall k :: 0 <= k < |after| ==> after[k] != c
    ensures SplitAtLast(before + [c] + after, c) == Some((before, after))
    decreases |after|
  {
    var s := before + [c] + after;
    if after == [] {
      assert s[..|s| - 1] == before;
    } else {
      var shorter := after[..|after| - 1];
      assert s[..|s| - 1] == before + [c] + shorter;
      SplitAtLastOfJoin(before, c, shorter);
      assert shorter + [after[|after| - 1]] == after;
    }
  }

  /** The id of a file determines its name, size and timestamp, even when the
      name itself contains '_'. */
  lemma FileIdRoundTrip(f: LocalFile)
    ensures ParseFileId(MakeFileId(f)) == Some((f.name, f.size, f.lastModified))
  {
    var size := NatToString(f.size);
    var stamp := IntToString(f.lastModified);
    var id := MakeFileId(f);
    assert id == (f.name + "_" + size) + ['_'] + stamp;
    SplitAtLastOfJoin(f.name + "_" + size, '_', stamp);
    assert f.name + "_" + size == f.name + ['_'] + size;
    SplitAtLastOfJoin(f.name, '_', size);
    NatToStringRoundTrip(f.size);
    IntToStringRoundTrip(f.lastModified);
  }

  /** Two files share an id only when they agree on name, size and timestamp. */
  lemma FileIdInjective(f: LocalFile, g: LocalFile)
    requires MakeFileId(f) == MakeFileId(g)
    ensures f.name == g.name && f.size == g.size && f.lastModified == g.lastModified
  {
    FileIdRoundTrip(f);
    FileIdRoundTrip(g);
  }

  // ------------------------------------------------------------ selection

  predicate StartsWith(s: string, prefix: string) {
    |prefix| <= |s| && s[..|prefix|] == prefix
  }

  /** The selection filter: an image MIME type and at most 5 MiB. */
  predicate IsAcceptedImage(f: LocalFile): (ok: bool)
    ensures ok <==> |f.mimeType| >= 6 && f.mimeType[..6] == "image/" && f.size <= 5_242_880
  {
    StartsWith(f.mimeType, "image/") && f.size <= MaxFileSize
  }

  function StageFile(f: LocalFile): StagedFile {
    StagedFile(MakeFileId(f), f, f.name)
  }

  /** `files.map(f => ({id: makeFileId(f), file: f, name: f.name}))`. */
  function StageAll(fs: seq<LocalFile>): (r: seq<StagedFile>)
    ensures |r| == |fs| && forall k :: 0 <= k < |fs| ==> r[k] == StageFile(fs[k])
  {
    if fs == [] then [] else [StageFile(fs[0])] + StageAll(fs[1..])
  }

  lemma StageAllAppend(a: seq<LocalFile>, b: seq<LocalFile>)
    ensures StageAll(a + b) == StageAll(a) + StageAll(b)
  {
  }

  /** The entries a selection adds to `files`: the accepted files, each with
      its id, in selection order. */
  function StageAccepted(selected: seq<LocalFile>): (staged: seq<StagedFile>)
    ensures |staged| <= |selected|
    ensures |staged| == |selected| <==> forall i :: 0 <= i < |selected| ==> IsAcceptedImage(selected[i])
    ensures forall k :: 0 <= k < |staged| ==>
      && IsAcceptedImage(staged[k].file) && staged[k].file in selected
      && staged[k].id == MakeFileId(staged[k].file) && staged[k].name == staged[k].file.name
  {
    FilterDropsSome(selected, IsAcceptedImage);
    StageAll(Filter(selected, IsAcceptedImage))
  }

  /** Staging works file by file: the entries for a selection are those for
      its first part followed by those for the rest, and a single file adds
      its own entry exactly when it is accepted. */
  lemma StagedInSelectionOrder(a: seq<LocalFile>, b: seq<LocalFile>)
    ensures StageAccepted(a + b) == StageAccepted(a) + StageAccepted(b)
    ensures forall f :: StageAccepted([f]) == if IsAcceptedImage(f) then [StageFile(f)] else []
  {
    FilterAppend(a, b, IsAcceptedImage);
    StageAllAppend(Filter(a, IsAcceptedImage), Filter(b, IsAcceptedImage));
    forall f ensures StageAccepted([f]) == if IsAcceptedImage(f) then [StageFile(f)] else [] {
      StageOne(f);
    }
  }

  lemma StageOne(f: LocalFile)
    ensures StageAccepted([f]) == if IsAcceptedImage(f) then [StageFile(f)] else []
  {
    assert [f][1..] == [];
  }

  /** `files` after removing the staged entries with the given id. */
  function WithoutStaged(files: seq<StagedFile>, id: string): (r: seq<StagedFile>)
    ensures forall k :: 0 <= k < |r| ==> r[k].id != id
    ensures (forall k :: 0 <= k < |files| ==> files[k].id != id) ==> r == files
  {
    var keep := (p: StagedFile) => p.id != id;
    if forall k :: 0 <= k < |files| ==> keep(files[k]) then FilterKeepsAll(files, keep); Filter(files, keep)
    else Filter(files, keep)
  }

  /** Removing by id deletes every entry with that id and keeps every other
      entry as often as it was there, in the original order. */
  lemma WithoutStagedKeepsOthers(a: seq<StagedFile>, b: seq<StagedFile>, id: string, f: StagedFile)
    ensures multiset(WithoutStaged(a, id))[f] == if f.id == id then 0 else multiset(a)[f]
    ensures WithoutStaged(a + b, id) == WithoutStaged(a, id) + WithoutStaged(b, id)
  {
    var keep := (p: StagedFile) => p.id != id;
    FilterCount(a, keep, f);
    FilterAppend(a, b, keep);
  }

  // ------------------------------------------------------------ field updates

  /** The ids of the form's inputs that report to the change handler. */
  datatype InputId =
    | NameInput | DescriptionInput | AddressInput
    | SaleBox | RentBox | ParkingBox | FurnishedBox | OfferBox
    | BedroomsInput | BathroomsInput | RegularPriceInput | DiscountPriceInput

  /** The id attribute's text. */
  function IdText(id: InputId): string {
    match id
    case NameInput => "name"
    case DescriptionInput => "description"
    case AddressInput => "address"
    case SaleBox => "sale"
    case RentBox => "rent"
    case ParkingBox => "parking"
    case FurnishedBox => "furnished"
    case OfferBox => "offer"
    case BedroomsInput => "bedrooms"
    case BathroomsInput => "bathrooms"
    case RegularPriceInput => "regularPrice"
    case DiscountPriceInput => "discountPrice"
  }

  /** The `type` attribute each of those inputs is declared with. */
  function DeclaredType(id: InputId): string {
    match id
    case NameInput | AddressInput => "text"
    case DescriptionInput => "textarea"
    case SaleBox | RentBox | ParkingBox | FurnishedBox | OfferBox => "checkbox"
    case BedroomsInput | BathroomsInput | RegularPriceInput | DiscountPriceInput => "number"
  }

  /** What a change event carries: the input's id, its `type` attribute, its
      text value and its checked state. */
  datatype InputTarget = InputTarget(id: InputId, inputType: string, value: string, checked: bool)

  /** An event the form can produce: the input's type is the one it is declared with. */
  predicate IsFormInput(t: InputTarget) {
    t.inputType == DeclaredType(t.id)
  }

  /** The change dispatcher, `{...formData, [id]: v}` per branch: "sale"/"rent"
      set `type` to the id, the three checkboxes take `checked`, number
      inputs store `Number(value)`, the rest store the raw text. Every other
      field, and the image list, is kept. */
  function ApplyChange(d: Draft, t: InputTarget): (r: Draft)
    requires IsFormInput(t)
    ensures r.imageUrls == d.imageUrls
    ensures r.dealType == if t.id == SaleBox || t.id == RentBox then IdText(t.id) else d.dealType
    ensures r.parking == if t.id == ParkingBox then t.checked else d.parking
    ensures r.furnished == if t.id == FurnishedBox then t.checked else d.furnished
    ensures r.offer == if t.id == OfferBox then t.checked else d.offer
    ensures r.bedrooms == if t.id == BedroomsInput then ToNumber(t.value) else d.bedrooms
    ensures r.bathrooms == if t.id == BathroomsInput then ToNumber(t.value) else d.bathrooms
    ensures r.regularPrice == if t.id == RegularPriceInput then ToNumber(t.value) else d.regularPrice
    ensures r.discountPrice == if t.id == DiscountPriceInput then ToNumber(t.value) else d.discountPrice
    ensures r.name == if t.id == NameInput then t.value else d.name
    ensures r.description == if t.id == DescriptionInput then t.value else d.description
    ensures r.address == if t.id == AddressInput then t.value else d.address
  {
    match t.id
    case SaleBox | RentBox => d.(dealType := IdText(t.id))
    case ParkingBox => d.(parking := t.checked)
    case FurnishedBox => d.(furnished := t.checked)
    case OfferBox => d.(offer := t.checked)
    case _ =>
      if t.inputType == "number" then
        match t.id
        case BedroomsInput => d.(bedrooms := ToNumber(t.value))
        case BathroomsInput => d.(bathrooms := ToNumber(t.value))
        case RegularPriceInput => d.(regularPrice := ToNumber(t.value))
        case DiscountPriceInput => d.(discountPrice := ToNumber(t.value))
      else
        match t.id
        case NameInput => d.(name := t.value)
        case DescriptionInput => d.(description := t.value)
        case AddressInput => d.(address := t.value)
  }

  // ------------------------------------------------------------ submission

  /** The submit checks in their fixed order: at least one image first, then
      the regular price must not be below the discount price. The price check
      does not look at `offer`, and equal prices pass. */
  function ValidateDraft(d: Draft): (r: Option<string>)
    ensures r == Some(NoImageError) <==> |d.imageUrls| == 0
    ensures r == Some(PriceError) <==> |d.imageUrls| > 0 && Less(d.regularPrice, d.discountPrice)
    ensures r == None <==> |d.imageUrls| > 0 && !Less(d.regularPrice, d.discountPrice)
  {
    if |d.imageUrls| < 1 then Some(NoImageError)
    else if Less(d.regularPrice, d.discountPrice) then Some(PriceError)
    else None
  }

  /** The body posted to the create endpoint: the draft plus the user's id. */
  datatype CreateRequest = CreateRequest(draft: Draft, userRef: string)

  /** The parsed reply of the create endpoint: its `success` flag when it is a
      boolean, its `message` and its `_id` when present. */
  datatype ReplyJson = ReplyJson(success: Option<bool>, message: Option<string>, recordId: Option<string>)

  /** What the request produced: a thrown error (no response, or a body that
      is not JSON) or a parsed reply. */
  datatype SubmitReply = Thrown(message: string) | Replied(data: ReplyJson)

  /** An error to show, or the route to navigate to. */
  datatype SubmitOutcome = Rejected(message: string) | Navigate(route: string)

  /** Only a reply whose `success` is the boolean false is a rejection; any
      other reply, even without a `success` field, leads to `/listing/<_id>`. */
  function ClassifySubmitReply(reply: SubmitReply): (r: SubmitOutcome)
    ensures r.Navigate? <==> reply.Replied? && reply.data.success != Some(false)
    ensures r.Rejected? && reply.Thrown? ==> r.message == reply.message
    ensures r.Rejected? && reply.Replied? ==> r.message == reply.data.message.GetOr("")
    ensures r.Navigate? ==>
              StartsWith(r.route, ListingRoute) && r.route[|ListingRoute|..] == reply.data.recordId.GetOr("undefined")
  {
    match reply
    case Thrown(m) => Rejected(m)
    case Replied(data) =>
      if data.success == Some(false) then Rejected(data.message.GetOr(""))
      else Navigate(ListingRoute + data.recordId.GetOr("undefined"))
  }
}
