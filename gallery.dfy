/**
 * The gallery's operations on the metadata store: seeding, upload with compensation,
 * delete, listing and image lookup. The remote image backend is abstract: its upload
 * outcome is an input, and a ghost log records every call made to it.
 */
module Gallery {
  import opened Photos
  import opened MetadataStore
  import opened DateOrder

  /** A call to the remote image backend. */
  datatype RemoteCall =
    | UploadCall(file: string, publicId: string, folder: string)
    | DestroyCall(publicId: string)

  /** What the remote upload returned, or that it raised. */
  datatype UploadOutcome = Uploaded(secureUrl: string, publicId: string) | UploadRaised

  /**
   * How `save_photos_data` ended. It opens the file with mode 'w', which empties it,
   * writes the JSON text, closes the file and prints a confirmation, all inside one
   * `try`. So a failure may come before anything changed (OpenFailed), after the file
   * was emptied (WriteFailed), leaving text that the next load cannot parse and reads as
   * no photos, or after the whole file was written and closed, when the confirmation
   * print raises (ReportFailed): the function then returns False although the new
   * collection is stored.
   */
  datatype SaveOutcome = Saved | OpenFailed | WriteFailed | ReportFailed

  /** The JSON body of an upload request; a key the client left out is None. */
  datatype UploadRequest = UploadRequest(
    imageData: Option<string>,
    filename: Option<string>,
    title: Option<string>,
    description: Option<string>)

  /** Why a request failed. */
  datatype ErrorKind =
    | Unauthorized
    | NoImageData
    | NotConfigured
    | UploadFailed
    | SaveFailed
    | PhotoNotFound

  datatype Response<T> = Ok(value: T) | Err(error: ErrorKind)

  /** What the list endpoint answers. */
  datatype Listing = Listing(photos: seq<Record>, storageType: string, totalCount: nat)

  /** What the image endpoint answers. */
  datatype ImageResponse =
    | Redirect(url: string)
    | InlineImage(base64: string)   // the text handed to the base64 decoder
    | MalformedDataUri              // a `data:image` value without a comma
    | NoSuchPhoto
    | NoImage

  /** The collection the next load sees after a save of `after` over `before`. */
  function Persisted(before: seq<Record>, after: seq<Record>, save: SaveOutcome): (r: seq<Record>)
    ensures UniqueIds(before) && UniqueIds(after) ==> UniqueIds(r)
    ensures save == Saved || save == ReportFailed ==> r == after
    ensures save == OpenFailed ==> r == before
    ensures save == WriteFailed ==> r == []
  {
    match save
    case Saved => after
    case OpenFailed => before
    case WriteFailed => []
    case ReportFailed => after
  }

  /** The `X-Admin-Password` header equals the admin secret; a missing header is refused. */
  predicate Authorized(password: Option<string>) {
    password == Some(AdminPassword)
  }

  /** Python's `if not image_data`: a missing or empty payload is refused. */
  predicate HasImageData(req: UploadRequest) {
    req.imageData.Some? && req.imageData.value != ""
  }

  /**
   * The public id asked of the backend: `f"{uuid}_{filename}".split('.')[0]`. A uuid
   * has no dot, so the id always keeps the whole uuid.
   */
  function RequestedPublicId(token: string, filename: string): (r: string)
    ensures '.' !in token ==> token + "_" <= r
  {
    FieldBefore(token + "_" + filename, '.')
  }

  /** The upload call an authorised request with an image makes. */
  function UploadCallFor(token: string, req: UploadRequest): RemoteCall
    requires HasImageData(req)
  {
    UploadCall(
      req.imageData.value,
      RequestedPublicId(token, req.filename.GetOr(DefaultFilename)),
      UploadFolder)
  }

  /** The record an upload stores; its id is above every id already stored. */
  function NewRecord(s: seq<Record>, req: UploadRequest, now: string, secureUrl: string, publicId: string): (rec: Record)
    ensures forall k :: 0 <= k < |s| ==> s[k].id < rec.id
    ensures !HasId(s, rec.id)
  {
    Record(
      id := NextPhotoId(s),
      filename := req.filename.GetOr(DefaultFilename),
      title := req.title.GetOr(DefaultTitle),
      description := req.description.GetOr(DefaultDescription),
      cloudinaryUrl := Some(secureUrl),
      cloudinaryPublicId := Some(publicId),
      imageUrl := Some(secureUrl),
      imageData := None,
      uploadDate := Some(now),
      storageType := CloudinaryStorage)
  }

  const WelcomeTitle: string := "Welcome to Your Photo Gallery!"
  const WelcomeDescription: string :=
    "This is a test photo. Upload your own photos via the admin panel! Note: Photos will only persist if Cloudinary is configured."
  const PlaceholderUrl: string := "https://via.placeholder.com/800x600/4F46E5/FFFFFF?text=Welcome+to+Your+Gallery"

  /**
   * The placeholder photo a fresh deployment starts with. It takes the id an upload to
   * the empty store would get, and the image endpoint has no image for it, since it
   * carries only an `image_url`.
   */
  function TestPhoto(now: string): (p: Record)
    ensures p.id == NextPhotoId([])
    ensures ImageFor([p], p.id) == NoImage
  {
    Record(
      id := 1,
      filename := "test_photo.jpg",
      title := WelcomeTitle,
      description := WelcomeDescription,
      cloudinaryUrl := None,
      cloudinaryPublicId := None,
      imageUrl := Some(PlaceholderUrl),
      imageData := None,
      uploadDate := Some(now),
      storageType := PlaceholderStorage)
  }

  /**
   * The base64 text inside stored image data: a value starting with `data:image` is cut
   * to `split(',')[1]` (and has none when there is no comma); any other value is used whole.
   */
  function InlinePayload(d: string): (p: Option<string>)
    ensures !StartsWith(d, "data:image") ==> p == Some(d)
    ensures StartsWith(d, "data:image") ==> (p.None? <==> ',' !in d)
    ensures StartsWith(d, "data:image") && p.Some? ==> ',' !in p.value
    ensures StartsWith(d, "data:image") && ',' in d ==> p == Some(SecondField(d, ','))
  {
    if StartsWith(d, "data:image") then
      if ',' in d then Some(SecondField(d, ',')) else None
    else Some(d)
  }

  /** A data URI built from a header and a payload, neither with a comma, gives the payload back. */
  lemma InlinePayloadOfDataUri(header: string, payload: string)
    requires StartsWith(header, "data:image")
    requires ',' !in header && ',' !in payload
    ensures InlinePayload(header + "," + payload) == Some(payload)
  {
    var d := header + "," + payload;
    assert d == header + [','] + payload;
    FieldBeforeSplit(header, ',', payload);
    assert d[|header| + 1..] == payload;
    FieldBeforeWhole(payload, ',');
    assert "data:image" <= d by {
      assert d[..|header|] == header;
    }
  }

  /**
   * Text after a second comma is dropped: `header,payload,rest` yields `payload`, as
   * `split(',')[1]` does.
   */
  lemma InlinePayloadDropsTail(header: string, payload: string, rest: string)
    requires StartsWith(header, "data:image")
    requires ',' !in header && ',' !in payload
    ensures InlinePayload(header + "," + payload + "," + rest) == Some(payload)
  {
    var d := header + "," + payload + "," + rest;
    assert d == header + [','] + (payload + [','] + rest);
    FieldBeforeSplit(header, ',', payload + [','] + rest);
    assert d[|header| + 1..] == payload + [','] + rest;
    FieldBeforeSplit(payload, ',', rest);
    assert "data:image" <= d by {
      assert d[..|header|] == header;
    }
  }

  /** How one record is served. */
  function Serve(p: Record): ImageResponse {
    if p.cloudinaryUrl.Some? then Redirect(p.cloudinaryUrl.value)
    else if p.imageData.Some? then
      match InlinePayload(p.imageData.value)
      case Some(b) => InlineImage(b)
      case None => MalformedDataUri
    else NoImage
  }

  /**
   * `get_photo_image`: the first record with the id decides; a Cloudinary url wins over
   * stored image data; a record with neither has no image; no record means no photo.
   */
  function ImageFor(s: seq<Record>, id: int): (r: ImageResponse)
    ensures r == NoSuchPhoto <==> !HasId(s, id)
    ensures forall k :: IsFirstWithId(s, id, k) && s[k].cloudinaryUrl.Some? ==>
              r == Redirect(s[k].cloudinaryUrl.value)
    ensures forall k :: IsFirstWithId(s, id, k) && s[k].cloudinaryUrl.None? && s[k].imageData.Some? ==>
              var payload := InlinePayload(s[k].imageData.value);
              r == if payload.Some? then InlineImage(payload.value) else MalformedDataUri
    ensures forall k :: IsFirstWithId(s, id, k) && s[k].cloudinaryUrl.None? && s[k].imageData.None? ==>
              r == NoImage
  {
    match FindFirst(s, id)
    case None => NoSuchPhoto
    case Some(k) =>
      assert forall j :: IsFirstWithId(s, id, j) ==> j == k;
      Serve(s[k])
  }

  /** Right after a successful upload, the image endpoint redirects to the new photo's url. */
  lemma UploadedPhotoIsServed(s: seq<Record>, req: UploadRequest, now: string, url: string, publicId: string)
    ensures ImageFor(s + [NewRecord(s, req, now, url, publicId)], NextPhotoId(s)) == Redirect(url)
  {
    var rec := NewRecord(s, req, now, url, publicId);
    assert IsFirstWithId(s + [rec], rec.id, |s|);
  }

  class Gallery {
    /** The photo collection as `load_photos_data` returns it: a missing or unreadable file is []. */
    var photos: seq<Record>
    /** `cloudinary_configured`, decided once at start-up. */
    const configured: bool
    /** Every call made to the remote image backend, oldest first. */
    ghost var calls: seq<RemoteCall>

    constructor (configured: bool, stored: seq<Record>)
      ensures this.configured == configured && photos == stored && calls == []
    {
      this.configured := configured;
      photos := stored;
      calls := [];
    }

    /** `initialize_test_data`: an empty store is seeded with the placeholder photo, id 1. */
    method InitializeTestData(now: string, save: SaveOutcome)
      modifies this
      ensures old(photos) != [] ==> photos == old(photos)
      ensures old(photos) == [] ==> photos == Persisted([], [TestPhoto(now)], save)
      ensures calls == old(calls)
    {
      if photos == [] {
        photos := Persisted(photos, [TestPhoto(now)], save);
      }
    }

    /**
     * `upload_photo`: password, then payload, then backend check; one remote upload;
     * append the new record and save; when the save fails, one compensating destroy of
     * what was just uploaded, whose own failure is ignored.
     */
    method UploadPhoto(password: Option<string>, req: UploadRequest, token: string, now: string,
                       remote: UploadOutcome, save: SaveOutcome) returns (r: Response<Record>)
      modifies this
      ensures !Authorized(password) ==>
                r == Err(Unauthorized) && photos == old(photos) && calls == old(calls)
      ensures Authorized(password) && !HasImageData(req) ==>
                r == Err(NoImageData) && photos == old(photos) && calls == old(calls)
      ensures Authorized(password) && HasImageData(req) && !configured ==>
                r == Err(NotConfigured) && photos == old(photos) && calls == old(calls)
      ensures Authorized(password) && HasImageData(req) && configured && remote.UploadRaised? ==>
                r == Err(UploadFailed) && photos == old(photos) &&
                calls == old(calls) + [UploadCallFor(token, req)]
      ensures Authorized(password) && HasImageData(req) && configured && remote.Uploaded? ==>
                var rec := NewRecord(old(photos), req, now, remote.secureUrl, remote.publicId);
                && photos == Persisted(old(photos), old(photos) + [rec], save)
                && (save == Saved ==>
                      r == Ok(rec) && calls == old(calls) + [UploadCallFor(token, req)])
                && (save != Saved ==>
                      r == Err(SaveFailed) &&
                      calls == old(calls) + [UploadCallFor(token, req), DestroyCall(remote.publicId)])
      ensures r.Ok? <==> photos != old(photos) && save == Saved
      ensures old(UniqueIds(photos)) ==> UniqueIds(photos)
    {
      if !Authorized(password) {
        return Err(Unauthorized);
      }
      if !HasImageData(req) {
        return Err(NoImageData);
      }
      if !configured {
        return Err(NotConfigured);
      }
      calls := calls + [UploadCallFor(token, req)];
      if remote.UploadRaised? {
        return Err(UploadFailed);
      }
      var rec := NewRecord(photos, req, now, remote.secureUrl, remote.publicId);
      var updated := photos + [rec];
      AppendNextIdKeepsUnique(photos, rec);
      photos := Persisted(photos, updated, save);
      if save == Saved {
        r := Ok(rec);
      } else {
        calls := calls + [DestroyCall(remote.publicId)];
        r := Err(SaveFailed);
      }
    }

    /**
     * `delete_photo`: password, then lookup; the first record with the id is destroyed
     * remotely when it has a Cloudinary public id and the backend is configured (the
     * outcome is ignored); every record with the id is filtered out and the rest saved.
     */
    method DeletePhoto(password: Option<string>, id: int, save: SaveOutcome) returns (r: Response<()>)
      modifies this
      ensures !Authorized(password) ==>
                r == Err(Unauthorized) && photos == old(photos) && calls == old(calls)
      ensures Authorized(password) && !HasId(old(photos), id) ==>
                r == Err(PhotoNotFound) && photos == old(photos) && calls == old(calls)
      ensures Authorized(password) && HasId(old(photos), id) ==>
                && photos == Persisted(old(photos), RemoveId(old(photos), id), save)
                && r == (if save == Saved then Ok(()) else Err(SaveFailed))
      ensures Authorized(password) ==> forall k :: IsFirstWithId(old(photos), id, k) ==>
                calls == old(calls) +
                  (if old(photos)[k].cloudinaryPublicId.Some? && configured
                   then [DestroyCall(old(photos)[k].cloudinaryPublicId.value)] else [])
      ensures r.Ok? ==> !HasId(photos, id)
      ensures old(UniqueIds(photos)) ==> UniqueIds(photos)
    {
      if !Authorized(password) {
        return Err(Unauthorized);
      }
      var found := FindFirst(photos, id);
      if found.None? {
        return Err(PhotoNotFound);
      }
      var photo := photos[found.value];
      assert forall k :: IsFirstWithId(photos, id, k) ==> k == found.value;
      if photo.cloudinaryPublicId.Some? && configured {
        calls := calls + [DestroyCall(photo.cloudinaryPublicId.value)];
      }
      var remaining := RemoveId(photos, id);
      RemoveIdKeepsUnique(photos, id);
      photos := Persisted(photos, remaining, save);
      r := if save == Saved then Ok(()) else Err(SaveFailed);
    }

    /**
     * `get_photos`: the whole collection, newest first and records of one date in stored
     * order, with the deployment's storage type and the count.
     */
    method GetPhotos() returns (r: Listing)
      ensures multiset(r.photos) == multiset(photos)
      ensures NewestFirst(r.photos)
      ensures SameOrderPerDate(r.photos, photos)
      ensures r.totalCount == |photos|
      ensures r.storageType == if configured then CloudinaryStorage else LocalFallbackStorage
    {
      var loaded := photos;
      var a := new Record[|loaded|](k requires 0 <= k < |loaded| => loaded[k]);
      assert a[..] == loaded;
      SortNewestFirst(a);
      AdjacentIsNewestFirst(a[..]);
      assert |a[..]| == |multiset(a[..])| == |multiset(loaded)| == |loaded|;
      r := Listing(a[..], if configured then CloudinaryStorage else LocalFallbackStorage, |a[..]|);
    }

    /** `get_photo_image` on the current collection. */
    method GetPhotoImage(id: int) returns (r: ImageResponse)
      ensures r == ImageFor(photos, id)
    {
      r := ImageFor(photos, id);
    }
  }
}
