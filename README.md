# Photo gallery metadata store and upload orchestration, in Dafny

This project models the core of a small Flask photo-gallery backend (`app.py`). The
service keeps the metadata of every photo in one JSON array on disk and stores the
image bytes with a remote image service (Cloudinary). An admin password guards upload and
delete. The model covers these parts of the backend:

- **The metadata store.** `Gallery.photos` is the collection as `load_photos_data` returns it. A missing or unreadable file
  loads as no photos, so the model's `[]` stands for all three. A save replaces the
  whole collection. How a save ends is an input, `SaveOutcome`, with four values:
  - `Saved`;
  - `OpenFailed`: the file could not be opened, and nothing changed;
  - `WriteFailed`: the file was opened with mode `'w'`, which empties it, and then writing
    failed. The next load then reads no photos.
  - `ReportFailed`: the file was written and closed, and then the confirmation `print`
    inside the same `try` raised. The save reports failure, yet the next load reads the
    new collection. An upload then destroys the remote image of a record that stays
    stored, and a delete reports failure although the record is gone.
- **Id assignment.** `get_next_photo_id` returns 1 on an empty store and otherwise the
  largest id plus one. It is modelled by `MetadataStore.NextPhotoId` over `MaxId`.
- **Upload.** `Gallery.Gallery.UploadPhoto` runs the steps of `upload_photo` in the
  source's order:
  1. the password check;
  2. the image-data check;
  3. the backend-configured check;
  4. one remote upload, whose outcome is an input;
  5. building the record;
  6. appending it and saving;
  7. when the save fails, one compensating `destroy` of the returned public id.

  A ghost log, `calls`, records every call made to the remote backend.
- **Delete.** `Gallery.Gallery.DeletePhoto` checks the password, then looks up the first
  record with the id. If that record has a public id and the backend is configured, it
  makes a best-effort `destroy`. It then filters out every record with the id and saves.
- **Listing.** `Gallery.Gallery.GetPhotos` sorts a copy of the collection in place,
  newest `upload_date` first; a record without a date sorts as the empty string. Python
  compares strings code point by code point (`DateOrder.StrLe`). The sort is stable, as
  Python's is: records with the same date keep their stored order.
- **Image lookup.** `Gallery.ImageFor` uses the first record with the id. It redirects to
  the Cloudinary URL when there is one. Otherwise it cuts stored image data down to its
  base64 text. A record with neither has no image.
- **Seeding.** `Gallery.Gallery.InitializeTestData` gives an empty store its placeholder
  photo, whose id is 1.

The remote backend, the clock and `uuid4` are inputs: `UploadOutcome`, `now` and `token`.
The backend-configured flag is a constant of the `Gallery` object, fixed when it is
constructed, as `cloudinary_configured` is fixed at start-up.

The model follows these details of the code:

- The password is checked before the image data.
- Storage types are the strings `cloudinary`, `placeholder` and `local_fallback`.
- A failed destroy during upload compensation is ignored silently.
- A save that reports failure leaves the collection unchanged only when the file could
  not be opened. A failure while writing leaves a store that loads as empty, and a
  failure of the confirmation print leaves the new collection stored.

## Model

| member | source | states |
|---|---|---|
| `Photos.Option.GetOr` | app.py:167-168 | `dict.get(key, default)`: the stored value when the key is present, else the default (also the sort key at app.py:117 and the filename at app.py:144) |
| `Photos.StartsWith` | app.py:234 | `str.startswith`: the prefix is an initial segment of the text |
| `Photos.FieldBefore` | app.py:156 | `split(c)[0]`: the result is a prefix of the input, holds no `c`, and is followed by `c` whenever it is shorter than the input |
| `Photos.SecondField` | app.py:234-235 | `split(c)[1]` on a text containing `c`: the text after the first `c` up to the next `c` or the end |
| `Photos.FieldBeforeSplit` | app.py:156 | the first field of `head + c + tail` is `head` when `head` has no `c` |
| `MetadataStore.MaxId` | app.py:93 | the largest id of a non-empty collection: no id exceeds it and some record carries it |
| `MetadataStore.NextPhotoId` | app.py:88-93 | 1 on an empty collection; otherwise above every id and one more than some id, i.e. max + 1 |
| `MetadataStore.SequentialNextId` | app.py:88-93 | on a collection numbered 1..n in order the next id is n + 1, so uploads from an empty store number photos 1, 2, 3, ... |
| `MetadataStore.AppendNextIdKeepsUnique` | app.py:164-178 | a record carrying the next id is the first one with its id once appended, and appending it to a collection with unique ids keeps them unique |
| `MetadataStore.AppendNextIdKeepsIncreasing` | app.py:164-178 | appending with the next id keeps ids strictly increasing in order of assignment |
| `MetadataStore.FindFirst` | app.py:222 | `next(...)` lookup: none exactly when no record has the id; otherwise the position of the first record with it |
| `MetadataStore.RemoveId` | app.py:272 | the delete filter: no kept record carries the id, and the result is no longer than the input |
| `MetadataStore.RemoveIdCounts` | app.py:272 | the filter result is a sub-multiset of the input and keeps every record without the id exactly as often as it occurs |
| `MetadataStore.RemoveIdAppend` | app.py:272 | the filter distributes over concatenation, so kept records stay in their relative order |
| `MetadataStore.RemoveIdAbsent` | app.py:272 | filtering out an id no record has leaves the collection unchanged |
| `MetadataStore.RemoveIdKeepsUnique` | app.py:255-274 | deleting from a collection with unique ids leaves unique ids |
| `MetadataStore.DeleteUndoesAppend` | app.py:272 | deleting the id just assigned by an upload gives back the collection before the upload |
| `DateOrder.StrLe` | app.py:117 | Python's `<=` on `str`: a proper prefix is smaller, otherwise the first differing code point decides |
| `DateOrder.DateKey` | app.py:117 | the sort key `x.get('upload_date', '')` |
| `DateOrder.StrLeTotal` | app.py:117 | any two sort keys are comparable |
| `DateOrder.StrLeTransitive` | app.py:117 | the string order is transitive |
| `DateOrder.StrLeReflexive` | app.py:117 | every key is no greater than itself |
| `DateOrder.StrLeAntisymmetric` | app.py:117 | two keys each no greater than the other are equal |
| `DateOrder.WithDateAppend` | app.py:117 | the records of one date in a concatenation are those of each part, in order |
| `DateOrder.WithDateNone` | app.py:117 | a sequence with no record of a date lists none of that date |
| `DateOrder.MovedLeftPermutes` | app.py:117 | moving one record left is a permutation |
| `DateOrder.MovedLeftKeepsSorted` | app.py:117 | moving a record into a sorted prefix, past exactly the records dated strictly earlier, leaves a sorted prefix one longer |
| `DateOrder.MoveKeepsDate` | app.py:117 | moving a record past records all dated strictly earlier keeps the records of any one date in order |
| `DateOrder.MovedLeftKeepsOrderPerDate` | app.py:117 | one insertion step keeps the order within every date |
| `DateOrder.SameOrderPerDateTail` | app.py:117 | two sequences with the same first record and the same order within every date still agree after dropping it |
| `DateOrder.HeadNoLaterThanNewest` | app.py:117 | a sequence keeping every date's order of a newest-first one starts no later than it |
| `DateOrder.StableNewestFirstUnique` | app.py:117 | two newest-first orders with the same order within every date are equal, so a stable sort has exactly one result |
| `DateOrder.AdjacentIsNewestFirst` | app.py:117 | a list ordered between neighbours is ordered between every pair |
| `DateOrder.SortNewestFirst` | app.py:117 | in-place stable sort: afterwards each record's date is no later than its predecessor's, the array is a permutation of what it was, and the records of every date are in their old order |
| `DateOrder.Insert` | app.py:117 | one insertion step moves `a[i]` left to the returned position `j`, past exactly the records dated strictly earlier, shifting them right; the sorted prefix grows by one |
| `Gallery.Persisted` | app.py:77-86 | what the next load sees after a save: the new collection whenever the file was fully written (saved, or the confirmation print raised), the old one when the file could not be opened, none when writing failed after the file was emptied; a save never breaks unique ids |
| `Gallery.Authorized` | app.py:134-135 | the admin password header equals the admin secret; delete makes the same check |
| `Gallery.HasImageData` | app.py:139-140 | `not image_data`: a missing or empty payload is refused |
| `Gallery.UploadCallFor` | app.py:143-159 | the upload call: the image data, the public id from the uuid and filename (default `photo.jpg`), the gallery folder |
| `Gallery.RequestedPublicId` | app.py:144-156 | the public id asked of the backend keeps the whole uuid and the `_` after it when the uuid has no dot |
| `Gallery.NewRecord` | app.py:164-174 | the uploaded record's id is above every stored id, so no stored record carries it |
| `Gallery.TestPhoto` | app.py:346-354 | the placeholder record: id 1, the id an upload to the empty store would get; it has neither a Cloudinary url nor image data, so the image endpoint finds no image for it |
| `Gallery.InlinePayload` | app.py:232-235 | image data not starting with `data:image` is used whole; a `data:image` value has a payload exactly when it contains a comma, and the payload is the text between the first comma and the next one |
| `Gallery.InlinePayloadOfDataUri` | app.py:232-235 | a data URI `header,payload` (no comma in either part) yields exactly `payload` |
| `Gallery.InlinePayloadDropsTail` | app.py:232-235 | `header,payload,rest` yields `payload`: text after a second comma is dropped |
| `Gallery.Serve` | app.py:228-242 | one record served: its Cloudinary url, else its inline payload (malformed without a comma), else no image |
| `Gallery.ImageFor` | app.py:217-242 | no photo exactly when no record has the id; for the first record with the id: redirect to its Cloudinary URL if present, else its inline payload (malformed without a comma), else no image |
| `Gallery.UploadedPhotoIsServed` | app.py:222-229 | right after an upload, the image lookup for the new id redirects to the uploaded URL |
| `Gallery.Gallery.constructor` | app.py:38-75 | the gallery starts with the loaded collection, the configured flag and no remote calls |
| `Gallery.Gallery.InitializeTestData` | app.py:342-356 | a non-empty store is untouched; an empty one is saved as the single placeholder record with id 1: it stays empty when the file could not be opened or the write failed, and holds the placeholder when only the confirmation print raised; no remote calls |
| `Gallery.Gallery.UploadPhoto` | app.py:128-215 | bad password: Unauthorized, no remote call, store unchanged; no image data: NoImageData, likewise; backend not configured: NotConfigured, likewise; upload raised: UploadFailed after exactly one upload call, store unchanged; uploaded and saved: the store is the old one plus exactly the new record (next id, `cloudinary` storage, URL and public id from the upload, title `Untitled` and description `''` by default); uploaded but not saved: SaveFailed, exactly one compensating destroy of the returned public id, and the store is what the failed save left, which is the new collection when only the confirmation print raised; unique ids are preserved |
| `Gallery.Gallery.DeletePhoto` | app.py:247-282 | bad password: Unauthorized, nothing changes; unknown id: PhotoNotFound, no save and no destroy; otherwise one destroy exactly when the first matching record has a public id and the backend is configured, and the saved store is the old one with exactly the records of that id filtered out; success means the id is gone; unique ids are preserved |
| `Gallery.Gallery.GetPhotos` | app.py:112-123 | the list is a permutation of the stored records, newest `upload_date` first (missing date as `''`), records of one date in stored order, with the total count and the deployment's storage type |
| `Gallery.Gallery.GetPhotoImage` | app.py:217-242 | the answer is the image lookup on the current collection |

## Left out

- HTTP routing, JSON responses, status codes, CORS and the static front-end routes (app.py:12-23, 317-339): outcomes are the `ErrorKind` and response datatypes instead.
- JSON parsing and file I/O (app.py:63-86): the store is the loaded collection, and the end of a save is the `SaveOutcome` input. A file holding JSON that is not an array of photo objects is not modelled.
- `save(load())` reproducing the file: serialization is not modelled.
- The Cloudinary SDK (`config`, `ping`, `uploader.upload`, `uploader.destroy`): the configured flag is a constructor argument, the upload result is an input, and `destroy` is a logged call. Its outcome is always ignored, so it is not an input.
- `uuid.uuid4()`, `datetime.utcnow().isoformat()` and base64 decoding: the first two are inputs. `InlineImage` carries the text that would be decoded, so invalid base64 is not modelled.
- Request bodies that are not a JSON object, and JSON values in the body that are not strings (for example a `title` of `null`): every request field is an optional string.
- Records without an `id` key, and the generic `except Exception` paths that turn such errors into HTTP 500 responses.
- The `storage_type` field of the upload's success response, and the `title` printed by delete: they are constants or diagnostics.
- Exceptions raised by diagnostic `print` calls other than the confirmation print at app.py:82, which is the only print modelled as raising (`ReportFailed`). The model takes these prints to succeed:
  - the loader's prints (app.py:69-74);
  - the error print of `save_photos_data` (app.py:85). If it raised, the save would raise instead of returning False. `upload_photo` would then answer through app.py:197-203 without the compensating destroy, a case `Gallery.Gallery.UploadPhoto` does not have;
  - the request handlers' prints (app.py:147-152, 161, 182, 198, 214, 261, 269, 275, 281). A raise there ends the request in an HTTP 500 error, which can come after a remote upload, a successful save or a remote destroy.
- A raise from the prints at app.py:192 and app.py:267 is caught by the surrounding `except` (app.py:193 and 268). The request then goes on as the model has it.
- `verify_admin`, `/api/debug`, `/api/health` and start-up printing (app.py:27-58, 95-109, 284-315): these are outside the modelled core.
- The load-then-save race between concurrent requests: the model is single-threaded.
