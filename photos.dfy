/** Photo records as the metadata store (photos_data.json) holds them, and the constants of the gallery. */
module Photos {

  datatype Option<+T> = None | Some(value: T) {
    /** Python's `d.get(key, default)`: the value when the key is present, else the default. */
    function GetOr(default: T): T {
      match this
      case Some(v) => v
      case None => default
    }
  }

  /**
   * One JSON object of the stored array. A key that an object may lack is an `Option`:
   * the gallery asks `'cloudinary_url' in photo`, `'image_data' in photo` and
   * `'cloudinary_public_id' in photo`, and reads `upload_date` with a default.
   */
  datatype Record = Record(
    id: int,
    filename: string,
    title: string,
    description: string,
    cloudinaryUrl: Option<string>,
    cloudinaryPublicId: Option<string>,
    imageUrl: Option<string>,
    imageData: Option<string>,
    uploadDate: Option<string>,
    storageType: string)

  /** The shared admin secret every mutating request must present. */
  const AdminPassword: string := "Hanshow99@"

  /** Remote folder every upload goes to. */
  const UploadFolder: string := "georges_photo_gallery"

  const DefaultFilename: string := "photo.jpg"
  const DefaultTitle: string := "Untitled"
  const DefaultDescription: string := ""

  const CloudinaryStorage: string := "cloudinary"
  const PlaceholderStorage: string := "placeholder"
  const LocalFallbackStorage: string := "local_fallback"

  /** Python's `s.startswith(p)`. */
  predicate StartsWith(s: string, p: string) {
    p <= s
  }

  /**
   * Python's `s.split(c)[0]`: the text before the first `c`, or all of `s` when it has none.
   * The three properties below determine the result.
   */
  function FieldBefore(s: string, c: char): (r: string)
    ensures r <= s
    ensures c !in r
    ensures |r| < |s| ==> s[|r|] == c
  {
    if s == [] then []
    else if s[0] == c then []
    else [s[0]] + FieldBefore(s[1..], c)
  }

  /**
   * Python's `s.split(c)[1]`, which raises unless `c` occurs in `s`: the text after the
   * first `c`, up to the next `c` or the end.
   */
  function SecondField(s: string, c: char): (r: string)
    requires c in s
    ensures var i := |FieldBefore(s, c)|;
      && i < |s| && s[i] == c && (forall j :: 0 <= j < i ==> s[j] != c)
      && r <= s[i + 1..] && c !in r
      && (i + 1 + |r| < |s| ==> s[i + 1 + |r|] == c)
  {
    var head := FieldBefore(s, c);
    FieldBefore(s[|head| + 1..], c)
  }

  /** A text without `c` is its own first field. */
  lemma FieldBeforeWhole(s: string, c: char)
    requires c !in s
    ensures FieldBefore(s, c) == s
  {
  }

  /** The first field of `head + [c] + tail` is `head`, when `head` has no `c`. */
  lemma {:induction false} FieldBeforeSplit(head: string, c: char, tail: string)
    requires c !in head
    ensures FieldBefore(head + [c] + tail, c) == head
  {
    if head != [] {
      assert (head + [c] + tail)[1..] == head[1..] + [c] + tail;
      FieldBeforeSplit(head[1..], c, tail);
    }
  }
}
