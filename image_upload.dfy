/**
 * The image handler's pure parts: the blob name it derives, the result it
 * returns, and the blob-store requests it issues in order. The blob store is
 * reduced to the set of stored object URLs; a stored object's URL is its name.
 */
module ImageUpload {
  import opened Wrappers
  import opened Text
  import opened Records

  /** A side effect on the external stores, in the order it is issued. */
  datatype Effect =
    | BlobPut(name: string)
    | BlobDelete(url: string, succeeded: bool)
    | RowInsert(id: Id)
    | RowUpdate(id: Id)
    | RowDelete(id: Id)

  datatype UploadError =
    | InvalidFileType   // "Invalid file type. Only images are allowed."
    | UploadFailed      // "Image upload failed: ..."

  /** `[a-zA-Z0-9.]` */
  predicate IsSafeNameChar(c: char)
  {
    'a' <= c <= 'z' || 'A' <= c <= 'Z' || '0' <= c <= '9' || c == '.'
  }

  /** `name.replace(/[^a-zA-Z0-9.]/g, '_')` */
  function SanitizeName(name: string): (r: string)
    ensures |r| == |name|
    ensures forall i :: 0 <= i < |name| ==> r[i] == if IsSafeNameChar(name[i]) then name[i] else '_'
  {
    seq(|name|, i requires 0 <= i < |name| => if IsSafeNameChar(name[i]) then name[i] else '_')
  }

  /** The sanitised name uses only safe characters and `_`, keeps every safe
      character in place, and sanitising it again changes nothing. */
  lemma SanitizeNameProperties(name: string)
    ensures forall i :: 0 <= i < |name| ==> IsSafeNameChar(SanitizeName(name)[i]) || SanitizeName(name)[i] == '_'
    ensures SanitizeName(SanitizeName(name)) == SanitizeName(name)
    ensures (forall i :: 0 <= i < |name| ==> IsSafeNameChar(name[i])) ==> SanitizeName(name) == name
  {
  }

  /** `uploads/${Date.now()}-<sanitised name>`; the clock reading is a parameter. */
  function BlobName(timestamp: nat, fileName: string): string
  {
    "uploads/" + DecimalDigits(timestamp) + "-" + SanitizeName(fileName)
  }

  /** `if (currentImageUrl)`: a present, non-empty URL. */
  predicate Truthy(url: Option<string>)
  {
    url.Some? && url.value != ""
  }

  /** What `handleImageUpload` returns: undefined (None) for no file or an
      empty one, the new URL after a successful put, or the error it throws. */
  function UploadResult(image: Option<Upload>, timestamp: nat, putFails: bool): Result<Option<string>, UploadError>
  {
    if image.None? || image.value.size == 0 then Success(None)
    else if !("image/" <= image.value.mimeType) then Failure(InvalidFileType)
    else if putFails then Failure(UploadFailed)
    else Success(Some(BlobName(timestamp, image.value.name)))
  }

  /** The requests `handleImageUpload` issues: the put of the new image and,
      only after it succeeded, the best-effort delete of the old one. */
  function UploadEffects(image: Option<Upload>, currentUrl: Option<string>, timestamp: nat,
                         putFails: bool, deleteFails: bool): seq<Effect>
  {
    match UploadResult(image, timestamp, putFails)
    case Success(Some(name)) =>
      [BlobPut(name)] + (if Truthy(currentUrl) then [BlobDelete(currentUrl.value, !deleteFails)] else [])
    case _ => []
  }

  /** The blob store after a sequence of effects. */
  function ApplyBlobEffects(blobs: set<string>, effects: seq<Effect>): set<string>
    decreases |effects|
  {
    if effects == [] then blobs
    else
      var b := match effects[0]
        case BlobPut(name) => blobs + {name}
        case BlobDelete(url, ok) => if ok then blobs - {url} else blobs
        case _ => blobs;
      ApplyBlobEffects(b, effects[1..])
  }

  /** The handler's ordering: nothing is stored unless it returns a new URL;
      then the put comes first and a delete, if any, comes second and targets
      the old URL. Whether the delete fails never changes the returned URL. */
  lemma UploadOrdering(image: Option<Upload>, currentUrl: Option<string>, timestamp: nat,
                       putFails: bool, deleteFails: bool)
    ensures var e := UploadEffects(image, currentUrl, timestamp, putFails, deleteFails);
      && (e != [] <==> UploadResult(image, timestamp, putFails).Success? && UploadResult(image, timestamp, putFails).value.Some?)
      && (e != [] ==> e[0] == BlobPut(UploadResult(image, timestamp, putFails).value.value))
      && |e| <= 2
      && (|e| == 2 <==> e != [] && Truthy(currentUrl))
      && (|e| == 2 ==> e[1] == BlobDelete(currentUrl.value, !deleteFails))
  {
  }

  /** The blob store after a successful upload: the new image added, then
      the old URL removed when its delete succeeded. */
  lemma ApplyUploadEffects(blobs: set<string>, image: Option<Upload>, currentUrl: Option<string>,
                           timestamp: nat, putFails: bool, deleteFails: bool)
    requires UploadResult(image, timestamp, putFails).Success?
    requires UploadResult(image, timestamp, putFails).value.Some?
    ensures var url := UploadResult(image, timestamp, putFails).value.value;
      var put := blobs + {url};
      ApplyBlobEffects(blobs, UploadEffects(image, currentUrl, timestamp, putFails, deleteFails))
        == if Truthy(currentUrl) && !deleteFails then put - {currentUrl.value} else put
  {
    var url := UploadResult(image, timestamp, putFails).value.value;
    var e := UploadEffects(image, currentUrl, timestamp, putFails, deleteFails);
    var put := blobs + {url};
    if Truthy(currentUrl) {
      assert e == [BlobPut(url), BlobDelete(currentUrl.value, !deleteFails)];
      assert e[1..][1..] == [];
      var deleted := if !deleteFails then put - {currentUrl.value} else put;
      assert ApplyBlobEffects(put, e[1..]) == ApplyBlobEffects(deleted, []);
    } else {
      assert e == [BlobPut(url)];
      assert ApplyBlobEffects(put, e[1..]) == put;
    }
  }

  /** After a successful upload the new image is stored, unless a successful
      delete of an old URL equal to it removed it again; a failed delete leaves
      the old image in place. */
  lemma UploadStoresImage(blobs: set<string>, image: Option<Upload>, currentUrl: Option<string>,
                          timestamp: nat, putFails: bool, deleteFails: bool)
    requires UploadResult(image, timestamp, putFails).Success?
    requires UploadResult(image, timestamp, putFails).value.Some?
    ensures var url := UploadResult(image, timestamp, putFails).value.value;
      var after := ApplyBlobEffects(blobs, UploadEffects(image, currentUrl, timestamp, putFails, deleteFails));
      && (currentUrl != Some(url) || deleteFails ==> url in after)
      && (Truthy(currentUrl) && deleteFails ==> currentUrl.value in blobs ==> currentUrl.value in after)
      && (Truthy(currentUrl) && !deleteFails ==> currentUrl.value !in after)
      && after <= blobs + {url}
  {
    ApplyUploadEffects(blobs, image, currentUrl, timestamp, putFails, deleteFails);
  }
}
