/**
 * The two pieces of the dataset-image upload (`upload_image_file`,
 * `upload_base64_image`) that are program logic rather than disk I/O: the
 * storage key of an image, namespaced by product, camera and model version,
 * and the normalisation of "no annotation" sentinels to an empty list.
 */
module Images {
  import Text

  /** A JSON-like annotation payload as Python holds it (None, str, int, float, bool, list, dict). */
  datatype Annotation =
    | Null
    | Str(text: string)
    | Num(n: int)
    | Real(x: real)
    | Bool(b: bool)
    | Arr(items: seq<Annotation>)
    | Obj(fields: seq<(string, Annotation)>)

  /** The values `annotate in ('', "", 'null', None, {})` accepts. */
  predicate IsEmptySentinel(a: Annotation)
  {
    a == Str("") || a == Str("null") || a == Null || a == Obj([])
  }

  /** The annotation that goes into the image row: `[]` for every sentinel, anything else unchanged. */
  function NormaliseAnnotation(a: Annotation): (r: Annotation)
    ensures !IsEmptySentinel(r)
    ensures IsEmptySentinel(a) ==> r == Arr([])
    ensures !IsEmptySentinel(a) ==> r == a
  {
    if IsEmptySentinel(a) then Arr([]) else a
  }

  /** The directory under the upload folder that holds the images of one version. */
  const UploadFolder: string := "dataset"

  /** `f"{prodid}/{cameraid}/{modelversionid}"`. */
  function ImageFolder(prodId: string, cameraId: string, versionId: int): string
  {
    prodId + "/" + cameraId + "/" + Text.IntToString(versionId)
  }

  /** The stored `imagepath`: the folder, then the file name. */
  function ImagePath(prodId: string, cameraId: string, versionId: int, fileName: string): string
  {
    ImageFolder(prodId, cameraId, versionId) + "/" + fileName
  }

  /** The path returned to the caller, `dataset/` in front of the stored one. */
  function PublicPath(imagePath: string): string
  {
    UploadFolder + "/" + imagePath
  }

  predicate NoSlash(s: string)
  {
    '/' !in s
  }

  /** The stored path is the four components joined by '/'. */
  lemma ImagePathIsJoin(prodId: string, cameraId: string, versionId: int, fileName: string)
    ensures ImagePath(prodId, cameraId, versionId, fileName)
         == Text.Join([prodId, cameraId, Text.IntToString(versionId), fileName], '/')
  {
    var parts := [prodId, cameraId, Text.IntToString(versionId), fileName];
    var v := Text.IntToString(versionId);
    assert parts[1..][1..][1..] == [fileName];
    assert parts[1..][1..] == [v, fileName];
    assert parts[1..] == [cameraId, v, fileName];
    assert Text.Join(parts[1..][1..], '/') == v + ['/'] + fileName;
    assert Text.Join(parts[1..], '/') == cameraId + ['/'] + (v + ['/'] + fileName);
  }

  /**
   * The stored path splits back into product, camera, version and file name,
   * as long as none of the three free-text parts holds a '/'.
   */
  lemma ImagePathParts(prodId: string, cameraId: string, versionId: int, fileName: string)
    requires NoSlash(prodId) && NoSlash(cameraId) && NoSlash(fileName)
    ensures Text.Split(ImagePath(prodId, cameraId, versionId, fileName), '/')
         == [prodId, cameraId, Text.IntToString(versionId), fileName]
  {
    var v := Text.IntToString(versionId);
    assert forall k :: 0 <= k < |v| ==> v[k] != '/';
    var parts := [prodId, cameraId, v, fileName];
    ImagePathIsJoin(prodId, cameraId, versionId, fileName);
    Text.SplitJoin(parts, '/');
  }

  /**
   * Namespacing: two uploads get the same storage key only when product,
   * camera, version and file name all agree, so the datasets of two versions
   * never collide.
   */
  lemma ImagePathInjective(
    prodId: string, cameraId: string, versionId: int, fileName: string,
    prodId': string, cameraId': string, versionId': int, fileName': string)
    requires NoSlash(prodId) && NoSlash(cameraId) && NoSlash(fileName)
    requires NoSlash(prodId') && NoSlash(cameraId') && NoSlash(fileName')
    requires ImagePath(prodId, cameraId, versionId, fileName) == ImagePath(prodId', cameraId', versionId', fileName')
    ensures prodId == prodId' && cameraId == cameraId' && versionId == versionId' && fileName == fileName'
  {
    ImagePathParts(prodId, cameraId, versionId, fileName);
    ImagePathParts(prodId', cameraId', versionId', fileName');
    assert Text.IntToString(versionId) == Text.IntToString(versionId');
    assert Text.ParseInt(Text.IntToString(versionId)) == versionId;
  }

  /**
   * Without the slash-free condition the storage key is not injective: a file
   * name holding '/' for version 1 lands on the key of another product and
   * camera for version 2.
   */
  lemma ImagePathCollidesWithSlash()
    ensures ImagePath("p", "c", 1, "2/f") == ImagePath("p/c", "1", 2, "f")
  {
  }

  /** The returned path is the upload folder followed by the stored path's four components. */
  lemma PublicPathParts(prodId: string, cameraId: string, versionId: int, fileName: string)
    requires NoSlash(prodId) && NoSlash(cameraId) && NoSlash(fileName)
    ensures Text.Split(PublicPath(ImagePath(prodId, cameraId, versionId, fileName)), '/')
         == [UploadFolder, prodId, cameraId, Text.IntToString(versionId), fileName]
  {
    var p := ImagePath(prodId, cameraId, versionId, fileName);
    assert PublicPath(p) == UploadFolder + ['/'] + p;
    Text.SplitAfterPiece(UploadFolder, p, '/');
    ImagePathParts(prodId, cameraId, versionId, fileName);
  }
}
