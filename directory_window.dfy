/**
 * The image list of a DirectoryWindow (include/DirectoryWindow.h): label
 * truncation, lookup of an image by the tail of a path, and the selection
 * reset.  Scanning the directory and the monitor thread are not part of this
 * model; the loaded images are the window's `images` field.
 */
module DirectoryWindow {
  import opened CTypes
  import opened Wrappers
  import Serializer

  /** ImageData: the GL texture id, the image size and the file name. */
  datatype ImageData = ImageData(textureID: u32, size: Serializer.Vec2, filename: string)

  /** The selection after clearSelectedImage: id 0, a zero size and no file name. */
  const NoImage: ImageData := ImageData(0, Serializer.Vec2(0, 0), "")

  /**
   * TruncateString: a string longer than `maxLength` keeps its first
   * `maxLength` characters followed by "...", anything else is unchanged.
   */
  function TruncateString(str: string, maxLength: nat): (r: string)
    ensures |str| <= maxLength ==> r == str
    ensures |str| > maxLength ==> |r| == maxLength + 3 && r[..maxLength] == str[..maxLength]
                                  && r[maxLength..] == "..."
  {
    if |str| > maxLength then str[..maxLength] + "..." else str
  }

  /** Truncating an already truncated label changes nothing. */
  lemma {:induction false} TruncateIdempotent(str: string, maxLength: nat)
    ensures TruncateString(TruncateString(str, maxLength), maxLength) == TruncateString(str, maxLength)
  {
    var once := TruncateString(str, maxLength);
    if |str| > maxLength {
      assert once[..maxLength] == str[..maxLength];
      assert TruncateString(once, maxLength) == once[..maxLength] + "...";
    }
  }

  /** `tail` ends `name`: the test getImageByPath applies to each image's file name. */
  predicate EndsWith(name: string, tail: string)
  {
    |name| >= |tail| && name[|name| - |tail|..] == tail
  }

  /** The index of the first image whose file name ends `fileName`, in list order. */
  function FirstMatch(images: seq<ImageData>, fileName: string): (r: Option<nat>)
    ensures r.Some? ==> r.value < |images| && EndsWith(fileName, images[r.value].filename)
                        && forall k :: 0 <= k < r.value ==> !EndsWith(fileName, images[k].filename)
    ensures r.None? ==> forall k :: 0 <= k < |images| ==> !EndsWith(fileName, images[k].filename)
  {
    if images == [] then None
    else if EndsWith(fileName, images[0].filename) then Some(0)
    else match FirstMatch(images[1..], fileName)
      case None => None
      case Some(k) => Some(k + 1)
  }

  class DirectoryWindow {
    var images: seq<ImageData>
    var selectedImage: ImageData

    constructor (images: seq<ImageData>)
      ensures this.images == images && selectedImage == NoImage
    {
      this.images := images;
      selectedImage := NoImage;
    }

    /**
     * getImageByPath: the first image, in list order, whose file name is a
     * suffix of `fileName`; the exception becomes an error carrying its message.
     */
    function GetImageByPath(fileName: string): (r: Result<ImageData>)
      reads this
      ensures r.Ok? ==> exists k :: 0 <= k < |images| && r.value == images[k]
                          && EndsWith(fileName, images[k].filename)
                          && forall j :: 0 <= j < k ==> !EndsWith(fileName, images[j].filename)
      ensures r.Err? <==> forall k :: 0 <= k < |images| ==> !EndsWith(fileName, images[k].filename)
      ensures r.Err? ==> r.error == "Image not found: " + fileName
    {
      match FirstMatch(images, fileName)
      case None => Err("Image not found: " + fileName)
      case Some(k) => Ok(images[k])
    }

    /** clearSelectedImage: the selection becomes the empty image; the list is untouched. */
    method ClearSelectedImage()
      modifies this
      ensures selectedImage == NoImage && images == old(images)
    {
      selectedImage := NoImage;
    }
  }

  /** An image with an empty file name matches every path, so it shadows every image after it. */
  lemma {:induction false} EmptyNameMatchesAll(w: DirectoryWindow, fileName: string, k: nat)
    requires k < |w.images| && w.images[k].filename == ""
    ensures w.GetImageByPath(fileName).Ok?
  {
    assert EndsWith(fileName, w.images[k].filename) by {
      assert fileName[|fileName|..] == "";
    }
  }
}
