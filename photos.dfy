/**
  The photo record the gallery client receives and the pieces of image-URL
  resolution that both image components share: JavaScript truthiness of an
  optional string, the thumbnail enlargement and the placeholder.
 */
module Photos {
  import opened Wrappers
  import opened JsStrings

  /** The Google Drive part of a photo; every field may be undefined. */
  datatype DriveData = DriveData(
    fileId: Option<string>,
    webViewLink: Option<string>,
    thumbnailLink: Option<string>,
    mimeType: Option<string>)

  /** A photo record as the drive-sync endpoint returns it. */
  datatype Photo = Photo(
    id: string,
    name: string,
    filename: string,
    uploadDate: string,
    size: nat,
    driveData: Option<DriveData>)

  /** The static image shown when no source is known or loading failed. */
  const Placeholder: string := "/placeholder-image.jpg"

  /** The size token of a Drive thumbnail link and its larger replacement. */
  const SmallToken: string := "s220"
  const LargeToken: string := "s400"

  /** JavaScript truthiness of an optional string: undefined and "" are both false. */
  predicate Truthy(o: Option<string>)
  {
    o.Some? && o.value != ""
  }

  /** `photo.driveData?.thumbnailLink` when it is truthy. */
  function Thumbnail(photo: Photo): (t: Option<string>)
    ensures t.Some? <==> photo.driveData.Some? && Truthy(photo.driveData.value.thumbnailLink)
    ensures t.Some? ==> t.value != "" && Some(t.value) == photo.driveData.value.thumbnailLink
  {
    match photo.driveData
    case Some(d) => if Truthy(d.thumbnailLink) then d.thumbnailLink else None
    case None => None
  }

  /** `photo.driveData?.fileId` when it is truthy. */
  function FileId(photo: Photo): (f: Option<string>)
    ensures f.Some? <==> photo.driveData.Some? && Truthy(photo.driveData.value.fileId)
    ensures f.Some? ==> f.value != "" && Some(f.value) == photo.driveData.value.fileId
  {
    match photo.driveData
    case Some(d) => if Truthy(d.fileId) then d.fileId else None
    case None => None
  }

  /** `link.replace('s220', 's400')`: the larger rendition of a thumbnail. */
  function Enlarged(link: string): (r: string)
    ensures |r| == |link|
  {
    ReplaceFirst(link, SmallToken, LargeToken)
  }

  /** A thumbnail link without the small token is used as it is. */
  lemma EnlargedWithoutToken(link: string)
    requires forall j :: !OccursAt(link, SmallToken, j)
    ensures Enlarged(link) == link
  {
  }

  /** Only the first small token is rewritten: what precedes it and what
      follows it are kept, and so is every later small token. */
  lemma EnlargedFirstOnly(link: string, i: nat)
    requires FirstOccursAt(link, SmallToken, i)
    ensures Enlarged(link) == link[..i] + LargeToken + link[i + 4..]
    ensures forall k :: i + 4 <= k && OccursAt(link, SmallToken, k) ==> OccursAt(Enlarged(link), SmallToken, k)
  {
    SpliceKeepsLaterOccurrences(link, SmallToken, LargeToken, i);
  }

  /** The enlarged thumbnail as a candidate URL, when there is a thumbnail. */
  function ThumbnailCandidate(photo: Photo): Option<string>
  {
    if Thumbnail(photo).Some? then Some(Enlarged(Thumbnail(photo).value)) else None
  }

  /** A priority chain of candidate URLs: the first candidate that is present
      wins, and the fallback is used when none is. */
  function FirstPresent(candidates: seq<Option<string>>, fallback: string): (url: string)
    ensures (forall i :: 0 <= i < |candidates| ==> candidates[i].None?) ==> url == fallback
    ensures forall k :: 0 <= k < |candidates| && candidates[k].Some? && (forall j :: 0 <= j < k ==> candidates[j].None?)
              ==> url == candidates[k].value
  {
    if candidates == [] then fallback
    else if candidates[0].Some? then candidates[0].value
    else FirstPresent(candidates[1..], fallback)
  }
}
