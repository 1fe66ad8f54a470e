/**
  The standalone `DriveImage` component: a direct Google Drive URL for large
  renderings, the enlarged thumbnail for small ones, and the placeholder as
  the fallback of both.
 */
module DriveImage {
  import opened Wrappers
  import opened JsStrings
  import opened Photos
  import opened ImageFallback
  import PhotoGallery

  /** Google Drive's public view endpoint for a file id. */
  const DirectPrefix: string := "https://drive.google.com/uc?export=view&id="

  /** `getImageUrl`: the direct Drive URL when the file id is truthy,
      otherwise the placeholder. */
  function ImageUrl(photo: Photo): (url: string)
    ensures FileId(photo).None? ==> url == Placeholder
    ensures FileId(photo).Some? ==> url == DirectPrefix + FileId(photo).value
  {
    if FileId(photo).None? then Placeholder else DirectPrefix + FileId(photo).value
  }

  /** `getThumbnailUrl`: the enlarged thumbnail when there is one, otherwise
      whatever `getImageUrl` gives. */
  function ThumbnailUrl(photo: Photo): (url: string)
    ensures Thumbnail(photo).Some? ==> url == Enlarged(Thumbnail(photo).value)
    ensures Thumbnail(photo).None? ==> url == ImageUrl(photo)
  {
    if Thumbnail(photo).Some? then Enlarged(Thumbnail(photo).value) else ImageUrl(photo)
  }

  /** `imageProps.width && imageProps.width > 300`, for an integer width
      that may be undefined; a width of 0 is falsy. */
  predicate IsLarge(width: Option<int>)
  {
    width.Some? && width.value != 0 && width.value > 300
  }

  /** The falsy-zero test is subsumed by the comparison: large means a
      defined width above 300. */
  lemma IsLargeIff(width: Option<int>)
    ensures IsLarge(width) <==> width.Some? && width.value > 300
  {
  }

  /** The `src` the component renders first. */
  function SelectedUrl(photo: Photo, width: Option<int>): (url: string)
    ensures IsLarge(width) ==> url == ImageUrl(photo)
    ensures !IsLarge(width) ==> url == ThumbnailUrl(photo)
  {
    if IsLarge(width) then ImageUrl(photo) else ThumbnailUrl(photo)
  }

  /** Both size classes as first-match-wins chains ending at the placeholder:
      large renderings consult the file id only, small ones the thumbnail
      and then the file id. */
  lemma SelectedUrlIsPriorityChain(photo: Photo, width: Option<int>)
    ensures IsLarge(width) ==>
      SelectedUrl(photo, width) == FirstPresent([DirectCandidate(photo)], Placeholder)
    ensures !IsLarge(width) ==>
      SelectedUrl(photo, width) == FirstPresent([ThumbnailCandidate(photo), DirectCandidate(photo)], Placeholder)
  {
    var c := [ThumbnailCandidate(photo), DirectCandidate(photo)];
    if c[0].None? && c[1].Some? {
      assert forall j :: 0 <= j < 1 ==> c[j].None?;
    }
  }

  function DirectCandidate(photo: Photo): Option<string>
  {
    if FileId(photo).Some? then Some(DirectPrefix + FileId(photo).value) else None
  }

  /** A large rendering does not look at the thumbnail link at all: two
      photos with the same usable file id get the same URL. */
  lemma LargeIgnoresThumbnail(p: Photo, q: Photo, width: Option<int>)
    requires IsLarge(width)
    requires FileId(p) == FileId(q)
    ensures SelectedUrl(p, width) == SelectedUrl(q, width)
  {
  }

  /** A large rendering of a photo with a thumbnail but no file id shows the
      placeholder. */
  lemma LargeWithoutFileIdIsPlaceholder(photo: Photo, width: Option<int>)
    requires IsLarge(width) && Thumbnail(photo).Some? && FileId(photo).None?
    ensures SelectedUrl(photo, width) == Placeholder
  {
  }

  /** An undefined, zero or small width uses the thumbnail when there is one. */
  lemma SmallUsesThumbnail(photo: Photo, width: Option<int>, t: string)
    requires width.None? || width.value <= 300
    requires Thumbnail(photo) == Some(t)
    ensures SelectedUrl(photo, width) == Enlarged(t)
  {
  }

  /** After a failed load the element shows the placeholder, whichever URL
      was selected. */
  lemma DriveImageFailureGoesToPlaceholder(photo: Photo, width: Option<int>, events: seq<LoadEvent>)
    requires Failed in events
    ensures SrcAfter(SelectedUrl(photo, width), events) == Placeholder
  {
    SrcAfterEvents(SelectedUrl(photo, width), events);
  }

  /** `alt || photo.name`: an empty or missing alt text gives way to the name. */
  function AltText(alt: Option<string>, photo: Photo): (text: string)
    ensures Truthy(alt) ==> text == alt.value
    ensures !Truthy(alt) ==> text == photo.name
  {
    if Truthy(alt) then alt.value else photo.name
  }

  /** The two components agree on small renderings of a photo with a
      thumbnail, and disagree on a photo with only a file id: the gallery
      goes through the proxy route, this component straight to Drive. */
  lemma ComponentsCompared(photo: Photo, width: Option<int>)
    requires !IsLarge(width)
    ensures Thumbnail(photo).Some? ==> SelectedUrl(photo, width) == PhotoGallery.GalleryImageUrl(photo)
    ensures Thumbnail(photo).None? && FileId(photo).Some? ==>
      SelectedUrl(photo, width) != PhotoGallery.GalleryImageUrl(photo)
  {
    if Thumbnail(photo).None? && FileId(photo).Some? {
      var f := FileId(photo).value;
      assert (DirectPrefix + f)[0] == 'h';
      assert (PhotoGallery.ProxyPrefix + f)[0] == '/';
    }
  }
}
