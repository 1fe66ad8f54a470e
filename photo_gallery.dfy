/**
  The pure parts of the gallery component: the image URL its inline
  `renderDriveImage` picks for a photo, and the file-size label under each
  photo.
 */
module PhotoGallery {
  import opened Wrappers
  import opened JsStrings
  import opened Photos
  import opened ImageFallback

  /** The server route that streams a Drive file's bytes. */
  const ProxyPrefix: string := "/api/drive-image/"

  /** `getImageUrl` inside `renderDriveImage`: the enlarged thumbnail, else
      the proxy route for the file id, else the placeholder. */
  function GalleryImageUrl(photo: Photo): (url: string)
    ensures Thumbnail(photo).Some? ==> url == Enlarged(Thumbnail(photo).value)
    ensures Thumbnail(photo).None? && FileId(photo).Some? ==> url == ProxyPrefix + FileId(photo).value
    ensures Thumbnail(photo).None? && FileId(photo).None? ==> url == Placeholder
  {
    if Thumbnail(photo).Some? then Enlarged(Thumbnail(photo).value)
    else if FileId(photo).Some? then ProxyPrefix + FileId(photo).value
    else Placeholder
  }

  /** The gallery's candidates, in priority order. */
  function GalleryCandidates(photo: Photo): seq<Option<string>>
  {
    [ ThumbnailCandidate(photo),
      if FileId(photo).Some? then Some(ProxyPrefix + FileId(photo).value) else None ]
  }

  /** The gallery URL is the first-match-wins chain thumbnail, proxy,
      placeholder. */
  lemma GalleryUrlIsPriorityChain(photo: Photo)
    ensures GalleryImageUrl(photo) == FirstPresent(GalleryCandidates(photo), Placeholder)
  {
    var c := GalleryCandidates(photo);
    if c[0].None? && c[1].Some? {
      assert forall j :: 0 <= j < 1 ==> c[j].None?;
    }
  }

  /** A thumbnail wins even when the file id is set too. */
  lemma ThumbnailWinsOverFileId(photo: Photo, d: DriveData, t: string)
    requires photo.driveData == Some(d) && d.thumbnailLink == Some(t) && t != ""
    ensures GalleryImageUrl(photo) == Enlarged(t)
  {
  }

  /** Without a usable thumbnail, a non-empty file id goes through the proxy. */
  lemma FileIdUsesProxy(photo: Photo, d: DriveData, f: string)
    requires photo.driveData == Some(d) && d.fileId == Some(f) && f != ""
    requires d.thumbnailLink.None? || d.thumbnailLink == Some("")
    ensures GalleryImageUrl(photo) == "/api/drive-image/" + f
  {
  }

  /** What a photo card shows: an image element with the resolved URL when
      the photo has Drive data at all (an empty object counts), otherwise
      a static "Google Drive" box, modelled as `None`. */
  function CardImageSrc(photo: Photo): (src: Option<string>)
    ensures src.None? <==> photo.driveData.None?
    ensures src.Some? ==> src.value == GalleryImageUrl(photo)
  {
    if photo.driveData.Some? then Some(GalleryImageUrl(photo)) else None
  }

  /** A photo whose Drive data has no usable field still gets an image
      element, and that element shows the placeholder. */
  lemma EmptyDriveDataShowsPlaceholder(photo: Photo)
    requires photo.driveData.Some?
    requires !Truthy(photo.driveData.value.thumbnailLink) && !Truthy(photo.driveData.value.fileId)
    ensures CardImageSrc(photo) == Some(Placeholder)
  {
  }

  /** After a failed load of the gallery URL the element shows the
      placeholder, even for a photo whose thumbnail failed while a file id
      (and so the proxy route) was available. */
  lemma GalleryFailureGoesToPlaceholder(photo: Photo, events: seq<LoadEvent>)
    requires Failed in events
    ensures SrcAfter(GalleryImageUrl(photo), events) == Placeholder
  {
    SrcAfterEvents(GalleryImageUrl(photo), events);
  }

  // ---------------------------------------------------------------------
  // formatFileSize

  const KiB: nat := 1024
  const MiB: nat := 1048576

  datatype Unit = B | KB | MB

  function UnitName(u: Unit): string
  {
    match u
    case B => "B"
    case KB => "KB"
    case MB => "MB"
  }

  function UnitFromName(s: string): (u: Option<Unit>)
    ensures u.Some? ==> UnitName(u.value) == s
  {
    if s == "B" then Some(B)
    else if s == "KB" then Some(KB)
    else if s == "MB" then Some(MB)
    else None
  }

  /** A displayed size: the number and the unit written after it. */
  datatype SizeLabel = SizeLabel(amount: nat, unit: Unit)

  /** `v == Math.round(b / k)`: `v` is the integer nearest to `b / k`, a
      tie going up, i.e. `v - 1/2 <= b / k < v + 1/2`. */
  predicate RoundsTo(b: nat, k: nat, v: nat)
  {
    2 * v * k <= 2 * b + k < 2 * v * k + 2 * k
  }

  /** `Math.round(b / k)` for an even divisor in integer arithmetic: the
      quotient of `b + k / 2` by `k`. For `k` a power of two the division
      `b / k` is exact in floating point, so nothing is lost. */
  function RoundedQuotient(b: nat, k: nat): (v: nat)
    requires k > 0 && k % 2 == 0
    ensures RoundsTo(b, k, v)
  {
    var q := (b + k / 2) / k;
    var r := (b + k / 2) % k;
    assert b + k / 2 == q * k + r && 0 <= r < k;
    assert 2 * b + k == 2 * q * k + 2 * r;
    q
  }

  /** Rounding a larger count never gives a smaller number. */
  lemma RoundsToMonotone(b1: nat, b2: nat, k: nat, v1: nat, v2: nat)
    requires k > 0 && b1 <= b2
    requires RoundsTo(b1, k, v1) && RoundsTo(b2, k, v2)
    ensures v1 <= v2
  {
    assert (v2 + 1) * k == v2 * k + k;
    assert v1 * k < (v2 + 1) * k;
    MulCancel(v1, v2 + 1, k);
  }

  /** Rounding has one answer. */
  lemma RoundsToUnique(b: nat, k: nat, v: nat, w: nat)
    requires k > 0
    requires RoundsTo(b, k, v) && RoundsTo(b, k, w)
    ensures v == w
  {
    RoundsToMonotone(b, b, k, v, w);
    RoundsToMonotone(b, b, k, w, v);
  }

  lemma MulCancel(x: nat, y: nat, k: nat)
    requires x * k < y * k
    ensures x < y
  {
    if y <= x {
      MulMonotone(y, x, k);
    }
  }

  lemma MulMonotone(x: nat, y: nat, k: nat)
    requires x <= y
    ensures x * k <= y * k
  {
  }

  /** The label `formatFileSize` writes for a byte count. */
  function FileSizeLabel(bytes: nat): (l: SizeLabel)
    ensures l.unit == B <==> bytes < KiB
    ensures l.unit == KB <==> KiB <= bytes < MiB
    ensures l.unit == MB <==> MiB <= bytes
    ensures l.unit == B ==> l.amount == bytes
    ensures l.unit == KB ==> RoundsTo(bytes, KiB, l.amount) && 1 <= l.amount <= 1024
    ensures l.unit == MB ==> RoundsTo(bytes, MiB, l.amount) && 1 <= l.amount
  {
    if bytes < KiB then SizeLabel(bytes, B)
    else if bytes < MiB then SizeLabel(RoundedQuotient(bytes, KiB), KB)
    else SizeLabel(RoundedQuotient(bytes, MiB), MB)
  }

  /** The text of a label: the number, a space, the unit. */
  function RenderLabel(l: SizeLabel): string
  {
    NatToString(l.amount) + " " + UnitName(l.unit)
  }

  /** Reads a label back from its text: digits up to the first space, then
      a unit name. */
  function ParseSizeLabel(s: string): Option<SizeLabel>
  {
    match IndexOf(s, " ")
    case None => None
    case Some(i) =>
      var digits := s[..i];
      if digits != [] && (forall j :: 0 <= j < |digits| ==> IsDigit(digits[j]))
         && UnitFromName(s[i + 1..]).Some?
      then Some(SizeLabel(DigitsValue(digits), UnitFromName(s[i + 1..]).value))
      else None
  }

  /** A rendered label reads back as itself. */
  lemma ParseRenderLabel(l: SizeLabel)
    ensures ParseSizeLabel(RenderLabel(l)) == Some(l)
  {
    var digits, name := NatToString(l.amount), UnitName(l.unit);
    var s := RenderLabel(l);
    assert ' ' !in digits by {
      forall j | 0 <= j < |digits| ensures digits[j] != ' ' { assert IsDigit(digits[j]); }
    }
    IndexOfAfterPrefix(digits, ' ', name);
    assert s == digits + [' '] + name;
    assert s[..|digits|] == digits;
    assert s[|digits| + 1..] == name;
    NatToStringRoundTrip(l.amount);
  }

  /** `formatFileSize(bytes)`: the text reads back as the label for
      `bytes`. */
  function FormatFileSize(bytes: nat): (s: string)
    ensures ParseSizeLabel(s) == Some(FileSizeLabel(bytes))
  {
    ParseRenderLabel(FileSizeLabel(bytes));
    RenderLabel(FileSizeLabel(bytes))
  }

  /** Below 1024 the count of bytes is written as it is. */
  lemma FormatBytes(bytes: nat)
    requires bytes < 1024
    ensures FormatFileSize(bytes) == NatToString(bytes) + " B"
  {
  }

  /** Two sizes shown with the same text have the same label. */
  lemma FormatDeterminesLabel(b1: nat, b2: nat)
    requires FormatFileSize(b1) == FormatFileSize(b2)
    ensures FileSizeLabel(b1) == FileSizeLabel(b2)
  {
  }

  /** Within one unit, a larger file never shows a smaller number. */
  lemma FileSizeLabelMonotone(b1: nat, b2: nat)
    requires b1 <= b2 && FileSizeLabel(b1).unit == FileSizeLabel(b2).unit
    ensures FileSizeLabel(b1).amount <= FileSizeLabel(b2).amount
  {
    var l1, l2 := FileSizeLabel(b1), FileSizeLabel(b2);
    if l1.unit == KB {
      RoundsToMonotone(b1, b2, KiB, l1.amount, l2.amount);
    } else if l1.unit == MB {
      RoundsToMonotone(b1, b2, MiB, l1.amount, l2.amount);
    }
  }

  /** The unit boundaries: 1023 bytes is "1023 B", 1024 bytes is "1 KB",
      1536 bytes rounds its tie up to "2 KB", and just under a mebibyte the
      label is "1024 KB" although 1024 KB is a mebibyte. */
  lemma UnitBoundaries()
    ensures FileSizeLabel(1023) == SizeLabel(1023, B)
    ensures FileSizeLabel(1024) == SizeLabel(1, KB)
    ensures FileSizeLabel(1536) == SizeLabel(2, KB)
    ensures FileSizeLabel(1048575) == SizeLabel(1024, KB)
    ensures FileSizeLabel(1048576) == SizeLabel(1, MB)
  {
  }
}
