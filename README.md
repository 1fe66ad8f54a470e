# Photo gallery client: image-URL resolution and file-size labels

This project models the client-side logic of a Next.js photo gallery that
shows pictures from a Google Drive folder. Two pieces of that client compute
something, and they are modelled here as pure Dafny functions with proved
properties.

1. **Image-URL resolution.** Each image component picks one URL for a photo
   from its optional Drive data (`fileId`, `thumbnailLink`), using a fixed
   priority chain. `PhotoGallery`'s inline `renderDriveImage` tries the
   thumbnail link with `s220` rewritten to `s400`, then the local proxy route
   `/api/drive-image/<fileId>`, then `/placeholder-image.jpg`.
   `DriveImage` splits the chain in two. `getImageUrl` gives the direct
   Drive URL `https://drive.google.com/uc?export=view&id=<fileId>` or the
   placeholder. `getThumbnailUrl` gives the enlarged thumbnail or defers to
   `getImageUrl`. A width above 300 selects `getImageUrl`. In both
   components a load error sets the element's `src` to the placeholder.
2. **File-size labels.** `formatFileSize` writes a byte count as `N B`,
   `N KB` or `N MB`. The thresholds are 1024 and 1048576, and the value is
   rounded with `Math.round`.

Two pieces of JavaScript behaviour are modelled explicitly:

- **Truthiness.** Optional fields are `Option<string>`. An empty string
  counts as absent, like `undefined` (`Photos.Truthy`). A width of `0` is
  falsy too.
- **First-only replace.** `String.prototype.replace` with a string pattern
  replaces only the first occurrence (`JsStrings.ReplaceFirst`).

`Math.round(b / k)` is modelled over `nat` as `(b + k / 2) / k`. Both
divisors are powers of two, so `b / k` is exact in floating point for any
byte count below 2^53. `PhotoGallery.RoundsTo` states the rounding
independently of that formula: the nearest integer, with ties going up.

Modules follow the source:
- `JsStrings` holds the string semantics.
- `Photos` holds the record types and the helpers both components share.
- `ImageFallback` models the `onError` handler.
- `PhotoGallery` models `PhotoGallery.tsx`.
- `DriveImage` models `DriveImage.tsx`.

A load failure does not step down the chain to the proxy route: both
`onError` handlers (`PhotoGallery.tsx` lines 153-157, `DriveImage.tsx`
lines 56-60) set the placeholder directly
(`PhotoGallery.GalleryFailureGoesToPlaceholder`,
`ImageFallback.SrcAfterEvents`). Neither chain reads `webViewLink`, and the
grid never applies the name/date filter state (`PhotoGallery.tsx` lines
24-25 and 251).

## Model

| member | source | states |
|---|---|---|
| `JsStrings.IndexOf` | app/components/PhotoGallery.tsx:125 | the index found is an occurrence of the pattern with none before it; `None` exactly when the pattern occurs nowhere |
| `JsStrings.ReplaceFirst` | app/components/PhotoGallery.tsx:125 | a string without the pattern is returned unchanged; otherwise only the first occurrence is swapped for the replacement and the text around it is kept |
| `JsStrings.LaterOccurrenceKept` | app/components/PhotoGallery.tsx:125 | any occurrence after the first survives the replacement, shifted by the change in length |
| `JsStrings.NatToString` | app/components/PhotoGallery.tsx:104 | the number renders as a non-empty run of decimal digits with no leading zero, one digit exactly below 10 |
| `JsStrings.NatToStringRoundTrip` | app/components/PhotoGallery.tsx:104-106 | reading the rendered digits back gives the number again |
| `JsStrings.NatToStringInjective` | app/components/PhotoGallery.tsx:104-106 | different numbers render differently |
| `Photos.Thumbnail` | app/components/PhotoGallery.tsx:124 | a thumbnail is used exactly when Drive data exists and its `thumbnailLink` is a non-empty string |
| `Photos.FileId` | app/components/PhotoGallery.tsx:131 | a file id is used exactly when Drive data exists and its `fileId` is a non-empty string |
| `Photos.Enlarged` | app/components/PhotoGallery.tsx:125 | rewriting `s220` to `s400` keeps the link's length |
| `Photos.EnlargedWithoutToken` | app/components/PhotoGallery.tsx:125 | a thumbnail link with no `s220` is used unchanged |
| `Photos.EnlargedFirstOnly` | app/components/PhotoGallery.tsx:125 | only the first `s220` becomes `s400`; the rest of the link, later `s220`s included, is kept |
| `Photos.FirstPresent` | app/components/PhotoGallery.tsx:122-140 | a priority chain returns the first candidate that is present, or the fallback when none is |
| `ImageFallback.OnEvent` | app/components/PhotoGallery.tsx:153-157 | an error callback sets `src` to the placeholder; a load callback leaves it |
| `ImageFallback.SrcAfterEvents` | app/components/DriveImage.tsx:56-60 | after any sequence of callbacks with a failure, `src` is the placeholder, with no intermediate URL; with no failure it is the resolved URL |
| `ImageFallback.PlaceholderIsFixed` | app/components/PhotoGallery.tsx:156 | once on the placeholder, later callbacks keep it there |
| `PhotoGallery.GalleryImageUrl` | app/components/PhotoGallery.tsx:122-140 | thumbnail present: the enlarged thumbnail; else a file id: `/api/drive-image/` followed by the id; else the placeholder |
| `PhotoGallery.GalleryUrlIsPriorityChain` | app/components/PhotoGallery.tsx:122-140 | the gallery URL equals the first-match chain thumbnail, proxy, placeholder |
| `PhotoGallery.ThumbnailWinsOverFileId` | app/components/PhotoGallery.tsx:124-128 | a non-empty thumbnail wins even when a file id is present |
| `PhotoGallery.FileIdUsesProxy` | app/components/PhotoGallery.tsx:131-135 | without a usable thumbnail, a non-empty file id gives exactly the proxy URL |
| `PhotoGallery.CardImageSrc` | app/components/PhotoGallery.tsx:258-273 | a card has an image element exactly when the photo has Drive data, and its `src` is the gallery URL |
| `PhotoGallery.EmptyDriveDataShowsPlaceholder` | app/components/PhotoGallery.tsx:258-265 | Drive data with neither usable field still gives an image element, showing the placeholder |
| `PhotoGallery.GalleryFailureGoesToPlaceholder` | app/components/PhotoGallery.tsx:153-157 | whatever gallery URL was tried, a failure leads to the placeholder, not to the proxy route |
| `PhotoGallery.RoundedQuotient` | app/components/PhotoGallery.tsx:105-106 | the integer quotient of `b + k/2` by an even `k` is `Math.round(b / k)`: the nearest integer, ties up |
| `PhotoGallery.RoundsToUnique` | app/components/PhotoGallery.tsx:105-106 | the rounding relation has a single answer |
| `PhotoGallery.RoundsToMonotone` | app/components/PhotoGallery.tsx:105-106 | rounding a larger count never gives a smaller number |
| `PhotoGallery.FileSizeLabel` | app/components/PhotoGallery.tsx:103-107 | exactly one unit applies to each count. `B` below 1024 with the count itself; `KB` below 1048576 with the rounded KiB count, in 1..1024; `MB` otherwise with the rounded MiB count, at least 1 |
| `PhotoGallery.ParseRenderLabel` | app/components/PhotoGallery.tsx:103-107 | a rendered label reads back as the same number and unit |
| `PhotoGallery.FormatFileSize` | app/components/PhotoGallery.tsx:103-107 | the text shown reads back as exactly the label for the byte count |
| `PhotoGallery.FormatBytes` | app/components/PhotoGallery.tsx:104 | below 1024 the text is the count followed by ` B` |
| `PhotoGallery.FormatDeterminesLabel` | app/components/PhotoGallery.tsx:103-107 | the same text means the same number and unit |
| `PhotoGallery.FileSizeLabelMonotone` | app/components/PhotoGallery.tsx:105-106 | within one unit a larger file never shows a smaller number |
| `PhotoGallery.UnitBoundaries` | app/components/PhotoGallery.tsx:104-106 | 1023 is `1023 B`, 1024 is `1 KB`, 1536 rounds up to `2 KB`, 1048575 shows `1024 KB`, 1048576 is `1 MB` |
| `DriveImage.ImageUrl` | app/components/DriveImage.tsx:29-37 | no usable file id: the placeholder; otherwise the direct Drive view URL for the id |
| `DriveImage.ThumbnailUrl` | app/components/DriveImage.tsx:40-46 | the enlarged thumbnail when present, otherwise the same URL as `getImageUrl` |
| `DriveImage.IsLargeIff` | app/components/DriveImage.tsx:49 | the large branch is taken exactly for a defined width above 300 |
| `DriveImage.SelectedUrl` | app/components/DriveImage.tsx:49 | a large width selects `getImageUrl`; an undefined, zero or small width selects `getThumbnailUrl` |
| `DriveImage.SelectedUrlIsPriorityChain` | app/components/DriveImage.tsx:29-49 | large: the chain file id, placeholder; small: the chain thumbnail, file id, placeholder |
| `DriveImage.LargeIgnoresThumbnail` | app/components/DriveImage.tsx:49 | for a large width the URL depends only on the usable file id: two photos with the same one get the same URL whatever their thumbnail links |
| `DriveImage.LargeWithoutFileIdIsPlaceholder` | app/components/DriveImage.tsx:29-49 | large rendering, thumbnail but no file id: the placeholder |
| `DriveImage.SmallUsesThumbnail` | app/components/DriveImage.tsx:49 | undefined or small width with a thumbnail: the enlarged thumbnail |
| `DriveImage.DriveImageFailureGoesToPlaceholder` | app/components/DriveImage.tsx:56-60 | whatever URL was selected, a failure leads to the placeholder |
| `DriveImage.AltText` | app/components/DriveImage.tsx:54 | a non-empty alt text is used; otherwise the photo's name |
| `DriveImage.ComponentsCompared` | app/components/DriveImage.tsx:39-49 | for small renderings the two components agree when there is a thumbnail; with only a file id they differ (proxy route against direct Drive URL) |

## Left out

- `syncWithFolder` and the 30-second re-sync interval (`PhotoGallery.tsx` lines 31-91) are left out. They are asynchronous fetches, console logging and React state setters, and overlapping ticks make them concurrent.
- `formatDate` is left out. It relies on `Date` and on the `it-IT` locale formatting of the JavaScript runtime.
- The name and date filter inputs are React state that the grid never applies. No filter exists to model.
- The route handlers under `app/api` are left out. They are stubs that return empty data or echo the request, plus one proxy around the Google Drive client (the drive-image route), which is a network call.
- JSX, CSS, the modal's open and close state and the `next/image` component are left out. From an image element the model keeps only its `src`. Browser load and error events are the `ImageFallback.LoadEvent` sequence.
- All console logging in the two components is left out; no computed value depends on it.
- `PhotoGallery.FileSizeLabel`: byte counts are unbounded naturals. Negative or fractional sizes are not modelled; the record's size is a byte count. Counts from 2^53 upward lose floating-point precision in JavaScript, and counts from 10^21 upward print in exponent notation. Neither is modelled.
- `DriveImage.IsLarge`: widths are integers. Fractional widths and `NaN` are not modelled.
- `JsStrings.ReplaceFirst`: `$` replacement patterns are not modelled. The only replacement used, `s400`, contains none.
- `DriveImage` is modelled over the gallery's photo record. The component reads only its `driveData` and `name`.
