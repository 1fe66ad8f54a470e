/**
  The `onError` handler both image components install: whatever URL was
  being loaded, a load failure sets the element's `src` to the placeholder.
  The element is modelled by its `src` only; the browser's callbacks are a
  sequence of load events.
 */
module ImageFallback {
  import opened Photos

  datatype LoadEvent = Loaded | Failed

  /** The element's `src` after one callback: `onLoad` changes nothing,
      `onError` assigns the placeholder. */
  function OnEvent(src: string, e: LoadEvent): (next: string)
    ensures e == Failed ==> next == Placeholder
    ensures e == Loaded ==> next == src
  {
    match e
    case Loaded => src
    case Failed => Placeholder
  }

  /** The element's `src` after a sequence of callbacks, starting from the
      URL the component resolved. */
  function SrcAfter(src: string, events: seq<LoadEvent>): string
    decreases |events|
  {
    if events == [] then src else SrcAfter(OnEvent(src, events[0]), events[1..])
  }

  /** One failure anywhere sends the element to the placeholder, with no
      intermediate URL tried; without a failure the resolved URL stays. */
  lemma {:induction false} SrcAfterEvents(src: string, events: seq<LoadEvent>)
    ensures Failed in events ==> SrcAfter(src, events) == Placeholder
    ensures Failed !in events ==> SrcAfter(src, events) == src
    decreases |events|
  {
    if events != [] {
      SrcAfterEvents(OnEvent(src, events[0]), events[1..]);
      if events[0] == Failed {
        PlaceholderIsFixed(events[1..]);
      } else {
        assert events == [events[0]] + events[1..];
      }
    }
  }

  /** Once on the placeholder, the element stays there. */
  lemma {:induction false} PlaceholderIsFixed(events: seq<LoadEvent>)
    ensures SrcAfter(Placeholder, events) == Placeholder
    decreases |events|
  {
    if events != [] {
      PlaceholderIsFixed(events[1..]);
    }
  }
}
