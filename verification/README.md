# Gallery lightbox: a verified model of its navigation

`gallery.js` turns a page's `.gallery-item` elements into a lightbox. Clicking an
entry opens an overlay that shows the entry's image, caption and an "i / n"
counter. The overlay has next and previous controls that wrap around, and
Escape, ArrowRight and ArrowLeft keys. This project models the `Gallery`
class's state machine apart from the DOM and proves what it does.

- `navigation.dfy` (module `Navigation`): JavaScript's `%` operator, the
  next and previous index, repeated steps, and the cycle lemmas.
- `display.dfy` (module `Display`): the decimal counter text and a parser
  that reads it back, JavaScript's `String.prototype.slice`, and the choice
  of the image `src`.
- `model.dfy` (module `GalleryModel`): the widget's observable state as a
  value. Each operation is a transition function. The module also holds the
  invariant the operations keep and the lemmas about the transitions.
- `gallery.dfy` (module `GalleryWidget`): class `Gallery`. Its fields follow
  the source: `currentIndex`, the `modal-show` flag, the body's `overflow`,
  and the `src`, `alt`, caption and counter slots. The entries and their
  count `n` are constants read at construction. Each method updates the
  fields in place. It is proved to leave `Snapshot()` equal to a transition
  of `GalleryModel`: `OpenModal` to `Open` of its index, and `CloseModal`,
  `NextImage`, `PrevImage`, `HandleKeyboard` and `HandleModalClick` to
  `Close`, `Next`, `Prev`, `Key` and `BackdropClick` of the old snapshot.

Inputs from the page become values:
- Each entry's inline `background-image`, heading text and paragraph text
  become an `Item` of three strings. They stand for the `querySelector`
  reads. An entry without an inline image has the empty string, which
  JavaScript treats as false.
- `encodeURIComponent` becomes a function `encode` given to the
  constructor. Nothing is assumed about its output.

`nextImage` and `prevImage` have no guard for an empty gallery: `x % 0` is
`NaN`. With no entries, no entry's click handler is registered
(gallery.js:20-23), so `openModal` is never called and the overlay stays
hidden. The keyboard listener is gated on the overlay's visibility
(gallery.js:99), and the previous and next controls sit inside the hidden
overlay. The model requires `n > 0` for `NextImage` and `PrevImage`.
`Valid()` makes the overlay's visibility imply `n > 0`, so
`HandleKeyboard` needs no such requirement.

## Model

| member | source | states |
|---|---|---|
| Navigation.JsRem | gallery.js:89 | JavaScript's `%` with a positive divisor agrees with the Euclidean remainder on non-negative dividends. On negative ones its result lies in (-b, 0] |
| Navigation.NextIndex | gallery.js:89 | From an in-range index the next index is in range. It is `i + 1`, except that the last entry wraps round to 0 |
| Navigation.PrevIndex | gallery.js:94 | From an in-range index the previous index is in range. It is `i - 1`, except that entry 0 wraps round to the last |
| Navigation.PrevNextInverse | gallery.js:88-96 | Previous after next, and next after previous, give back the original index |
| Navigation.Steps | gallery.js:89 | Any number of steps in either direction from an in-range index stays in range |
| Navigation.StepsSplit | gallery.js:89 | `a + b` steps are `a` steps followed by `b` steps |
| Navigation.ForwardClimbs | gallery.js:89 | `k` presses of next that do not reach the end add `k` to the index |
| Navigation.BackwardDescends | gallery.js:94 | `k` presses of previous that do not pass entry 0 subtract `k` from the index |
| Navigation.NextCycle | gallery.js:89 | `n` presses of next from any in-range index return to that index |
| Navigation.PrevCycle | gallery.js:94 | `n` presses of previous from any in-range index return to that index |
| Display.Decimal | gallery.js:76 | The rendering of a number in a template literal is non-empty, made only of digits, and has no leading zero unless the number is 0 |
| Display.DecimalRoundTrip | gallery.js:76 | Reading the digits back gives the number rendered |
| Display.DecimalInjective | gallery.js:76 | Different numbers render differently |
| Display.CounterRoundTrip | gallery.js:76 | The counter written for entry `index` of `count` parses back to the pair (`index + 1`, `count`): the 1-based position and the total |
| Display.CounterInjective | gallery.js:76 | Two counters read the same only for the same position among the same number of entries |
| Display.SliceBound | gallery.js:72 | A bound within the string is kept and one past its end becomes its length. A negative bound counts back from the end, and one before the start becomes 0 |
| Display.JsSlice | gallery.js:72 | `slice(start, end)` is the characters from `start` up to `end`, with a negative `end` counted from the end. It is empty when the end bound does not lie after the start bound, and never longer than the string |
| Display.UnwrapUrl | gallery.js:72 | `slice(5, -2)` is the string without its first 5 and last 2 characters. It is empty when the string has at most 7 |
| Display.UnwrapWrapUrl | gallery.js:72 | Slicing the string `url("u")` gives back exactly `u` |
| Display.ImageSourceInline | gallery.js:71-72 | An entry whose inline style is `url("u")` shows image `u`, whatever its title |
| Display.ImageSourceFallback | gallery.js:71-73 | An entry without an inline image shows the placeholder endpoint followed by exactly the encoded title |
| GalleryModel.OpenDisplaysEntry | gallery.js:63-80 | Opening entry `i` sets the index to `i`, shows the overlay and locks scrolling. The src follows the inline-or-placeholder rule, and alt and caption carry the entry's title and description. The counter parses back as `i + 1` of `n`, and the invariant holds afterwards |
| GalleryModel.CloseIdempotent | gallery.js:83-86 | Closing hides the overlay and sets overflow to `auto`. It keeps the index and every slot, preserves the invariant, and a second close changes nothing |
| GalleryModel.NavigationOpens | gallery.js:88-96 | Next and previous leave the overlay visible at the next or previous index, and preserve the invariant |
| GalleryModel.VisibleIsOpen | gallery.js:63-80 | Under the invariant, a visible overlay is exactly the state that opening its current index produces |
| GalleryModel.PrevNextUndo | gallery.js:88-96 | On a visible overlay, previous after next and next after previous restore the whole state, slots included |
| GalleryModel.KeyDispatch | gallery.js:98-112 | Any key leaves a hidden overlay untouched. On a visible one, Escape is close, ArrowRight is next and ArrowLeft is previous. Every other key changes nothing, and the invariant is kept |
| GalleryModel.RepeatOpens | gallery.js:88-96 | One or more presses of next (or previous) show the entry that many steps away |
| GalleryModel.RepeatCycles | gallery.js:88-96 | `n` presses of next, or of previous, reopen the starting entry. From a visible overlay they give back the starting state |
| GalleryModel.ThreeEntryTour | gallery.js:76 | With entries A, B, C: opening the first shows "1 / 3" and A, next shows "2 / 3" and B, and two more presses wrap back to the first state |
| GalleryWidget.Gallery.constructor | gallery.js:3-10 | The gallery starts at index 0 with the overlay hidden and the body style untouched. The slots are as the overlay markup creates them: no src, alt "Gallery Image", an empty caption (no title or description markup) and an empty counter |
| GalleryWidget.Gallery.OpenModal | gallery.js:63-81 | From any prior state, even a closed or inconsistent one, the fields become the open state for `index` |
| GalleryWidget.Gallery.CloseModal | gallery.js:83-86 | The fields become the closed state of the old ones |
| GalleryWidget.Gallery.NextImage | gallery.js:88-91 | The fields become the open state at the wrapped next index |
| GalleryWidget.Gallery.PrevImage | gallery.js:93-96 | The fields become the open state at the wrapped previous index |
| GalleryWidget.Gallery.HandleKeyboard | gallery.js:98-112 | The fields follow the key dispatch: nothing while hidden, and Escape, ArrowRight or ArrowLeft while visible |
| GalleryWidget.Gallery.HandleModalClick | gallery.js:56-60 | A click on the overlay's backdrop closes it. A click on anything inside changes nothing |

## Left out

- Navigation.JsRem: for a negative dividend only the sign and bound of the result are stated, not its exact value. The gallery never divides a negative number while its invariant holds.
- Building the overlay markup and looking up its elements (`createModal`, `insertAdjacentHTML`, `getElementById`), gallery.js:29-48. This is DOM construction with no logic to state.
- Registering listeners, gallery.js:20-26 and 51-53. The close, previous and next controls each call `CloseModal`, `PrevImage` or `NextImage`. Those methods are modelled; the wiring is not. Setting each entry's cursor to `pointer` is left out too.
- The `DOMContentLoaded` start-up, gallery.js:116-118. It belongs to the host page's lifecycle.
- The caption's `innerHTML` template, gallery.js:75. It is HTML rendering without escaping. The model records the caption as the pair (title, description).
- `encodeURIComponent`, gallery.js:73. It is a browser library function, passed in as `encode` and left unspecified.
- Malformed entries. An entry without a `.gallery-image`, a heading or a paragraph makes `querySelector` return `null`, and `openModal` then throws, at gallery.js:67, 68 or 71. By then gallery.js:64 has already set `currentIndex`, so the index changes while the slots do not. The model receives every entry's texts already read and has no such partial update.
- Entry texts are read once, at construction. The source reads the background, title and description again on every `openModal` (gallery.js:65-68), so it would show a later change to an entry's markup. The model does not capture that.
- Escaping in the inline style. For a URL holding a double quote, a backslash or a control character, the browser escapes those characters inside `url("…")`, and `slice(5, -2)` then returns the escaped text, not the URL. `Display.UnwrapWrapUrl` and `Display.ImageSourceInline` speak of the string `url("u")` only, which is what the browser writes for a URL without such characters.
- Next or previous on an empty gallery. If `nextImage` or `prevImage` were reached with no entries, for example by a programmatic click on a hidden control, gallery.js:89 or 94 would set `currentIndex` to `NaN`. `openModal` would then throw at gallery.js:66, because `this.images[NaN]` is undefined. `NextImage` and `PrevImage` require `n > 0` instead.
- An out-of-range `openModal` index throws in the source. The only callers pass in-range indices, so `OpenModal` requires one.
- Strings are sequences of characters, whereas JavaScript slices UTF-16 code units. The two differ only for characters outside the Basic Multilingual Plane.
- Image loading by the browser, CSS, and what happens when an image fails to load.
