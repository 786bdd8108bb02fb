/**
 The gallery's observable state as a value, and each of its operations as a
 transition from one such value to the next. The `Gallery` class keeps the
 same state in fields and proves each of its methods against one of these
 transitions.
 */
module GalleryModel {
  import opened Navigation
  import opened Display

  /** One `.gallery-item` as the gallery reads it when it is opened: the
      inline `background-image` of its `.gallery-image` (empty when unset),
      the text of its heading and the text of its paragraph. */
  datatype Item = Item(background: string, title: string, description: string)

  /** `document.body.style.overflow`: left as the page had it until the
      overlay is first opened or closed, then `"hidden"` or `"auto"`. */
  datatype Scroll = Unset | Hidden | Auto

  /** What the caption shows: nothing, as the markup creates it, or, once
      an entry is opened, the title in bold and then the description. */
  datatype Caption = NoCaption | Caption(title: string, description: string)

  /** The overlay's four content slots. */
  datatype Slots = Slots(src: string, alt: string, caption: Caption, counter: string)

  /** `index` is `currentIndex`; `visible` is whether the overlay carries
      the `modal-show` class. */
  datatype State = State(index: int, visible: bool, scroll: Scroll, slots: Slots)

  /** The slots as the overlay's markup creates them. */
  const InitialSlots := Slots("", "Gallery Image", NoCaption, "")

  /** The state right after construction: nothing shown, index 0. */
  const Initial := State(0, false, Unset, InitialSlots)

  /** What the overlay shows for entry `i`. */
  function SlotsFor(items: seq<Item>, encode: string -> string, i: int): Slots
    requires 0 <= i < |items|
  {
    var item := items[i];
    Slots(ImageSource(item.background, item.title, encode), item.title,
          Caption(item.title, item.description), CounterText(i, |items|))
  }

  /** `openModal(i)`: every field is overwritten, so the result does not
      depend on the state it is applied to. */
  function Open(items: seq<Item>, encode: string -> string, i: int): State
    requires 0 <= i < |items|
  {
    State(i, true, Hidden, SlotsFor(items, encode, i))
  }

  /** `closeModal()` */
  function Close(s: State): State {
    s.(visible := false, scroll := Auto)
  }

  /** `nextImage()` */
  function Next(items: seq<Item>, encode: string -> string, s: State): State
    requires 0 <= s.index < |items|
  {
    Open(items, encode, NextIndex(s.index, |items|))
  }

  /** `prevImage()` */
  function Prev(items: seq<Item>, encode: string -> string, s: State): State
    requires 0 <= s.index < |items|
  {
    Open(items, encode, PrevIndex(s.index, |items|))
  }

  /** What stays true of the gallery between events: the index is 0 or
      names an entry; the overlay is visible exactly when scrolling is
      locked; and while visible the gallery has entries and the slots show
      the entry at the index. */
  ghost predicate Inv(items: seq<Item>, encode: string -> string, s: State) {
    && 0 <= s.index
    && (s.index == 0 || s.index < |items|)
    && (s.visible <==> s.scroll == Hidden)
    && (s.visible ==> s.index < |items| && s.slots == SlotsFor(items, encode, s.index))
  }

  /** `handleKeyboard(e)` for a key whose `e.key` is `key`. */
  function Key(items: seq<Item>, encode: string -> string, s: State, key: string): State
    requires Inv(items, encode, s)
  {
    if !s.visible then s
    else if key == "Escape" then Close(s)
    else if key == "ArrowRight" then Next(items, encode, s)
    else if key == "ArrowLeft" then Prev(items, encode, s)
    else s
  }

  /** The click listener on the overlay itself: only a click whose target is
      the overlay's backdrop, not one of its children, closes it. */
  function BackdropClick(s: State, onBackdrop: bool): State {
    if onBackdrop then Close(s) else s
  }

  /** `n` repetitions of next (`Forward`) or previous (`Backward`). */
  function Repeat(items: seq<Item>, encode: string -> string, d: Direction, s: State, k: nat): State
    requires 0 <= s.index < |items|
    decreases k
  {
    if k == 0 then s
    else
      var t := match d
        case Forward => Next(items, encode, s)
        case Backward => Prev(items, encode, s);
      Repeat(items, encode, d, t, k - 1)
  }

  /** After opening entry `i`, the overlay is visible, scrolling is locked,
      the image is the entry's, its alt text and the caption carry the
      entry's title, and the counter reads back as `i + 1` of `|items|`. */
  lemma OpenDisplaysEntry(items: seq<Item>, encode: string -> string, i: int)
    requires 0 <= i < |items|
    ensures var t := Open(items, encode, i);
      && Inv(items, encode, t)
      && t.index == i && t.visible && t.scroll == Hidden
      && t.slots.src == ImageSource(items[i].background, items[i].title, encode)
      && t.slots.alt == items[i].title
      && t.slots.caption == Caption(items[i].title, items[i].description)
      && ParseCounter(t.slots.counter) == Some((i + 1, |items|))
  {
    CounterRoundTrip(i, |items|);
  }

  /** Closing hides the overlay and restores scrolling, keeps the index and
      the slots, and closing again changes nothing. */
  lemma CloseIdempotent(items: seq<Item>, encode: string -> string, s: State)
    requires Inv(items, encode, s)
    ensures var t := Close(s);
      && Inv(items, encode, t)
      && !t.visible && t.scroll == Auto
      && t.index == s.index && t.slots == s.slots
      && Close(t) == t
  {
  }

  /** Next and previous open the overlay on an entry whatever its prior
      visibility, and keep the invariant. */
  lemma NavigationOpens(items: seq<Item>, encode: string -> string, s: State)
    requires Inv(items, encode, s) && |items| > 0
    ensures var t := Next(items, encode, s);
      Inv(items, encode, t) && t.visible && t.index == NextIndex(s.index, |items|)
    ensures var t := Prev(items, encode, s);
      Inv(items, encode, t) && t.visible && t.index == PrevIndex(s.index, |items|)
  {
  }

  /** A visible overlay is exactly what opening its index produces. */
  lemma VisibleIsOpen(items: seq<Item>, encode: string -> string, s: State)
    requires Inv(items, encode, s) && s.visible
    ensures s == Open(items, encode, s.index)
  {
  }

  /** On a visible overlay, previous undoes next and next undoes previous:
      the whole state, not only the index, comes back. */
  lemma PrevNextUndo(items: seq<Item>, encode: string -> string, s: State)
    requires Inv(items, encode, s) && s.visible
    ensures Prev(items, encode, Next(items, encode, s)) == s
    ensures Next(items, encode, Prev(items, encode, s)) == s
  {
    PrevNextInverse(s.index, |items|);
    VisibleIsOpen(items, encode, s);
  }

  /** Keys do nothing while the overlay is hidden; while it is visible,
      Escape closes, ArrowRight goes to the next entry, ArrowLeft to the
      previous one, and no other key changes anything. */
  lemma KeyDispatch(items: seq<Item>, encode: string -> string, s: State, key: string)
    requires Inv(items, encode, s)
    ensures !s.visible ==> Key(items, encode, s, key) == s
    ensures s.visible && key == "Escape" ==> Key(items, encode, s, key) == Close(s)
    ensures s.visible && key == "ArrowRight" ==> Key(items, encode, s, key) == Next(items, encode, s)
    ensures s.visible && key == "ArrowLeft" ==> Key(items, encode, s, key) == Prev(items, encode, s)
    ensures key !in {"Escape", "ArrowRight", "ArrowLeft"} ==> Key(items, encode, s, key) == s
    ensures Inv(items, encode, Key(items, encode, s, key))
  {
  }

  /** `k >= 1` repetitions open the overlay on the index `k` steps away. */
  lemma {:induction false} RepeatOpens(items: seq<Item>, encode: string -> string, d: Direction, s: State, k: nat)
    requires 0 <= s.index < |items| && k >= 1
    ensures Repeat(items, encode, d, s, k) == Open(items, encode, Steps(d, s.index, k, |items|))
    decreases k
  {
    var t := match d
      case Forward => Next(items, encode, s)
      case Backward => Prev(items, encode, s);
    assert t == Open(items, encode, Step(d, s.index, |items|));
    if k > 1 {
      RepeatOpens(items, encode, d, t, k - 1);
    }
  }

  /** Pressing next, or previous, as many times as there are entries comes
      back to the entry shown at the start, with the overlay open; when it
      was already open, the state is the one started from. */
  lemma RepeatCycles(items: seq<Item>, encode: string -> string, d: Direction, s: State)
    requires Inv(items, encode, s) && |items| > 0
    ensures Repeat(items, encode, d, s, |items|) == Open(items, encode, s.index)
    ensures s.visible ==> Repeat(items, encode, d, s, |items|) == s
  {
    RepeatOpens(items, encode, d, s, |items|);
    match d
    case Forward => NextCycle(s.index, |items|);
    case Backward => PrevCycle(s.index, |items|);
  }

  /** Three entries titled A, B and C: opening the first shows "1 / 3" and A;
      next shows "2 / 3" and B; two more presses wrap round to "1 / 3" and A. */
  lemma ThreeEntryTour(encode: string -> string)
    ensures var items := [Item("", "A", ""), Item("", "B", ""), Item("", "C", "")];
      var s0 := Open(items, encode, 0);
      var s1 := Next(items, encode, s0);
      var s3 := Next(items, encode, Next(items, encode, s1));
      && s0.slots.counter == "1 / 3" && s0.slots.caption.title == "A"
      && s1.slots.counter == "2 / 3" && s1.slots.caption.title == "B"
      && s3 == s0
  {
    assert Decimal(1) == "1" && Decimal(2) == "2" && Decimal(3) == "3";
  }
}
