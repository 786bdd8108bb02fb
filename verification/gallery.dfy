/**
 The `Gallery` widget as an object whose methods update its fields in
 place, as the page script's class does. The entries are read once, at
 construction; the overlay's slots, its visibility and the body's scroll
 style are fields. Each method is proved to leave `Snapshot()` equal to a
 transition of `GalleryModel` (`OpenModal` to `Open` of its index,
 `CloseModal` to `Close`, `NextImage` to `Next`, `PrevImage` to `Prev`,
 `HandleKeyboard` to `Key`, `HandleModalClick` to `BackdropClick`, the last
 five applied to the old snapshot), whose properties are proved there.
 */
module GalleryWidget {
  import opened Navigation
  import opened Display
  import opened GalleryModel

  class Gallery {
    /** The `.gallery-item` entries found at construction, in page order. */
    const items: seq<Item>
    /** `encodeURIComponent`, which the model leaves unspecified. */
    const encode: string -> string
    /** `images.length`: fixed for the gallery's lifetime. */
    const n: nat := |items|

    var currentIndex: int
    /** Whether the overlay carries the `modal-show` class. */
    var visible: bool
    /** `document.body.style.overflow` */
    var overflow: Scroll
    var src: string
    var alt: string
    var caption: Caption
    var counter: string

    /** The fields as one `GalleryModel.State` value. */
    function Snapshot(): State
      reads this
    {
      State(currentIndex, visible, overflow, Slots(src, alt, caption, counter))
    }

    ghost predicate Valid()
      reads this
    {
      Inv(items, encode, Snapshot())
    }

    /** Snapshots the entries; the overlay starts hidden at index 0. */
    constructor (items: seq<Item>, encode: string -> string)
      ensures Valid()
      ensures this.items == items && this.encode == encode
      ensures Snapshot() == Initial
    {
      this.items := items;
      this.encode := encode;
      currentIndex := 0;
      visible := false;
      overflow := Unset;
      src, alt, caption, counter := "", "Gallery Image", NoCaption, "";
    }

    /** Shows entry `index`, whatever was shown before and whether or not
        the overlay was open. */
    method OpenModal(index: int)
      requires 0 <= index < n
      modifies this
      ensures Valid()
      ensures Snapshot() == Open(items, encode, index)
    {
      currentIndex := index;
      var item := items[index];
      src := ImageSource(item.background, item.title, encode);
      alt := item.title;
      caption := Caption(item.title, item.description);
      counter := CounterText(index, n);
      visible := true;
      overflow := Hidden;
    }

    /** Hides the overlay and gives the page its scrolling back. */
    method CloseModal()
      requires Valid()
      modifies this
      ensures Valid()
      ensures Snapshot() == Close(old(Snapshot()))
    {
      visible := false;
      overflow := Auto;
    }

    /** Steps to the following entry, from the last back to the first. */
    method NextImage()
      requires Valid() && n > 0
      modifies this
      ensures Valid()
      ensures Snapshot() == Next(items, encode, old(Snapshot()))
    {
      currentIndex := JsRem(currentIndex + 1, n);
      OpenModal(currentIndex);
    }

    /** Steps to the preceding entry, from the first back to the last. */
    method PrevImage()
      requires Valid() && n > 0
      modifies this
      ensures Valid()
      ensures Snapshot() == Prev(items, encode, old(Snapshot()))
    {
      currentIndex := JsRem(currentIndex - 1 + n, n);
      OpenModal(currentIndex);
    }

    /** The page-wide `keydown` listener. */
    method HandleKeyboard(key: string)
      requires Valid()
      modifies this
      ensures Valid()
      ensures Snapshot() == Key(items, encode, old(Snapshot()), key)
    {
      if !visible {
        return;
      }
      if key == "Escape" {
        CloseModal();
      } else if key == "ArrowRight" {
        NextImage();
      } else if key == "ArrowLeft" {
        PrevImage();
      }
    }

    /** The overlay's own click listener; `onBackdrop` is whether the
        event's target is the overlay element itself. */
    method HandleModalClick(onBackdrop: bool)
      requires Valid()
      modifies this
      ensures Valid()
      ensures Snapshot() == BackdropClick(old(Snapshot()), onBackdrop)
    {
      if onBackdrop {
        CloseModal();
      }
    }
  }
}
