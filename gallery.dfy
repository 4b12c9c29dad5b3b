/** The image gallery: category filter buttons over the gallery items, and
    the image modal with its zoom buttons, drag-to-pan and the ways it is
    closed.

    The zoom factor moves in steps of 0.25 between 0.5 and 3, so it is kept
    here as a whole number of quarters: 4 is the factor 1. */
module Gallery {
  import opened Common

  // ---------------------------------------------------------------- filters

  /** The classes a filter button carries while it is the selected one. */
  const Selected: set<string> :=
    {"bg-teal-100", "dark:bg-teal-900", "text-teal-800", "dark:text-teal-100", "active"}
  /** The classes an unselected filter button carries. */
  const Unselected: set<string> := {"bg-gray-100", "dark:bg-gray-700"}

  /** An item is shown under a button's `data-filter` when that is `all`
      or equals the item's `data-category`; a missing attribute is `None`
      and two missing attributes are equal. */
  predicate Shows(filter: Option<string>, category: Option<string>)
  {
    filter == Some("all") || category == filter
  }

  /** The `all` button shows every item. */
  lemma AllShowsEverything(category: Option<string>)
    ensures Shows(Some("all"), category)
  {
  }

  /** Any other filter shows exactly the items of its own category. */
  lemma FilterShowsItsCategory(filter: Option<string>, category: Option<string>)
    requires filter != Some("all")
    ensures Shows(filter, category) <==> category == filter
  {
  }

  /** A button's classes after a click: every button first loses the
      selected classes and gains the unselected ones; the clicked one then
      loses the unselected classes and gains the selected ones. */
  function ButtonClasses(before: set<string>, clicked: bool): (r: set<string>)
    ensures "active" in r <==> clicked
    ensures clicked ==> Selected <= r && r !! Unselected
    ensures !clicked ==> Unselected <= r && r !! Selected
    ensures r - Selected - Unselected == before - Selected - Unselected
  {
    var reset := (before - Selected) + Unselected;
    if clicked then (reset - Unselected) + Selected else reset
  }

  /** Clicking a button twice leaves its classes as one click did. */
  lemma ButtonClassesIdempotent(before: set<string>, clicked: bool)
    ensures ButtonClasses(ButtonClasses(before, clicked), clicked) == ButtonClasses(before, clicked)
  {
  }

  /** The filter buttons and the gallery items they show and hide. */
  class FilterBar {
    /** Each button's `data-filter`. */
    var filters: seq<Option<string>>
    /** Each button's class list. */
    var classes: seq<set<string>>
    /** Each button's `aria-pressed`; `None` before it is first set. */
    var pressed: seq<Option<bool>>
    /** Each item's `data-category`. */
    var categories: seq<Option<string>>
    /** Whether each item carries the `hidden` class. */
    var hidden: seq<bool>

    predicate Valid()
      reads this
    {
      |classes| == |filters| && |pressed| == |filters| && |hidden| == |categories|
    }

    constructor (filters: seq<Option<string>>, classes: seq<set<string>>,
                 categories: seq<Option<string>>, hidden: seq<bool>)
      requires |classes| == |filters| && |hidden| == |categories|
      ensures Valid()
      ensures this.filters == filters && this.classes == classes
      ensures this.categories == categories && this.hidden == hidden
      ensures forall i :: 0 <= i < |pressed| ==> pressed[i] == None
    {
      this.filters := filters;
      this.classes := classes;
      this.pressed := seq(|filters|, _ => None);
      this.categories := categories;
      this.hidden := hidden;
    }

    /** A click on button `b`, as the handler of `initGalleryFilters` does
        it. The handlers are not installed when there is no gallery item,
        and then a click changes nothing. Otherwise exactly the clicked
        button ends up selected and pressed, and each item is hidden iff
        the clicked filter does not show it. */
    method Click(b: nat)
      requires Valid() && b < |filters|
      modifies this
      ensures Valid() && filters == old(filters) && categories == old(categories)
      ensures |categories| == 0 ==>
        classes == old(classes) && pressed == old(pressed) && hidden == old(hidden)
      ensures |categories| > 0 ==>
        (forall i :: 0 <= i < |filters| ==>
           classes[i] == ButtonClasses(old(classes[i]), i == b)
           && pressed[i] == Some(i == b))
        && forall j :: 0 <= j < |categories| ==>
           (hidden[j] <==> !Shows(filters[b], categories[j]))
    {
      if |categories| == 0 {
        return;
      }
      var filter := filters[b];
      var i := 0;
      while i < |filters|
        invariant Valid() && filters == old(filters) && categories == old(categories)
        invariant hidden == old(hidden)
        invariant 0 <= i <= |filters|
        invariant forall k :: 0 <= k < i ==>
          classes[k] == (old(classes[k]) - Selected) + Unselected && pressed[k] == Some(false)
        invariant forall k :: i <= k < |filters| ==> classes[k] == old(classes[k])
      {
        classes := classes[i := (classes[i] - Selected) + Unselected];
        pressed := pressed[i := Some(false)];
        i := i + 1;
      }
      classes := classes[b := (classes[b] - Unselected) + Selected];
      pressed := pressed[b := Some(true)];
      var j := 0;
      while j < |categories|
        invariant Valid() && filters == old(filters) && categories == old(categories)
        invariant forall k :: 0 <= k < |filters| ==>
          classes[k] == ButtonClasses(old(classes[k]), k == b) && pressed[k] == Some(k == b)
        invariant 0 <= j <= |categories|
        invariant forall k :: 0 <= k < j ==> (hidden[k] <==> !Shows(filter, categories[k]))
      {
        hidden := hidden[j := !Shows(filter, categories[j])];
        j := j + 1;
      }
    }
  }

  // ---------------------------------------------------------------- zoom

  /** Zoom factors in quarters. */
  const MinZoom := 2
  const MaxZoom := 12
  const NoZoom := 4

  /** The factor a number of quarters stands for. */
  function Scale(z: int): real { z as real / 4.0 }

  /** Within the zoom range the factor lies between 0.5 and 3. */
  lemma ScaleRange(z: int)
    requires MinZoom <= z <= MaxZoom
    ensures 0.5 <= Scale(z) <= 3.0
  {
  }

  /** The zoom-in button: a quarter more, capped at 3. */
  function ZoomIn(z: int): (r: int)
    ensures z <= MaxZoom ==> z <= r <= MaxZoom
    ensures r != MaxZoom ==> r == z + 1
  {
    if z + 1 > MaxZoom then MaxZoom else z + 1
  }

  /** The zoom-out button: a quarter less, floored at 0.5. */
  function ZoomOut(z: int): (r: int)
    ensures MinZoom <= z ==> MinZoom <= r <= z
    ensures r != MinZoom ==> r == z - 1
  {
    if z - 1 < MinZoom then MinZoom else z - 1
  }

  /** The three zoom buttons. */
  datatype ZoomButton = In | Out | Reset

  function Press(z: int, button: ZoomButton): int
  {
    match button
    case In => ZoomIn(z)
    case Out => ZoomOut(z)
    case Reset => NoZoom
  }

  /** The zoom after a series of button presses. */
  function Presses(z: int, buttons: seq<ZoomButton>): int
    decreases buttons
  {
    if buttons == [] then z else Presses(Press(z, buttons[0]), buttons[1..])
  }

  /** Whatever buttons are pressed, a zoom in range stays in range. */
  lemma {:induction false} PressesStayInRange(z: int, buttons: seq<ZoomButton>)
    requires MinZoom <= z <= MaxZoom
    ensures MinZoom <= Presses(z, buttons) <= MaxZoom
    decreases buttons
  {
    if buttons != [] {
      PressesStayInRange(Press(z, buttons[0]), buttons[1..]);
    }
  }

  /** Zooming out undoes zooming in below the cap, and zooming in undoes
      zooming out above the floor. */
  lemma ZoomInOutCancel(z: int)
    ensures MinZoom <= z < MaxZoom ==> ZoomOut(ZoomIn(z)) == z
    ensures MinZoom < z <= MaxZoom ==> ZoomIn(ZoomOut(z)) == z
  {
  }

  function Repeat(button: ZoomButton, n: nat): (r: seq<ZoomButton>)
    ensures |r| == n && forall i :: 0 <= i < n ==> r[i] == button
  {
    if n == 0 then [] else [button] + Repeat(button, n - 1)
  }

  /** `n` zoom-in clicks add `n` quarters until the cap; from the initial
      factor 1, eight clicks reach 3. */
  lemma {:induction false} ZoomInRepeated(z: int, n: nat)
    requires z <= MaxZoom
    ensures Presses(z, Repeat(In, n)) == if z + n <= MaxZoom then z + n else MaxZoom
    decreases n
  {
    if n > 0 {
      var rest := Repeat(In, n);
      assert rest[0] == In && rest[1..] == Repeat(In, n - 1);
      ZoomInRepeated(ZoomIn(z), n - 1);
    }
  }

  /** `n` zoom-out clicks remove `n` quarters down to the floor. */
  lemma {:induction false} ZoomOutRepeated(z: int, n: nat)
    requires MinZoom <= z
    ensures Presses(z, Repeat(Out, n)) == if z - n >= MinZoom then z - n else MinZoom
    decreases n
  {
    if n > 0 {
      var rest := Repeat(Out, n);
      assert rest[0] == Out && rest[1..] == Repeat(Out, n - 1);
      ZoomOutRepeated(ZoomOut(z), n - 1);
    }
  }

  // ---------------------------------------------------------------- the modal

  /** The inline `transform` last written on the modal image: a scale
      alone, or a scale with the translation divided by the factor. */
  datatype Transform = Scaled(zoom: int) | Panned(zoom: int, x: int, y: int)

  /** The `src` and `alt` of a gallery item's image. */
  datatype Image = Image(src: string, alt: string)

  /** The state the handlers of `initImageModal` share: the modal's
      visibility, the body's scroll lock, the image shown, the zoom in
      quarters and the drag translation. */
  class ImageModal {
    var hidden: bool
    /** Whether the body carries `overflow-hidden`. */
    var locked: bool
    var src: string
    var alt: string
    var zoom: int
    var tx: int
    var ty: int
    /** The mouse position minus the translation at the last mouse-down. */
    var startX: int
    var startY: int
    var dragging: bool
    var grabbing: bool
    var transform: Transform
    var closeFocused: bool
    /** Whether all three zoom buttons exist, so that their zoom handlers
        are installed; the translation reset is installed on each button
        that exists. */
    const controls: bool

    /** The zoom stays in range, the transform carries the current zoom,
        and a panned transform the current translation. */
    predicate Valid()
      reads this
    {
      MinZoom <= zoom <= MaxZoom
      && transform.zoom == zoom
      && (transform.Panned? ==> transform.x == tx && transform.y == ty)
    }

    /** The modal as the page holds it: hidden, zoom 1, no translation. */
    constructor (controls: bool)
      ensures Valid() && hidden && !locked && !dragging
      ensures zoom == NoZoom && tx == 0 && ty == 0
      ensures this.controls == controls
    {
      hidden := true;
      locked := false;
      src, alt := "", "";
      zoom := NoZoom;
      tx, ty := 0, 0;
      startX, startY := 0, 0;
      dragging := false;
      grabbing := false;
      transform := Scaled(NoZoom);
      closeFocused := false;
      this.controls := controls;
    }

    /** A click on a gallery item: with an image, the modal shows it at
        factor 1, opens, locks the body and focuses the close button. The
        translation is left as it was. */
    method OpenItem(img: Option<Image>)
      requires Valid()
      modifies this
      ensures Valid()
      ensures img.None? ==> unchanged(this)
      ensures img.Some? ==>
        src == img.value.src && alt == img.value.alt
        && zoom == NoZoom && transform == Scaled(NoZoom)
        && !hidden && locked && closeFocused
        && tx == old(tx) && ty == old(ty) && dragging == old(dragging)
        && startX == old(startX) && startY == old(startY) && grabbing == old(grabbing)
    {
      if img.None? {
        return;
      }
      src := img.value.src;
      alt := img.value.alt;
      zoom := NoZoom;
      transform := Scaled(zoom);
      hidden := false;
      locked := true;
      closeFocused := true;
    }

    /** The close button hides the modal and unlocks the body. */
    method CloseClick()
      requires Valid()
      modifies this
      ensures Valid() && hidden && !locked
      ensures zoom == old(zoom) && tx == old(tx) && ty == old(ty) && src == old(src)
      ensures alt == old(alt) && transform == old(transform) && dragging == old(dragging)
      ensures grabbing == old(grabbing) && startX == old(startX) && startY == old(startY)
      ensures closeFocused == old(closeFocused)
    {
      hidden := true;
      locked := false;
    }

    /** A click on the modal closes it only when it hit the backdrop
        itself rather than something inside. */
    method ModalClick(onBackdrop: bool)
      requires Valid()
      modifies this
      ensures Valid()
      ensures onBackdrop ==>
        hidden && !locked
        && src == old(src) && alt == old(alt) && zoom == old(zoom) && tx == old(tx) && ty == old(ty)
        && startX == old(startX) && startY == old(startY) && dragging == old(dragging)
        && grabbing == old(grabbing) && transform == old(transform) && closeFocused == old(closeFocused)
      ensures !onBackdrop ==> unchanged(this)
    {
      if onBackdrop {
        hidden := true;
        locked := false;
      }
    }

    /** Escape closes the modal when it is open; any other key, or Escape
        on a closed modal, changes nothing. */
    method KeyDown(key: string)
      requires Valid()
      modifies this
      ensures Valid()
      ensures key == "Escape" && !old(hidden) ==>
        hidden && !locked
        && src == old(src) && alt == old(alt) && zoom == old(zoom) && tx == old(tx) && ty == old(ty)
        && startX == old(startX) && startY == old(startY) && dragging == old(dragging)
        && grabbing == old(grabbing) && transform == old(transform) && closeFocused == old(closeFocused)
      ensures !(key == "Escape" && !old(hidden)) ==> unchanged(this)
    {
      if key == "Escape" && !hidden {
        hidden := true;
        locked := false;
      }
    }

    /** A click on a zoom button runs its zoom handler (when all three
        buttons exist) and then the translation reset: the zoom follows
        `Press`, the translation returns to the origin and the image is
        scaled only. */
    method ZoomClick(button: ZoomButton)
      requires Valid()
      modifies this
      ensures Valid()
      ensures zoom == if controls then Press(old(zoom), button) else old(zoom)
      ensures tx == 0 && ty == 0 && transform == Scaled(zoom)
      ensures hidden == old(hidden) && dragging == old(dragging)
      ensures src == old(src) && alt == old(alt) && locked == old(locked)
      ensures startX == old(startX) && startY == old(startY) && grabbing == old(grabbing)
      ensures closeFocused == old(closeFocused)
    {
      if controls {
        zoom := Press(zoom, button);
        transform := Scaled(zoom);
      }
      tx, ty := 0, 0;
      transform := Scaled(zoom);
    }

    /** Mouse-down on the image starts a drag and records the mouse position
        relative to the translation, so that a move back to this point
        reproduces the current translation. */
    method MouseDown(cx: int, cy: int)
      requires Valid()
      modifies this
      ensures Valid() && dragging && grabbing
      ensures cx - startX == tx && cy - startY == ty
      ensures tx == old(tx) && ty == old(ty) && zoom == old(zoom) && transform == old(transform)
      ensures hidden == old(hidden) && src == old(src) && alt == old(alt)
      ensures locked == old(locked) && closeFocused == old(closeFocused)
    {
      dragging := true;
      startX := cx - tx;
      startY := cy - ty;
      grabbing := true;
    }

    /** A mouse move pans the image only during a drag: the translation
        becomes the mouse position minus the recorded start. */
    method MouseMove(cx: int, cy: int)
      requires Valid()
      modifies this
      ensures Valid()
      ensures old(dragging) ==>
        tx == cx - startX && ty == cy - startY && transform == Panned(zoom, tx, ty)
        && zoom == old(zoom) && startX == old(startX) && startY == old(startY)
        && dragging && hidden == old(hidden)
        && src == old(src) && alt == old(alt) && locked == old(locked)
        && grabbing == old(grabbing) && closeFocused == old(closeFocused)
      ensures !old(dragging) ==> unchanged(this)
    {
      if !dragging {
        return;
      }
      tx := cx - startX;
      ty := cy - startY;
      transform := Panned(zoom, tx, ty);
    }

    /** Mouse-up anywhere ends the drag. */
    method MouseUp()
      requires Valid()
      modifies this
      ensures Valid() && !dragging && !grabbing
      ensures tx == old(tx) && ty == old(ty) && zoom == old(zoom) && transform == old(transform)
      ensures hidden == old(hidden) && src == old(src) && alt == old(alt)
      ensures locked == old(locked) && startX == old(startX) && startY == old(startY)
      ensures closeFocused == old(closeFocused)
    {
      dragging := false;
      grabbing := false;
    }
  }
}
