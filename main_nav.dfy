/** The page-level behaviour of the dashboard's main script: the theme the
    shared state starts with, the navigation link marked as the section
    being read, and the mobile menu. */
module MainPage {
  import opened Common

  /** The theme the dashboard starts with: the stored one, unless nothing
      or the empty string is stored, in which case `light`. */
  function InitialTheme(stored: Option<string>): (r: string)
    ensures r != ""
    ensures stored.Some? && stored.value != "" ==> r == stored.value
    ensures stored.None? || stored.value == "" ==> r == "light"
  {
    if stored.Some? && stored.value != "" then stored.value else "light"
  }

  // ---------------------------------------------------------------- the current section

  /** A `section` element with an `id`: that id and its layout offsets. */
  datatype Section = Section(id: string, top: int, height: int)

  /** The section counts as being read when the scroll position lies in
      it, with its top moved up by 100 pixels. */
  predicate InWindow(s: Section, scrollY: int)
  {
    s.top - 100 <= scrollY < s.top - 100 + s.height
  }

  /** The index of the last section in document order that is being read,
      or -1. */
  function LastInWindow(sections: seq<Section>, scrollY: int): (r: int)
    ensures -1 <= r < |sections|
  {
    if sections == [] then -1
    else if InWindow(sections[|sections| - 1], scrollY) then |sections| - 1
    else LastInWindow(sections[..|sections| - 1], scrollY)
  }

  /** `LastInWindow` picks a section being read after which no other is,
      and -1 exactly when none is. */
  lemma {:induction false} LastInWindowSpec(sections: seq<Section>, scrollY: int)
    ensures var r := LastInWindow(sections, scrollY);
      (r == -1 <==> forall k :: 0 <= k < |sections| ==> !InWindow(sections[k], scrollY))
      && (r >= 0 ==> InWindow(sections[r], scrollY))
      && forall k :: r < k < |sections| ==> !InWindow(sections[k], scrollY)
  {
    if sections != [] && !InWindow(sections[|sections| - 1], scrollY) {
      var init := sections[..|sections| - 1];
      LastInWindowSpec(init, scrollY);
      assert forall k :: 0 <= k < |init| ==> init[k] == sections[k];
    }
  }

  /** The id of the section being read, `""` when there is none. */
  function SelectedId(sections: seq<Section>, scrollY: int): string
  {
    var r := LastInWindow(sections, scrollY);
    if r == -1 then "" else sections[r].id
  }

  /** The loop of `updateActiveNavLinks` over the sections. */
  method CurrentSectionId(sections: seq<Section>, scrollY: int) returns (current: string)
    ensures current == SelectedId(sections, scrollY)
  {
    current := "";
    var i := 0;
    while i < |sections|
      invariant 0 <= i <= |sections|
      invariant current == SelectedId(sections[..i], scrollY)
    {
      assert sections[..i + 1][..i] == sections[..i];
      if InWindow(sections[i], scrollY) {
        current := sections[i].id;
      }
      i := i + 1;
    }
    assert sections[..|sections|] == sections;
  }

  /** A link is marked when its `href` is `#` followed by the current id. */
  predicate Marks(href: Option<string>, current: string)
  {
    href == Some("#" + current)
  }

  /** With no section being read, a link whose `href` is exactly `#` is
      marked as current. */
  lemma BareHashMarkedWhenNoneRead(sections: seq<Section>, scrollY: int)
    requires forall k :: 0 <= k < |sections| ==> !InWindow(sections[k], scrollY)
    ensures Marks(Some("#"), SelectedId(sections, scrollY))
  {
    LastInWindowSpec(sections, scrollY);
    assert "#" + "" == "#";
  }

  /** A link to a section is marked exactly when that section is the last
      one being read, provided section ids are unique and not empty. */
  lemma MarksLastRead(sections: seq<Section>, scrollY: int, j: nat)
    requires j < |sections| && sections[j].id != ""
    requires forall a, b :: 0 <= a < b < |sections| ==> sections[a].id != sections[b].id
    ensures Marks(Some("#" + sections[j].id), SelectedId(sections, scrollY)) <==>
      InWindow(sections[j], scrollY) && forall k :: j < k < |sections| ==> !InWindow(sections[k], scrollY)
  {
    LastInWindowSpec(sections, scrollY);
    var r := LastInWindow(sections, scrollY);
    if r == -1 {
      assert |"#" + sections[j].id| != |"#" + ""|;
    } else if r != j {
      assert sections[r].id != sections[j].id;
      assert ("#" + sections[j].id)[1..] == sections[j].id;
      assert ("#" + sections[r].id)[1..] == sections[r].id;
    }
  }

  /** The navigation links of the page: each one's `href` and whether it
      carries `active`. */
  class NavLinks {
    const hrefs: seq<Option<string>>
    var active: seq<bool>

    predicate Valid()
      reads this
    {
      |active| == |hrefs|
    }

    constructor (hrefs: seq<Option<string>>)
      ensures Valid() && this.hrefs == hrefs
      ensures forall i :: 0 <= i < |active| ==> !active[i]
    {
      this.hrefs := hrefs;
      active := seq(|hrefs|, _ => false);
    }

    /** `updateActiveNavLinks`: the current section is found, then every
        link is unmarked and marked again iff it points at that section. */
    method Update(sections: seq<Section>, scrollY: int)
      requires Valid()
      modifies this
      ensures Valid()
      ensures forall i :: 0 <= i < |hrefs| ==> (active[i] <==> Marks(hrefs[i], SelectedId(sections, scrollY)))
    {
      var current := CurrentSectionId(sections, scrollY);
      var i := 0;
      while i < |hrefs|
        invariant Valid() && 0 <= i <= |hrefs|
        invariant forall k :: 0 <= k < i ==> (active[k] <==> Marks(hrefs[k], current))
      {
        active := active[i := false];
        if hrefs[i] == Some("#" + current) {
          active := active[i := true];
        }
        i := i + 1;
      }
    }
  }

  // ---------------------------------------------------------------- the mobile menu

  /** The attribute value written for a boolean: `"true"` or `"false"`. */
  function BoolText(b: bool): string
  {
    if b then "true" else "false"
  }

  /** `aria-expanded` after a toggle: the opposite of what it said, an
      unset or unrecognised value counting as collapsed. */
  function ToggledExpanded(expanded: Option<string>): (r: Option<string>)
    ensures r == Some("true") <==> expanded != Some("true")
    ensures r == Some("true") || r == Some("false")
  {
    Some(BoolText(!(expanded == Some("true"))))
  }

  /** Once written, `aria-expanded` returns to its value after two
      toggles. */
  lemma ToggledExpandedTwice(expanded: Option<string>)
    requires expanded == Some("true") || expanded == Some("false")
    ensures ToggledExpanded(ToggledExpanded(expanded)) == expanded
  {
  }

  /** The mobile menu and its toggle button. Without either element no
      handler is installed. */
  class MobileMenu {
    const present: bool
    var hidden: bool
    /** The toggle's `aria-expanded`, `None` while it is unset. */
    var expanded: Option<string>

    constructor (present: bool, hidden: bool, expanded: Option<string>)
      ensures this.present == present && this.hidden == hidden && this.expanded == expanded
    {
      this.present := present;
      this.hidden := hidden;
      this.expanded := expanded;
    }

    /** The toggle flips the menu's `hidden` class and inverts
        `aria-expanded`. */
    method Toggle()
      modifies this
      ensures !present ==> unchanged(this)
      ensures present ==>
        hidden == !old(hidden) && expanded == ToggledExpanded(old(expanded))
    {
      if present {
        hidden := !hidden;
        var isExpanded := expanded == Some("true");
        expanded := Some(BoolText(!isExpanded));
      }
    }

    /** A click on a link in the menu closes it. */
    method LinkClick()
      modifies this
      ensures !present ==> unchanged(this)
      ensures present ==> hidden && expanded == Some("false")
    {
      if present {
        hidden := true;
        expanded := Some("false");
      }
    }
  }
}
