/** The correlation tabs: a click on a tab marks it as the current one and
    shows only the pane its `data-target` names; and the tooltip shown over
    figure references. */
module Correlations {
  import opened Common

  const Current := "border-teal-500"
  const Hover := "hover:border-gray-300"
  const Transparent := "border-transparent"
  /** The inline colour given to the current tab. */
  const Highlight := "var(--highlight)"

  /** A tab's classes after a click: every tab loses the current marker and
      gains the hover and transparent borders; the clicked one then loses
      those two and gains the marker. */
  function TabClasses(before: set<string>, clicked: bool): (r: set<string>)
    ensures Current in r <==> clicked
    ensures Hover in r <==> !clicked
    ensures Transparent in r <==> !clicked
    ensures r - {Current, Hover, Transparent} == before - {Current, Hover, Transparent}
  {
    var reset := (before - {Current}) + {Hover, Transparent};
    if clicked then (reset - {Hover, Transparent}) + {Current} else reset
  }

  /** A second click on the same tab changes no class. */
  lemma TabClassesIdempotent(before: set<string>, clicked: bool)
    ensures TabClasses(TabClasses(before, clicked), clicked) == TabClasses(before, clicked)
  {
  }

  /** A tab's inline style after a click: removed, except on the clicked
      tab, whose style then holds the highlight colour only. */
  function TabStyle(clicked: bool): Option<string>
  {
    if clicked then Some(Highlight) else None
  }

  /** An attribute used as text: a missing one becomes `null`, as when a
      tab's `data-target` is passed to `getElementById` or a reference's
      `data-figure` is put into the tooltip. */
  function AsText(attr: Option<string>): string
  {
    if attr.Some? then attr.value else "null"
  }

  /** `getElementById` over the panes: the first pane with the id, or -1. */
  function FirstWithId(ids: seq<Option<string>>, key: string): (r: int)
    ensures -1 <= r < |ids|
    ensures r >= 0 ==> ids[r] == Some(key)
  {
    if ids == [] then -1
    else if ids[0] == Some(key) then 0
    else
      var r := FirstWithId(ids[1..], key);
      if r == -1 then -1 else r + 1
  }

  /** `FirstWithId` finds the first pane with the id, and -1 exactly when
      there is none. */
  lemma {:induction false} FirstWithIdSpec(ids: seq<Option<string>>, key: string)
    ensures FirstWithId(ids, key) == -1 <==> Some(key) !in ids
    ensures FirstWithId(ids, key) >= 0 ==> forall j :: 0 <= j < FirstWithId(ids, key) ==> ids[j] != Some(key)
  {
    if ids != [] && ids[0] != Some(key) {
      FirstWithIdSpec(ids[1..], key);
      assert ids == [ids[0]] + ids[1..];
    }
  }

  /** The tabs and panes of the page: each tab's target, classes and
      inline style, each pane's id and whether it carries `hidden`. */
  class TabStrip {
    const targets: seq<Option<string>>
    var classes: seq<set<string>>
    var style: seq<Option<string>>
    const paneIds: seq<Option<string>>
    var hidden: seq<bool>

    predicate Valid()
      reads this
    {
      |classes| == |targets| && |style| == |targets| && |hidden| == |paneIds|
    }

    constructor (targets: seq<Option<string>>, classes: seq<set<string>>,
                 style: seq<Option<string>>, paneIds: seq<Option<string>>, hidden: seq<bool>)
      requires |classes| == |targets| && |style| == |targets| && |hidden| == |paneIds|
      ensures Valid()
      ensures this.targets == targets && this.classes == classes && this.style == style
      ensures this.paneIds == paneIds && this.hidden == hidden
    {
      this.targets := targets;
      this.classes := classes;
      this.style := style;
      this.paneIds := paneIds;
      this.hidden := hidden;
    }

    /** The click handler of `initCorrelationTabs` on tab `b`: exactly the
        clicked tab is current and coloured, and every pane is hidden
        except the first one carrying the target id, if there is one. */
    method Click(b: nat)
      requires Valid() && b < |targets|
      modifies this
      ensures Valid()
      ensures forall i :: 0 <= i < |targets| ==>
        classes[i] == TabClasses(old(classes[i]), i == b) && style[i] == TabStyle(i == b)
      ensures forall j :: 0 <= j < |paneIds| ==>
        (hidden[j] <==> j != FirstWithId(paneIds, AsText(targets[b])))
    {
      var i := 0;
      while i < |targets|
        invariant Valid() && hidden == old(hidden)
        invariant 0 <= i <= |targets|
        invariant forall k :: 0 <= k < i ==>
          classes[k] == (old(classes[k]) - {Current}) + {Hover, Transparent} && style[k] == None
        invariant forall k :: i <= k < |targets| ==> classes[k] == old(classes[k])
      {
        classes := classes[i := (classes[i] - {Current}) + {Hover, Transparent}];
        style := style[i := None];
        i := i + 1;
      }
      classes := classes[b := (classes[b] - {Hover, Transparent}) + {Current}];
      style := style[b := Some(Highlight)];
      var j := 0;
      while j < |paneIds|
        invariant Valid()
        invariant forall k :: 0 <= k < |targets| ==>
          classes[k] == TabClasses(old(classes[k]), k == b) && style[k] == TabStyle(k == b)
        invariant 0 <= j <= |paneIds|
        invariant forall k :: 0 <= k < j ==> hidden[k]
      {
        hidden := hidden[j := true];
        j := j + 1;
      }
      var t := FirstWithId(paneIds, AsText(targets[b]));
      if t >= 0 {
        hidden := hidden[t := false];
      }
    }
  }

  /** After a click the panes shown are exactly the first one with the
      target id; none when no pane has it. */
  lemma ShownPane(paneIds: seq<Option<string>>, target: Option<string>, j: nat)
    requires j < |paneIds|
    ensures j == FirstWithId(paneIds, AsText(target)) <==>
      paneIds[j] == Some(AsText(target))
      && forall k :: 0 <= k < j ==> paneIds[k] != Some(AsText(target))
  {
    FirstWithIdSpec(paneIds, AsText(target));
    FirstWithIdSpec(paneIds[..j + 1], AsText(target));
  }

  // ---------------------------------------------------------------- figure tooltips

  /** The tooltip's markup for a reference's `data-figure`. */
  function TooltipHtml(figure: Option<string>): (r: string)
    ensures Contains(r, "<strong>" + AsText(figure) + "</strong>")
  {
    var name := AsText(figure);
    var r := "<strong>" + name + "</strong>" + ": Statistical correlation analysis from the thesis research.";
    assert OccursAt(r, "<strong>" + name + "</strong>", 0);
    r
  }

  /** The tooltip element shared by all figure references; without one no
      handler is installed. */
  class Tooltip {
    const present: bool
    var html: string
    var hidden: bool
    var top: int
    var left: int

    constructor (present: bool)
      ensures this.present == present && hidden
    {
      this.present := present;
      html := "";
      hidden := true;
      top, left := 0, 0;
    }

    /** Hovering a reference fills the tooltip with the figure's name and
        places it ten pixels under the reference, in page coordinates. */
    method MouseOver(figure: Option<string>, bottom: int, leftEdge: int, scrollX: int, scrollY: int)
      modifies this
      ensures !present ==> unchanged(this)
      ensures present ==>
        html == TooltipHtml(figure) && !hidden && top == scrollY + bottom + 10 && left == scrollX + leftEdge
    {
      if present {
        html := TooltipHtml(figure);
        hidden := false;
        top := scrollY + bottom + 10;
        left := scrollX + leftEdge;
      }
    }

    /** Leaving a reference hides the tooltip. */
    method MouseOut()
      modifies this
      ensures !present ==> unchanged(this)
      ensures present ==> hidden && html == old(html) && top == old(top) && left == old(left)
    {
      if present {
        hidden := true;
      }
    }
  }
}
