/** The stand-alone tab handler for the correlations section: the same tab
    switch as the correlation tabs, but wired only to the tabs and panes
    inside `#correlations`, and only when that section and both kinds of
    element exist. The target pane is still looked up in the whole
    document. */
module DirectTabs {
  import opened Common
  import opened Correlations

  /** The tabs and panes of the page, each flagged with whether it sits
      inside the `#correlations` section. */
  class SectionTabs {
    /** Whether the page has an element with id `correlations`. */
    const present: bool
    const targets: seq<Option<string>>
    const tabInside: seq<bool>
    var classes: seq<set<string>>
    var style: seq<Option<string>>
    const paneIds: seq<Option<string>>
    const paneInside: seq<bool>
    var hidden: seq<bool>

    predicate Valid()
      reads this
    {
      |tabInside| == |targets| && |classes| == |targets| && |style| == |targets|
      && |paneInside| == |paneIds| && |hidden| == |paneIds|
    }

    /** The handlers are installed only when the section exists and holds
        at least one tab and one pane. */
    predicate Wired()
      reads this
      requires Valid()
    {
      present && (exists i :: 0 <= i < |targets| && tabInside[i])
      && exists j :: 0 <= j < |paneIds| && paneInside[j]
    }

    constructor (present: bool, targets: seq<Option<string>>, tabInside: seq<bool>,
                 classes: seq<set<string>>, style: seq<Option<string>>,
                 paneIds: seq<Option<string>>, paneInside: seq<bool>, hidden: seq<bool>)
      requires |tabInside| == |targets| && |classes| == |targets| && |style| == |targets|
      requires |paneInside| == |paneIds| && |hidden| == |paneIds|
      requires !present ==> (forall i :: 0 <= i < |tabInside| ==> !tabInside[i])
                            && forall j :: 0 <= j < |paneInside| ==> !paneInside[j]
      ensures Valid()
      ensures this.present == present && this.targets == targets && this.tabInside == tabInside
      ensures this.classes == classes && this.style == style
      ensures this.paneIds == paneIds && this.paneInside == paneInside && this.hidden == hidden
    {
      this.present := present;
      this.targets := targets;
      this.tabInside := tabInside;
      this.classes := classes;
      this.style := style;
      this.paneIds := paneIds;
      this.paneInside := paneInside;
      this.hidden := hidden;
    }

    /** Every tab of the section reset to the inactive look, then tab b
        given the active one. */
    method RestyleTabs(b: nat)
      requires Valid() && b < |targets| && tabInside[b]
      modifies this
      ensures Valid() && hidden == old(hidden)
      ensures forall k :: 0 <= k < |targets| ==>
        if tabInside[k] then classes[k] == TabClasses(old(classes[k]), k == b) && style[k] == TabStyle(k == b)
        else classes[k] == old(classes[k]) && style[k] == old(style[k])
    {
      var i := 0;
      while i < |targets|
        invariant Valid() && hidden == old(hidden)
        invariant 0 <= i <= |targets|
        invariant forall k :: 0 <= k < i ==>
          if tabInside[k] then classes[k] == (old(classes[k]) - {Current}) + {Hover, Transparent} && style[k] == None
          else classes[k] == old(classes[k]) && style[k] == old(style[k])
        invariant forall k :: i <= k < |targets| ==> classes[k] == old(classes[k]) && style[k] == old(style[k])
      {
        if tabInside[i] {
          classes := classes[i := (classes[i] - {Current}) + {Hover, Transparent}];
          style := style[i := None];
        }
        i := i + 1;
      }
      classes := classes[b := (classes[b] - {Hover, Transparent}) + {Current}];
      style := style[b := Some(Highlight)];
    }

    /** Every pane of the section hidden; the others keep their state. */
    method HidePanes()
      requires Valid()
      modifies this
      ensures Valid() && classes == old(classes) && style == old(style)
      ensures forall k :: 0 <= k < |paneIds| ==> hidden[k] == (paneInside[k] || old(hidden[k]))
    {
      var j := 0;
      while j < |paneIds|
        invariant Valid() && classes == old(classes) && style == old(style)
        invariant 0 <= j <= |paneIds|
        invariant forall k :: 0 <= k < |paneIds| ==>
          hidden[k] == if k < j && paneInside[k] then true else old(hidden[k])
      {
        if paneInside[j] {
          hidden := hidden[j := true];
        }
        j := j + 1;
      }
    }

    /** A click on tab `b`. Unless the handlers are wired and `b` is inside
        the section, nothing changes. Otherwise the section's tabs are reset
        and `b` made current; the section's panes are hidden; then the first
        pane of the whole page with the target id is shown, even one outside
        the section. Tabs outside the section keep their state, and so do
        panes outside it other than that target. */
    method Click(b: nat)
      requires Valid() && b < |targets|
      modifies this
      ensures Valid()
      ensures !(Wired() && tabInside[b]) ==>
        classes == old(classes) && style == old(style) && hidden == old(hidden)
      ensures Wired() && tabInside[b] ==>
        (forall i :: 0 <= i < |targets| ==>
           if tabInside[i] then classes[i] == TabClasses(old(classes[i]), i == b) && style[i] == TabStyle(i == b)
           else classes[i] == old(classes[i]) && style[i] == old(style[i]))
        && forall j :: 0 <= j < |paneIds| ==>
           hidden[j] == if j == FirstWithId(paneIds, AsText(targets[b])) then false
                        else if paneInside[j] then true
                        else old(hidden[j])
    {
      if !Wired() || !tabInside[b] {
        return;
      }
      RestyleTabs(b);
      HidePanes();
      var t := FirstWithId(paneIds, AsText(targets[b]));
      if t >= 0 {
        hidden := hidden[t := false];
      }
    }
  }
}
