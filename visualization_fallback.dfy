/** Fallbacks for interactive figures whose iframe fails to load: the
    source path fix applied when the handlers are set up, the static image
    chosen from the iframe's source, and the fallback block with its retry
    button. */
module VisualizationFallback {
  import opened Common
  import PathCorrection

  /** The setup's fix of an iframe `src`: a value starting with `/figures/`
      gets `..` in front; any other value, or none, is kept. */
  function RelativeSrc(src: Option<string>): (r: Option<string>)
  {
    if src.Some? && src.value != "" && StartsWith(src.value, "/figures/") then Some(".." + src.value)
    else src
  }

  /** The setup's fix and the page-load path fix agree on every value. */
  lemma RelativeSrcIsPathCorrection(src: Option<string>)
    ensures RelativeSrc(src) == PathCorrection.Corrected(src)
  {
  }

  // ---------------------------------------------------------------- the static image

  /** The figures that have a static image, each with the text looked for
      in the iframe's source, in the order they are tried. */
  const StaticImages: seq<(string, string)> := [
    ("diagnosis_hierarchy_sunburst", "../figures/histopathological_diagnoses.png"),
    ("age_to_diagnosis_sankey", "../figures/diagnosis_by_age_group.png"),
    ("histopathological_diagnoses_log", "../figures/histopathological_diagnoses_log.png"),
    ("common_complaints_log", "../figures/common_complaints.png")
  ]

  /** The chain of tests of `handleIframeError`: the image of the first
      figure whose key occurs in the source, or `""`. */
  function StaticImage(src: string): string
  {
    if Contains(src, StaticImages[0].0) then StaticImages[0].1
    else if Contains(src, StaticImages[1].0) then StaticImages[1].1
    else if Contains(src, StaticImages[2].0) then StaticImages[2].1
    else if Contains(src, StaticImages[3].0) then StaticImages[3].1
    else ""
  }

  /** A reference definition: the first entry of a table whose key occurs. */
  function FirstMatch(src: string, table: seq<(string, string)>): string
  {
    if table == [] then ""
    else if Contains(src, table[0].0) then table[0].1
    else FirstMatch(src, table[1..])
  }

  /** `FirstMatch` finds the image of the first key that occurs, and
      `""` exactly when none does, provided no image is itself `""`. */
  lemma {:induction false} FirstMatchSpec(src: string, table: seq<(string, string)>)
    requires forall k :: 0 <= k < |table| ==> table[k].1 != ""
    ensures FirstMatch(src, table) == "" <==> forall k :: 0 <= k < |table| ==> !Contains(src, table[k].0)
    ensures forall k :: 0 <= k < |table| && Contains(src, table[k].0)
              && (forall j :: 0 <= j < k ==> !Contains(src, table[j].0))
              ==> FirstMatch(src, table) == table[k].1
  {
    if table != [] {
      FirstMatchSpec(src, table[1..]);
      assert forall k :: 1 <= k < |table| ==> table[k] == table[1..][k - 1];
    }
  }

  /** The chain is the first match over the table, so the image is that of
      the first key found in the source, and there is none exactly when no
      key occurs. */
  lemma StaticImageIsFirstMatch(src: string)
    ensures StaticImage(src) == FirstMatch(src, StaticImages)
    ensures StaticImage(src) == "" <==>
      forall k :: 0 <= k < |StaticImages| ==> !Contains(src, StaticImages[k].0)
  {
    var t := StaticImages;
    assert t[1..][1..][1..][1..] == [];
    FirstMatchSpec(src, t);
  }

  // ---------------------------------------------------------------- the fallback block

  /** The block put after a failed iframe: its static image with the
      iframe's title as alternative text, or a message with a retry
      button. */
  datatype Fallback = StaticFallback(image: string, alt: string) | RetryFallback

  /** The fallback for an iframe's `src` and `title`, a missing attribute
      read as `""`. */
  function FallbackFor(src: Option<string>, title: Option<string>): (f: Fallback)
    ensures f.RetryFallback? <==> StaticImage(if src.Some? then src.value else "") == ""
  {
    var s := if src.Some? then src.value else "";
    var image := StaticImage(s);
    if image != "" then StaticFallback(image, if title.Some? then title.value else "")
    else RetryFallback
  }

  /** A retry button is offered exactly when the source names none of the
      figures that have a static image. */
  lemma RetryIffNoStaticImage(src: string, title: Option<string>)
    ensures FallbackFor(Some(src), title).RetryFallback? <==>
      forall k :: 0 <= k < |StaticImages| ==> !Contains(src, StaticImages[k].0)
  {
    StaticImageIsFirstMatch(src);
  }

  /** One visualization container: its iframe's attributes and inline
      `display`, the fallback blocks appended after it, and how often the
      iframe was reloaded. */
  class Container {
    var src: Option<string>
    const title: Option<string>
    var display: string
    var fallbacks: seq<Fallback>
    var reloads: nat

    constructor (src: Option<string>, title: Option<string>)
      ensures this.src == src && this.title == title
      ensures display == "" && fallbacks == [] && reloads == 0
    {
      this.src := src;
      this.title := title;
      display := "";
      fallbacks := [];
      reloads := 0;
    }

    /** The setup of `setupVisualizationFallbacks` for this iframe: its
        source made relative. */
    method Setup()
      modifies this
      ensures src == RelativeSrc(old(src))
      ensures display == old(display) && fallbacks == old(fallbacks) && reloads == old(reloads)
    {
      src := RelativeSrc(src);
    }

    /** `handleIframeError`: the iframe is hidden and a fallback appended.
        Nothing checks for an earlier fallback, so an error event and the
        later load check each append one. */
    method HandleError()
      modifies this
      ensures display == "none"
      ensures fallbacks == old(fallbacks) + [FallbackFor(src, title)]
      ensures src == old(src) && reloads == old(reloads)
    {
      display := "none";
      fallbacks := fallbacks + [FallbackFor(src, title)];
    }

    /** The check three seconds after setup: an iframe whose content is
        not reachable is handled as failed. */
    method CheckLoaded(reachable: bool)
      modifies this
      ensures reachable ==> unchanged(this)
      ensures !reachable ==>
        display == "none" && fallbacks == old(fallbacks) + [FallbackFor(src, title)] && src == old(src)
    {
      if !reachable {
        HandleError();
      }
    }

    /** The retry button of fallback `k`: the iframe is shown again, that
        fallback removed and the iframe reloaded. */
    method Retry(k: nat)
      requires k < |fallbacks| && fallbacks[k].RetryFallback?
      modifies this
      ensures display == ""
      ensures fallbacks == old(fallbacks[..k] + fallbacks[k + 1..])
      ensures src == old(src) && reloads == old(reloads) + 1
    {
      display := "";
      fallbacks := fallbacks[..k] + fallbacks[k + 1..];
      reloads := reloads + 1;
    }
  }

  /** An error event followed by a failed load check leaves two fallbacks
      where there was none. */
  method ErrorThenFailedCheck(c: Container)
    requires c.fallbacks == []
    modifies c
    ensures |c.fallbacks| == 2 && c.fallbacks[0] == c.fallbacks[1]
  {
    c.HandleError();
    c.CheckLoaded(false);
  }
}
