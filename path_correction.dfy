/** The path fix run when the page loads: figure references written as
    site-absolute `/figures/...` paths are made relative to the dashboard
    directory, in iframe and image sources and in the `data-src` of the
    open-in-new buttons. */
module PathCorrection {
  import opened Common

  const FiguresDir := "/figures"

  /** A value the fix applies to: one that starts with `/figures/`. */
  predicate IsAbsoluteFigure(src: string)
  {
    StartsWith(src, FiguresDir + "/")
  }

  /** The fix of one attribute value: a missing value (`None`), an empty
      one or one outside `/figures/` is kept; otherwise `/figures` becomes
      `../figures`, which is the original with `..` in front. */
  function Corrected(src: Option<string>): (r: Option<string>)
    ensures r.Some? <==> src.Some?
    ensures src.Some? && IsAbsoluteFigure(src.value) ==>
      r.value == ".." + src.value && |r.value| == |src.value| + 2
    ensures !(src.Some? && IsAbsoluteFigure(src.value)) ==> r == src
  {
    if src.Some? && src.value != "" && IsAbsoluteFigure(src.value) then
      var rest := src.value[|FiguresDir|..];
      assert src.value == FiguresDir + rest;
      Some("../figures" + rest)
    else src
  }

  /** A corrected value is never corrected again. */
  lemma CorrectedIdempotent(src: Option<string>)
    ensures Corrected(Corrected(src)) == Corrected(src)
  {
    var r := Corrected(src);
    if src.Some? && IsAbsoluteFigure(src.value) {
      assert r.value[0] == '.';
    }
  }

  /** The same fix over every element of a kind, in document order. */
  method CorrectAll(values: array<Option<string>>)
    modifies values
    ensures forall i :: 0 <= i < values.Length ==> values[i] == Corrected(old(values[i]))
  {
    var i := 0;
    while i < values.Length
      invariant 0 <= i <= values.Length
      invariant forall k :: 0 <= k < i ==> values[k] == Corrected(old(values[k]))
      invariant forall k :: i <= k < values.Length ==> values[k] == old(values[k])
    {
      values[i] := Corrected(values[i]);
      i := i + 1;
    }
  }

  /** The load handler: the iframe sources, then the image sources, then
      the buttons' `data-src`. Because the fix is idempotent, each value
      ends corrected exactly once even if two of the lists were the same. */
  method OnLoaded(iframeSrc: array<Option<string>>, imageSrc: array<Option<string>>,
                  buttonSrc: array<Option<string>>)
    modifies iframeSrc, imageSrc, buttonSrc
    ensures forall i :: 0 <= i < iframeSrc.Length ==> iframeSrc[i] == Corrected(old(iframeSrc[i]))
    ensures forall i :: 0 <= i < imageSrc.Length ==> imageSrc[i] == Corrected(old(imageSrc[i]))
    ensures forall i :: 0 <= i < buttonSrc.Length ==> buttonSrc[i] == Corrected(old(buttonSrc[i]))
  {
    CorrectAll(iframeSrc);
    CorrectAll(imageSrc);
    forall i | 0 <= i < iframeSrc.Length
      ensures iframeSrc[i] == Corrected(old(iframeSrc[i]))
    {
      CorrectedIdempotent(old(iframeSrc[i]));
    }
    CorrectAll(buttonSrc);
    forall i | 0 <= i < iframeSrc.Length
      ensures iframeSrc[i] == Corrected(old(iframeSrc[i]))
    {
      CorrectedIdempotent(old(iframeSrc[i]));
    }
    forall i | 0 <= i < imageSrc.Length
      ensures imageSrc[i] == Corrected(old(imageSrc[i]))
    {
      CorrectedIdempotent(old(imageSrc[i]));
    }
  }
}
