/** The light/dark theme switch: the toggle button flips the theme kept in
    the shared dashboard state, stores it, and applies it to the document
    root and the browser's theme colour. */
module Theme {
  import opened Common
  import MainPage

  /** The theme a click switches to: `light` from `dark`, and `dark` from
      anything else. */
  function Toggled(theme: string): (r: string)
    ensures r == "dark" || r == "light"
    ensures r == "light" <==> theme == "dark"
  {
    if theme == "dark" then "light" else "dark"
  }

  /** Two clicks return to a `light` or `dark` theme; any other stored
      theme ends as `light`. */
  lemma ToggledTwice(theme: string)
    ensures theme == "dark" || theme == "light" ==> Toggled(Toggled(theme)) == theme
    ensures theme != "dark" && theme != "light" ==> Toggled(Toggled(theme)) == "light"
  {
  }

  /** The browser theme colour for a theme. */
  function MetaColor(theme: string): (r: string)
    ensures r == "#1e293b" <==> theme == "dark"
    ensures r == "#ffffff" <==> theme != "dark"
  {
    if theme == "dark" then "#1e293b" else "#ffffff"
  }

  /** The shared theme, the stored copy and what `applyTheme` writes on the
      page. The toggle button and the theme-colour meta element may be
      missing. */
  class ThemeState {
    const hasToggle: bool
    const hasMeta: bool
    /** `dashboardState.theme`. */
    var theme: string
    /** The `theme` entry of local storage. */
    var stored: Option<string>
    /** The root's `data-theme`, `None` until first written. */
    var dataTheme: Option<string>
    /** Whether the root carries the `dark` class. */
    var dark: bool
    /** The meta element's `content`. */
    var meta: Option<string>

    /** The page as loaded: the shared state's theme read from storage. */
    constructor (hasToggle: bool, hasMeta: bool, stored: Option<string>, dark: bool)
      ensures this.hasToggle == hasToggle && this.hasMeta == hasMeta
      ensures theme == MainPage.InitialTheme(stored) && this.stored == stored
      ensures dataTheme == None && this.dark == dark && meta == None
    {
      this.hasToggle := hasToggle;
      this.hasMeta := hasMeta;
      theme := MainPage.InitialTheme(stored);
      this.stored := stored;
      dataTheme := None;
      this.dark := dark;
      meta := None;
    }

    /** `applyTheme`: `data-theme` becomes the theme, the `dark` class is
        set iff it is `dark`, and the theme colour follows when the meta
        element exists. */
    method Apply(t: string)
      modifies this
      ensures dataTheme == Some(t) && (dark <==> t == "dark")
      ensures meta == if hasMeta then Some(MetaColor(t)) else old(meta)
      ensures theme == old(theme) && stored == old(stored)
    {
      dataTheme := Some(t);
      dark := t == "dark";
      if hasMeta {
        meta := Some(MetaColor(t));
      }
    }

    /** `initThemeToggle`: without the button nothing happens; otherwise the
        current theme is applied. */
    method Init()
      modifies this
      ensures !hasToggle ==> unchanged(this)
      ensures hasToggle ==> dataTheme == Some(theme) && (dark <==> theme == "dark")
      ensures theme == old(theme) && stored == old(stored)
    {
      if hasToggle {
        Apply(theme);
      }
    }

    /** A click on the toggle: the theme flips, is stored, and applied. */
    method Click()
      requires hasToggle
      modifies this
      ensures theme == Toggled(old(theme)) && stored == Some(theme)
      ensures dataTheme == Some(theme) && (dark <==> theme == "dark")
      ensures meta == if hasMeta then Some(MetaColor(theme)) else old(meta)
    {
      var next := Toggled(theme);
      theme := next;
      stored := Some(next);
      Apply(next);
    }
  }

  /** After a click the stored theme, read back at the next page load,
      gives the theme the click chose. */
  lemma StoredThemeSurvivesReload(before: string)
    ensures MainPage.InitialTheme(Some(Toggled(before))) == Toggled(before)
  {
  }
}
