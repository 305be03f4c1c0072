/**
 * The dark/light theme toggle of scripts/script.js, script.js and sacript.js.
 *
 * The page starts from the theme stored under "theme" and each click on the toggle flips the body between
 * the `dark-mode` and `light-mode` classes and stores the new mode. scripts/script.js shows the mode
 * through the toggle's `aria-pressed` attribute and a moon and a sun icon; script.js and sacript.js write
 * a glyph into the toggle. `localStorage` is a map from keys to strings.
 */
module Theme {
  import opened Wrappers

  const DarkMode := "dark-mode"
  const LightMode := "light-mode"
  const ThemeKey := "theme"
  /** The glyph shown in light mode. */
  const Sun := "\U{2600}"
  /** The glyph shown in dark mode. */
  const Moon := "\U{263E}"

  /** How the toggle shows the mode: `aria-pressed` and two icons, or a glyph as its text. */
  datatype Style = PressedIcons | Glyph

  /** `localStorage.getItem`. */
  function Get(storage: map<string, string>, key: string): Option<string>
  {
    if key in storage then Some(storage[key]) else None
  }

  /** The body classes after initialisation from the stored theme. */
  function InitClasses(saved: Option<string>, classes: set<string>): set<string>
  {
    if saved == Some("light") then classes - {DarkMode} + {LightMode}
    else classes + {DarkMode}
  }

  /** The body classes after a click on the toggle: the mode flips to the other one. */
  function ClickClasses(classes: set<string>): (r: set<string>)
    ensures DarkMode in r <==> DarkMode !in classes
    ensures OneMode(r)
  {
    if DarkMode in classes then classes - {DarkMode} + {LightMode}
    else classes - {LightMode} + {DarkMode}
  }

  /** Exactly one of the two mode classes is on the body. */
  predicate OneMode(classes: set<string>)
  {
    (DarkMode in classes) != (LightMode in classes)
  }

  /** The name stored for a body: "dark" exactly when it carries `dark-mode`. */
  function ModeName(classes: set<string>): string
  {
    if DarkMode in classes then "dark" else "light"
  }

  /** Initialisation picks light mode exactly when the stored theme is "light"; it leaves exactly one mode
      class unless the page itself already carried `light-mode` and the stored theme is not "light". */
  lemma InitPicksStoredMode(saved: Option<string>, classes: set<string>)
    ensures var r := InitClasses(saved, classes);
      (DarkMode in r <==> saved != Some("light")) &&
      (saved == Some("light") ==> LightMode in r) &&
      (OneMode(r) <==> saved == Some("light") || LightMode !in classes) &&
      r - {DarkMode, LightMode} == classes - {DarkMode, LightMode}
  {
  }

  /** A click flips the mode, leaves exactly one mode class, and touches no other class. */
  lemma ClickFlips(classes: set<string>)
    ensures var r := ClickClasses(classes);
      (DarkMode in r <==> DarkMode !in classes) && OneMode(r) &&
      r - {DarkMode, LightMode} == classes - {DarkMode, LightMode}
  {
  }

  /** Two clicks give back the original classes exactly when exactly one mode class was on the body. */
  lemma TwoClicksRestore(classes: set<string>)
    ensures ClickClasses(ClickClasses(classes)) == classes <==> OneMode(classes)
  {
    var twice := ClickClasses(ClickClasses(classes));
    if DarkMode in classes && LightMode in classes {
      assert LightMode !in twice;
    } else if DarkMode !in classes && LightMode !in classes {
      assert LightMode in twice;
    }
  }

  /**
   * The toggle and what it shows. `moonDisplay` and `sunDisplay` are the icons' `style.display`
   * (None when the icon is absent); `glyph` is the toggle's text.
   */
  class ThemeToggle {
    const style: Style
    const hasToggle: bool
    var bodyClasses: set<string>
    var storage: map<string, string>
    var ariaPressed: string
    var moonDisplay: Option<string>
    var sunDisplay: Option<string>
    var glyph: string

    /** The toggle shows the mode the body is in. */
    ghost predicate Shows()
      reads this
    {
      hasToggle ==>
        match style
        case PressedIcons =>
          ariaPressed == (if DarkMode in bodyClasses then "true" else "false") &&
          (moonDisplay.Some? ==> moonDisplay.value == (if DarkMode in bodyClasses then "" else "none")) &&
          (sunDisplay.Some? ==> sunDisplay.value == (if DarkMode in bodyClasses then "none" else ""))
        case Glyph =>
          glyph == if DarkMode in bodyClasses then Moon else Sun
    }

    /** `showIcon(isLight)`. */
    method ShowIcon(isLight: bool)
      modifies this
      ensures moonDisplay == (if old(moonDisplay).Some? then Some(if isLight then "none" else "") else None)
      ensures sunDisplay == (if old(sunDisplay).Some? then Some(if isLight then "" else "none") else None)
      ensures bodyClasses == old(bodyClasses) && storage == old(storage) && ariaPressed == old(ariaPressed) && glyph == old(glyph)
    {
      if moonDisplay.Some? {
        moonDisplay := Some(if isLight then "none" else "");
      }
      if sunDisplay.Some? {
        sunDisplay := Some(if isLight then "" else "none");
      }
    }

    /** Page load: read the stored theme and set the body and the toggle accordingly. The icons exist
        only inside the toggle; the storage is not written. */
    constructor (style: Style, hasToggle: bool, classes: set<string>, storage: map<string, string>,
                 ariaPressed: string, hasMoon: bool, hasSun: bool, glyph: string)
      ensures this.style == style && this.hasToggle == hasToggle && this.storage == storage
      ensures bodyClasses == InitClasses(Get(storage, ThemeKey), classes)
      ensures Shows()
      ensures moonDisplay.Some? <==> hasToggle && style == PressedIcons && hasMoon
      ensures sunDisplay.Some? <==> hasToggle && style == PressedIcons && hasSun
      ensures style == Glyph || !hasToggle ==> this.ariaPressed == ariaPressed
      ensures style == PressedIcons || !hasToggle ==> this.glyph == glyph
    {
      this.style := style;
      this.hasToggle := hasToggle;
      this.storage := storage;
      this.ariaPressed := ariaPressed;
      this.glyph := glyph;
      var icons := hasToggle && style == PressedIcons;
      moonDisplay := if icons && hasMoon then Some("") else None;
      sunDisplay := if icons && hasSun then Some("") else None;
      new;
      var savedTheme := Get(storage, ThemeKey);
      if savedTheme == Some("light") {
        bodyClasses := classes - {DarkMode} + {LightMode};
        if style == PressedIcons {
          if hasToggle { this.ariaPressed := "false"; }
          ShowIcon(true);
        } else if hasToggle {
          this.glyph := Sun;
        }
      } else {
        bodyClasses := classes + {DarkMode};
        if style == PressedIcons {
          if hasToggle { this.ariaPressed := "true"; }
          ShowIcon(false);
        } else if hasToggle {
          this.glyph := Moon;
        }
      }
    }

    /** A click on the toggle (also what the mobile menu's theme button triggers); nothing happens when
        there is no toggle. */
    method Click()
      modifies this
      ensures Shows()
      ensures !hasToggle ==> bodyClasses == old(bodyClasses) && storage == old(storage)
      ensures hasToggle ==> bodyClasses == ClickClasses(old(bodyClasses))
      ensures hasToggle ==> storage == old(storage)[ThemeKey := ModeName(bodyClasses)]
      ensures moonDisplay.Some? == old(moonDisplay).Some? && sunDisplay.Some? == old(sunDisplay).Some?
      ensures style == Glyph || !hasToggle ==>
        ariaPressed == old(ariaPressed) && moonDisplay == old(moonDisplay) && sunDisplay == old(sunDisplay)
      ensures style == PressedIcons || !hasToggle ==> glyph == old(glyph)
    {
      if !hasToggle {
        return;
      }
      var isDark := DarkMode in bodyClasses;
      if isDark {
        bodyClasses := bodyClasses - {DarkMode} + {LightMode};
        if style == PressedIcons {
          ariaPressed := "false";
          storage := storage[ThemeKey := "light"];
          ShowIcon(true);
        } else {
          glyph := Sun;
          storage := storage[ThemeKey := "light"];
        }
      } else {
        bodyClasses := bodyClasses - {LightMode} + {DarkMode};
        if style == PressedIcons {
          ariaPressed := "true";
          storage := storage[ThemeKey := "dark"];
          ShowIcon(false);
        } else {
          glyph := Moon;
          storage := storage[ThemeKey := "dark"];
        }
      }
    }
  }
}
