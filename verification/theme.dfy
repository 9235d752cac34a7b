/**
 * The colour theme store: `light`, `dark` or `system`, resolved against the system
 * preference, reflected as one class on the root element and persisted under `theme`.
 */
module Theme {
  import opened Wrappers
  import opened Storage

  const Light := "light"
  const Dark := "dark"
  const System := "system"
  const ThemeKey := "theme"

  /**
   * Themes are strings: the stored value is read back without validation, so any string
   * can reach `applyTheme`. Only a valid class token (see `ValidClassToken`) can be put
   * on the root element; any other makes applying the theme fail before it is saved.
   */
  type ThemeName = string

  /** The ASCII whitespace a class token may not contain. */
  predicate IsAsciiWhitespace(ch: char) {
    ch == '\t' || ch == '\n' || ch == '\U{C}' || ch == '\r' || ch == ' '
  }

  /**
   * What `classList.add` accepts: a non-empty token without ASCII whitespace (the DOM
   * throws a `SyntaxError` for the empty string and an `InvalidCharacterError` otherwise).
   */
  predicate ValidClassToken(c: string) {
    c != "" && forall i :: 0 <= i < |c| ==> !IsAsciiWhitespace(c[i])
  }

  /** The two classes the store manages are valid tokens. */
  lemma ThemeClassesValid()
    ensures ValidClassToken(Light) && ValidClassToken(Dark)
  {
    assert Light == ['l', 'i', 'g', 'h', 't'];
    assert Dark == ['d', 'a', 'r', 'k'];
  }

  /**
   * The class list after `applyTheme`: `light` and `dark` are removed, then the new class is
   * added, unless it is not a valid token, in which case the add throws.
   */
  function ClassesAfter(classes: set<string>, c: string): (r: set<string>)
    ensures ValidClassToken(c) ==> c in r
    ensures Light !in r || c == Light
    ensures Dark !in r || c == Dark
    ensures forall k :: k in classes && k != Light && k != Dark ==> k in r
    ensures forall k :: k in r ==> k in classes || k == c
  {
    if ValidClassToken(c) then classes - {Light, Dark} + {c} else classes - {Light, Dark}
  }

  /** `getSystemTheme`: the `prefers-color-scheme: dark` match, false outside a browser. */
  function GetSystemTheme(inBrowser: bool, prefersDark: bool): (dark: bool)
    ensures !inBrowser ==> !dark
    ensures inBrowser ==> dark == prefersDark
  {
    inBrowser && prefersDark
  }

  /** `shouldBeDark`: dark is dark, light is light, anything else follows the system. */
  function ShouldBeDark(theme: ThemeName, systemDark: bool): (dark: bool)
    ensures theme == Dark ==> dark
    ensures theme == Light ==> !dark
    ensures theme != Dark && theme != Light ==> dark == systemDark
  {
    if theme == Dark then true else if theme == Light then false else systemDark
  }

  /**
   * `getSavedTheme`: light outside a browser; in a browser the stored string as it is,
   * or system when it is missing, empty, or reading storage throws.
   */
  function GetSavedTheme(inBrowser: bool, stored: Option<string>, readThrows: bool): (t: ThemeName)
    ensures !inBrowser ==> t == Light
    ensures inBrowser && !readThrows && stored.Some? && stored.value != "" ==> t == stored.value
    ensures inBrowser && (readThrows || stored.None? || stored.value == "") ==> t == System
  {
    if !inBrowser then Light
    else if readThrows then System
    else if stored.Some? && stored.value != "" then stored.value
    else System
  }

  /** The class `applyTheme` puts on the root element. */
  function RootClass(theme: ThemeName, isDark: bool): (c: string)
    ensures theme == System ==> c == (if isDark then Dark else Light)
    ensures theme != System ==> c == theme
  {
    if theme == System then (if isDark then Dark else Light) else theme
  }

  /** The cycle light → dark → system → light; any other value restarts at light. */
  function NextTheme(theme: ThemeName): (next: ThemeName)
    ensures next == Light || next == Dark || next == System
    ensures theme == Light ==> next == Dark
    ensures theme == Dark ==> next == System
    ensures theme == System ==> next == Light
    ensures theme != Light && theme != Dark && theme != System ==> next == Light
  {
    if theme == Light then Dark
    else if theme == Dark then System
    else if theme == System then Light
    else Light
  }

  /** Cycling three times from a known theme returns to it. */
  lemma CycleThreeTimes(theme: ThemeName)
    requires theme == Light || theme == Dark || theme == System
    ensures NextTheme(NextTheme(NextTheme(theme))) == theme
  {
  }

  /** An unknown stored value joins the cycle at light after one step. */
  lemma CycleNormalizes(theme: ThemeName)
    ensures var n := NextTheme(theme); NextTheme(NextTheme(NextTheme(n))) == n
  {
  }

  /** `toggleTheme`'s choice: light when currently dark, dark otherwise. */
  function ToggledTheme(isDark: bool): (t: ThemeName)
    ensures t == Light || t == Dark
    ensures ShouldBeDark(t, false) == !isDark && ShouldBeDark(t, true) == !isDark
  {
    if isDark then Light else Dark
  }

  /** The class for a theme can be added exactly when the theme is `system` or itself a valid token. */
  lemma RootClassValid(theme: ThemeName, isDark: bool)
    ensures ValidClassToken(RootClass(theme, isDark)) <==> theme == System || ValidClassToken(theme)
  {
    ThemeClassesValid();
    if theme == System {
      assert System == ['s', 'y', 's', 't', 'e', 'm'];
    }
  }

  /** A theme written under `theme` is what `getSavedTheme` reads back, unless it is empty. */
  lemma SavedThemeReadsBack(items: map<string, string>, t: ThemeName)
    requires t != ""
    ensures GetSavedTheme(true, Lookup(items[ThemeKey := t], ThemeKey), false) == t
  {
  }

  class ThemeStore {
    var theme: ThemeName
    var isDark: bool
    /** The root element's class list. */
    var rootClasses: set<string>
    /** Whether the system-preference listener is installed. */
    var listening: bool
    const storage: LocalStorage
    const inBrowser: bool

    /** What every public operation leaves behind in a browser: the class list shows the resolved theme and storage holds the theme. */
    predicate Applied()
      reads this, storage
    {
      inBrowser ==>
        && rootClasses * {Light, Dark} == {RootClass(theme, isDark)} * {Light, Dark}
        && RootClass(theme, isDark) in rootClasses
        && Lookup(storage.items, ThemeKey) == Some(theme)
    }

    constructor (storage: LocalStorage, inBrowser: bool)
      ensures this.storage == storage && this.inBrowser == inBrowser
      ensures theme == System && !isDark
      ensures rootClasses == {} && !listening
    {
      this.storage := storage;
      this.inBrowser := inBrowser;
      theme, isDark := System, false;
      rootClasses, listening := {}, false;
    }

    /**
     * `applyTheme`: swaps the light/dark class and saves the theme; nothing outside a browser.
     * An invalid class makes it throw after the removal, before anything is saved.
     */
    method ApplyTheme(t: ThemeName, dark: bool) returns (ok: bool)
      modifies this`rootClasses, storage
      ensures ok <==> !inBrowser || ValidClassToken(RootClass(t, dark))
      ensures rootClasses == if inBrowser then ClassesAfter(old(rootClasses), RootClass(t, dark)) else old(rootClasses)
      ensures storage.items == if inBrowser && ok then old(storage.items)[ThemeKey := t] else old(storage.items)
    {
      if !inBrowser {
        return true;
      }
      rootClasses := rootClasses - {Light, Dark};
      var c := RootClass(t, dark);
      if !ValidClassToken(c) {
        return false;
      }
      rootClasses := rootClasses + {c};
      storage.SetItem(ThemeKey, t);
      ok := true;
    }

    /**
     * `init`: reads the saved theme, applies it, adopts it and starts listening to the
     * system preference. When applying throws, nothing after it happens.
     */
    method Init(readThrows: bool, prefersDark: bool) returns (ok: bool)
      modifies this, storage
      ensures !inBrowser ==> (ok && theme == old(theme) && isDark == old(isDark) && rootClasses == old(rootClasses)
        && listening == old(listening) && storage.items == old(storage.items))
      ensures inBrowser ==>
        var saved := GetSavedTheme(true, Lookup(old(storage.items), ThemeKey), readThrows);
        var dark := ShouldBeDark(saved, prefersDark);
        && (ok <==> saved == System || ValidClassToken(saved))
        && (ok ==> theme == saved && isDark == dark && listening)
        && (!ok ==> theme == old(theme) && isDark == old(isDark) && listening == old(listening))
        && rootClasses == ClassesAfter(old(rootClasses), RootClass(saved, dark))
        && storage.items == if ok then old(storage.items)[ThemeKey := saved] else old(storage.items)
      ensures ok ==> Applied()
    {
      if !inBrowser {
        return true;
      }
      var stored: Option<string> := None;
      if !readThrows {
        stored := storage.GetItem(ThemeKey);
      }
      var savedTheme := GetSavedTheme(inBrowser, stored, readThrows);
      var dark := ShouldBeDark(savedTheme, GetSystemTheme(inBrowser, prefersDark));
      RootClassValid(savedTheme, dark);
      ok := ApplyTheme(savedTheme, dark);
      if !ok {
        return;
      }
      theme, isDark := savedTheme, dark;
      listening := true;
    }

    /** `handleSystemThemeChange`: only a `system` theme follows the new preference. */
    method HandleSystemThemeChange(matches: bool)
      modifies this, storage
      ensures old(theme) == System ==> (theme == System && isDark == matches
        && rootClasses == (if inBrowser then old(rootClasses) - {Light, Dark} + {if matches then Dark else Light} else old(rootClasses))
        && storage.items == (if inBrowser then old(storage.items)[ThemeKey := System] else old(storage.items)))
      ensures old(theme) != System ==> (theme == old(theme) && isDark == old(isDark)
        && rootClasses == old(rootClasses) && storage.items == old(storage.items))
      ensures listening == old(listening)
      ensures old(theme) == System ==> Applied()
    {
      if theme == System {
        RootClassValid(System, matches);
        var ok := ApplyTheme(System, matches);
        isDark := matches;
      }
    }

    /** `setTheme`: applies the theme, then adopts it; when applying throws, the state stays. */
    method SetTheme(t: ThemeName, prefersDark: bool) returns (ok: bool)
      modifies this, storage
      ensures ok <==> !inBrowser || t == System || ValidClassToken(t)
      ensures ok ==> theme == t && isDark == ShouldBeDark(t, GetSystemTheme(inBrowser, prefersDark))
      ensures !ok ==> theme == old(theme) && isDark == old(isDark)
      ensures rootClasses == if inBrowser
        then ClassesAfter(old(rootClasses), RootClass(t, ShouldBeDark(t, prefersDark)))
        else old(rootClasses)
      ensures storage.items == if inBrowser && ok then old(storage.items)[ThemeKey := t] else old(storage.items)
      ensures listening == old(listening)
      ensures ok ==> Applied()
    {
      var dark := ShouldBeDark(t, GetSystemTheme(inBrowser, prefersDark));
      RootClassValid(t, dark);
      ok := ApplyTheme(t, dark);
      if !ok {
        return;
      }
      theme, isDark := t, dark;
    }

    /** `toggleTheme`: light when it was dark, dark otherwise; the new flag says whether the new theme is dark. */
    method ToggleTheme(prefersDark: bool)
      modifies this, storage
      ensures theme == ToggledTheme(old(isDark))
      ensures isDark == (theme == Dark)
      ensures rootClasses == if inBrowser then old(rootClasses) - {Light, Dark} + {theme} else old(rootClasses)
      ensures storage.items == if inBrowser then old(storage.items)[ThemeKey := theme] else old(storage.items)
      ensures listening == old(listening)
      ensures Applied()
    {
      var newTheme := ToggledTheme(isDark);
      var dark := ShouldBeDark(newTheme, GetSystemTheme(inBrowser, prefersDark));
      RootClassValid(newTheme, dark);
      var ok := ApplyTheme(newTheme, dark);
      theme, isDark := newTheme, dark;
    }

    /** `cycleTheme`: the next theme in the cycle, with its darkness. */
    method CycleTheme(prefersDark: bool)
      modifies this, storage
      ensures theme == NextTheme(old(theme))
      ensures isDark == ShouldBeDark(theme, GetSystemTheme(inBrowser, prefersDark))
      ensures rootClasses == if inBrowser then old(rootClasses) - {Light, Dark} + {RootClass(theme, isDark)} else old(rootClasses)
      ensures storage.items == if inBrowser then old(storage.items)[ThemeKey := theme] else old(storage.items)
      ensures listening == old(listening)
      ensures Applied()
    {
      var newTheme := NextTheme(theme);
      var dark := ShouldBeDark(newTheme, GetSystemTheme(inBrowser, prefersDark));
      RootClassValid(newTheme, dark);
      var ok := ApplyTheme(newTheme, dark);
      theme, isDark := newTheme, dark;
    }
  }

  /**
   * What `setTheme` saves, a later `init` on the same storage restores: the theme set in one
   * page load comes back in the next, provided the class list accepted it.
   */
  method PersistenceRoundTrip(t: ThemeName, prefersDark: bool) returns (saved: bool, restored: ThemeName)
    ensures saved <==> t == System || ValidClassToken(t)
    ensures saved ==> restored == t
    ensures !saved ==> restored == System
  {
    var storage := new LocalStorage();
    var first := new ThemeStore(storage, true);
    saved := first.SetTheme(t, prefersDark);
    if saved {
      SavedThemeReadsBack(map[], t);
    }
    var second := new ThemeStore(storage, true);
    var ok := second.Init(false, prefersDark);
    restored := second.theme;
  }
}
