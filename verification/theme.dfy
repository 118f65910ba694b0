/** The theme runtime of the generated Next.js application (`theme.tsx`): a
    two-theme cycle, the class-name swaps `toggleTheme` asks of the document
    body, and the module-level `currentTheme`, made an explicit state value.
    Whether `window` is defined is a parameter. */
module ThemeRuntime {
  import opened JsText

  const Themes: seq<string> := ["light", "dark"]
  const ClassNamePrefix: string := "dx-swatch-"
  const AdditionalClassNamePrefix: string := ClassNamePrefix + "additional"

  /** `getNextTheme`: the theme after `theme` in the list, wrapping around;
      a theme not in the list (including the default `''`) is followed by the
      first one. */
  function NextTheme(theme: string): (r: string)
    ensures r in Themes
    ensures r == "dark" <==> theme == "light"
  {
    var next := Lookup(Themes, IndexOf(Themes, theme) + 1);
    if Truthy(next) then next.value else Themes[0]
  }

  /** The cycle: light and dark follow each other. */
  lemma NextThemeCycle()
    ensures NextTheme("light") == "dark" && NextTheme("dark") == "light"
  {
  }

  /** Every theme that is not in the list is followed by `light`. */
  lemma NextThemeOfUnknown(theme: string)
    requires theme !in Themes
    ensures NextTheme(theme) == "light"
  {
  }

  /** On the themes list, `getNextTheme` is an involution. */
  lemma NextThemeInvolution(theme: string)
    requires theme in Themes
    ensures NextTheme(NextTheme(theme)) == theme
  {
  }

  /** The module-level `currentTheme`. */
  datatype ThemeState = ThemeState(current: string)

  /** The initial `currentTheme`: `getNextTheme()` with the default `''`. */
  function InitialState(): (r: ThemeState)
    ensures r.current == "light"
  {
    ThemeState(NextTheme(""))
  }

  /** A `classList.replace(from, to)` request. */
  datatype ClassSwap = ClassSwap(from: string, to: string)

  /** What one `toggleTheme(prevTheme)` call yields: the returned theme, the
      module state afterwards, and the swaps it requests on the body's class
      list and on the element carrying the additional swatch class. */
  datatype Toggle = Toggle(newTheme: string, state: ThemeState,
                           bodySwap: Option<ClassSwap>, additionalSwap: Option<ClassSwap>)

  /** The body's swatch class moves from the previous theme to the new one. */
  function BodySwap(prevTheme: string, newTheme: string): (r: ClassSwap)
    ensures r.from == "dx-swatch-" + prevTheme && r.to == "dx-swatch-" + newTheme
  {
    ClassSwap(ClassNamePrefix + prevTheme, ClassNamePrefix + newTheme)
  }

  /** The additional swatch gains `-dark` unless the previous theme was dark,
      and loses it if it was. */
  function AdditionalSwap(prevTheme: string): (r: ClassSwap)
    ensures r.from == "dx-swatch-additional" + (if prevTheme == "dark" then "-dark" else "")
    ensures r.to == "dx-swatch-additional" + (if prevTheme == "dark" then "" else "-dark")
  {
    var isCurrentThemeDark := prevTheme == "dark";
    var postfix := if isCurrentThemeDark then "-" + prevTheme else "";
    ClassSwap(AdditionalClassNamePrefix + postfix,
              AdditionalClassNamePrefix + (if isCurrentThemeDark then "" else "-dark"))
  }

  /** `toggleTheme`: the result is the next theme. With `window` defined it
      requests both swatch swaps and `currentTheme` becomes the new theme;
      without `window` nothing but the return value is computed. */
  function ToggleTheme(st: ThemeState, prevTheme: string, hasWindow: bool): (r: Toggle)
    ensures r.newTheme == NextTheme(prevTheme) && r.newTheme in Themes
    ensures r.state == if hasWindow then ThemeState(r.newTheme) else st
    ensures r.bodySwap == if hasWindow then Some(BodySwap(prevTheme, r.newTheme)) else None
    ensures r.additionalSwap == if hasWindow then Some(AdditionalSwap(prevTheme)) else None
  {
    var newTheme := NextTheme(prevTheme);
    if hasWindow then
      Toggle(newTheme, ThemeState(newTheme), Some(BodySwap(prevTheme, newTheme)), Some(AdditionalSwap(prevTheme)))
    else
      Toggle(newTheme, st, None, None)
  }

  /** Both swaps always change the class name. */
  lemma ToggleChangesClasses(st: ThemeState, prevTheme: string)
    ensures var r := ToggleTheme(st, prevTheme, true);
            && r.additionalSwap.value.from != r.additionalSwap.value.to
            && r.bodySwap.value.from != r.bodySwap.value.to
  {
    var r := ToggleTheme(st, prevTheme, true);
    assert |r.additionalSwap.value.from| != |r.additionalSwap.value.to|;
    assert r.bodySwap.value.from[|ClassNamePrefix|..] == prevTheme;
    assert r.bodySwap.value.to[|ClassNamePrefix|..] == r.newTheme;
  }

  /** `isDark`: reads the module state, not the React state. */
  function IsDark(st: ThemeState): (r: bool)
    ensures r <==> st.current == "dark"
  {
    st.current == Themes[1]
  }

  /** The `useLayoutEffect` of `useThemeContext`: with `window` defined and no
      swatch class on the body yet, the swatch class of the current theme is
      added. */
  function InitialSwatch(bodyClassName: string, theme: string, hasWindow: bool): (r: Option<string>)
    ensures r.Some? <==> hasWindow && !Contains(bodyClassName, "dx-swatch-")
    ensures r.Some? ==> r.value == "dx-swatch-" + theme
  {
    if hasWindow && !Contains(bodyClassName, ClassNamePrefix) then Some(ClassNamePrefix + theme) else None
  }

  /** The React `theme` state of `useThemeContext` next to the module state. */
  datatype Session = Session(theme: string, global: ThemeState)

  /** Mounting `useThemeContext`: the React state starts at
      `getCurrentTheme()`, the module state at the time of the mount. */
  function Mount(global: ThemeState): (r: Session)
    ensures r.theme == global.current && r.global == global
  {
    Session(global.current, global)
  }

  /** The first mount: both states start from the initial `currentTheme`. */
  function InitialSession(): (r: Session)
    ensures r.theme == "light" && r.global.current == "light"
  {
    Mount(InitialState())
  }

  /** `switchTheme`: toggles from the React state and stores the result in it;
      the module state follows only with `window` defined. */
  function Switch(s: Session, hasWindow: bool): (r: Session)
    ensures r.theme == NextTheme(s.theme)
    ensures r.global == if hasWindow then ThemeState(r.theme) else s.global
  {
    var t := ToggleTheme(s.global, s.theme, hasWindow);
    Session(t.newTheme, t.state)
  }

  /** `n` calls of `switchTheme`. */
  function SwitchTimes(s: Session, n: nat, hasWindow: bool): Session
    decreases n
  {
    if n == 0 then s else SwitchTimes(Switch(s, hasWindow), n - 1, hasWindow)
  }

  /** The theme `n` switches after the listed theme `t0`. */
  function Alternate(t0: string, n: nat): string {
    if n % 2 == 0 then t0 else NextTheme(t0)
  }

  /** One switch first, then `n - 1` more, is `n` switches. */
  lemma AlternateShift(t0: string, n: nat)
    requires t0 in Themes && n > 0
    ensures Alternate(NextTheme(t0), n - 1) == Alternate(t0, n)
  {
    NextThemeInvolution(t0);
    assert (n % 2 == 0) == ((n - 1) % 2 == 1);
  }

  /** With `window` defined, a session whose React state equals the listed
      module state keeps them equal across any number of switches, and both
      alternate from where they started. */
  lemma {:induction false} SwitchTimesWithWindow(s0: Session, n: nat)
    requires s0.theme == s0.global.current && s0.theme in Themes
    ensures SwitchTimes(s0, n, true) == Session(Alternate(s0.theme, n), ThemeState(Alternate(s0.theme, n)))
    decreases n
  {
    if n > 0 {
      var s1 := Switch(s0, true);
      SwitchTimesWithWindow(s1, n - 1);
      AlternateShift(s0.theme, n);
    }
  }

  /** Without `window`, switches alternate the React state from a listed
      theme and never touch the module state. */
  lemma {:induction false} SwitchTimesWithoutWindow(s0: Session, n: nat)
    requires s0.theme in Themes
    ensures SwitchTimes(s0, n, false) == Session(Alternate(s0.theme, n), s0.global)
    decreases n
  {
    if n > 0 {
      var s1 := Switch(s0, false);
      SwitchTimesWithoutWindow(s1, n - 1);
      AlternateShift(s0.theme, n);
    }
  }

  /** A later mount, with `window` defined: whatever listed theme the module
      state holds, the React state starts there, the two stay equal, and
      after `n` switches they are back at the start iff `n` is even. */
  lemma {:induction false} RemountSwitches(global: ThemeState, n: nat)
    requires global.current in Themes
    ensures var s := SwitchTimes(Mount(global), n, true);
            && s.theme == s.global.current
            && (s.theme == global.current <==> n % 2 == 0)
  {
    SwitchTimesWithWindow(Mount(global), n);
    if n % 2 == 1 {
      assert NextTheme(global.current) != global.current;
    }
  }

  /** With `window` defined, after `n` switches from the first mount the
      React state and the module state agree, the theme is light iff `n` is
      even, and `isDark` reports the odd case. */
  lemma {:induction false} SwitchParity(n: nat)
    ensures var s := SwitchTimes(InitialSession(), n, true);
            && s.theme == s.global.current
            && s.theme == (if n % 2 == 0 then "light" else "dark")
            && (IsDark(s.global) <==> n % 2 == 1)
  {
    SwitchTimesWithWindow(InitialSession(), n);
  }

  /** Without `window`, switching still alternates the React state, but the
      module state keeps its initial value, so `isDark` stays false. */
  lemma {:induction false} SwitchWithoutWindow(n: nat)
    ensures var s := SwitchTimes(InitialSession(), n, false);
            && s.global == InitialState()
            && s.theme == (if n % 2 == 0 then "light" else "dark")
            && !IsDark(s.global)
  {
    SwitchTimesWithoutWindow(InitialSession(), n);
  }
}
