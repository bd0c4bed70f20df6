/** The application shell of `main`: which of the two views is visible, and
    the light/dark theme with the colours and icon that follow it. */
module AppShell {
  import opened StopwatchWidget

  /** `page.theme_mode`, which the shell only ever sets to "light" or "dark". */
  datatype ThemeMode = Light | Dark

  /** The floating action button's icon. */
  datatype Icon = DarkModeSharp | LightModeSharp

  /** Colours the dark theme gives the reset button. */
  const DarkResetColor: string := "#272a2c"
  const DarkResetBgcolor: string := "#c3c7cf"

  /** The display state the shell's callbacks write: the theme, the button
      icon, `home_view.visible`, `about_view.visible` and the reset button's
      `color` and `bgcolor`. */
  datatype Chrome = Chrome(
    theme: ThemeMode,
    fabIcon: Icon,
    homeVisible: bool,
    aboutVisible: bool,
    resetColor: string,
    resetBgcolor: string)

  /** What `main` builds: light theme, the dark-mode icon, the stopwatch shown
      and the about panel hidden. */
  const InitialChrome: Chrome :=
    Chrome(Light, DarkModeSharp, true, false, LightResetColor, LightResetBgcolor)

  /** Exactly one of the two views is visible. */
  predicate OneVisible(c: Chrome) {
    c.homeVisible != c.aboutVisible
  }

  /** The colours and the icon are those of the current theme. */
  predicate ThemeConsistent(c: Chrome) {
    match c.theme
    case Light =>
      c.resetColor == LightResetColor && c.resetBgcolor == LightResetBgcolor
      && c.fabIcon == DarkModeSharp
    case Dark =>
      c.resetColor == DarkResetColor && c.resetBgcolor == DarkResetBgcolor
      && c.fabIcon == LightModeSharp
  }

  /** `change_page`: index 0 shows the stopwatch, 1 the about panel, and any
      other index leaves both as they are; the theme is never touched. */
  function SelectPage(c: Chrome, index: int): (r: Chrome)
    ensures index == 0 ==> r.homeVisible && !r.aboutVisible
    ensures index == 1 ==> !r.homeVisible && r.aboutVisible
    ensures index != 0 && index != 1 ==> r == c
    ensures r.theme == c.theme && r.fabIcon == c.fabIcon
    ensures r.resetColor == c.resetColor && r.resetBgcolor == c.resetBgcolor
    ensures OneVisible(c) ==> OneVisible(r)
  {
    if index == 0 then c.(homeVisible := true, aboutVisible := false)
    else if index == 1 then c.(homeVisible := false, aboutVisible := true)
    else c
  }

  /** `set_light_theme_mode`: the light theme with its colours and icon; the
      views are left as they are. */
  function LightMode(c: Chrome): (r: Chrome)
    ensures r.theme == Light && ThemeConsistent(r)
    ensures r.homeVisible == c.homeVisible && r.aboutVisible == c.aboutVisible
  {
    c.(theme := Light, resetColor := LightResetColor, resetBgcolor := LightResetBgcolor,
       fabIcon := DarkModeSharp)
  }

  /** `set_dark_theme_mode`: the dark theme with its colours and icon; the
      views are left as they are. */
  function DarkMode(c: Chrome): (r: Chrome)
    ensures r.theme == Dark && ThemeConsistent(r)
    ensures r.homeVisible == c.homeVisible && r.aboutVisible == c.aboutVisible
  {
    c.(theme := Dark, resetColor := DarkResetColor, resetBgcolor := DarkResetBgcolor,
       fabIcon := LightModeSharp)
  }

  /** `change_theme_mode`: always switches the theme, brings the colours and
      icon of the new theme with it, and leaves the views alone. */
  function ToggleTheme(c: Chrome): (r: Chrome)
    ensures r.theme != c.theme && ThemeConsistent(r)
    ensures r.homeVisible == c.homeVisible && r.aboutVisible == c.aboutVisible
  {
    match c.theme
    case Light => DarkMode(c)
    case Dark => LightMode(c)
  }

  /** A navigation selection or a press of the theme button. */
  datatype Action = Select(index: int) | Toggle

  function Apply(c: Chrome, a: Action): Chrome {
    match a
    case Select(index) => SelectPage(c, index)
    case Toggle => ToggleTheme(c)
  }

  function ApplyAll(c: Chrome, actions: seq<Action>): Chrome
    decreases |actions|
  {
    if actions == [] then c else ApplyAll(Apply(c, actions[0]), actions[1..])
  }

  // ---------------------------------------------------------------------------
  // Properties of the shell state
  // ---------------------------------------------------------------------------

  lemma InitialChromeValid()
    ensures OneVisible(InitialChrome) && ThemeConsistent(InitialChrome)
    ensures InitialChrome.homeVisible && !InitialChrome.aboutVisible
  {
  }

  /** Going to the about panel and back restores the stopwatch view exactly. */
  lemma AboutThenHome(c: Chrome)
    requires c.homeVisible && !c.aboutVisible
    ensures SelectPage(SelectPage(c, 1), 0) == c
  {
  }

  /** Toggling twice restores every field. */
  lemma ToggleTwice(c: Chrome)
    requires ThemeConsistent(c)
    ensures ToggleTheme(ToggleTheme(c)) == c
  {
  }

  /** From the initial state, whatever is selected and toggled, exactly one
      view is visible and the colours and icon match the theme. */
  lemma {:induction false} ApplyAllKeepsValid(c: Chrome, actions: seq<Action>)
    requires OneVisible(c) && ThemeConsistent(c)
    ensures OneVisible(ApplyAll(c, actions)) && ThemeConsistent(ApplyAll(c, actions))
    decreases |actions|
  {
    if actions != [] {
      ApplyAllKeepsValid(Apply(c, actions[0]), actions[1..]);
    }
  }

  lemma ReachableChromeValid(actions: seq<Action>)
    ensures OneVisible(ApplyAll(InitialChrome, actions))
    ensures ThemeConsistent(ApplyAll(InitialChrome, actions))
  {
    InitialChromeValid();
    ApplyAllKeepsValid(InitialChrome, actions);
  }

  // ---------------------------------------------------------------------------
  // The page object
  // ---------------------------------------------------------------------------

  /** The page state `main` sets up. The stopwatch view owns its visibility
      and its reset button's colours; the shell writes them through `home`. */
  class Shell {
    const home: Stopwatch
    var themeMode: ThemeMode
    var fabIcon: Icon
    var aboutVisible: bool

    function State(): Chrome
      reads this, home
    {
      Chrome(themeMode, fabIcon, home.visible, aboutVisible, home.resetColor, home.resetBgcolor)
    }

    /** The page invariant: one view visible, the theme's own colours and
        icon, and a valid stopwatch. */
    ghost predicate Valid()
      reads this, home
    {
      OneVisible(State()) && ThemeConsistent(State()) && home.Valid()
    }

    constructor ()
      ensures fresh(home) && home.Valid() && home.State() == Initial
      ensures Valid() && State() == InitialChrome
    {
      themeMode := Light;
      fabIcon := DarkModeSharp;
      home := new Stopwatch();
      aboutVisible := false;
      new;
      InitialChromeValid();
    }

    /** `change_page` with the drawer's selected index. */
    method ChangePage(selectedIndex: int)
      requires Valid()
      modifies this`aboutVisible, home`visible
      ensures Valid() && State() == SelectPage(old(State()), selectedIndex)
      ensures home.State() == old(home.State())
    {
      if selectedIndex == 0 {
        home.visible := true;
        aboutVisible := false;
      } else if selectedIndex == 1 {
        home.visible := false;
        aboutVisible := true;
      }
    }

    /** `set_light_theme_mode` */
    method SetLightThemeMode()
      requires Valid()
      modifies this`themeMode, this`fabIcon, home`resetColor, home`resetBgcolor
      ensures Valid() && State() == LightMode(old(State()))
      ensures home.State() == old(home.State())
    {
      themeMode := Light;
      home.resetColor := LightResetColor;
      home.resetBgcolor := LightResetBgcolor;
      fabIcon := DarkModeSharp;
    }

    /** `set_dark_theme_mode` */
    method SetDarkThemeMode()
      requires Valid()
      modifies this`themeMode, this`fabIcon, home`resetColor, home`resetBgcolor
      ensures Valid() && State() == DarkMode(old(State()))
      ensures home.State() == old(home.State())
    {
      themeMode := Dark;
      home.resetColor := DarkResetColor;
      home.resetBgcolor := DarkResetBgcolor;
      fabIcon := LightModeSharp;
    }

    /** `change_theme_mode` */
    method ChangeThemeMode()
      requires Valid()
      modifies this`themeMode, this`fabIcon, home`resetColor, home`resetBgcolor
      ensures Valid() && State() == ToggleTheme(old(State()))
      ensures home.State() == old(home.State())
    {
      match themeMode
      case Light => SetDarkThemeMode();
      case Dark => SetLightThemeMode();
    }
  }
}
