# Simple-Stopwatch in Dafny

A model of the Flet stopwatch application in `main.py`. It has two parts.

The **stopwatch widget** (`Stopwatch`) counts whole seconds in `seconds_passed`. A re-entrancy counter, `running_clock_instances`, keeps `start_watch` from entering its counting loop a second time. The flag `is_clock_running` ends that loop. The widget shows the count as `str(datetime.timedelta(seconds=n))`.

The **application shell** (the closures inside `main`) does two jobs:
- It switches visibility between the stopwatch view and the about panel.
- It toggles between a light and a dark theme. Each toggle rewrites the reset button's two colours and the floating action button's icon.

Files:
- `duration.dfy` (module `Duration`): the clock text as a pure function, `Format`. It models `timedelta.__str__` for whole non-negative seconds:
  - the clock part is `H:MM:SS`;
  - the `"<d> day, "` / `"<d> days, "` prefix is modelled explicitly, so `Format` is total in `n`.

  A strict parser, `Parse`, comes with it. `Parse` is proved to be the exact inverse of `Format`.
- `stopwatch.dfy` (module `StopwatchWidget`):
  - The widget's counting state is the value `Watch`: the count and the two running flags. Each callback is a step function on it: `StartStep`, `TickStep`, `StopStep` and `ResetStep`.
  - The lemmas about these step functions are stated over any sequence of button presses and seconds (`Run`).
  - The class `Stopwatch` has the source's fields, including the clock text. Its methods update those fields in place, and each method's `ensures` ties the new state to the step function. Its invariant `Valid()` adds to `Inv` that the clock text is always `Format` of the count.
  - `start_watch` is split in two. `StartWatch` models its guard and arming. `Tick` models one pass of its `while self.is_clock_running` loop. `Elapse(k)` runs `k` passes.
- `shell.dfy` (module `AppShell`):
  - The page-level display state is the value `Chrome`. Its step functions are `SelectPage`, `LightMode`, `DarkMode` and `ToggleTheme`.
  - The class `Shell` holds the stopwatch view as `home`. It writes `home.visible` and the reset button's colours through that reference, as `main` writes `home_view.visible` and `home_view.button_reset.color`.

`page.theme_mode` is a string in the source, and `change_theme_mode` compares it with `"light"` and then `"dark"`. It is only ever assigned those two values, so it is modelled as the enum `ThemeMode`. The third, do-nothing branch of that comparison cannot be reached and is not modelled.

Points of the code's behaviour the model keeps as written:
- The initial state is `is_clock_running = True` with `running_clock_instances = 0`. It is not a two-state "Stopped" enum.
- `Loops` is the number of counting loops alive: `running_clock_instances` while the clock runs, else none. `TickStep` adds one second per live loop. That the count never runs at double speed is therefore proved, not built in: the guard in `start_watch` keeps `Inv` (at most one instance, and one instance only while running), and under `Inv` there is at most one loop.
- The display is `H:MM:SS` only below one day (86400 seconds). From one day on, `timedelta` prints a day prefix. `FormatBelowDay` and `FormatFromOneDay` state the two cases.

## Model

| member | source | states |
|---|---|---|
| `Duration.Format` | main.py:58-60 | every clock text has colons at positions -6 and -3 (the digits between and after them are stated by `FormatBelowDay` and `FormatFromOneDay`); it holds a space, the one of the day prefix, exactly when the count is at least 86400 s |
| `Duration.FormatBelowDay` | main.py:58-60 | below 86400 s the text is `H:MM:SS`: colons at positions -6 and -3; H is `n/3600` without leading zeros; MM is `(n/60)%60` and SS is `n%60`, each exactly two digits |
| `Duration.FormatFromOneDay` | main.py:58-60 | from 86400 s on, the text is the day count `n/86400` (which it denotes), then " day, " when that count is 1 and " days, " otherwise, then the text of the remainder `n%86400` |
| `Duration.ParseFormat` | main.py:58-60 | parsing the clock text always gives back the second count it was made from |
| `Duration.FormatOfParse` | main.py:58-60 | every text the parser accepts is exactly the clock text of the count it yields |
| `Duration.ParseInverse` | main.py:58-60 | `Parse(s) == Some(n)` holds if and only if `s == Format(n)` |
| `Duration.FormatInjective` | main.py:58-60 | different second counts are always shown as different texts |
| `Duration.FormatZero` | main.py:15-17 | the initial and the reset text is "0:00:00" |
| `Duration.FormatFiveSeconds` | main.py:58-60 | 5 seconds reads "0:00:05" |
| `Duration.FormatOneHourOneMinuteOneSecond` | main.py:58-60 | 3661 seconds reads "1:01:01" |
| `Duration.FormatLastSecondOfDay` | main.py:58-60 | 86399 seconds reads "23:59:59" |
| `Duration.FormatOneDay` | main.py:58-60 | 86400 seconds reads "1 day, 0:00:00" (singular) |
| `Duration.FormatTwoDays` | main.py:58-60 | 2 days and 3661 seconds reads "2 days, 1:01:01" (plural) |
| `StopwatchWidget.Loops` | main.py:55 | a loop is alive exactly while the clock runs with a positive instance count; under `Inv` there is at most one, and one exactly when the widget is armed |
| `StopwatchWidget.StartStep` | main.py:47-54 | the count is kept; with one instance the state is unchanged; from a valid state the result is valid and has exactly one loop armed |
| `StopwatchWidget.TickStep` | main.py:55-60 | the flags are kept and the count never falls; from a valid state the result is valid and the count rises by one exactly when a loop is armed |
| `StopwatchWidget.StopStep` | main.py:63-66 | the count is kept; `is_clock_running` becomes false and the instance count 0; the result is valid, not armed and has no live loop |
| `StopwatchWidget.ResetStep` | main.py:68-71 | the count is 0, both flags are kept, and validity is preserved |
| `StopwatchWidget.InitialState` | main.py:43-45 | a new widget has count 0, no loop and `is_clock_running` true, shows "0:00:00", satisfies the invariant and is not counting |
| `StopwatchWidget.StepKeepsInv` | main.py:47-71 | start, one loop pass, stop and reset each preserve the invariant: instances is 0 or 1, and one instance implies running |
| `StopwatchWidget.RunKeepsInv` | main.py:47-71 | any sequence of presses and seconds from a valid state stays valid |
| `StopwatchWidget.ReachableInv` | main.py:43-71 | every state reachable from a new widget satisfies the invariant |
| `StopwatchWidget.StartWhileCountingIgnored` | main.py:48-51 | start with one loop counting changes nothing; starting twice equals starting once |
| `StopwatchWidget.StartArms` | main.py:52-54 | start from a stopped widget arms exactly one loop, sets running, and keeps the count |
| `StopwatchWidget.TickWhileArmed` | main.py:55-60 | one pass of the loop adds exactly one second and keeps the loop armed |
| `StopwatchWidget.TicksWhileArmed` | main.py:55-60 | over `k` passes an armed widget's count rises by exactly `k`; nothing else changes |
| `StopwatchWidget.TicksWhileIdle` | main.py:55 | a widget with no live loop does not change, however many seconds pass |
| `StopwatchWidget.NoDoubleSpeed` | main.py:48-61 | after pressing start twice, `k` seconds add exactly `k`, the same as after one press |
| `StopwatchWidget.StopFreezes` | main.py:63-66 | stop keeps the count, no later second changes it, and a later start arms the loop again |
| `StopwatchWidget.ResetClears` | main.py:68-71 | reset gives count 0 and text "0:00:00", leaves both running flags alone, and is idempotent |
| `StopwatchWidget.ResetWhileCounting` | main.py:68-71 | a counting widget that is reset stays armed and counts on from zero |
| `StopwatchWidget.StartStopCounts` | main.py:47-66 | start and `a` seconds count `a`; after a stop, any number of further seconds leave it at `a` |
| `StopwatchWidget.StartStopResetScenario` | main.py:47-71 | start plus 5 seconds shows "0:00:05"; stop plus 3 seconds still shows "0:00:05"; reset shows "0:00:00" |
| `StopwatchWidget.Stopwatch.constructor` | main.py:14-45 | the new widget is in the initial state, is visible, and its reset button has the light colours `#eeeef1` / `#43474e` |
| `StopwatchWidget.Stopwatch.StartWatch` | main.py:47-54 | the object follows `StartStep`; afterwards exactly one loop is counting and the clock runs; with one loop already counting it is unchanged |
| `StopwatchWidget.Stopwatch.Tick` | main.py:55-60 | the object follows `TickStep`; the count rises by one exactly when a loop is armed, and the text is the formatted new count |
| `StopwatchWidget.Stopwatch.Elapse` | main.py:55-61 | `k` passes of the loop: the object follows `Ticks`, and the count rises by `k` when armed and stays put otherwise |
| `StopwatchWidget.Stopwatch.StopWatch` | main.py:63-66 | the object follows `StopStep`: not running, no loop, count and text untouched |
| `StopwatchWidget.Stopwatch.ResetWatch` | main.py:68-71 | the object follows `ResetStep`: count 0, text "0:00:00", flags untouched |
| `AppShell.InitialChromeValid` | main.py:153-173 | the light theme, the dark-mode icon, the reset colours of the light theme, home shown and about hidden: exactly one view is visible and the theme is consistent |
| `AppShell.SelectPage` | main.py:92-101 | index 0 shows home and hides about; index 1 does the reverse; any other index changes nothing; theme fields are never touched; exactly one visible view stays so |
| `AppShell.LightMode` | main.py:103-113 | the light theme with its own colours and icon; the views are untouched |
| `AppShell.DarkMode` | main.py:115-124 | the dark theme with its own colours and icon; the views are untouched |
| `AppShell.ToggleTheme` | main.py:126-131 | the theme always switches, the colours and icon of the new theme come with it, and the views are untouched |
| `AppShell.AboutThenHome` | main.py:92-101 | selecting about and then home restores the home view state exactly |
| `AppShell.ToggleTwice` | main.py:103-131 | toggling twice from a consistent state restores every field |
| `AppShell.ApplyAllKeepsValid` | main.py:92-131 | any sequence of selections and toggles keeps one view visible and the theme consistent |
| `AppShell.ReachableChromeValid` | main.py:92-173 | every state reachable from the initial page has exactly one view visible and the colours and icon of its theme |
| `AppShell.Shell.constructor` | main.py:77-174 | the page starts in `InitialChrome` and satisfies its invariant (one view visible, the theme's colours and icon, a valid stopwatch), with a new stopwatch in its initial state |
| `AppShell.Shell.ChangePage` | main.py:92-101 | the page follows `SelectPage`, keeps its invariant, and the stopwatch's counting state is untouched |
| `AppShell.Shell.SetLightThemeMode` | main.py:103-113 | the page follows `LightMode` (light theme, colours `#eeeef1` / `#43474e`, icon DARK_MODE_SHARP) and keeps its invariant; counting state untouched |
| `AppShell.Shell.SetDarkThemeMode` | main.py:115-124 | the page follows `DarkMode` (dark theme, colours `#272a2c` / `#c3c7cf`, icon LIGHT_MODE_SHARP) and keeps its invariant; counting state untouched |
| `AppShell.Shell.ChangeThemeMode` | main.py:126-131 | the page follows `ToggleTheme` and keeps its invariant; counting state untouched |

## Left out

- Widget tree, layout, sizes, alignment, app bar, drawer construction and window geometry (main.py:19-41, 78-90, 133-175): these are calls into the Flet toolkit with no logic of their own. Of that code only the attributes the callbacks write are modelled.
- `page.update()` redraws: rendering is outside the model.
- `time.sleep(1)`: a pass of the loop is an abstract step (`Tick`). Real elapsed time and drift are not modelled.
- Interleaving of `stop_watch` (or a stop-then-start) with the sleeping loop: the model is sequential. A stop that arrives during the sleep can be followed by one more increment, and a quick stop-then-start can leave two loops alive. Both effects come from callbacks running concurrently with the blocking loop.
- `page.launch_url` of the about panel's link button: external I/O.
- `Stopwatch.build` and the constructor's size parameters: they only concern layout.
- Duration.Format: `timedelta` refuses more than 999999999 days with an `OverflowError`. `Format` is total instead; reaching that limit would take millions of years of ticking.
- StopwatchWidget.Stopwatch.StartWatch: the methods require the object invariant `Valid()`. The constructor establishes it and every method keeps it, so every reachable widget meets it.
- AppShell.Shell.ChangePage: the page's methods likewise require the page invariant `Shell.Valid()`, which its constructor establishes and every method keeps.
