# Copy-link extension: theme-aware icons, in Dafny

This project models the background script of a browser extension that copies
the active tab's URL to the clipboard. The script does three things that
involve decisions:

- **Theme resolution.** When the browser theme or the system colour scheme
  changes, it works out whether the chrome is `light` or `dark`. The answer
  comes from the theme's sidebar colour (its weighted brightness, or the word
  "dark" in its text), or from the theme's `color_scheme` name, or from the
  system preference, or from the `light` default.
- **Icon fan-out.** It draws the link icon for that mode on the toolbar button
  and on every tab's URL-bar (page-action) icon. The icons come from a static
  table indexed by mode and purpose (`link`, `check`).
- **Click animation and page-action visibility.** After a successful copy, the
  clicked surface shows a check icon until a timer restores the link icon.
  Each tab's URL-bar icon is shown unless the stored preference
  `showPageAction` is exactly `false`.

Modules:

- `JsStrings` (`js_strings.dfy`): the string built-ins the resolver relies on.
  These are the matches of `/\d+/g` (`DigitRuns`), `Number` of a digit run
  (`DecimalValue`), `toLowerCase` (`ToLowerAscii`), `includes` (`Includes`)
  and JavaScript truthiness of an optional string (`Truthy`).
- `Icons` (`icons.dfy`): the `ICONS` table.
- `Theme` (`theme.dfy`): the resolver, `ResolveMode`, as a pure function of
  the theme record and the system flag, with one lemma per tier.
- `Background` (`background.dfy`): the class `Extension`. It holds
  `currentTheme`, the toolbar icon, a map from tab id to URL-bar icon, a map
  from tab id to visibility, and the queue of pending icon reversions. Its
  methods are the script's event handlers.

Host calls become parameters. The theme query result is an
`Option<ThemeInfo>`, with `None` for a rejected query. The media query is a
`bool`. The tab query is a `seq<TabId>`. The storage read is a `StoredValue`.
The clipboard write's success is a `bool`.

Behaviour of the code worth knowing:

- A reversion restores the link icon captured at click time
  (background.js:141, 146). It does not use the mode current when the timer
  fires. `Background.StaleReversionDemo` shows a click, then a switch to
  dark, then the timer: the toolbar ends with the light-mode link icon while
  the mode is dark.
- A `color_scheme` name that is not `light` or `dark` is assigned verbatim
  (background.js:60). For a name without an entry in `ICONS`, `updateIcons`
  then throws while reading `ICONS[currentTheme].link` (line 79), inside the
  `.then` callback. The chained `.catch` (lines 70-73) then sets `light`. So
  such a name ends as `light` (`Background.EffectiveMode`,
  `Background.UnknownSchemeEndsLight`). Names of members that every
  JavaScript object inherits are the exception; see "Left out".
- The sidebar test reads any three digit runs as red, green and blue, so a hex
  colour is read by its decimal digits. Black `#000000` is a single run and
  falls back to the name test, so it resolves to `light`. Near-white `#f0f0f0`
  gives the runs 0, 0 and 0, so it resolves to `dark` (`Theme.HexBlackIsLight`,
  `Theme.HexNearWhiteIsDark`).
- The brightness test is exact. The source divides the weighted sum by 1000 in
  floating point and compares with 128. While the weighted sum stays below 2^53,
  it is computed exactly in floating point; correctly rounded division by 1000
  is monotone and 128 is representable, so the test then holds exactly when
  the sum is below 128000. A run long enough to lose precision, or to become `Infinity`,
  makes the sum far exceed 128000 either way. The model's integer comparison
  therefore agrees with the source on every input (`Theme.IsDarkRgb`).
- Theme data with `colors` but no sidebar colour and no scheme name gives
  `light`, not the system preference (line 64).
- Empty strings are falsy. An empty sidebar colour counts as absent, and so
  do an empty scheme name and an empty url.
- Repeated clicks are not de-duplicated. Each click queues its own
  reversion, and the reversions fire in the order they were queued.

## Model

| member | source | states |
|---|---|---|
| `JsStrings.Truthy` | background.js:41 | an optional string is falsy exactly when it is missing or empty, as `theme.colors.sidebar`, `color_scheme` and `tab.url` are tested (lines 41, 59, 134) |
| `JsStrings.DigitPrefixLen` | background.js:46 | a greedy `\d+` at position 0 takes only digits, and stops at the end or at a non-digit |
| `JsStrings.DigitRuns` | background.js:46 | every match of `/\d+/g` is a non-empty run of ASCII digits |
| `JsStrings.RunsCoverDigits` | background.js:46 | the matches, concatenated, are exactly the digits of the colour string in order: none is lost or invented |
| `JsStrings.RunsSplitAtNonDigit` | background.js:46 | runs are maximal and never cross a non-digit: a non-digit splits the string into two halves matched independently |
| `JsStrings.RunsOfDigitString` | background.js:46 | a non-empty digit string is a single match |
| `JsStrings.RunsSkipNonDigits` | background.js:46 | text without digits contributes no match |
| `JsStrings.RunsOfNumberThen` | background.js:46 | a number followed by a separator without digits is one match, and matching resumes after the separator |
| `JsStrings.DecimalValue` | background.js:48 | `Number` of a run of n ASCII digits is its base-ten value, below 10^n; `DecimalRoundTrip` and `LeadingZeroIgnored` characterise it further |
| `JsStrings.DecimalRoundTrip` | background.js:48 | `Number` of a channel written in decimal gives the channel back |
| `JsStrings.LeadingZeroIgnored` | background.js:48 | `Number` reads a run in base ten: a leading zero leaves the value unchanged |
| `JsStrings.ToLowerAscii` | background.js:54 | lower-casing keeps the length and maps each character on its own |
| `JsStrings.ToLowerSlice` | background.js:54 | lower-casing commutes with taking a slice |
| `JsStrings.Includes` | background.js:54 | `includes` scans start positions left to right: a string starting with the substring contains it, and a found substring is no longer than the string; `IncludesIffOccurs` characterises it both ways |
| `JsStrings.IncludesIffOccurs` | background.js:54 | `includes` holds exactly when the substring occurs at some position, in both directions |
| `Icons.IconFor` | background.js:1-22 | the table has an entry exactly for `light` and `dark`, and the 16 and 32 pixel paths of an entry are the same |
| `Icons.ArtworkContrastsWithMode` | background.js:1-22 | light mode uses the `-dark.svg` files and dark mode the `-light.svg` files, for both purposes |
| `Icons.IconsDistinct` | background.js:1-22 | different (mode, purpose) pairs give different icons, so the check icon differs from the link icon it replaces |
| `Theme.SidebarColour` | background.js:41-42 | the sidebar colour is used exactly when `colors` is present and its `sidebar` is a non-empty string, and it is then that string |
| `Theme.SchemeName` | background.js:59-60 | the scheme name is used exactly when `properties` is present and its `color_scheme` is a non-empty string, and it is then that string |
| `Theme.IsDarkRgb` | background.js:49-50 | the brightness test holds exactly when (299·r + 587·g + 114·b) / 1000, divided exactly, is below 128 |
| `Theme.BrighterNeverDarker` | background.js:49-50 | raising any channel can turn a dark colour light, never a light one dark |
| `Theme.ModeFromSidebar` | background.js:41-56 | a sidebar colour always resolves to one of the two modes of the icon table |
| `Theme.ResolveMode` | background.js:31-67 | the resolved value is `light`, `dark`, or the theme's scheme name verbatim |
| `Theme.NoThemeDataFollowsSystem` | background.js:31-34 | with neither colours nor properties, the mode is dark exactly when the system prefers dark, and light otherwise |
| `Theme.SystemPreferenceOnlyWithoutThemeData` | background.js:31-67 | the system preference changes the outcome only when the theme has neither colours nor properties |
| `Theme.SidebarBrightnessDecides` | background.js:46-50 | with at least three digit runs, the mode is dark exactly when 299·r + 587·g + 114·b < 128000 on the first three runs |
| `Theme.SidebarNameDecides` | background.js:52-54 | with fewer than three digit runs, the mode is dark exactly when the lower-cased colour contains "dark" |
| `Theme.SidebarBeatsScheme` | background.js:41-65 | a sidebar colour decides alone; the scheme name and the system preference are then ignored |
| `Theme.SchemeUsedVerbatim` | background.js:57-61 | without a sidebar colour, a scheme name is copied into the mode unchecked |
| `Theme.NoUsableSignalIsLight` | background.js:57-65 | theme data without a sidebar colour and without a scheme name gives light, whatever the system prefers |
| `Theme.RgbRuns` | background.js:46-48 | the first three matches of `rgb(R, G, B…` are R, G and B, whatever follows |
| `Theme.RgbNotationResolves` | background.js:46-50 | for all channel values, `rgb(r, g, b…)` is dark exactly when the weighted brightness is below 128; later numbers are ignored |
| `Theme.BlackIsDark` | background.js:46-50 | `rgb(0, 0, 0)` resolves to dark |
| `Theme.WhiteIsLight` | background.js:46-50 | `rgb(255, 255, 255)` resolves to light |
| `Theme.MidGreyIsLight` | background.js:46-50 | `rgb(130, 130, 130)` (brightness 130) resolves to light |
| `Theme.AlphaIgnored` | background.js:46-50 | `rgba(0, 0, 0, 255)` resolves to dark: the fourth number is ignored |
| `Theme.GreyThreshold` | background.js:49-50 | a grey (v, v, v) is dark exactly when v < 128 |
| `Theme.DarkInAnyCase` | background.js:52-54 | "dark" in any letter case, in a colour with fewer than three numbers, makes it dark |
| `Theme.HexBlackIsLight` | background.js:46-54 | `#000000` has one digit run and no "dark", so it resolves to light |
| `Theme.HexNearWhiteIsDark` | background.js:46-50 | near-white `#f0f0f0` gives the digit runs 0, 0, 0 and so resolves to dark |
| `Theme.DarkModeNameIsDark` | background.js:52-54 | "Dark Mode" has no digits and resolves to dark by name |
| `Background.PageActionShown` | background.js:116 | the page action is shown exactly when the stored value is not `false` |
| `Background.HiddenOnlyWhenStoredFalse` | background.js:114-120 | the page action is hidden exactly when the stored preference is `false`; an unset key shows it |
| `Background.EffectiveMode` | background.js:26-79 | once `updateTheme` has finished, the mode is always one of the two modes of the icon table |
| `Background.FailedQueryIsLight` | background.js:70-73 | a rejected theme query always ends in light |
| `Background.ResolvedModeKept` | background.js:57-69 | a resolved value that is a mode of the icon table is kept as the mode |
| `Background.UnknownSchemeEndsLight` | background.js:57-79 | an unknown scheme name is first assigned verbatim, then replaced by light through the exception and the `.catch` handler |
| `Background.StampedAt` | background.js:82-89 | after the fan-out, every listed tab holds the new value, other tabs keep theirs, and no other tab appears |
| `Background.Extension.constructor` | background.js:24 | the script starts in light mode with nothing drawn and no timer pending |
| `Background.Extension.UpdateIcons` | background.js:77-90 | the toolbar and every listed tab show the link icon of the current mode; for a mode with no table entry nothing is drawn |
| `Background.Extension.UpdateTheme` | background.js:26-75 | the mode becomes `EffectiveMode` of the query, the toolbar and every listed tab show that mode's link icon, and the invariant is kept |
| `Background.Extension.ShowHidePageAction` | background.js:114-121 | the tab's page action is shown or hidden by the stored value; no other tab changes |
| `Background.Extension.RefreshPageActions` | background.js:109-112 | every listed tab is shown or hidden by the stored value; other tabs keep their state |
| `Background.Extension.OnStorageChanged` | background.js:124-131 | only a change of `showPageAction` in the local area refreshes the tabs; any other change leaves visibility alone |
| `Background.Extension.CopyUrlAndAnimateIcon` | background.js:133-171 | no tab, no url, a failed copy or an unknown source changes nothing; otherwise only the clicked surface shows the check icon, and a reversion to the link icon captured at the click is queued |
| `Background.Extension.FireTimer` | background.js:145-158 | the oldest reversion puts its captured link icon back on its surface, no other surface changes, and the invariant is kept |

## Left out

- Host I/O is not modelled: the `browser.*` calls, promises and `async`, listener registration and `console.log`. Their results are parameters and their effects are state updates.
- `window.matchMedia` is reduced to the boolean `prefersDark`.
- Timers have no time. The 1200 ms delay is not modelled, and a timer firing is the explicit event `FireTimer`. Pending timers fire in the order they were set, which is what equal delays give.
- Asynchronous interleavings are not modelled. `updateIcons` reads `currentTheme` again when the tab query answers. The model applies the tab list at once, with the mode just set.
- The clipboard write and the fallback copy through a temporary text area (background.js:161-170) are DOM and host work. They are reduced to the `copied` flag, and the fallback changes no icon.
- `JsStrings.ToLowerAscii`: lower-cases only ASCII letters. JavaScript's `toLowerCase` maps all of Unicode, for example the Kelvin sign to `k`, so a non-ASCII spelling of "dark" is not recognised here.
- `Background.EffectiveMode`: a scheme name that is the name of a member every JavaScript object inherits (`constructor`, `toString`, `valueOf`, `hasOwnProperty`, `__proto__` and the like) finds an inherited value in `ICONS`, so line 79 does not throw and the name stays as the mode. The model treats such a name like any other name without an entry, ending in `light`. Browsers report no such colour-scheme name. What `setIcon` does with the resulting `undefined` path is host behaviour.
- `Background.UnknownSchemeEndsLight`: the same inherited member names are not covered, for the same reason.
- `Icons.IconFor`: has no entry for inherited member names, for the same reason.
- Page-action show and hide are recorded in the `pageVisible` map. Whether a tab still exists when the call arrives is not modelled.
- options.js is not part of this model. It is the settings page's checkbox binding and status message, and its only rule, the default of `true`, is the same `!== false` test modelled in `PageActionShown`.
