/**
  Theme resolution: the decision `updateTheme` takes inside its `.then`
  callback (background.js:31-67), as a pure function of the theme record the
  browser reports and of the system "prefers dark" flag.
 */
module Theme {

  import opened Wrappers
  import opened JsStrings
  import opened Icons

  /** `theme.colors`, reduced to the one colour read here. */
  datatype Colors = Colors(sidebar: Option<string>)

  /** `theme.properties`, reduced to the one property read here. */
  datatype Properties = Properties(colorScheme: Option<string>)

  /**
    The object `browser.theme.getCurrent()` resolves to. Either part may be
    missing; the automatic theme reports neither.
   */
  datatype ThemeInfo = ThemeInfo(colors: Option<Colors>, properties: Option<Properties>)

  const NoThemeData := ThemeInfo(None, None)

  /** The sidebar colour, when `theme.colors && theme.colors.sidebar` holds. */
  function SidebarColour(t: ThemeInfo): (c: Option<string>)
    ensures c.Some? <==> t.colors.Some? && t.colors.value.sidebar.Some? && t.colors.value.sidebar.value != ""
    ensures c.Some? ==> c == t.colors.value.sidebar
  {
    if t.colors.Some? && Truthy(t.colors.value.sidebar) then t.colors.value.sidebar else None
  }

  /** The colour-scheme name, when `theme.properties && theme.properties.color_scheme` holds. */
  function SchemeName(t: ThemeInfo): (n: Option<string>)
    ensures n.Some? <==> t.properties.Some? && t.properties.value.colorScheme.Some? && t.properties.value.colorScheme.value != ""
    ensures n.Some? ==> n == t.properties.value.colorScheme
  {
    if t.properties.Some? && Truthy(t.properties.value.colorScheme) then t.properties.value.colorScheme else None
  }

  /**
    Perceived brightness of a colour, times 1000: `brightness < 128` in the
    source is `Weighted(r, g, b) < 128000` here.
   */
  function Weighted(r: nat, g: nat, b: nat): nat {
    299 * r + 587 * g + 114 * b
  }

  /**
    The source's test `(r * 299 + g * 587 + b * 114) / 1000 < 128`, with the
    division done exactly: it holds exactly when the weighted sum is below 128000.
   */
  predicate IsDarkRgb(r: nat, g: nat, b: nat)
    ensures IsDarkRgb(r, g, b) <==> (299 * r + 587 * g + 114 * b) as real / 1000.0 < 128.0
  {
    Weighted(r, g, b) < 128000
  }

  /** Making any channel brighter can turn a dark colour light, never a light one dark. */
  lemma BrighterNeverDarker(r: nat, g: nat, b: nat, r': nat, g': nat, b': nat)
    requires r <= r' && g <= g' && b <= b'
    requires IsDarkRgb(r', g', b')
    ensures IsDarkRgb(r, g, b)
  {
  }

  /** The mode read from a sidebar colour (background.js:46-55). */
  function ModeFromSidebar(colour: string): (m: string)
    ensures IsMode(m)
  {
    var runs := DigitRuns(colour);
    if |runs| >= 3 then
      if IsDarkRgb(DecimalValue(runs[0]), DecimalValue(runs[1]), DecimalValue(runs[2])) then DarkMode else LightMode
    else if Includes(ToLowerAscii(colour), "dark") then DarkMode
    else LightMode
  }

  /**
    The value `updateTheme` assigns to `currentTheme` when the theme query
    succeeds. It is a mode of the icon table, or the colour-scheme name copied
    without any check.
   */
  function ResolveMode(t: ThemeInfo, prefersDark: bool): (m: string)
    ensures IsMode(m) || SchemeName(t) == Some(m)
  {
    if t.colors.None? && t.properties.None? then
      if prefersDark then DarkMode else LightMode
    else if SidebarColour(t).Some? then
      ModeFromSidebar(SidebarColour(t).value)
    else if SchemeName(t).Some? then
      SchemeName(t).value
    else
      LightMode
  }

  // ---------------------------------------------------------------------------
  // The tiers of the decision
  // ---------------------------------------------------------------------------

  /** Without colours and properties the system preference decides, in both directions. */
  lemma NoThemeDataFollowsSystem(prefersDark: bool)
    ensures ResolveMode(NoThemeData, prefersDark) == DarkMode <==> prefersDark
    ensures ResolveMode(NoThemeData, prefersDark) == LightMode <==> !prefersDark
  {
  }

  /** The system preference matters only when the theme carries neither colours nor properties. */
  lemma SystemPreferenceOnlyWithoutThemeData(t: ThemeInfo)
    requires ResolveMode(t, true) != ResolveMode(t, false)
    ensures t == NoThemeData
  {
  }

  /** With three or more digit runs, the first three are R, G and B and the brightness threshold decides. */
  lemma SidebarBrightnessDecides(t: ThemeInfo, prefersDark: bool)
    requires SidebarColour(t).Some?
    requires |DigitRuns(SidebarColour(t).value)| >= 3
    ensures var runs := DigitRuns(SidebarColour(t).value);
      var brightness := 299 * DecimalValue(runs[0]) + 587 * DecimalValue(runs[1]) + 114 * DecimalValue(runs[2]);
      ResolveMode(t, prefersDark) == DarkMode <==> brightness < 128000
  {
  }

  /** With fewer than three digit runs, the colour is dark exactly when it names "dark" in any letter case. */
  lemma SidebarNameDecides(t: ThemeInfo, prefersDark: bool)
    requires SidebarColour(t).Some?
    requires |DigitRuns(SidebarColour(t).value)| < 3
    ensures ResolveMode(t, prefersDark) == DarkMode
      <==> exists i :: OccursAt(ToLowerAscii(SidebarColour(t).value), "dark", i)
  {
    var colour := SidebarColour(t).value;
    assert ResolveMode(t, prefersDark) == ModeFromSidebar(colour);
    assert ModeFromSidebar(colour) == DarkMode <==> Includes(ToLowerAscii(colour), "dark");
    IncludesIffOccurs(ToLowerAscii(colour), "dark");
  }

  /** A sidebar colour wins over any colour-scheme name and over the system preference. */
  lemma SidebarBeatsScheme(t: ThemeInfo, prefersDark: bool)
    requires SidebarColour(t).Some?
    ensures ResolveMode(t, prefersDark) == ModeFromSidebar(SidebarColour(t).value)
    ensures ResolveMode(t, prefersDark) == ResolveMode(ThemeInfo(t.colors, None), !prefersDark)
  {
  }

  /** Without a sidebar colour, a colour-scheme name is used verbatim, whatever it says. */
  lemma SchemeUsedVerbatim(t: ThemeInfo, prefersDark: bool)
    requires SidebarColour(t).None? && SchemeName(t).Some?
    ensures ResolveMode(t, prefersDark) == SchemeName(t).value
  {
  }

  /**
    Theme data that carries neither a sidebar colour nor a scheme name gives
    light, not the system preference.
   */
  lemma NoUsableSignalIsLight(t: ThemeInfo, prefersDark: bool)
    requires t != NoThemeData
    requires SidebarColour(t).None? && SchemeName(t).None?
    ensures ResolveMode(t, prefersDark) == LightMode
  {
  }

  // ---------------------------------------------------------------------------
  // Colours written in functional notation
  // ---------------------------------------------------------------------------

  /** `rgb(r, g, b` followed by `tail`, the channels written in decimal. */
  function RgbNotation(r: nat, g: nat, b: nat, tail: string): string {
    "rgb(" + (DecimalString(r) + (", " + (DecimalString(g) + (", " + (DecimalString(b) + tail)))))
  }

  /** The digit runs of `rgb(R, G, B` followed by `tail` start with the three channels. */
  lemma RgbRuns(R: string, G: string, B: string, tail: string)
    requires R != [] && AllDigits(R) && G != [] && AllDigits(G) && B != [] && AllDigits(B)
    requires tail == [] || !IsDigit(tail[0])
    ensures var runs := DigitRuns("rgb(" + (R + (", " + (G + (", " + (B + tail))))));
      |runs| >= 3 && runs[0] == R && runs[1] == G && runs[2] == B
  {
    var X := B + tail;
    if tail == [] {
      RunsOfDigitString(B);
      assert X == B;
    } else {
      assert X == B + [tail[0]] + tail[1..];
      RunsSplitAtNonDigit(B, tail[0], tail[1..]);
      RunsOfDigitString(B);
    }
    var Y := G + (", " + X);
    RunsAfterComma(G, X);
    var Z := R + (", " + Y);
    RunsAfterComma(R, Y);
    RunsAfterOpening("rgb(", Z);
  }

  /** A number followed by `", "` is one match, and matching resumes after the separator. */
  lemma RunsAfterComma(d: string, x: string)
    requires d != [] && AllDigits(d)
    ensures DigitRuns(d + (", " + x)) == [d] + DigitRuns(x)
  {
    assert d + (", " + x) == d + ", " + x;
    RunsOfNumberThen(d, ", ", x);
  }

  /** The opening `rgb(` or `rgba(` of the functional notation contributes no match. */
  lemma RunsAfterOpening(opening: string, x: string)
    requires opening == "rgb(" || opening == "rgba("
    ensures DigitRuns(opening + x) == DigitRuns(x)
  {
    RunsSkipNonDigits(opening, x);
  }

  /**
    A colour written `rgb(r, g, b...)` is dark exactly when its weighted
    brightness is below 128; whatever follows the blue channel (an alpha
    channel, more numbers) is ignored.
   */
  lemma RgbNotationResolves(r: nat, g: nat, b: nat, tail: string)
    requires tail == [] || !IsDigit(tail[0])
    ensures ModeFromSidebar(RgbNotation(r, g, b, tail)) == DarkMode <==> IsDarkRgb(r, g, b)
  {
    RgbRuns(DecimalString(r), DecimalString(g), DecimalString(b), tail);
    DecimalRoundTrip(r);
    DecimalRoundTrip(g);
    DecimalRoundTrip(b);
  }

  lemma BlackIsDark()
    ensures ModeFromSidebar("rgb(0, 0, 0)") == DarkMode
  {
    assert DecimalString(0) == "0";
    assert RgbNotation(0, 0, 0, ")") == "rgb(0, 0, 0)";
    RgbNotationResolves(0, 0, 0, ")");
  }

  lemma WhiteIsLight()
    ensures ModeFromSidebar("rgb(255, 255, 255)") == LightMode
  {
    assert DecimalString(255) == "255" by {
      assert DecimalString(2) == "2";
      assert DecimalString(25) == "25";
    }
    assert RgbNotation(255, 255, 255, ")") == "rgb(255, 255, 255)";
    RgbNotationResolves(255, 255, 255, ")");
  }

  /** A grey of brightness exactly 130 is light. */
  lemma MidGreyIsLight()
    ensures ModeFromSidebar("rgb(130, 130, 130)") == LightMode
  {
    assert DecimalString(130) == "130" by {
      assert DecimalString(1) == "1";
      assert DecimalString(13) == "13";
    }
    assert RgbNotation(130, 130, 130, ")") == "rgb(130, 130, 130)";
    RgbNotationResolves(130, 130, 130, ")");
  }

  /** A fourth number (an alpha channel) is ignored. */
  lemma AlphaIgnored()
    ensures ModeFromSidebar("rgba(0, 0, 0, 255)") == DarkMode
  {
    assert DecimalString(0) == "0";
    var body := "0" + (", " + ("0" + (", " + ("0" + ", 255)"))));
    assert "rgba(0, 0, 0, 255)" == "rgba(" + body;
    RunsAfterOpening("rgba(", body);
    RunsAfterOpening("rgb(", body);
    RgbRuns("0", "0", "0", ", 255)");
  }

  /** A grey `(v, v, v)` is dark exactly when `v < 128`: the three weights add up to 1000. */
  lemma GreyThreshold(v: nat)
    ensures IsDarkRgb(v, v, v) <==> v < 128
  {
  }

  // ---------------------------------------------------------------------------
  // Colours without three numbers
  // ---------------------------------------------------------------------------

  /** Writing "dark" in any letter case inside a colour with fewer than three numbers makes it dark. */
  lemma DarkInAnyCase(colour: string, i: nat)
    requires |DigitRuns(colour)| < 3
    requires i + 4 <= |colour| && ToLowerAscii(colour[i..i + 4]) == "dark"
    ensures ModeFromSidebar(colour) == DarkMode
  {
    ToLowerSlice(colour, i, i + 4);
    assert OccursAt(ToLowerAscii(colour), "dark", i);
    IncludesIffOccurs(ToLowerAscii(colour), "dark");
  }

  /**
    `#000000` is a single digit run, so even black falls back to the name test
    and is light.
   */
  lemma HexBlackIsLight()
    ensures ModeFromSidebar("#000000") == LightMode
  {
    var s := "#000000";
    assert s == "#" + "000000";
    RunsSkipNonDigits("#", "000000");
    RunsOfDigitString("000000");
    assert ToLowerAscii(s) == s;
    IncludesIffOccurs(s, "dark");
    forall i | OccursAt(s, "dark", i)
      ensures false
    {
    }
  }

  /**
    A hex colour whose letters split its digits into three runs is read as
    three decimal channels: near-white `#f0f0f0` gives the runs 0, 0, 0,
    brightness 0, and so resolves to dark.
   */
  lemma HexNearWhiteIsDark()
    ensures ModeFromSidebar("#f0f0f0") == DarkMode
  {
    var last := "0" + ['f'] + "0";
    var rest := "0" + ['f'] + last;
    assert "#f0f0f0" == "#f" + rest;
    RunsSkipNonDigits("#f", rest);
    RunsSplitAtNonDigit("0", 'f', last);
    RunsSplitAtNonDigit("0", 'f', "0");
    RunsOfDigitString("0");
    var runs := DigitRuns("#f0f0f0");
    assert runs == ["0", "0", "0"];
    assert DecimalValue("0") == 0;
  }

  /** The name test alone: "Dark Mode" has no digits and reads as dark. */
  lemma DarkModeNameIsDark()
    ensures ModeFromSidebar("Dark Mode") == DarkMode
  {
    var s := "Dark Mode";
    assert s == s + [];
    RunsSkipNonDigits(s, []);
    DarkInAnyCase(s, 0);
  }
}
