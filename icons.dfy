/**
  The static icon table `ICONS` (background.js:1-22): for each theme mode and
  each purpose, the icon drawn at 16 and at 32 pixels. The artwork contrasts
  with the browser chrome, so the light mode uses the dark drawings and the dark
  mode the light ones.
 */
module Icons {

  import opened Wrappers

  /** What an icon says: "click to copy the link", or "copied". */
  datatype Purpose = Link | Check

  /** The `{16: ..., 32: ...}` path object passed to `setIcon`. */
  datatype IconPath = IconPath(size16: string, size32: string)

  const LightMode := "light"
  const DarkMode := "dark"

  /** The modes `ICONS` has an entry for. */
  predicate IsMode(mode: string) {
    mode == LightMode || mode == DarkMode
  }

  function SameAtBothSizes(file: string): IconPath {
    IconPath(file, file)
  }

  /**
    `ICONS[mode][purpose]`. Any other mode the browser reports has no entry:
    `ICONS[mode]` is `undefined`, so reading `.link` from it throws. (Names of
    members every JavaScript object inherits, such as `constructor` or
    `toString`, would find an inherited value instead; the browser reports no
    such colour-scheme name, and they are not modelled.)
   */
  function IconFor(mode: string, purpose: Purpose): (p: Option<IconPath>)
    ensures p.Some? <==> IsMode(mode)
    ensures p.Some? ==> p.value.size16 == p.value.size32
  {
    if mode == LightMode then
      Some(match purpose
        case Link => SameAtBothSizes("icons/link-dark.svg")
        case Check => SameAtBothSizes("icons/check-dark.svg"))
    else if mode == DarkMode then
      Some(match purpose
        case Link => SameAtBothSizes("icons/link-light.svg")
        case Check => SameAtBothSizes("icons/check-light.svg"))
    else None
  }

  function LinkIcon(mode: string): IconPath
    requires IsMode(mode)
  {
    IconFor(mode, Link).value
  }

  function CheckIcon(mode: string): IconPath
    requires IsMode(mode)
  {
    IconFor(mode, Check).value
  }

  /** A path that shows the "copy link" drawing, in either mode. */
  predicate IsLinkIcon(p: IconPath) {
    p == LinkIcon(LightMode) || p == LinkIcon(DarkMode)
  }

  predicate EndsWith(s: string, suffix: string) {
    |suffix| <= |s| && s[|s| - |suffix|..] == suffix
  }

  /** Light mode draws with the `-dark.svg` files and dark mode with the `-light.svg` files. */
  lemma ArtworkContrastsWithMode(purpose: Purpose)
    ensures EndsWith(IconFor(LightMode, purpose).value.size16, "-dark.svg")
    ensures EndsWith(IconFor(DarkMode, purpose).value.size16, "-light.svg")
  {
  }

  /**
    Different (mode, purpose) pairs give different icons, so the check icon is
    visibly different from the link icon it replaces, and a mode can be read
    back from the icon it selected.
   */
  lemma IconsDistinct(m1: string, p1: Purpose, m2: string, p2: Purpose)
    requires IsMode(m1) && IsMode(m2)
    requires IconFor(m1, p1) == IconFor(m2, p2)
    ensures m1 == m2 && p1 == p2
  {
  }
}
