/**
  The background script's state and event handlers (background.js): the
  resolved theme mode, the icon each surface shows, whether each tab's page
  action is visible, and the icon reversions still waiting on their timers.
  Host calls (`browser.*`, the clipboard, `matchMedia`, storage) are replaced
  by the values they deliver, passed in as parameters.
 */
module Background {

  import opened Wrappers
  import opened JsStrings
  import opened Icons
  import opened Theme

  type TabId = int

  /** The `tab` object a click handler receives: its id and its url, if any. */
  datatype Tab = Tab(id: TabId, url: Option<string>)

  /** An icon-bearing surface: the toolbar button, or one tab's URL-bar icon. */
  datatype Surface = ActionButton | PageActionOf(tabId: TabId)

  /** A `setTimeout` callback not yet run: put `path` back on `surface`. */
  datatype Reversion = Reversion(surface: Surface, path: IconPath)

  /** What `storage.local.get('showPageAction')` finds under the key. */
  datatype StoredValue = Unset | BoolValue(b: bool) | OtherValue(json: string)

  /** The rule `showPageAction !== false`: shown unless the stored value is exactly `false`. */
  predicate PageActionShown(v: StoredValue)
    ensures PageActionShown(v) <==> v != BoolValue(false)
  {
    match v
    case BoolValue(b) => b
    case _ => true
  }

  /** Only a stored `false` hides the page action; an unset key, `true` or any other value shows it. */
  lemma HiddenOnlyWhenStoredFalse(v: StoredValue)
    ensures !PageActionShown(v) <==> v == BoolValue(false)
    ensures PageActionShown(Unset)
  {
  }

  /**
    The mode `currentTheme` holds once `updateTheme` has finished. A rejected
    theme query (`None`) goes to the `.catch` handler. So does a colour-scheme
    name without an entry in the icon table: `updateIcons` then throws while
    reading `ICONS[currentTheme].link`, inside the `.then` callback, and the
    `.catch` handler sets `light`. Names of inherited object members are not
    modelled (see `IconFor`).
   */
  function EffectiveMode(query: Option<ThemeInfo>, prefersDark: bool): (m: string)
    ensures IsMode(m)
  {
    match query
    case None => LightMode
    case Some(t) =>
      var resolved := ResolveMode(t, prefersDark);
      if IconFor(resolved, Link).Some? then resolved else LightMode
  }

  /** A failed theme query always ends in light. */
  lemma FailedQueryIsLight(prefersDark: bool)
    ensures EffectiveMode(None, prefersDark) == LightMode
  {
  }

  /** When the resolver returns a mode of the icon table, that mode is kept. */
  lemma ResolvedModeKept(t: ThemeInfo, prefersDark: bool)
    requires IsMode(ResolveMode(t, prefersDark))
    ensures EffectiveMode(Some(t), prefersDark) == ResolveMode(t, prefersDark)
  {
  }

  /**
    A colour-scheme name without an entry in the icon table (say "system") ends
    in light, through the exception and the `.catch` handler. Inherited object
    member names are not modelled (see `IconFor`).
   */
  lemma UnknownSchemeEndsLight(t: ThemeInfo, prefersDark: bool)
    requires SidebarColour(t).None? && SchemeName(t).Some?
    requires !IsMode(SchemeName(t).value)
    ensures ResolveMode(t, prefersDark) == SchemeName(t).value
    ensures EffectiveMode(Some(t), prefersDark) == LightMode
  {
  }

  /** `m` after setting the entry of every tab of `tabs` to `v`, in order. */
  function Stamped<V>(m: map<TabId, V>, tabs: seq<TabId>, v: V): map<TabId, V>
    decreases |tabs|
  {
    if tabs == [] then m else Stamped(m, tabs[..|tabs| - 1], v)[tabs[|tabs| - 1] := v]
  }

  /** After the fan-out, every listed tab holds `v`, every other tab keeps its entry, and no tab is added or lost otherwise. */
  lemma {:induction false} StampedAt<V>(m: map<TabId, V>, tabs: seq<TabId>, v: V, t: TabId)
    ensures t in Stamped(m, tabs, v) <==> t in m || t in tabs
    ensures t in tabs ==> Stamped(m, tabs, v)[t] == v
    ensures t !in tabs && t in m ==> Stamped(m, tabs, v)[t] == m[t]
    decreases |tabs|
  {
    if tabs != [] {
      var n := |tabs| - 1;
      assert tabs == tabs[..n] + [tabs[n]];
      StampedAt(m, tabs[..n], v, t);
    }
  }

  /** The state of one running background script. */
  class Extension {

    /** `currentTheme` (background.js:24). */
    var currentTheme: string
    /** The toolbar button's icon; `None` while it still shows the icon of the manifest. */
    var actionIcon: Option<IconPath>
    /** The URL-bar icon of each tab whose icon has been set. */
    var pageIcons: map<TabId, IconPath>
    /** Whether each tab's URL-bar icon has last been shown (true) or hidden (false). */
    var pageVisible: map<TabId, bool>
    /** Reversions waiting on their 1200 ms timers, in the order they will fire. */
    var timers: seq<Reversion>

    /**
      Between events the mode is one the icon table knows, and every pending
      reversion puts a link icon back.
     */
    ghost predicate Valid()
      reads this
    {
      && IsMode(currentTheme)
      && forall k :: 0 <= k < |timers| ==> IsLinkIcon(timers[k].path)
    }

    /** The icon a surface shows; `None` for the icon of the manifest. */
    ghost function IconOn(s: Surface): Option<IconPath>
      reads this
    {
      match s
      case ActionButton => actionIcon
      case PageActionOf(id) => if id in pageIcons then Some(pageIcons[id]) else None
    }

    /** The script as loaded: `currentTheme` starts as 'light' and nothing has been drawn yet. */
    constructor ()
      ensures Valid()
      ensures currentTheme == LightMode && actionIcon == None
      ensures pageIcons == map[] && pageVisible == map[] && timers == []
    {
      currentTheme := LightMode;
      actionIcon := None;
      pageIcons := map[];
      pageVisible := map[];
      timers := [];
    }

    /**
      `updateIcons` with the tabs the tab query returns: the link icon of the
      current mode on the toolbar button and on every listed tab. When the
      mode has no entry in the icon table, reading it throws before anything
      is drawn (`ok` is false).
     */
    method UpdateIcons(tabs: seq<TabId>) returns (ok: bool)
      modifies this`actionIcon, this`pageIcons
      ensures ok <==> IsMode(currentTheme)
      ensures ok ==> actionIcon == Some(LinkIcon(currentTheme))
      ensures ok ==> pageIcons == Stamped(old(pageIcons), tabs, LinkIcon(currentTheme))
      ensures !ok ==> actionIcon == old(actionIcon) && pageIcons == old(pageIcons)
    {
      var icons := IconFor(currentTheme, Link);
      if icons.None? {
        return false;
      }
      var link := icons.value;
      assert link == LinkIcon(currentTheme);
      actionIcon := Some(link);
      var i := 0;
      while i < |tabs|
        invariant 0 <= i <= |tabs|
        invariant actionIcon == Some(link)
        invariant pageIcons == Stamped(old(pageIcons), tabs[..i], link)
      {
        assert tabs[..i + 1][..i] == tabs[..i];
        pageIcons := pageIcons[tabs[i] := link];
        i := i + 1;
      }
      assert tabs[..|tabs|] == tabs;
      ok := true;
    }

    /**
      `updateTheme`: `query` is what the theme query delivers (`None` when it
      rejects), `prefersDark` what the `prefers-color-scheme: dark` media query
      reports, `tabs` what the tab query returns. The mode becomes
      `EffectiveMode(query, prefersDark)` and every surface shows its link icon.
     */
    method UpdateTheme(query: Option<ThemeInfo>, prefersDark: bool, tabs: seq<TabId>)
      requires Valid()
      modifies this`currentTheme, this`actionIcon, this`pageIcons
      ensures Valid()
      ensures currentTheme == EffectiveMode(query, prefersDark)
      ensures actionIcon == Some(LinkIcon(currentTheme))
      ensures pageIcons == Stamped(old(pageIcons), tabs, LinkIcon(currentTheme))
    {
      var ok := false;
      if query.Some? {
        currentTheme := ResolveMode(query.value, prefersDark);
        ok := UpdateIcons(tabs);
      }
      if !ok {
        // the .catch handler
        currentTheme := LightMode;
        ok := UpdateIcons(tabs);
      }
    }

    /** `showHidePageAction(tabId)`, `stored` being what the storage read finds. */
    method ShowHidePageAction(tabId: TabId, stored: StoredValue)
      requires Valid()
      modifies this`pageVisible
      ensures Valid()
      ensures pageVisible == old(pageVisible)[tabId := PageActionShown(stored)]
    {
      if PageActionShown(stored) {
        pageVisible := pageVisible[tabId := true];
      } else {
        pageVisible := pageVisible[tabId := false];
      }
    }

    /**
      `showHidePageAction` for every tab the tab query returns, as done at
      start-up and after the preference changes: each listed tab is shown or
      hidden by the stored value, the others are left alone.
     */
    method RefreshPageActions(tabs: seq<TabId>, stored: StoredValue)
      requires Valid()
      modifies this`pageVisible
      ensures Valid()
      ensures pageVisible == Stamped(old(pageVisible), tabs, PageActionShown(stored))
    {
      var i := 0;
      while i < |tabs|
        invariant 0 <= i <= |tabs|
        invariant Valid()
        invariant pageVisible == Stamped(old(pageVisible), tabs[..i], PageActionShown(stored))
      {
        assert tabs[..i + 1][..i] == tabs[..i];
        ShowHidePageAction(tabs[i], stored);
        i := i + 1;
      }
      assert tabs[..|tabs|] == tabs;
    }

    /**
      The `storage.onChanged` listener: only a change of `showPageAction` in
      the local area refreshes the tabs.
     */
    method OnStorageChanged(areaName: string, showPageActionChanged: bool, tabs: seq<TabId>, stored: StoredValue)
      requires Valid()
      modifies this`pageVisible
      ensures Valid()
      ensures areaName == "local" && showPageActionChanged ==>
        pageVisible == Stamped(old(pageVisible), tabs, PageActionShown(stored))
      ensures !(areaName == "local" && showPageActionChanged) ==> pageVisible == old(pageVisible)
    {
      if areaName == "local" && showPageActionChanged {
        RefreshPageActions(tabs, stored);
      }
    }

    /**
      `copyUrlAndAnimateIcon(tab, source)`; `copied` says whether the
      clipboard write succeeded. After a successful copy only the clicked
      surface shows the check icon, and a reversion to the link icon of the
      mode current at the click is queued. A missing tab or url, a failed copy
      or an unknown source changes no icon.
     */
    method CopyUrlAndAnimateIcon(tab: Option<Tab>, source: string, copied: bool)
      requires Valid()
      modifies this`actionIcon, this`pageIcons, this`timers
      ensures Valid()
      ensures var proceeds := tab.Some? && Truthy(tab.value.url) && copied;
        !proceeds || (source != "action" && source != "pageAction") ==>
          actionIcon == old(actionIcon) && pageIcons == old(pageIcons) && timers == old(timers)
      ensures var proceeds := tab.Some? && Truthy(tab.value.url) && copied;
        proceeds && source == "action" ==>
          && actionIcon == Some(CheckIcon(currentTheme))
          && pageIcons == old(pageIcons)
          && timers == old(timers) + [Reversion(ActionButton, LinkIcon(currentTheme))]
      ensures var proceeds := tab.Some? && Truthy(tab.value.url) && copied;
        proceeds && source == "pageAction" ==>
          && actionIcon == old(actionIcon)
          && pageIcons == old(pageIcons)[tab.value.id := CheckIcon(currentTheme)]
          && timers == old(timers) + [Reversion(PageActionOf(tab.value.id), LinkIcon(currentTheme))]
    {
      if tab.None? || !Truthy(tab.value.url) {
        return;
      }
      if !copied {
        // the fallback copy through a text area touches no icon
        return;
      }
      var checkIcon := CheckIcon(currentTheme);
      var linkIcon := LinkIcon(currentTheme);
      if source == "action" {
        actionIcon := Some(checkIcon);
        timers := timers + [Reversion(ActionButton, linkIcon)];
      } else if source == "pageAction" {
        pageIcons := pageIcons[tab.value.id := checkIcon];
        timers := timers + [Reversion(PageActionOf(tab.value.id), linkIcon)];
      }
    }

    /**
      The oldest pending timer fires: its surface gets back the link icon
      captured at the click, whatever the mode is now; no other surface
      changes. Without a pending timer nothing happens.
     */
    method FireTimer()
      requires Valid()
      modifies this`actionIcon, this`pageIcons, this`timers
      ensures Valid()
      ensures old(timers) == [] ==>
        actionIcon == old(actionIcon) && pageIcons == old(pageIcons) && timers == []
      ensures old(timers) != [] ==>
        && timers == old(timers)[1..]
        && IsLinkIcon(old(timers)[0].path)
        && IconOn(old(timers)[0].surface) == Some(old(timers)[0].path)
        && forall s :: s != old(timers)[0].surface ==> IconOn(s) == old(IconOn(s))
    {
      if timers == [] {
        return;
      }
      var due := timers[0];
      timers := timers[1..];
      match due.surface
      case ActionButton => {
        actionIcon := Some(due.path);
      }
      case PageActionOf(id) => {
        pageIcons := pageIcons[id := due.path];
      }
    }
  }

  /**
    A click, then a switch of the system to dark before the timer fires: the
    reversion puts back the light-mode link icon captured at the click, over
    the dark-mode link icon the theme update drew.
   */
  method StaleReversionDemo()
  {
    var ext := new Extension();
    ext.UpdateTheme(Some(NoThemeData), false, [7]);
    assert ext.currentTheme == LightMode;
    ext.CopyUrlAndAnimateIcon(Some(Tab(7, Some("https://example.org/"))), "action", true);
    assert ext.actionIcon == Some(CheckIcon(LightMode));
    ext.UpdateTheme(Some(NoThemeData), true, [7]);
    assert ext.currentTheme == DarkMode;
    assert ext.actionIcon == Some(LinkIcon(DarkMode));
    ext.FireTimer();
    assert ext.actionIcon == Some(LinkIcon(LightMode));
    assert ext.currentTheme == DarkMode;
  }
}
