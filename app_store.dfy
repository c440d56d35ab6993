/** The application store (src/stores/appStore.ts): UI settings with clamped panel widths, the
    collapsed and effective-width rules, the theme getters, the settings merges, and the
    `initialize` guard. Browser services are parameters: the OS dark-mode preference, what
    `localStorage` holds (already parsed), and the outcome of the database initialisation. */
module AppStore {
  import opened Wrappers
  import opened Types

  datatype Theme = Light | Dark | System

  datatype LayoutMode = ThreeColumn | TwoColumn | Focus

  /** `AppSettings` without `lineHeight`. Widths, interval and font size are whole numbers. */
  datatype Settings = Settings(
    theme: Theme,
    layout: LayoutMode,
    sidebarWidth: int,
    rightPanelWidth: int,
    autosaveInterval: int,
    fontSize: int,
    fontFamily: string)

  const DefaultSettings := Settings(System, ThreeColumn, 280, 320, 30, 16, "\"JetBrains Mono\", \"Fira Code\", monospace")

  /** `Partial<AppSettings>`. */
  datatype SettingsPatch = SettingsPatch(
    theme: Option<Theme>,
    layout: Option<LayoutMode>,
    sidebarWidth: Option<int>,
    rightPanelWidth: Option<int>,
    autosaveInterval: Option<int>,
    fontSize: Option<int>,
    fontFamily: Option<string>)

  const EmptyPatch := SettingsPatch(None, None, None, None, None, None, None)

  // ---------------- Merges ----------------

  /** `{ ...s, ...p }`. */
  function MergeSettings(s: Settings, p: SettingsPatch): Settings {
    Settings(
      p.theme.GetOr(s.theme), p.layout.GetOr(s.layout), p.sidebarWidth.GetOr(s.sidebarWidth),
      p.rightPanelWidth.GetOr(s.rightPanelWidth), p.autosaveInterval.GetOr(s.autosaveInterval),
      p.fontSize.GetOr(s.fontSize), p.fontFamily.GetOr(s.fontFamily))
  }

  /** The later patch wins field by field: `{ ...p, ...q }`. */
  function ComposePatches(p: SettingsPatch, q: SettingsPatch): SettingsPatch {
    SettingsPatch(
      if q.theme.Some? then q.theme else p.theme,
      if q.layout.Some? then q.layout else p.layout,
      if q.sidebarWidth.Some? then q.sidebarWidth else p.sidebarWidth,
      if q.rightPanelWidth.Some? then q.rightPanelWidth else p.rightPanelWidth,
      if q.autosaveInterval.Some? then q.autosaveInterval else p.autosaveInterval,
      if q.fontSize.Some? then q.fontSize else p.fontSize,
      if q.fontFamily.Some? then q.fontFamily else p.fontFamily)
  }

  /** Every field of `s`: what `JSON.stringify(settings)` saves. */
  function FullPatch(s: Settings): SettingsPatch {
    SettingsPatch(
      Some(s.theme), Some(s.layout), Some(s.sidebarWidth), Some(s.rightPanelWidth),
      Some(s.autosaveInterval), Some(s.fontSize), Some(s.fontFamily))
  }

  /** Merging is a monoid action: the empty patch changes nothing, two merges are one merge of
      the composed patch, and merging a patch twice is merging it once. */
  lemma MergeSettingsLaws(s: Settings, p: SettingsPatch, q: SettingsPatch)
    ensures MergeSettings(s, EmptyPatch) == s
    ensures MergeSettings(MergeSettings(s, p), q) == MergeSettings(s, ComposePatches(p, q))
    ensures MergeSettings(MergeSettings(s, p), p) == MergeSettings(s, p)
    ensures MergeSettings(s, FullPatch(s)) == s
  {
  }

  /** A merge changes exactly the fields the patch carries: the result equals the old settings
      exactly when every carried field already had its value. */
  lemma MergeSettingsUnchangedIff(s: Settings, p: SettingsPatch)
    ensures MergeSettings(s, p) == s <==>
      && (p.theme.Some? ==> p.theme.value == s.theme)
      && (p.layout.Some? ==> p.layout.value == s.layout)
      && (p.sidebarWidth.Some? ==> p.sidebarWidth.value == s.sidebarWidth)
      && (p.rightPanelWidth.Some? ==> p.rightPanelWidth.value == s.rightPanelWidth)
      && (p.autosaveInterval.Some? ==> p.autosaveInterval.value == s.autosaveInterval)
      && (p.fontSize.Some? ==> p.fontSize.value == s.fontSize)
      && (p.fontFamily.Some? ==> p.fontFamily.value == s.fontFamily)
  {
  }

  /** What `localStorage` holds under the settings key: nothing (or an empty string), text that
      `JSON.parse` rejects, or a parsed object whose settings keys form a patch. */
  datatype SavedSettings = NothingSaved | Unparseable | Parsed(patch: SettingsPatch)

  /** The settings after `loadSettings`: saved keys over the defaults, not over the current
      settings; with nothing usable saved the current settings stay. */
  function LoadedSettings(current: Settings, saved: SavedSettings): Settings {
    match saved
    case Parsed(p) => MergeSettings(DefaultSettings, p)
    case _ => current
  }

  /** Saving then loading gives back the saved settings, whatever was current. */
  lemma SaveThenLoad(current: Settings, s: Settings)
    ensures LoadedSettings(current, Parsed(FullPatch(s))) == s
  {
  }

  /** A loaded patch that omits a field leaves that field at its default. */
  lemma LoadFallsBackToDefaults(current: Settings, p: SettingsPatch)
    ensures var r := LoadedSettings(current, Parsed(p));
      && (p.sidebarWidth.None? ==> r.sidebarWidth == DefaultSettings.sidebarWidth)
      && (p.rightPanelWidth.None? ==> r.rightPanelWidth == DefaultSettings.rightPanelWidth)
      && (p.theme.None? ==> r.theme == DefaultSettings.theme)
      && (p == EmptyPatch ==> r == DefaultSettings)
  {
  }

  // ---------------- Widths ----------------

  const MinPanelWidth := 200
  const MaxPanelWidth := 500
  const CollapsedSidebarWidth := 48

  /** `Math.max(200, Math.min(500, width))`. */
  function ClampWidth(w: int): (r: int)
    ensures MinPanelWidth <= r <= MaxPanelWidth
    ensures MinPanelWidth <= w <= MaxPanelWidth ==> r == w
    ensures w < MinPanelWidth ==> r == MinPanelWidth
    ensures w > MaxPanelWidth ==> r == MaxPanelWidth
  {
    var m := if w < MaxPanelWidth then w else MaxPanelWidth;
    if m > MinPanelWidth then m else MinPanelWidth
  }

  /** Clamping is idempotent and monotone. */
  lemma ClampWidthLaws(a: int, b: int)
    ensures ClampWidth(ClampWidth(a)) == ClampWidth(a)
    ensures a <= b ==> ClampWidth(a) <= ClampWidth(b)
  {
  }

  /** Both stored widths lie in [200, 500]. */
  predicate WidthsInRange(s: Settings) {
    MinPanelWidth <= s.sidebarWidth <= MaxPanelWidth && MinPanelWidth <= s.rightPanelWidth <= MaxPanelWidth
  }

  /** `effectiveSidebarWidth`. */
  function EffectiveSidebarWidth(collapsed: bool, s: Settings): int {
    if collapsed then CollapsedSidebarWidth else s.sidebarWidth
  }

  /** `effectiveRightPanelWidth`. */
  function EffectiveRightPanelWidth(collapsed: bool, s: Settings): int {
    if collapsed then 0 else s.rightPanelWidth
  }

  /** With the widths in range, the sidebar is 48 wide or in [200, 500], the right panel 0 wide or
      in [200, 500]; each is the stored width exactly when its panel is open. */
  lemma EffectiveWidthsBounded(sidebarCollapsed: bool, rightCollapsed: bool, s: Settings)
    requires WidthsInRange(s)
    ensures var w := EffectiveSidebarWidth(sidebarCollapsed, s);
      (w == CollapsedSidebarWidth <==> sidebarCollapsed) && (!sidebarCollapsed ==> MinPanelWidth <= w <= MaxPanelWidth)
    ensures var w := EffectiveRightPanelWidth(rightCollapsed, s);
      (w == 0 <==> rightCollapsed) && (!rightCollapsed ==> MinPanelWidth <= w <= MaxPanelWidth)
  {
  }

  /** `updateSettings` does not clamp, so it can take a width out of range; so can a loaded
      patch, which is merged over the defaults. */
  lemma MergeCanLeaveRange()
    ensures WidthsInRange(DefaultSettings)
    ensures !WidthsInRange(MergeSettings(DefaultSettings, EmptyPatch.(sidebarWidth := Some(MaxPanelWidth + 1))))
    ensures !WidthsInRange(LoadedSettings(DefaultSettings, Parsed(EmptyPatch.(rightPanelWidth := Some(0)))))
  {
  }

  // ---------------- Theme ----------------

  /** `currentTheme`: the stored theme, with `system` resolved by the OS preference. */
  function CurrentTheme(theme: Theme, prefersDark: bool): (r: Theme)
    ensures r != System
    ensures theme != System ==> r == theme
    ensures theme == System ==> (r == Dark <==> prefersDark)
  {
    if theme == System then (if prefersDark then Dark else Light) else theme
  }

  /** `isDark`. */
  function IsDark(theme: Theme, prefersDark: bool): bool {
    CurrentTheme(theme, prefersDark) == Dark
  }

  lemma IsDarkIff(theme: Theme, prefersDark: bool)
    ensures IsDark(theme, prefersDark) <==> theme == Dark || (theme == System && prefersDark)
  {
  }

  // ---------------- The store ----------------

  /** The message `initialize` records for what the database initialisation threw. */
  function InitErrorMessage(t: Thrown): string {
    match t
    case ErrorObject(m) => m
    case OtherValue(_) => "初始化失败"
  }

  /** The store's whole state, as a value. */
  datatype AppState = AppState(
    isInitialized: bool,
    isLoading: bool,
    error: Option<string>,
    settings: Settings,
    activePanel: string,
    isSidebarCollapsed: bool,
    isRightPanelCollapsed: bool)

  class Store {
    var isInitialized: bool
    var isLoading: bool
    var error: Option<string>
    var settings: Settings
    var activePanel: string
    var isSidebarCollapsed: bool
    var isRightPanelCollapsed: bool

    function State(): AppState
      reads this
    {
      AppState(isInitialized, isLoading, error, settings, activePanel, isSidebarCollapsed, isRightPanelCollapsed)
    }

    constructor()
      ensures State() == AppState(false, false, None, DefaultSettings, "explorer", false, false)
    {
      isInitialized := false;
      isLoading := false;
      error := None;
      settings := DefaultSettings;
      activePanel := "explorer";
      isSidebarCollapsed := false;
      isRightPanelCollapsed := false;
    }

    /** `setSidebarWidth`: store the clamped width. */
    method SetSidebarWidth(width: int)
      modifies this
      ensures State() == old(State()).(settings := old(settings).(sidebarWidth := ClampWidth(width)))
      ensures old(WidthsInRange(settings)) ==> WidthsInRange(settings)
    {
      settings := settings.(sidebarWidth := ClampWidth(width));
    }

    /** `setRightPanelWidth`: store the clamped width. */
    method SetRightPanelWidth(width: int)
      modifies this
      ensures State() == old(State()).(settings := old(settings).(rightPanelWidth := ClampWidth(width)))
      ensures old(WidthsInRange(settings)) ==> WidthsInRange(settings)
    {
      settings := settings.(rightPanelWidth := ClampWidth(width));
    }

    /** `toggleSidebar`. */
    method ToggleSidebar()
      modifies this
      ensures State() == old(State()).(isSidebarCollapsed := !old(isSidebarCollapsed))
    {
      isSidebarCollapsed := !isSidebarCollapsed;
    }

    /** `toggleRightPanel`. */
    method ToggleRightPanel()
      modifies this
      ensures State() == old(State()).(isRightPanelCollapsed := !old(isRightPanelCollapsed))
    {
      isRightPanelCollapsed := !isRightPanelCollapsed;
    }

    /** Not an action of the store but a derived fact about `toggleSidebar`: toggling the sidebar
        twice restores the whole state. */
    method ToggleSidebarTwice()
      modifies this
      ensures State() == old(State())
    {
      ToggleSidebar();
      ToggleSidebar();
    }

    /** `setActivePanel`. */
    method SetActivePanel(panel: string)
      modifies this
      ensures State() == old(State()).(activePanel := panel)
    {
      activePanel := panel;
    }

    /** `updateSettings`: merge the patch over the current settings, without clamping. */
    method UpdateSettings(partial: SettingsPatch)
      modifies this
      ensures State() == old(State()).(settings := MergeSettings(old(settings), partial))
    {
      settings := MergeSettings(settings, partial);
    }

    /** `loadSettings`. */
    method LoadSettings(saved: SavedSettings)
      modifies this
      ensures State() == old(State()).(settings := LoadedSettings(old(settings), saved))
    {
      match saved {
        case Parsed(p) => settings := MergeSettings(DefaultSettings, p);
        case _ =>
      }
    }

    /** `initialize`: nothing once initialised. Otherwise load the settings, then initialise the
        database: on success the store is initialised; on failure the error is recorded and
        rethrown. Either way loading is over when it returns. */
    method Initialize(saved: SavedSettings, dbInit: Option<Thrown>) returns (r: Outcome<Thrown>)
      modifies this
      ensures old(isInitialized) ==> r == Pass && State() == old(State())
      ensures !old(isInitialized) && dbInit.None? ==>
        && r == Pass
        && State() == old(State()).(isInitialized := true, isLoading := false, error := None,
                                    settings := LoadedSettings(old(settings), saved))
      ensures !old(isInitialized) && dbInit.Some? ==>
        && r == Fail(dbInit.value)
        && State() == old(State()).(isLoading := false, error := Some(InitErrorMessage(dbInit.value)),
                                    settings := LoadedSettings(old(settings), saved))
    {
      if isInitialized {
        return Pass;
      }
      isLoading := true;
      error := None;
      LoadSettings(saved);
      if dbInit.Some? {
        error := Some(InitErrorMessage(dbInit.value));
        isLoading := false;
        return Fail(dbInit.value);
      }
      isInitialized := true;
      isLoading := false;
      r := Pass;
    }
  }
}
