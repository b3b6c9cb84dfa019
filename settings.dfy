/** The script's settings record, how it is assembled at start-up from
    the defaults, the browser's copy and the server's copy
    (`loadSettingsFromStorage`), and the clamp applied to the zoom
    threshold typed into the preferences panel. */
module Settings {
  import opened Options
  import opened Shortcuts

  datatype ScriptSettings = ScriptSettings(
    disableBelowZoom: int,
    hnLines: bool,
    hnNumbers: bool,
    toggleHNNavPointsShortcut: string,
    toggleHNNavPointsNumbersShortcut: string,
    lastSaved: int,
    lastVersion: Option<string>)

  /** A stored copy of the settings (parsed JSON): any property may be
      absent. */
  datatype StoredSettings = StoredSettings(
    disableBelowZoom: Option<int>,
    hnLines: Option<bool>,
    hnNumbers: Option<bool>,
    toggleHNNavPointsShortcut: Option<string>,
    toggleHNNavPointsNumbersShortcut: Option<string>,
    lastSaved: Option<int>,
    lastVersion: Option<string>)

  const Defaults := ScriptSettings(5, true, true, "", "", 0, None)

  /** Every property that `stored` has, `r` has with the same value. */
  predicate Overrides(r: ScriptSettings, stored: StoredSettings) {
    && (stored.disableBelowZoom.Some? ==> r.disableBelowZoom == stored.disableBelowZoom.value)
    && (stored.hnLines.Some? ==> r.hnLines == stored.hnLines.value)
    && (stored.hnNumbers.Some? ==> r.hnNumbers == stored.hnNumbers.value)
    && (stored.toggleHNNavPointsShortcut.Some? ==> r.toggleHNNavPointsShortcut == stored.toggleHNNavPointsShortcut.value)
    && (stored.toggleHNNavPointsNumbersShortcut.Some? ==> r.toggleHNNavPointsNumbersShortcut == stored.toggleHNNavPointsNumbersShortcut.value)
    && (stored.lastSaved.Some? ==> r.lastSaved == stored.lastSaved.value)
    && (stored.lastVersion.Some? ==> r.lastVersion == stored.lastVersion)
  }

  /** Every property that `stored` lacks, `r` takes from `base`. */
  predicate KeepsAbsent(r: ScriptSettings, base: ScriptSettings, stored: StoredSettings) {
    && (stored.disableBelowZoom.None? ==> r.disableBelowZoom == base.disableBelowZoom)
    && (stored.hnLines.None? ==> r.hnLines == base.hnLines)
    && (stored.hnNumbers.None? ==> r.hnNumbers == base.hnNumbers)
    && (stored.toggleHNNavPointsShortcut.None? ==> r.toggleHNNavPointsShortcut == base.toggleHNNavPointsShortcut)
    && (stored.toggleHNNavPointsNumbersShortcut.None? ==> r.toggleHNNavPointsNumbersShortcut == base.toggleHNNavPointsNumbersShortcut)
    && (stored.lastSaved.None? ==> r.lastSaved == base.lastSaved)
    && (stored.lastVersion.None? ==> r.lastVersion == base.lastVersion)
  }

  /** `$.extend(base, stored)` for one stored copy: properties of the
      copy win, the others stay. */
  function Extend(base: ScriptSettings, stored: Option<StoredSettings>): (r: ScriptSettings)
    ensures stored.None? ==> r == base
    ensures stored.Some? ==> Overrides(r, stored.value) && KeepsAbsent(r, base, stored.value)
  {
    match stored
    case None => base
    case Some(s) =>
      ScriptSettings(
        s.disableBelowZoom.GetOr(base.disableBelowZoom),
        s.hnLines.GetOr(base.hnLines),
        s.hnNumbers.GetOr(base.hnNumbers),
        s.toggleHNNavPointsShortcut.GetOr(base.toggleHNNavPointsShortcut),
        s.toggleHNNavPointsNumbersShortcut.GetOr(base.toggleHNNavPointsNumbersShortcut),
        s.lastSaved.GetOr(base.lastSaved),
        if s.lastVersion.Some? then s.lastVersion else base.lastVersion)
  }

  /** The server's copy is newer than the settings assembled so far: it
      has a `lastSaved` and that stamp is strictly greater. */
  predicate ServerIsNewer(current: ScriptSettings, server: Option<StoredSettings>) {
    server.Some? && server.value.lastSaved.Some? && server.value.lastSaved.value > current.lastSaved
  }

  /** The settings the script runs with after start-up: defaults, then
      the browser's copy, then the server's copy only when its `lastSaved`
      is strictly greater; otherwise the server's copy changes nothing.
      The result carries the greater of the two stamps. */
  function LoadSettings(local: Option<StoredSettings>, server: Option<StoredSettings>): (r: ScriptSettings)
    ensures var current := Extend(Defaults, local);
            && (local.Some? ==> Overrides(current, local.value))
            && (ServerIsNewer(current, server) ==>
                  Overrides(r, server.value) && KeepsAbsent(r, current, server.value))
            && (!ServerIsNewer(current, server) ==> r == current)
            && (server.Some? && server.value.lastSaved.Some? ==>
                  r.lastSaved == if server.value.lastSaved.value > current.lastSaved
                                 then server.value.lastSaved.value else current.lastSaved)
  {
    var current := Extend(Defaults, local);
    if ServerIsNewer(current, server) then Extend(current, server) else current
  }

  /** The settings property that remembers an action's shortcut. */
  function StoredShortcut(s: ScriptSettings, action: ShortcutAction): string {
    match action
    case ToggleNavPoints => s.toggleHNNavPointsShortcut
    case ToggleNavPointsNumbers => s.toggleHNNavPointsNumbersShortcut
  }

  /** `a` and `b` agree on every property but the two shortcut texts. */
  predicate SameButShortcuts(a: ScriptSettings, b: ScriptSettings) {
    && a.disableBelowZoom == b.disableBelowZoom
    && a.hnLines == b.hnLines
    && a.hnNumbers == b.hnNumbers
    && a.lastSaved == b.lastSaved
    && a.lastVersion == b.lastVersion
  }

  /** `s` with an action's shortcut property set to `keys`. */
  function WithShortcut(s: ScriptSettings, action: ShortcutAction, keys: string): (r: ScriptSettings)
    ensures StoredShortcut(r, action) == keys
    ensures forall a :: a != action ==> StoredShortcut(r, a) == StoredShortcut(s, a)
    ensures SameButShortcuts(r, s)
  {
    match action
    case ToggleNavPoints => s.(toggleHNNavPointsShortcut := keys)
    case ToggleNavPointsNumbers => s.(toggleHNNavPointsNumbersShortcut := keys)
  }

  /** The zoom threshold typed into the preferences panel, forced into
      [0, 10]: the value of that range nearest to the input. */
  function ClampZoom(input: int): (r: int)
    ensures 0 <= r <= 10
    ensures 0 <= input <= 10 ==> r == input
    ensures forall w :: 0 <= w <= 10 ==> Distance(r, input) <= Distance(w, input)
  {
    if input < 0 then 0 else if input > 10 then 10 else input
  }

  function Distance(a: int, b: int): nat {
    if a < b then b - a else a - b
  }
}
