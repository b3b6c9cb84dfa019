# WME HN NavPoints: the script's own logic, in Dafny

WME HN NavPoints is a userscript for the Waze Map Editor. It draws a line
from each house number's navigation point to its marker, and a label
beside it. Most of the script calls into the editor and its map library.
Inside that glue sits a small amount of self-contained logic, and this
project models it and proves properties of it:

- **The processed-segment list** (`_processedSegments`). It records each
  segment whose house numbers have been requested, with the segment's
  `updatedOn` stamp at that time (the entry is pushed before the request
  is sent and stays if the request fails). `processSegs` uses it to decide which
  segments need fetching again. The class `NavPoints.NavPointsScript`
  holds the list as a `seq` field. Its methods run the source's loops in
  place: the `while (i--)` bookkeeping loop, which also splices the input
  array, and the `objectsremoved` loop. Each method is proved equal to a
  specification function in `SegmentCache` (`Bookkeep`, `Evict`). The
  lemmas beside those functions state what the list and the fetch list
  become.
- **The start-up, `zoomend` and `reloadData` resets** of that list, and
  the handlers that reprocess it: `setMarkersEvents` after a house-number
  edit, and the two layer check boxes, which also record their state in
  the settings.
- **The settings record**: the start-up merge of the defaults, the
  browser's copy and the server's copy; the clamp on the zoom threshold;
  and the shortcut texts written by `checkShortcutsChanged`.
- **The drawing rules** that do not touch the map: the line colour, and
  the feature key that names the features drawn for one house number.
- **The `_timeouts` object** and `checkTimeout`, as the class
  `Timers.Timeouts`.

Host objects are passed in as plain values. A segment is its id and its
`updatedOn` stamp. The map zoom is an integer. "Intersects the current
view" is a function parameter, carried by `Action.ObjectsRemoved`. The
editor's shortcut for each action is a function from the action to an
optional shortcut. The network request, the layers and the storage are
not called. Instead, each method returns what it would hand to them: the
ids the house numbers are requested for, or whether a save is due.

Modules: `Options` (optional values), `Decimal` (numbers written as
decimal text), `Shortcuts`, `Drawing`, `Settings`, `SegmentCache`,
`Timers`, `NavPoints`.

## Model

| member | source | states |
|---|---|---|
| `SegmentCache.FindIndex` | WME-HN-NavPoints.js:308 | Returns the index of the first entry for the id, or -1 exactly when no entry has that id. |
| `SegmentCache.Visit` | WME-HN-NavPoints.js:326-335 | One turn of the bookkeeping loop keeps its segment in the fetch list exactly when `processAll` is set, the segment is not cached, or its `updatedOn` is strictly greater than the cached stamp. |
| `SegmentCache.VisitLookup` | WME-HN-NavPoints.js:326-335 | After one turn, the visited segment's stamp is its own if it was not cached, or the cached stamp raised to its own if that is strictly greater. Every other segment keeps its stamp, and no duplicate entry appears. |
| `SegmentCache.BookkeepEveryIdOnce` | WME-HN-NavPoints.js:324-336 | Starting from a list without duplicate ids, after the loop every id of the input array has an entry and the list still has no duplicates. So each input id has exactly one entry. This holds even when the input repeats an id. |
| `SegmentCache.BookkeepLookup` | WME-HN-NavPoints.js:327-334 | After the loop, each input segment's stamp is the refreshed one (raised when strictly newer, appended when not cached). Segments not in the input keep the stamp they had. |
| `SegmentCache.BookkeepFetchList` | WME-HN-NavPoints.js:325-335 | What is left of the input array equals `FetchList`: the input in its order, keeping exactly the uncached segments, the strictly newer ones, or all of them when `processAll` is set. |
| `SegmentCache.FetchList` | WME-HN-NavPoints.js:327-331 | The fetch list holds only input segments, is no longer than the input, and is the whole input when `processAll` is set. |
| `SegmentCache.EvictRemovesOutOfView` | WME-HN-NavPoints.js:311-320 | On a list without duplicates, the `objectsremoved` loop removes exactly the entries of input segments outside the view. All other entries stay in their order, and the list keeps no duplicates. |
| `SegmentCache.WithoutLookup` | WME-HN-NavPoints.js:316-318 | After the removal, a removed segment has no stamp and every other segment keeps the stamp it had. |
| `SegmentCache.RemoveFirstIsWithout` | WME-HN-NavPoints.js:316-318 | On a list without duplicates, splicing out the first entry found for an id removes every entry for it and nothing else. |
| `SegmentCache.ProcessSegsKeepsNoDupIds` | WME-HN-NavPoints.js:305-336 | No call of `processSegs` (skipped, `objectsremoved` or bookkeeping) puts two entries for one segment into the list. |
| `NavPoints.NavPointsScript.ProcessSegs` | WME-HN-NavPoints.js:305-340 | Does nothing and sends no request when the array is missing or empty, or when the zoom is below `disableBelowZoom`. Otherwise the new list and the requested ids are those of `ProcessSegsEffect`. The settings are unchanged and the list stays duplicate-free. |
| `NavPoints.NavPointsScript.RemoveOutOfView` | WME-HN-NavPoints.js:309-321 | The `forEach` splice loop leaves the list equal to `Evict` of the old list, and keeps it duplicate-free. |
| `NavPoints.NavPointsScript.Bookkeeping` | WME-HN-NavPoints.js:323-336 | The `while (i--)` loop leaves the list and the spliced array equal to `Bookkeep` of the old list and the input. |
| `NavPoints.NavPointsScript.ProcessEvent` | WME-HN-NavPoints.js:210-235 | A `zoomend` below the threshold empties the list. At or above it, the segments are processed only when the list is empty. `afterclearactions` and `noActions` process them with `processAll` false. `afteraction` and `afterundoaction` with a house-number action have the effect of `setMarkersEvents`; without one, and for a missing event, the list is left alone and nothing is requested. |
| `NavPoints.NavPointsScript.SetMarkersEvents` | WME-HN-NavPoints.js:237-257 | While house numbers are edited, or when there is no marker layer, the list is unchanged and nothing is requested. Otherwise every segment is processed with `processAll` set. |
| `NavPoints.SetMarkersEventsRefetchesAll` | WME-HN-NavPoints.js:251-256 | At or above `disableBelowZoom`, with at least one segment that has house numbers, leaving house-number editing requests every such segment, whatever its stamp, and gives each of them an entry. Below the threshold `processSegs` returns at once, so nothing is requested. The list stays duplicate-free in every case, and while editing (or without a marker layer) nothing changes. |
| `SegmentCache.BookkeepProcessAll` | WME-HN-NavPoints.js:327-331 | With `processAll` set, the loop splices nothing out of the array, repeated ids included. |
| `NavPoints.NavPointsScript.ToggleLinesLayer` | WME-HN-NavPoints.js:157-163 | `hnLayerToggled` sets `hnLines` to the box's state and nothing else in the settings, and always asks for a save. The segments are processed (with `processAll` false) only when the box is checked. |
| `NavPoints.NavPointsScript.ToggleNumbersLayer` | WME-HN-NavPoints.js:165-171 | `hnNumbersLayerToggled` does the same for `hnNumbers`. |
| `NavPoints.NavPointsScript.ReloadData` | WME-HN-NavPoints.js:441-445 | `reloadData` empties the list and leaves the settings alone. |
| `NavPoints.NavPointsScript.constructor` | WME-HN-NavPoints.js:353-355 | Start-up begins with an empty list and the settings `LoadSettings` assembles. |
| `NavPoints.NavPointsScript.CheckShortcutsChanged` | WME-HN-NavPoints.js:114-141 | Afterwards each action's stored text is the encoding of its current shortcut, and the other settings are unchanged until the save. A save is due exactly when the settings changed, that is, when some stored text differed. |
| `NavPoints.NavPointsScript.ChangeDisableBelowZoom` | WME-HN-NavPoints.js:425-433 | The setting becomes the clamped input. A save is due exactly when that differs from the old setting. The field is rewritten to the clamped value only then, so an out-of-range input that clamps to the current setting stays displayed. |
| `Settings.ClampZoom` | WME-HN-NavPoints.js:426 | The threshold lies in [0, 10], equals the input when the input is in range, and is the nearest value of that range to the input. |
| `Settings.Extend` | WME-HN-NavPoints.js:73 | Every property present in the stored copy wins. Every absent property keeps the base value. A missing copy changes nothing. |
| `Settings.LoadSettings` | WME-HN-NavPoints.js:61-76 | The browser's copy overrides the defaults. The server's copy overrides the result exactly when its `lastSaved` is present and strictly greater; otherwise it changes nothing. The resulting `lastSaved` is the greater of the two stamps. |
| `Settings.WithShortcut` | WME-HN-NavPoints.js:134-136 | Setting one action's shortcut text changes that text only. |
| `Shortcuts.EncodeShortcut` | WME-HN-NavPoints.js:117-133 | A missing shortcut is `''`. Otherwise `+` appears exactly when a modifier is set, and the text starts with `A`, `S` or `C` when one is. The text is empty exactly for a missing shortcut or one with no modifier and key code 0. A key code of 0 writes no digits, so the text ends in `+` or is empty. |
| `Shortcuts.DecodeEncodeShortcut` | WME-HN-NavPoints.js:117-133 | Reading the text back gives the shortcut again (modifiers and key code). The only loss is that a missing shortcut reads back as one with no keys. |
| `Shortcuts.EncodeShortcutInjective` | WME-HN-NavPoints.js:117-133 | Two present shortcuts get the same text only when they are equal. |
| `Shortcuts.EncodeDecodeShortcut` | WME-HN-NavPoints.js:117-133 | Every text the reader accepts is exactly the text written for the shortcut it reads. A key code of 0 written as digits, or with a leading zero, is not accepted. So each shortcut has one text. |
| `Decimal.StringToNatOfNatToString` | WME-HN-NavPoints.js:128-129 | The decimal text of a key code reads back as that key code. |
| `Decimal.NatToStringOfStringToNat` | WME-HN-NavPoints.js:128-129 | A digit string without a leading zero is exactly the decimal text of its value. |
| `Drawing.StrokeColour` | WME-HN-NavPoints.js:276-279 | The colour is one of `red`, `orange`, `yellow` and `white`. It is red or orange exactly when the number is forced, and orange or white exactly when it has `updatedBy`. So the four colours tell the four cases apart. |
| `Drawing.FeatureId` | WME-HN-NavPoints.js:261-264 | A key exists exactly when the house number's segment is loaded. |
| `Drawing.ParseFeatureIdRoundTrip` | WME-HN-NavPoints.js:261-264 | The key (`HNNavPoints`, street, number and id, joined by vertical bars) of a house number whose segment is loaded and whose number has no vertical bar reads back to its segment's street id (negative, positive or null), its number and its id. |
| `Drawing.FeatureIdInjective` | WME-HN-NavPoints.js:197-199 | For house numbers whose numbers have no vertical bar, the key `markerRemoveLine` builds matches the key `drawHNLine` built only for the same street id, number and id. So it finds that house number's features and no others. |
| `Drawing.StreetText` | WME-HN-NavPoints.js:263-264 | The street part of the key, written with a `-` for a negative id, never contains the vertical-bar separator. |
| `Timers.Timeouts.constructor` | WME-HN-NavPoints.js:40-45 | The script starts with no pending timers and an empty `observeRemovedLine` table. |
| `Timers.Timeouts.CheckTimeout` | WME-HN-NavPoints.js:143-155 | With a non-empty index, only that entry of the `observeRemovedLine` table is cancelled and forgotten, and nothing happens for a single-handle slot. Without one, the slot's handle is cancelled and the slot set to undefined (for the table, nothing is cancelled). Every other slot is unchanged. |
| `Timers.Timeouts.Schedule` | WME-HN-NavPoints.js:187 | Storing a new handle sets exactly the named slot: `saveSettingsToStorage` (line 77), `setMarkerEvents` (line 241), `bootstrap` (line 469), or an entry of the `observeRemovedLine` table (line 187). It fails when the table has been set to undefined, where JavaScript would throw. |

## Left out

- Map drawing: OpenLayers geometry, projections, features, layers, layer visibility, `removeFeatures` and `destroyFeatures`. These are calls into a foreign library with floating-point coordinates. Only the colour and the feature key of `drawHNLine` are modelled, so the line `processEvent` redraws after a house-number action is not.
- The house-number request (`$.ajax`) and its JSON handling are network I/O. `ProcessSegs` returns the ids it would request.
- `saveSettingsToStorage`, `localStorage`, `WazeWrap.Remote` and `Date.now()` are storage I/O and wall-clock time. The methods return a `save` flag instead of saving. The stored copies are parameters of the constructor. A save would also set `lastVersion` and `lastSaved`, so "the other settings are unchanged" in the rows above holds up to that save, which is not performed.
- The preferences panel, the release-notes alert, the MutationObserver and jQuery selectors are UI. The check boxes' handlers are modelled by their effect on the settings and the list; `checked` is a parameter.
- Timer-driven retries and event registration: `bootstrap`, `observeRemovedLine`, the marker handler (un)registration and the 50 ms retry in `setMarkersEvents`, and `markerRemoveLine` beyond its key. This is the host's event-loop plumbing. Only the handle bookkeeping of `_timeouts` is modelled. The host's state (whether house numbers are edited, whether the marker layer exists, whether an action carries a house number) is passed in as booleans. The call of `setMarkersEvents` from `markerRemoveLine` is not modelled.
- `getRandomId` uses `Math.random`.
- The asynchrony of `processSegs`: the bookkeeping finishes before the request is awaited, and other handlers running during that wait are not modelled.
- The extent-intersection test is a function parameter.
- The filter on `hasHNs` at the call sites: the methods receive the segments that have house numbers.
- NavPoints.NavPointsScript.ChangeDisableBelowZoom: takes the typed value as an integer. The `NaN` that `parseInt` gives for non-numeric text is not modelled.
- Settings.LoadSettings: a stored copy is modelled with the seven known properties and typed values. Extra properties and `null` values (which `$.extend` copies) are not modelled.
- SegmentCache.BookkeepLookup: stated for input arrays whose segment ids are distinct, as the editor's segment collection is keyed by id. With repeated ids the loop still introduces no duplicates (`BookkeepEveryIdOnce`), but the stamps are not characterised.
- SegmentCache.BookkeepFetchList: stated for input arrays with distinct segment ids, for the same reason.
- SegmentCache.EvictRemovesOutOfView: stated for a list without duplicate ids, which every method keeps (`NavPointsScript.Valid`). On a list with duplicates, only the first entry would go.
- Segment: `updatedOn` is an integer. A missing or `null` stamp, which compares as `undefined` or 0 in JavaScript, is not modelled.
- Drawing.FeatureId: the loaded segments' street ids are a map from segment id to street id. House-number ids and numbers are the text the template writes. Where `drawHNLine` draws nothing for an unloaded segment, `markerRemoveLine` would throw; both are the missing key here.
- Timers.Timeouts.CheckTimeout: an indexed handle is forgotten by removing its key, where the script stores `undefined` under it. Every later test is `!== undefined`, so the two cannot be told apart.
