/** The script's own mutable state, `_settings` and `_processedSegments`,
    and the handlers that change it: `processSegs`, the `zoomend` and
    `reloadData` resets, `checkShortcutsChanged` and the change handler of
    the zoom-threshold field. Drawing, requests and storage are left to
    the caller; each method returns what it would hand to them. */
module NavPoints {
  import opened Options
  import opened Shortcuts
  import opened Settings
  import opened SegmentCache

  /** The editor events `processEvent` reacts to. */
  datatype Event = ZoomEndEvent | AfterClearActions | NoActions | AfterAction | AfterUndoAction

  /** What `setMarkersEvents` does to the list and which ids it requests:
      it processes every segment, with `processAll` set, only when house
      numbers are not being edited and the marker layer exists. */
  function SetMarkersEventsEffect(cache: seq<Entry>, editingHouseNumbers: bool, markerLayerExists: bool,
                                  zoom: int, disableBelowZoom: int, segsWithHNs: seq<Segment>): (seq<Entry>, Option<seq<int>>)
  {
    if !editingHouseNumbers && markerLayerExists then
      ProcessSegsEffect(cache, ExitHouseNumbers, Some(segsWithHNs), zoom, disableBelowZoom, true)
    else (cache, None)
  }

  /** Leaving house-number editing refetches every segment with house
      numbers, whatever its stamp, and records each of them once; while
      editing, or without a marker layer, nothing changes. */
  lemma SetMarkersEventsRefetchesAll(cache: seq<Entry>, editingHouseNumbers: bool, markerLayerExists: bool,
                                     zoom: int, disableBelowZoom: int, segsWithHNs: seq<Segment>)
    requires NoDupIds(cache)
    ensures var r := SetMarkersEventsEffect(cache, editingHouseNumbers, markerLayerExists, zoom, disableBelowZoom, segsWithHNs);
      NoDupIds(r.0)
      && (editingHouseNumbers || !markerLayerExists ==> r == (cache, None))
      && (!editingHouseNumbers && markerLayerExists && segsWithHNs != [] && zoom >= disableBelowZoom ==>
            r.1 == Some(Ids(segsWithHNs))
            && forall j :: 0 <= j < |segsWithHNs| ==> CachedOn(r.0, segsWithHNs[j].id).Some?)
  {
    ProcessSegsKeepsNoDupIds(cache, ExitHouseNumbers, Some(segsWithHNs), zoom, disableBelowZoom, true);
    BookkeepProcessAll(cache, segsWithHNs);
    BookkeepEveryIdOnce(cache, segsWithHNs, true);
  }

  class NavPointsScript {
    var settings: ScriptSettings
    var processedSegments: seq<Entry>

    /** The processed-segment list never holds two entries for a segment. */
    ghost predicate Valid()
      reads this
    {
      NoDupIds(processedSegments)
    }

    /** Start-up (`init`): nothing reads the settings before
        `loadSettingsFromStorage` has assembled them from the browser's and
        the server's copies. */
    constructor(local: Option<StoredSettings>, server: Option<StoredSettings>)
      ensures Valid()
      ensures settings == LoadSettings(local, server)
      ensures processedSegments == []
    {
      settings := LoadSettings(local, server);
      processedSegments := [];
    }

    /** `processSegs(action, arrSegObjs, processAll)` at map zoom `zoom`:
        updates the processed-segment list in place and returns the ids the
        house numbers are then requested for (`None`: no request). */
    method ProcessSegs(action: Action, arrSegObjs: Option<seq<Segment>>, zoom: int, processAll: bool)
      returns (fetchIds: Option<seq<int>>)
      requires Valid()
      modifies this
      ensures Valid()
      ensures settings == old(settings)
      ensures (processedSegments, fetchIds)
           == ProcessSegsEffect(old(processedSegments), action, arrSegObjs, zoom, settings.disableBelowZoom, processAll)
    {
      fetchIds := None;
      if Skipped(arrSegObjs, zoom, settings.disableBelowZoom) {
        return;
      }
      var segs := arrSegObjs.value;
      if action.ObjectsRemoved? {
        RemoveOutOfView(segs, action.inView);
      } else {
        var arr := Bookkeeping(segs, processAll);
        fetchIds := Some(Ids(arr));
      }
    }

    /** The `objectsremoved` branch of `processSegs`: each segment that does
        not intersect the view has its first entry spliced out. */
    method RemoveOutOfView(segs: seq<Segment>, inView: Segment -> bool)
      requires Valid()
      modifies this
      ensures Valid()
      ensures settings == old(settings)
      ensures processedSegments == Evict(old(processedSegments), segs, inView)
    {
      var i := 0;
      while i < |segs|
        invariant 0 <= i <= |segs|
        invariant settings == old(settings)
        invariant Evict(processedSegments, segs[i..], inView) == Evict(old(processedSegments), segs, inView)
      {
        assert segs[i..][1..] == segs[i + 1..];
        if !inView(segs[i]) {
          var segIdx := FindIndex(processedSegments, segs[i].id);
          if segIdx > -1 {
            processedSegments := processedSegments[..segIdx] + processedSegments[segIdx + 1..];
          }
        }
        i := i + 1;
      }
      EvictRemovesOutOfView(old(processedSegments), segs, inView);
    }

    /** The other branch of `processSegs`: the `while (i--)` loop, from the
        last segment to the first. It updates the list in place and splices
        out of the array the segments that need no fetch; `arr` is what is
        left of the array. */
    method Bookkeeping(segs: seq<Segment>, processAll: bool) returns (arr: seq<Segment>)
      requires Valid()
      modifies this
      ensures Valid()
      ensures settings == old(settings)
      ensures (processedSegments, arr) == Bookkeep(old(processedSegments), segs, processAll)
    {
      arr := segs;
      var i := |segs|;
      while i > 0
        invariant 0 <= i <= |segs| && i <= |arr|
        invariant settings == old(settings)
        invariant arr[..i] == segs[..i]
        invariant (processedSegments, arr[i..]) == Bookkeep(old(processedSegments), segs[i..], processAll)
      {
        i := i - 1;
        assert segs[i..][1..] == segs[i + 1..];
        assert arr[i] == segs[i];
        ghost var done := Bookkeep(old(processedSegments), segs[i + 1..], processAll);
        assert processedSegments == done.0 && arr[i + 1..] == done.1;
        ghost var visit := Visit(processedSegments, segs[i], processAll);
        assert Bookkeep(old(processedSegments), segs[i..], processAll)
            == (visit.0, if visit.1 then [segs[i]] + done.1 else done.1);
        var segIdx := FindIndex(processedSegments, arr[i].id);
        if segIdx > -1 {
          if arr[i].updatedOn > processedSegments[segIdx].updatedOn {
            processedSegments := processedSegments[segIdx := processedSegments[segIdx].(updatedOn := arr[i].updatedOn)];
          } else if !processAll {
            arr := arr[..i] + arr[i + 1..];
          }
        } else {
          processedSegments := processedSegments + [Entry(arr[i].id, arr[i].updatedOn)];
        }
        assert arr[..i] == segs[..i];
        assert arr[i..] == if visit.1 then [segs[i]] + done.1 else done.1;
      }
      assert segs[0..] == segs;
      BookkeepEveryIdOnce(old(processedSegments), segs, processAll);
    }

    /** `processEvent(evt)` for the events that touch the list.
        `segsWithHNs` is the editor's segments that have house numbers. A
        `zoomend` below the threshold empties the list (and the layers); at
        or above it, the segments are processed only when the list is
        empty. `afteraction` and `afterundoaction` carrying a house-number
        action (`houseNumberAction`) redraw that number's line and call
        `setMarkersEvents`, which reprocesses every segment when house
        numbers are not being edited. */
    method ProcessEvent(evt: Option<Event>, zoom: int, segsWithHNs: seq<Segment>,
                        houseNumberAction: bool, editingHouseNumbers: bool, markerLayerExists: bool)
      returns (fetchIds: Option<seq<int>>)
      requires Valid()
      modifies this
      ensures Valid()
      ensures settings == old(settings)
      ensures evt == Some(ZoomEndEvent) && zoom < settings.disableBelowZoom ==>
                processedSegments == [] && fetchIds == None
      ensures evt == Some(ZoomEndEvent) && zoom >= settings.disableBelowZoom && old(processedSegments) != [] ==>
                processedSegments == old(processedSegments) && fetchIds == None
      ensures evt == Some(ZoomEndEvent) && zoom >= settings.disableBelowZoom && old(processedSegments) == [] ==>
                (processedSegments, fetchIds)
                == ProcessSegsEffect([], ZoomEnd, Some(segsWithHNs), zoom, settings.disableBelowZoom, false)
      ensures evt == Some(AfterClearActions) || evt == Some(NoActions) ==>
                (processedSegments, fetchIds)
                == ProcessSegsEffect(old(processedSegments), ExitHouseNumbers, Some(segsWithHNs), zoom, settings.disableBelowZoom, false)
      ensures (evt == Some(AfterAction) || evt == Some(AfterUndoAction)) && houseNumberAction ==>
                (processedSegments, fetchIds)
                == SetMarkersEventsEffect(old(processedSegments), editingHouseNumbers, markerLayerExists,
                                          zoom, settings.disableBelowZoom, segsWithHNs)
      ensures evt.None? || ((evt == Some(AfterAction) || evt == Some(AfterUndoAction)) && !houseNumberAction) ==>
                processedSegments == old(processedSegments) && fetchIds == None
    {
      fetchIds := None;
      if evt.None? {
        return;
      }
      match evt.value
      case ZoomEndEvent =>
        if zoom < settings.disableBelowZoom {
          processedSegments := [];
        } else if |processedSegments| == 0 {
          fetchIds := ProcessSegs(ZoomEnd, Some(segsWithHNs), zoom, false);
        }
      case AfterClearActions =>
        fetchIds := ProcessSegs(ExitHouseNumbers, Some(segsWithHNs), zoom, false);
      case NoActions =>
        fetchIds := ProcessSegs(ExitHouseNumbers, Some(segsWithHNs), zoom, false);
      case AfterAction =>
        if houseNumberAction {
          fetchIds := SetMarkersEvents(editingHouseNumbers, markerLayerExists, zoom, segsWithHNs);
        }
      case AfterUndoAction =>
        if houseNumberAction {
          fetchIds := SetMarkersEvents(editingHouseNumbers, markerLayerExists, zoom, segsWithHNs);
        }
    }

    /** `setMarkersEvents`: while house numbers are edited it only
        (re)registers the marker handlers; otherwise, when the marker layer
        exists, it unregisters them and processes every segment with
        `processAll` set. */
    method SetMarkersEvents(editingHouseNumbers: bool, markerLayerExists: bool, zoom: int, segsWithHNs: seq<Segment>)
      returns (fetchIds: Option<seq<int>>)
      requires Valid()
      modifies this
      ensures Valid()
      ensures settings == old(settings)
      ensures (processedSegments, fetchIds)
           == SetMarkersEventsEffect(old(processedSegments), editingHouseNumbers, markerLayerExists,
                                     zoom, settings.disableBelowZoom, segsWithHNs)
    {
      fetchIds := None;
      if !editingHouseNumbers && markerLayerExists {
        fetchIds := ProcessSegs(ExitHouseNumbers, Some(segsWithHNs), zoom, true);
      }
    }

    /** `hnLayerToggled(checked)`: records the lines layer's visibility,
        asks for a save, and processes the segments when the layer is
        switched on. */
    method ToggleLinesLayer(checked: bool, zoom: int, segsWithHNs: seq<Segment>)
      returns (save: bool, fetchIds: Option<seq<int>>)
      requires Valid()
      modifies this
      ensures Valid()
      ensures settings == old(settings).(hnLines := checked)
      ensures save
      ensures checked ==>
                (processedSegments, fetchIds)
                == ProcessSegsEffect(old(processedSegments), SegmentCache.HnLayerToggled, Some(segsWithHNs),
                                     zoom, settings.disableBelowZoom, false)
      ensures !checked ==> processedSegments == old(processedSegments) && fetchIds == None
    {
      settings := settings.(hnLines := checked);
      save := true;
      fetchIds := None;
      if checked {
        fetchIds := ProcessSegs(SegmentCache.HnLayerToggled, Some(segsWithHNs), zoom, false);
      }
    }

    /** `hnNumbersLayerToggled(checked)`: the same for the numbers layer. */
    method ToggleNumbersLayer(checked: bool, zoom: int, segsWithHNs: seq<Segment>)
      returns (save: bool, fetchIds: Option<seq<int>>)
      requires Valid()
      modifies this
      ensures Valid()
      ensures settings == old(settings).(hnNumbers := checked)
      ensures save
      ensures checked ==>
                (processedSegments, fetchIds)
                == ProcessSegsEffect(old(processedSegments), SegmentCache.HnNumbersLayerToggled, Some(segsWithHNs),
                                     zoom, settings.disableBelowZoom, false)
      ensures !checked ==> processedSegments == old(processedSegments) && fetchIds == None
    {
      settings := settings.(hnNumbers := checked);
      save := true;
      fetchIds := None;
      if checked {
        fetchIds := ProcessSegs(SegmentCache.HnNumbersLayerToggled, Some(segsWithHNs), zoom, false);
      }
    }

    /** The `reloadData` handler: forgets every processed segment. */
    method ReloadData()
      modifies this
      ensures Valid()
      ensures settings == old(settings) && processedSegments == []
    {
      processedSegments := [];
    }

    /** `checkShortcutsChanged`: stores the text of each action's current
        shortcut (`bound`) and tells whether a save is due, which is exactly
        when some stored text changed. */
    method CheckShortcutsChanged(bound: ShortcutAction -> Option<Shortcut>) returns (triggerSave: bool)
      modifies this
      ensures processedSegments == old(processedSegments)
      ensures settings.toggleHNNavPointsShortcut == EncodeShortcut(bound(ToggleNavPoints))
      ensures settings.toggleHNNavPointsNumbersShortcut == EncodeShortcut(bound(ToggleNavPointsNumbers))
      ensures SameButShortcuts(settings, old(settings))
      ensures triggerSave <==> settings != old(settings)
    {
      triggerSave := false;
      var actions := [ToggleNavPoints, ToggleNavPointsNumbers];
      for n := 0 to |actions|
        invariant processedSegments == old(processedSegments)
        invariant settings.toggleHNNavPointsShortcut ==
          if n > 0 then EncodeShortcut(bound(ToggleNavPoints)) else old(settings).toggleHNNavPointsShortcut
        invariant settings.toggleHNNavPointsNumbersShortcut ==
          if n > 1 then EncodeShortcut(bound(ToggleNavPointsNumbers)) else old(settings).toggleHNNavPointsNumbersShortcut
        invariant SameButShortcuts(settings, old(settings))
        invariant triggerSave <==> settings != old(settings)
      {
        var k := actions[n];
        var keys := EncodeShortcut(bound(k));
        if StoredShortcut(settings, k) != keys {
          settings := WithShortcut(settings, k, keys);
          triggerSave := true;
        }
      }
    }

    /** The change handler of the zoom-threshold field, given the integer
        typed in: the setting becomes the clamped value; a save is due and
        the field is rewritten to the clamped value only when the setting
        changes. `shown` is what the field shows afterwards. */
    method ChangeDisableBelowZoom(input: int) returns (save: bool, shown: int)
      modifies this
      ensures processedSegments == old(processedSegments)
      ensures settings == old(settings).(disableBelowZoom := ClampZoom(input))
      ensures save <==> ClampZoom(input) != old(settings).disableBelowZoom
      ensures shown == if save then ClampZoom(input) else input
    {
      var newVal := ClampZoom(input);
      save, shown := false, input;
      if newVal != settings.disableBelowZoom {
        if newVal != input {
          shown := newVal;
        }
        settings := settings.(disableBelowZoom := newVal);
        save := true;
      }
    }
  }
}
