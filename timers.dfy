/** The script's `_timeouts` object: the handles of the timers it has
    scheduled, so that a pending one can be cancelled before it is
    replaced. Scheduling and firing belong to the browser and are not
    modelled; only the bookkeeping of the handles is. */
module Timers {
  import opened Options

  /** A handle returned by `window.setTimeout` (a positive integer). */
  type TimerId = n: nat | n > 0 witness 1

  /** The properties of `_timeouts`. */
  datatype Slot = Bootstrap | ObserveRemovedLine | SaveSettingsToStorage | SetMarkerEvents

  class Timeouts {
    var bootstrap: Option<TimerId>
    /** A table of handles keyed by a random index; `None` stands for the
        property having been set to `undefined`. */
    var observeRemovedLine: Option<map<string, TimerId>>
    var saveSettingsToStorage: Option<TimerId>
    var setMarkerEvents: Option<TimerId>

    /** The object literal the script starts with. */
    constructor()
      ensures bootstrap == None && saveSettingsToStorage == None && setMarkerEvents == None
      ensures observeRemovedLine == Some(map[])
    {
      bootstrap := None;
      observeRemovedLine := Some(map[]);
      saveSettingsToStorage := None;
      setMarkerEvents := None;
    }

    /** `_timeouts.<slot> = setTimeout(...)`, or for `observeRemovedLine`
        `_timeouts.observeRemovedLine[toIndex] = setTimeout(...)`. The
        latter fails (JavaScript throws) when the table has been set to
        `undefined`; `ok` tells. */
    method Schedule(slot: Slot, toIndex: string, timer: TimerId) returns (ok: bool)
      modifies this
      ensures ok == (slot != ObserveRemovedLine || old(observeRemovedLine).Some?)
      ensures bootstrap == if slot == Bootstrap then Some(timer) else old(bootstrap)
      ensures saveSettingsToStorage == if slot == SaveSettingsToStorage then Some(timer) else old(saveSettingsToStorage)
      ensures setMarkerEvents == if slot == SetMarkerEvents then Some(timer) else old(setMarkerEvents)
      ensures observeRemovedLine ==
        if slot == ObserveRemovedLine && ok then Some(old(observeRemovedLine).value[toIndex := timer])
        else old(observeRemovedLine)
    {
      ok := true;
      match slot
      case Bootstrap => bootstrap := Some(timer);
      case SaveSettingsToStorage => saveSettingsToStorage := Some(timer);
      case SetMarkerEvents => setMarkerEvents := Some(timer);
      case ObserveRemovedLine =>
        if observeRemovedLine.Some? {
          observeRemovedLine := Some(observeRemovedLine.value[toIndex := timer]);
        } else {
          ok := false;
        }
    }

    /** The handle held in a slot that holds a single handle. */
    function Single(slot: Slot): Option<TimerId>
      reads this
    {
      match slot
      case Bootstrap => bootstrap
      case SaveSettingsToStorage => saveSettingsToStorage
      case SetMarkerEvents => setMarkerEvents
      case ObserveRemovedLine => None
    }

    /** `checkTimeout({timeout: slot, toIndex})`: cancels the pending timer
        of one slot and forgets it; `cleared` is the timer it cancels.
        With a non-empty index (JavaScript's truthy) only the indexed
        handle of the `observeRemovedLine` table is affected, and nothing
        happens for the other slots. Without one the whole slot is set to
        `undefined`; for the table that cancels nothing. */
    method CheckTimeout(slot: Slot, toIndex: Option<string>) returns (cleared: Option<TimerId>)
      modifies this
      ensures toIndex.Some? && toIndex.value != "" ==>
        if slot == ObserveRemovedLine && old(observeRemovedLine).Some?
           && toIndex.value in old(observeRemovedLine).value
        then
          && cleared == Some(old(observeRemovedLine).value[toIndex.value])
          && observeRemovedLine == Some(old(observeRemovedLine).value - {toIndex.value})
          && bootstrap == old(bootstrap) && saveSettingsToStorage == old(saveSettingsToStorage)
          && setMarkerEvents == old(setMarkerEvents)
        else cleared == None && unchanged(this)
      ensures !(toIndex.Some? && toIndex.value != "") ==>
        && cleared == old(Single(slot))
        && bootstrap == (if slot == Bootstrap then None else old(bootstrap))
        && saveSettingsToStorage == (if slot == SaveSettingsToStorage then None else old(saveSettingsToStorage))
        && setMarkerEvents == (if slot == SetMarkerEvents then None else old(setMarkerEvents))
        && observeRemovedLine == (if slot == ObserveRemovedLine then None else old(observeRemovedLine))
    {
      cleared := None;
      if toIndex.Some? && toIndex.value != "" {
        var index := toIndex.value;
        if slot == ObserveRemovedLine && observeRemovedLine.Some? && index in observeRemovedLine.value {
          cleared := Some(observeRemovedLine.value[index]);
          observeRemovedLine := Some(observeRemovedLine.value - {index});
        }
      } else {
        cleared := Single(slot);
        match slot
        case Bootstrap => bootstrap := None;
        case SaveSettingsToStorage => saveSettingsToStorage := None;
        case SetMarkerEvents => setMarkerEvents := None;
        case ObserveRemovedLine => observeRemovedLine := None;
      }
    }
  }
}
