/**
 The toggle store of the runtime-toggles library: a map from toggle name to
 threshold plus a `loaded` flag, the rule that replaces that map with the
 contents of a freshly parsed configuration, and the rule that decides whether
 a toggle is available for one random sample.

 File reading, YAML parsing and the random draw are not modelled: the parsed
 configuration and the sample are parameters. Thresholds and samples are
 `real`; the library stores them as 32-bit floats and only copies and
 compares them.
 */
module Toggles {

  /** Absent-or-present value, used for lookups and optional descriptions. */
  datatype Option<+T> = None | Some(value: T)

  type Name = string

  /** Text the update step shows in place of a missing description. */
  const NoDescription: string := "NO_DESCRIPTION"

  /** One entry of the configuration file: a threshold and an optional description. */
  datatype Item = Item(value: real, description: Option<string>)

  /** The store: the current name-to-threshold map and whether an update has run. */
  datatype ToggleData = ToggleData(toggles: map<Name, real>, loaded: bool)

  /** The store a new toggle service starts with. */
  function Default(): ToggleData
  {
    ToggleData(map[], false)
  }

  /** The description shown for an entry; it plays no part in the stored threshold. */
  function Describe(item: Item): (r: string)
    ensures item.description.None? ==> r == NoDescription
    ensures item.description.Some? ==> r == item.description.value
  {
    match item.description
    case Some(d) => d
    case None => NoDescription
  }

  /** The threshold of `name` in the store, if it has one. */
  function Lookup(data: ToggleData, name: Name): (r: Option<real>)
    ensures r.Some? <==> name in data.toggles
    ensures r.Some? ==> r.value == data.toggles[name]
  {
    if name in data.toggles then Some(data.toggles[name]) else None
  }

  /**
   The reference definition of one reload: the whole map is replaced by the
   thresholds of the parsed configuration, whatever the store held before,
   and the store is marked loaded.
   */
  function Update(data: ToggleData, parsed: map<Name, Item>): (r: ToggleData)
    ensures r.loaded
    ensures r.toggles.Keys == parsed.Keys
    ensures forall n :: n in parsed ==> r.toggles[n] == parsed[n].value
    ensures forall n :: n in data.toggles && n !in parsed ==> n !in r.toggles
  {
    ToggleData(map n | n in parsed :: parsed[n].value, true)
  }

  /**
   The reload as the library performs it: set `loaded`, then walk the parsed
   entries one at a time in whatever order the map yields them, collecting
   name and threshold into a new map that replaces the old one.
   */
  method UpdateValues(data: ToggleData, parsed: map<Name, Item>) returns (next: ToggleData)
    ensures next.loaded
    ensures next.toggles.Keys == parsed.Keys
    ensures forall n :: n in parsed ==> next.toggles[n] == parsed[n].value
    ensures next == Update(data, parsed)
  {
    var collected: map<Name, real> := map[];
    var remaining := parsed.Keys;
    while remaining != {}
      invariant remaining <= parsed.Keys
      invariant collected.Keys == parsed.Keys - remaining
      invariant forall n :: n in collected ==> collected[n] == parsed[n].value
      decreases remaining
    {
      var name :| name in remaining;
      collected := collected[name := parsed[name].value];
      remaining := remaining - {name};
    }
    next := ToggleData(collected, true);
  }

  /**
   Whether the toggle `name` is on for the random `sample`: an absent name is
   off, a present one is on exactly when the sample does not exceed its
   threshold.
   */
  function IsAvailable(data: ToggleData, name: Name, sample: real): (b: bool)
    ensures name !in data.toggles ==> !b
    ensures name in data.toggles ==> (b <==> sample <= data.toggles[name])
  {
    match Lookup(data, name)
    case Some(threshold) => sample <= threshold
    case None => false
  }

  /**
   The store after a sequence of reloads, applied oldest first: the initial
   reload of `start` followed by one reload per content-change event.
   */
  function ApplyAll(data: ToggleData, loads: seq<map<Name, Item>>): (r: ToggleData)
    decreases |loads|
    ensures |loads| == 0 ==> r == data
    ensures |loads| > 0 ==> r.loaded && r.toggles.Keys == loads[|loads| - 1].Keys
  {
    if |loads| == 0 then data
    else ApplyAll(Update(data, loads[0]), loads[1..])
  }
}
