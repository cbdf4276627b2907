/**
 Properties of the toggle store that relate several operations: what a fresh
 store answers, how reloads replace rather than merge, and how the
 availability rule responds to the threshold and to the sample.
 */
module ToggleProperties {
  import opened Toggles

  /** A fresh store is unloaded and refuses every toggle for every sample. */
  lemma DefaultRefusesAll(name: Name, sample: real)
    ensures !Default().loaded
    ensures Default().toggles.Keys == {}
    ensures !IsAvailable(Default(), name, sample)
  {
  }

  /** After a reload a toggle is on exactly when it is in the parsed file and the sample does not exceed its value. */
  lemma AvailableAfterUpdate(data: ToggleData, parsed: map<Name, Item>, name: Name, sample: real)
    ensures IsAvailable(Update(data, parsed), name, sample)
        <==> name in parsed && sample <= parsed[name].value
  {
  }

  /** Reloading the same parsed file twice leaves the store as one reload does. */
  lemma UpdateIdempotent(data: ToggleData, parsed: map<Name, Item>)
    ensures Update(Update(data, parsed), parsed) == Update(data, parsed)
  {
  }

  /** A reload forgets the previous store entirely: the outcome does not depend on it. */
  lemma UpdateForgetsPrevious(d1: ToggleData, d2: ToggleData, parsed: map<Name, Item>)
    ensures Update(d1, parsed) == Update(d2, parsed)
  {
  }

  /** Two parsed files that agree on names and values give the same store, whatever their descriptions. */
  lemma DescriptionIrrelevant(data: ToggleData, p: map<Name, Item>, q: map<Name, Item>)
    requires p.Keys == q.Keys
    requires forall n :: n in p ==> p[n].value == q[n].value
    ensures Update(data, p) == Update(data, q)
  {
  }

  /** Filling in the "NO_DESCRIPTION" default for every entry leaves the reload unchanged. */
  lemma DefaultDescriptionIrrelevant(data: ToggleData, parsed: map<Name, Item>)
    ensures Update(data, parsed)
         == Update(data, map n | n in parsed :: Item(parsed[n].value, Some(Describe(parsed[n]))))
  {
    var filled := map n | n in parsed :: Item(parsed[n].value, Some(Describe(parsed[n])));
    DescriptionIrrelevant(data, parsed, filled);
  }

  /** After one or more reloads only the last parsed file matters. */
  lemma {:induction false} LastReloadWins(data: ToggleData, loads: seq<map<Name, Item>>)
    requires |loads| > 0
    decreases |loads|
    ensures ApplyAll(data, loads) == Update(Default(), loads[|loads| - 1])
  {
    if |loads| == 1 {
      UpdateForgetsPrevious(data, Default(), loads[0]);
    } else {
      LastReloadWins(Update(data, loads[0]), loads[1..]);
      assert loads[1..][|loads[1..]| - 1] == loads[|loads| - 1];
    }
  }

  /** A sample equal to the threshold makes the toggle available: the boundary is inclusive. */
  lemma BoundaryInclusive(data: ToggleData, name: Name)
    requires name in data.toggles
    ensures IsAvailable(data, name, data.toggles[name])
  {
  }

  /** Raising a toggle's threshold never turns it off for a given sample. */
  lemma MonotoneInThreshold(d1: ToggleData, d2: ToggleData, name: Name, sample: real)
    requires name in d1.toggles && name in d2.toggles
    requires d1.toggles[name] <= d2.toggles[name]
    ensures IsAvailable(d1, name, sample) ==> IsAvailable(d2, name, sample)
  {
  }

  /** Lowering the sample never turns a toggle off. */
  lemma MonotoneInSample(data: ToggleData, name: Name, s1: real, s2: real)
    requires s1 <= s2
    ensures IsAvailable(data, name, s2) ==> IsAvailable(data, name, s1)
  {
  }

  /** For samples in [0, 1), a threshold of at least 1 is always on and a negative one is always off. */
  lemma SaturatedThresholds(data: ToggleData, name: Name, sample: real)
    requires 0.0 <= sample < 1.0
    requires name in data.toggles
    ensures data.toggles[name] >= 1.0 ==> IsAvailable(data, name, sample)
    ensures data.toggles[name] < 0.0 ==> !IsAvailable(data, name, sample)
  {
  }

  /** A threshold of 0 is not always off: the sample 0, which the generator can draw, turns it on. */
  lemma ZeroThresholdOnAtZeroSample(data: ToggleData, name: Name)
    requires name in data.toggles && data.toggles[name] == 0.0
    ensures IsAvailable(data, name, 0.0)
    ensures forall sample :: sample > 0.0 ==> !IsAvailable(data, name, sample)
  {
  }
}
