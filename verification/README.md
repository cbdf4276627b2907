# Runtime toggles: the toggle store and its evaluation rule

This project models the core of a small Rust library for probabilistic
feature toggles. A configuration file maps each toggle name to a threshold
(and an optional description). The library keeps the thresholds in a store,
`ToggleData`, which also records whether a load has happened (`loaded`). A
reload replaces the whole map with the thresholds of the freshly parsed file.
A query `is_available(name)` draws a random sample in [0, 1) and answers
"on" when the name is present and the sample does not exceed its threshold,
"off" when the name is absent.

The model is functional. `Toggles.ToggleData` is an immutable value: a
`map<string, real>` plus a `bool`. The reload is the pure function
`Toggles.Update`, and the iterative collection the library performs is the
method `Toggles.UpdateValues`, proved equal to it. The parsed configuration
(`map<Name, Item>`, the library's `YamlToggleItem` per name) and the random
sample are parameters. `Toggles.IsAvailable` is the evaluation rule.
`ToggleProperties` holds the lemmas that relate these operations.

Thresholds and samples are `real`. The library stores them as `f32`, but it
only copies and compares them and never computes with them.

Two consequences of the code are worth stating, and the lemmas prove them:

- The comparison is inclusive (`sample <= threshold`). A sample equal to the
  threshold turns the toggle on.
- A threshold of `0.0` is therefore not "always off". The generator can
  draw exactly `0.0`, and that sample turns such a toggle on. Every positive
  sample leaves it off.

## Model

| member | source | states |
|---|---|---|
| `ToggleProperties.DefaultRefusesAll` | src/lib.rs:21-28 | A new store is not loaded and holds no toggles, so it answers "off" for every name and sample. |
| `Toggles.Update` | src/lib.rs:31-46 | A reload marks the store loaded. It makes the store's names exactly the parsed names, each with its parsed value. Names only in the previous store are dropped: it replaces and does not merge. |
| `Toggles.UpdateValues` | src/lib.rs:31-45 | Walking the parsed entries in any order and collecting name and value gives exactly the parsed names with their values, and the flag set; the result equals `Update`. |
| `Toggles.Describe` | src/lib.rs:42 | The description shown for an entry is its own description when it has one, and "NO_DESCRIPTION" when it has none. |
| `Toggles.ApplyAll` | src/lib.rs:64-85 | Applying no reloads leaves the store as it was. After one or more reloads (the one in `start`, then one per content-change event) the store is loaded and its names are exactly those of the last parsed file. |
| `Toggles.Lookup` | src/lib.rs:90 | Looking a name up yields a value exactly when the name is in the store, and that value is its stored threshold. |
| `Toggles.IsAvailable` | src/lib.rs:87-95 | An absent name is off for every sample. A present name is on exactly when the sample is at most its threshold. |
| `ToggleProperties.AvailableAfterUpdate` | src/lib.rs:41-45 | After a reload, a toggle is on exactly when it is in the parsed file and the sample is at most its parsed value. |
| `ToggleProperties.UpdateIdempotent` | src/lib.rs:31-46 | Applying the same parsed file twice gives the same store as applying it once. |
| `ToggleProperties.UpdateForgetsPrevious` | src/lib.rs:41-45 | The store after a reload does not depend on the store before it. |
| `ToggleProperties.DescriptionIrrelevant` | src/lib.rs:42-44 | Two parsed files with the same names and values give the same store, whatever their descriptions. |
| `ToggleProperties.DefaultDescriptionIrrelevant` | src/lib.rs:42 | Replacing every missing description by the "NO_DESCRIPTION" default does not change the reloaded store. |
| `ToggleProperties.LastReloadWins` | src/lib.rs:31-46 | After one or more reloads the store equals a single reload of the last parsed file into a new store. |
| `ToggleProperties.BoundaryInclusive` | src/lib.rs:92 | A sample equal to a present toggle's threshold makes the toggle available. |
| `ToggleProperties.MonotoneInThreshold` | src/lib.rs:87-95 | If a toggle is on for a sample at one threshold, it is on for that sample at any higher threshold. |
| `ToggleProperties.MonotoneInSample` | src/lib.rs:87-95 | If a toggle is on for a sample, it is on for every smaller sample. |
| `ToggleProperties.SaturatedThresholds` | src/lib.rs:88-92 | For samples in [0, 1), a present toggle with threshold at least 1 is always on, and one with a negative threshold is always off. |
| `ToggleProperties.ZeroThresholdOnAtZeroSample` | src/lib.rs:88-92 | A toggle with threshold 0 is on for the sample 0 and off for every positive sample. |

## Left out

- File open, read and YAML parsing (src/lib.rs:33-39): I/O and the YAML library. The parsed name-to-item map is an input of `Update`.
- Failure of the open, read or parse (src/lib.rs:35,37,39): the library panics and has no recovery, so there is no "keep the previous set on a failed reload" path to model. `loaded` is set before the read, so a panicking reload would leave it true; the model has no partial reload.
- The change watcher and its callback (src/lib.rs:58, 64-79): the `notify` watcher itself, the callback's own match that reloads only on `Modify(Data(Content))` events (src/lib.rs:71), and `Arc`, `Mutex` and `RwLock`. These are concurrency, events delivered by a foreign library, and locking. Each reload the watcher triggers is one application of `Update`, and `ApplyAll` covers a sequence of them.
- Toggles.IsAvailable: the model has no poisoned-lock state. A failed reload panics while the write guard is held (src/lib.rs:72 in the callback, src/lib.rs:82 in `start`), which poisons the lock. From then on every `is_available` panics at `self.data.read().unwrap()` (src/lib.rs:89) instead of answering, and every later reload panics at src/lib.rs:72. The fail-closed answer therefore holds in the library only until a reload fails.
- `Toggle::start` (src/lib.rs:81-85): it runs one reload under the write lock and registers the watch. Only the reload is modelled (`Update`). Each call reloads and registers again, so `start` is not idempotent and no such claim is made.
- The random draw `thread_rng().gen()` (src/lib.rs:88): randomness. The sample is a parameter of `IsAvailable`; lemmas that need its range assume [0, 1).
- `f32` details: rounding, and NaN thresholds (for which `r <= v` is false). Thresholds are `real`.
- The `println!` logging (src/lib.rs:43). `Describe` models the description it prints, with the "NO_DESCRIPTION" default.
- Read-only evaluation (src/lib.rs:87-95): `IsAvailable` is a pure function of the store value and returns no new store, so it cannot change the store. No separate lemma states this.
- The `loaded` flag is written but never read in src/lib.rs. The model keeps it and states how each operation sets it.
- src/main.rs: a demo loop that sleeps and prints. It calls `Toggles::new_with_duration` and `Toggles::start`, which src/lib.rs does not define.
