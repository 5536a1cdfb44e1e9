# quickcfg convergence core in Dafny

This project models two parts of quickcfg, a declarative system-configuration tool.

**The hierarchy (`src/hierarchy.rs`).** `Data` is an ordered list of YAML mappings called layers. It supports two kinds of lookup:

- `load` is an override lookup: the first layer that has the key wins.
- `load_array` is a merge lookup: the sequences of every layer that has the key are joined in layer order.
- `load_or_default` is `load` with absence replaced by a default.

`load_from_spec` reads a `quickcfg:` directive line from the first five lines of a text. Each entry on that line is resolved by plain lookup, array merge or environment read. The loader `load` builds the layers from templates: a template that renders to no path is skipped, and the first failure aborts the whole load.

**The convergence ledger (`src/state.rs`).** The ledger records three things:

- `last_update`: when each named thing was last updated.
- `once`: which one-time actions have run.
- `hashes`: the fingerprint last stored for each hashed item.

A `dirty` flag says whether the ledger must be written back. `DiskState` is the persisted form of the ledger.

Files:

- `wrappers.dfy` (module `Wrappers`): `Option`, `Result`, and `ConcatMap`. `ConcatMap` runs a step over a list, joins the results in order and stops at the first error. It is the shape shared by `load_array` and the loader.
- `text.dfy` (module `Text`): the `str` operations the directive parser uses. These are `split` on a character, `find` and `trim` (Unicode White_Space).
- `hierarchy.dfy` (module `Hierarchy`): `Value`, `Layer`, `Data`, the lookups and the loader.
- `directives.dfy` (module `Directives`): `load_from_spec`.
- `ledger.dfy` (module `Ledger`): `DiskState` and the class `State`.

Source form:

- Each lookup is specified by a function: `FirstValue`/`Lookup`, `Merged`, `FromSpec` and `Stages`. A loop method with the source's name is proved equal to that function: `Load`, `LoadArray`, `LoadFromSpec` and `LoadHierarchy`.
- `load_or_default` is a pure function, as it is in the source.
- `Data::new` is the datatype constructor `Data(layers)`, which keeps the given order.
- `State` is a class. Its mutators `modifies this` and state the whole new state.

External inputs become parameters:

- Deserialisation into a caller-chosen type is a decoder `Value -> Option<T>`.
- The process environment is a `map<string, string>`.
- Template rendering (including joining with the root) is a function `render: Tpl -> Result<Option<string>, Error>`.
- Reading and parsing a layer file is a function `loadMapping: string -> Result<Layer, Error>`.
- The clock is a `now: Time` parameter.
- The FxHash fingerprint is a deterministic function `fp: H -> bv64`.

`extend` merges `last_update` and `once` but not `hashes` (src/state.rs:117-119). The model does the same, and `Extend` states that `hashes` is unchanged.

The functions that specify the loops have no contract of their own beyond their definitions; the lemmas about them carry the properties. `Merged` (src/hierarchy.rs:46-61) is characterised by `MergedOk` and `MergedAppend`. `Stages` (src/hierarchy.rs:128-142) is characterised by `StagesSpec` and `SkippedStage`. `Resolve` (src/hierarchy.rs:91-107) is characterised by `ResolvePlain`, `ResolveArray` and `ResolveOtherKinds`. `ResolveAll` (src/hierarchy.rs:77-110) is characterised by the `ResolveAll*` lemmas. `FromSpec` (src/hierarchy.rs:65-116) is characterised by `NoHeaderNoData`, `LinesAfterWindowIgnored` and `FromSpecEntries`.

## Model

| member | source | states |
|---|---|---|
| `Hierarchy.FirstValue` | src/hierarchy.rs:28-34 | none exactly when no layer has the key; otherwise the value of the lowest-index layer that has it |
| `Hierarchy.FirstValueAppend` | src/hierarchy.rs:28-32 | earlier layers win: once a layer in `a` has the key, the layers of `b` are never consulted |
| `Hierarchy.Lookup` | src/hierarchy.rs:22-35 | `load` is `Ok(None)` exactly when no layer has the key; otherwise it is the decoded value of the first layer that has it, or a decoding error |
| `Hierarchy.Load` | src/hierarchy.rs:22-35 | the early-return scan over the layers computes `Lookup` |
| `Hierarchy.LoadOrDefault` | src/hierarchy.rs:38-43 | the default when no layer has the key; the loaded value when one does; the decoding error otherwise |
| `Hierarchy.MergedAppend` | src/hierarchy.rs:46-61 | the merge of `a + b` is the merge of `a` followed by that of `b`, so the result is in layer order; an error in `a` is the one reported |
| `Hierarchy.MergedOk` | src/hierarchy.rs:52-60 | `load_array` succeeds exactly when every layer holding the key decodes as a sequence, and it is empty when no layer has the key |
| `Hierarchy.LoadArray` | src/hierarchy.rs:46-61 | the loop that extends `out` layer by layer computes `Merged` |
| `Hierarchy.LookupExample` | src/hierarchy.rs:167-193 | the unit test's lookups: `foo` is found in the first layer, `bar` in the second, and `missing` defaults to `""` |
| `Hierarchy.MergeExample` | src/hierarchy.rs:195-199 | the unit test's merge: `seq` gives `["item1", "item2"]`, first layer first |
| `Hierarchy.StagesSpec` | src/hierarchy.rs:128-142 | the loader succeeds exactly when every template renders and every rendered path loads; otherwise it fails with the first failure and no layers; templates `a + b` give the layers of `a` then those of `b` |
| `Hierarchy.SkippedStage` | src/hierarchy.rs:129-132 | a template that renders to no path adds no layer |
| `Hierarchy.LoadHierarchy` | src/hierarchy.rs:120-142 | the loop that pushes onto `stages` computes `Stages`; on failure no `Data` is returned |
| `Text.Split` | src/hierarchy.rs:69 | `split` yields at least one piece, and no piece contains the separator |
| `Text.JoinSplit` | src/hierarchy.rs:69 | joining the pieces of `split` with the separator gives back the text |
| `Text.SplitJoin` | src/hierarchy.rs:77 | splitting joined separator-free pieces gives back the pieces |
| `Text.SplitJoinThen` | src/hierarchy.rs:69 | whole lines placed before any text come out of `split` unchanged, followed by the split of the text |
| `Text.Find` | src/hierarchy.rs:70 | `find` returns the first index where the pattern occurs, or none when it occurs nowhere |
| `Text.FindChar` | src/hierarchy.rs:84 | for a one-character pattern, `find` is the first position of that character |
| `Text.Trim` | src/hierarchy.rs:75 | `trim` gives the slice that starts after the leading whitespace, begins and ends with a non-whitespace character, and has only whitespace after it; the result is empty exactly when the text is all whitespace |
| `Directives.ParseDirective` | src/hierarchy.rs:84-91 | `splitn(2, ":")`: the key has no colon, and key, colon and kind put back together give the part |
| `Directives.ParseUnparse` | src/hierarchy.rs:84-91 | parsing the written form of an entry whose key has no colon gives the entry back |
| `Directives.SecondColonBelongsToKind` | src/hierarchy.rs:104-106 | `a:b:c` has key `a` and kind `b:c`, which is rejected as an unknown kind |
| `Directives.ResolvePlain` | src/hierarchy.rs:101-103 | a plain entry takes the value of the first layer that has the key, and is a missing-key error exactly when no layer has it |
| `Directives.ResolveArray` | src/hierarchy.rs:92 | an `array` entry fails exactly when some layer's value for the key is not a sequence; it is the empty sequence when no layer has the key |
| `Directives.ResolveOtherKinds` | src/hierarchy.rs:93-106 | an `env` entry succeeds exactly when the variable is set, and is its value as a string; any other kind is an error naming the part and the kind |
| `Directives.ResolveEntry` | src/hierarchy.rs:91-107 | the `match` on the kind computes `Resolve` |
| `Directives.ResolveAllOk` | src/hierarchy.rs:77-110 | the entries succeed together exactly when each of them resolves |
| `Directives.ResolveAllFirstError` | src/hierarchy.rs:77-110 | when entry `i` is the first that fails, the whole result is its error |
| `Directives.ResolveAllKeys` | src/hierarchy.rs:109 | on success the mapping's keys are the keys it started with plus those of the entries |
| `Directives.ResolveAllLastWins` | src/hierarchy.rs:109 | on success a key holds the value of the last entry with that key |
| `Directives.ResolveAllKept` | src/hierarchy.rs:109 | on success a key that no entry names keeps its value |
| `Directives.Entries` | src/hierarchy.rs:77-83 | there are no more entries than parts, and every part that is not blank after trimming has its parsed entry among them |
| `Directives.EntriesOne` | src/hierarchy.rs:78-83 | a single part gives nothing when it is blank after trimming, and otherwise exactly its parsed entry |
| `Directives.EntriesAppend` | src/hierarchy.rs:77 | the entries of consecutive parts are the entries of each, in the order of the parts; with `EntriesOne` this fixes the whole list |
| `Directives.Window` | src/hierarchy.rs:69 | `take(5)`: at most five lines, a prefix of the lines of the text, and all of them when there are fewer than five |
| `Directives.SpecLine` | src/hierarchy.rs:69-75 | none exactly when no line has the header; otherwise the trimmed rest of the first line that has it, with later lines ignored |
| `Directives.NoHeaderNoData` | src/hierarchy.rs:69-73 | no header in the first five lines gives the empty mapping |
| `Directives.LinesAfterWindowIgnored` | src/hierarchy.rs:69 | text after the fifth line, header lines included, does not change the result |
| `Directives.FromSpecEntries` | src/hierarchy.rs:77-115 | on success the result has exactly one entry per listed key, resolved by that key's last entry |
| `Directives.LoadEntries` | src/hierarchy.rs:77-110 | the loop over the comma parts, inserting into `m`, computes `ResolveAll` of the entries |
| `Directives.LoadFromSpec` | src/hierarchy.rs:65-116 | the nested loops over lines and parts compute `FromSpec` |
| `Ledger.State.constructor` | src/state.rs:46-55 | the default ledger is empty and clean, so it serializes to nothing |
| `Ledger.State.FromDisk` | src/state.rs:33-40 | `to_state` gives a clean ledger holding the snapshot's three maps, so it serializes to nothing |
| `Ledger.State.LastUpdate` | src/state.rs:59-61 | the recorded time of the name, or none when there is none |
| `Ledger.State.Touch` | src/state.rs:64-67 | sets `dirty` and records `now` for the name; other names, `once` and `hashes` are unchanged |
| `Ledger.State.HasRunOnce` | src/state.rs:70-72 | true exactly when the id has a one-time mark |
| `Ledger.State.TouchOnce` | src/state.rs:75-78 | sets `dirty` and marks the id, so `has_run_once` holds for it; other ids and maps are unchanged |
| `Ledger.State.IsHashFresh` | src/state.rs:81-90 | an id with no stored record is not fresh; otherwise fresh exactly when the stored digest is the value's fingerprint |
| `Ledger.State.TouchHash` | src/state.rs:93-108 | sets `dirty` and stores the value's fingerprint and `now`; afterwards a value is fresh for the id exactly when its fingerprint equals the stored one; other maps are unchanged |
| `Ledger.State.Extend` | src/state.rs:111-120 | a clean `other` changes nothing; a dirty one sets `dirty` and merges `last_update` and `once` (`other` wins on shared keys), leaving `hashes` unchanged |
| `Ledger.State.Serialize` | src/state.rs:123-133 | nothing exactly when clean; otherwise the three maps verbatim |
| `Ledger.RoundTrip` | src/state.rs:33-133 | snapshot, then `to_state`, `touch`, `touch_once` and `serialize`: the new snapshot has the touched entries and keeps every untouched one |

## Left out

- `load_mapping` (src/hierarchy.rs:145-159) is the `loadMapping` parameter. File opening and YAML parsing are not modelled, and neither is the check that the document is a mapping.
- Template rendering `render_as_relative_path` and `to_path` (src/hierarchy.rs:129-134) are the `render` parameter. Its result is the full path.
- Deserialisation into arbitrary types is a decoder parameter. Four decoders are given: `AsValue`, `AsSequence`, `AsString` and `AsStrings`. `AsSequence` accepts exactly sequence values. Any other coercion the YAML library performs is not modelled.
- `Hierarchy.AsSequence`: a YAML null under a merged key is a decoding error in the model. The YAML library may instead read a null as an empty sequence, and that behaviour is not captured.
- The YAML value model has no floating-point numbers, no tagged values and no non-string mapping keys. Lookups only ever use string keys.
- YAML mappings keep insertion order; `map` does not. The order of entries in the mapping that `load_from_spec` returns is therefore not modelled.
- `env::var` is a map lookup. Its other failures are not modelled: values that are not valid Unicode, and names the platform rejects.
- Error messages are not modelled, only the kind of error and the key, part or path it names.
- The `missing key` branch at src/hierarchy.rs:88 cannot be reached, because `splitn` always yields a first piece. The model has no such case.
- A key is not trimmed after the split on the colon, just as in the code. So `a : array` has key `a ` and kind ` array`, and is rejected.
- The FxHasher64 algorithm (src/state.rs:87-89, 94-95) is the `fp` parameter. `SystemTime::now()` is the `now` parameter.
- `Ledger.State.IsHashFresh`: the source returns `Result<bool, Error>` but never fails; the model returns the bool. `touch_hash` likewise always returns `Ok(())`, and `TouchHash` returns nothing.
- Ownership is not modelled: `extend` consumes `other` and `serialize` consumes the ledger.
- Serde derive, the persisted file format and `#[serde(default)]` are not modelled. A missing field is simply an empty map in `DiskState`.
- src/command.rs (running processes) and src/lib.rs (module declarations) are not part of this model.
