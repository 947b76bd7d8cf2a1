# clivm registry, modelled in Dafny

clivm is a command-line version manager for arbitrary executables. For each
tool name it keeps a record in a JSON store: the tool's `id`, its list of
registered `versions` in insertion order, and `version`, the index of the
active one. A symlink `~/.clivm/bin/<name>` points at the active version. The
commands are `add`, `switch` (the function `change`), `remove` and `list`.

This project models those commands over two maps:

- `store`: tool name to `Record(id, version, versions)`;
- `links`: tool name to link target, standing for the symlinks in the bin directory.

Modules:

- `Records` (records.dfy): the record and state values; `IndexOf` (JavaScript's `indexOf`) and
  `Splice` (`splice(i, 1)`); the registry invariant; and the effect of each
  command as a pure step function (`AddNext`, `SwitchNext`, `RemoveNext`).
  Under the invariant, every record's active index lies inside its versions
  and the record's link targets the active version.
- `Properties` (properties.dfy): lemmas about each step. They cover the
  created or appended record, the first-occurrence switch, and the three
  removal cases. They prove that `add` and `switch` keep the invariant.
  They characterise exactly when `remove` keeps it.
- `Listing` (listing.dfy): what `list` prints, and the lemmas about which
  records it selects and which line it marks.
- `Clivm` (registry.dfy): the class `Registry`, whose fields `store` and
  `links` the command methods update in place. The methods mirror the
  source step by step: `push`, `splice`, `update` as remove-then-add, and
  `createSimlink` as remove-then-create. Each one ensures that the new state
  equals the step function applied to the old state. `Add` and `Change`
  ensure that the invariant is kept. `Remove` ensures that it is kept
  whenever the removed entry is not below the active index.
- `Suggest` (suggest.dfy): the prefix filters that feed the prompts.
- `Cli` (cli.dfy): the argument dispatch, with its quirks.

`remove` is modelled as the code is written. When the removed entry lies
below the active index, the index is not decremented.
`Properties.RemoveBelowActive` shows that the invariant then survives only
when the entry after the active one repeats the active version. For example,
with versions `[a, b]` and `b` active, removing `a` leaves versions `[b]`
with active index 1 (`Properties.RemoveCanBreakInvariant`). One would expect
the index to be decremented, so that it keeps naming the same version. The
code at index.js:151 handles only the case where the removed entry is the
active one.

Two further behaviours of the code are kept as written:

- `list all` on an empty store reports "No entries found" and exits with
  code 1, as an unknown name does (index.js:46-51).
- Switching or removing a version that the record does not hold only prints
  "This version does not exist!". Nothing changes, and the exit code is not
  set (index.js:75-77, 161-163).

## Model

| member | source | states |
|---|---|---|
| Suggest.StartsWith | index.js:61 | the prompt filter's test `s.slice(0, input.length) === input` holds exactly when `input` is a prefix of `s` (it is false when `input` is longer than `s`) |
| Suggest.SuggestVersions | index.js:60-63 | the version suggestions are exactly the versions with the typed prefix: each one keeps its multiplicity, and they come in stored order (a subsequence); the same filter appears again at index.js:138-141 |
| Suggest.SuggestClis | index.js:98-102 | the tool-name suggestions always contain the typed input. Every other id occurs exactly as often as in the ids when it has the typed prefix, and not at all otherwise. The input occurs as often as among the ids, or once when it is not an id. When the input is an id, the result is an order-preserving filter of the ids; otherwise the input is appended last |
| Records.IndexOf | index.js:67 | `indexOf` gives -1 exactly when the value is absent; otherwise it gives a position holding the value with no earlier occurrence |
| Records.Splice | index.js:147 | `splice(index, 1)` removes exactly one element (the multiset loses it); the earlier elements keep their positions and the later ones move down by one |
| Properties.AddCreates | index.js:112-119 | adding to an unknown name creates exactly `{id: name, version: 0, versions: [v]}` and the link `name -> v`; every other record and link is unchanged |
| Properties.AddAppends | index.js:106-111 | adding to a known name appends `v` at the end, with no deduplication; the active index, all links and all other records are unchanged |
| Properties.AddKeepsInvariant | index.js:92-123 | `add` keeps the registry invariant (one link per record, active index in range, link at the active version) |
| Properties.SwitchFailureChangesNothing | index.js:56-77 | switching on an unknown name, or to a version the record does not hold, leaves store and links unchanged |
| Properties.SwitchToHeldVersion | index.js:66-74 | switching to a held version makes its first occurrence the active index and links `name` to it; every other record and link is unchanged |
| Properties.SwitchKeepsInvariant | index.js:56-80 | `change` keeps the registry invariant |
| Properties.RemoveFailureChangesNothing | index.js:125-163 | removing from an unknown name, or a version a multi-version record does not hold, changes nothing |
| Properties.RemoveLastVersion | index.js:129-136 | on a record with one version, `remove` deletes the record and its link whatever version was asked for; everything else is unchanged |
| Properties.RemoveActiveFallsBack | index.js:145-157 | removing the entry at the active index deletes exactly that element; the active index becomes 0 and the link targets the new first version |
| Properties.RemoveInactive | index.js:145-157 | removing a non-active entry deletes exactly its first occurrence and keeps the others in order; the active index stays numerically the same and the links are untouched |
| Properties.RemoveKeepsInvariantFromActiveOn | index.js:125-167 | `remove` keeps the invariant when it deletes the whole record, or when the removed entry is at or after the active index |
| Properties.RemoveBelowActive | index.js:145-157 | when an entry below the active index is removed, the index keeps its number and the link keeps its target; the invariant then holds if and only if the next entry exists and equals the old active version |
| Properties.RemoveCanBreakInvariant | index.js:151-155 | with versions `[a, b]` and `b` active, removing `a` yields versions `[b]` with active index 1, which breaks the invariant |
| Properties.StepsKeepRecordsNonEmpty | index.js:129-136 | no command leaves a record with an empty version list |
| Listing.RenderLines | index.js:34-41 | the inner loop of `list` prints one line per version, numbered from 1, marked when its position equals the active index |
| Listing.OneActiveMarker | index.js:35-40 | exactly one line is marked, and it shows the active version, when the active index is in range; otherwise no line is marked |
| Listing.SelectedAll | index.js:30-44 | `list all` prints every record, in the order the store lists them |
| Listing.SelectedByName | index.js:30-44 | `list <name>` prints only records with that id, and prints something exactly when one exists |
| Listing.SelectedSingle | index.js:30-44 | when exactly one record has the id, `list <name>` prints that record alone |
| Listing.ListingOfStore | index.js:19-53 | over the whole store: `list all` reports "No entries found" exactly when the store is empty; `list <name>` prints the record of `name` alone, or reports "No entries found for name" (with no name for the empty, falsy, name) |
| Clivm.Registry.constructor | index.js:13-17 | a fresh registry has an empty store and no links, and satisfies the invariant |
| Clivm.Registry.RemoveSymlink | index.js:82-84 | deletes the link of `name` and nothing else |
| Clivm.Registry.CreateSymlink | index.js:86-90 | replaces the link of `name` with one targeting `version`; the store is untouched |
| Clivm.Registry.Update | index.js:185-193 | overwrites the record filed under `rec.id` with `rec`; nothing else changes |
| Clivm.Registry.Add | index.js:92-123 | reports Created or Appended, according to whether the name was known; the new state is `AddNext` of the old one; keeps the invariant |
| Clivm.Registry.Change | index.js:56-80 | reports NotFound, VersionMissing or Switched(first index); the new state is `SwitchNext` of the old one; keeps the invariant |
| Clivm.Registry.Remove | index.js:125-167 | reports NotFound, RemovedTool, VersionMissing or RemovedVersion(first index); the new state is `RemoveNext` of the old one; never leaves an empty record; keeps the invariant when the removed index is not below the active one |
| Clivm.Registry.List | index.js:24-54 | walks the records in store order (each stored name once) with the `entryFound` flag; the result is the printed blocks, or "No entries found" (without a name for `all` or the empty name) |
| Cli.Dispatch | index.js:195-228 | `list`/`ls` anywhere selects list, with `argv[1]` as the name when there are exactly two arguments and `all` otherwise. Switch, add and remove are chosen exactly when their word occurs, no earlier command word occurs, and there are exactly two arguments; each takes the second argument. The version is shown exactly when `-v`/`--version` occurs and no command word does |
| Cli.DispatchIgnoresPositions | index.js:196 | outside the two-argument case, only which words occur matters, not their positions |
| Cli.ListDefaultsToAll | index.js:198-203 | `list` with no argument, or with too many, lists all tools |
| Cli.UpperCaseVShowsHelp | index.js:222-223 | `-V`, the flag the help text advertises, shows help; lower-case `-v` shows the version |
| Cli.CommandWordInSecondPlace | index.js:196-221 | a command word in second position is still found, and becomes the argument itself: `1.0 add` adds the version `add` |

## Left out

- The interactive prompts (`cli-autocomplete`), with their cursor and event callbacks: the value a user would submit is an explicit `name` or `version` argument. The suggestion lists the prompts show are modelled in `Suggest`.
- The shell commands behind the links (`rm`, `mkdir -p`, `ln -s`) run asynchronously and are not awaited. Each link change is modelled as one write to the `links` map, and the race between the three commands is not modelled.
- The link commands are shell command lines built from the tool name and the version without quoting, and their failures are ignored (index.js:83, 89). The model assumes that each link command does what it is meant to do. A name or version that contains whitespace or shell metacharacters is outside the model: for such a version `ln -s` fails and no link is made, and for such a name `rm` may delete other files.
- `json-fs-store` internals: files, JSON encoding, and crash atomicity of `update`'s remove-then-add. The store is a map, and `Update` performs its two writes back to back.
- The order in which the store lists its records is the file system's. `Clivm.Registry.List` receives it as the parameter `order`.
- Store failures (`if (err) throw err`) are not modelled: the map operations cannot fail. `Clivm.Registry.Update` requires that the record exists, because `store.remove` would throw otherwise.
- Clivm.Registry.Add, Clivm.Registry.Change, Clivm.Registry.Remove: require `Keyed(store)`, so every record is filed under its own id. The store names each file after the record's id, so only a hand-edited store breaks this. `update` writes under the record's id, while the commands look records up by name.
- Console output, colours, `process.exit` and exit codes are not modelled; "No entries found" and "This version does not exist!" appear as outcomes. `showVersion` (reading package.json) and `showHelp` are not modelled either: their text only appears as the `ShowVersion`/`ShowHelp` commands.
- setup.js and install.js are not part of this model: they patch shell profiles (file reads and appends, `source`, directory creation, a multiselect prompt).
- Strings are sequences of characters. JavaScript's UTF-16 code units and locale behaviour are not modelled.
