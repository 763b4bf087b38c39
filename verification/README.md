# Helix registers, modelled in Dafny

This project models the register store of the Helix editor
(`helix-view/src/register.rs`): the per-name yank history, the routing of the
special register names, and the synchronisation of the `+` and `*` registers
with the external clipboard.

- `RegisterHistory` (history.dfy) is a single `Register` as a value. It holds a
  flat list of stored strings and a parallel list of yank-batch sizes, least
  recent first, with the representation invariant, `write` (evicting the
  oldest batch once more than `MAX_REGISTER_HISTORY_LEN = 100` batches are
  kept), `push`, `values` and `latest_value`. `Batches` cuts the flat list into
  its batches, which lets the lemmas state what each operation does to every batch.
- `ContentMatch` (content_match.dfy) holds the text side:
  - the join of a batch with the native line ending;
  - `contents_are_saved`, as the forward-pass loop of the source, proved equal
    to a "join is a prefix of the clipboard" predicate;
  - the loop `write` uses to build the clipboard text;
  - the text `push` hands to the clipboard.
- `Special` (special.dfy) names the special registers. It computes the values
  of the read-only ones from an abstract editor (selection count, selection
  fragments, optional document path). It also holds the first-line rule the
  previews use.
- `Clipboard` (clipboard.dfy) is the external clipboard: two text slots, one
  per `ClipboardType`, the kinds whose get currently fails and the kinds whose
  set currently fails. Get and set are separate backend calls, so either can
  fail while the other works. A failing get returns an error. A failing set
  returns an error and leaves the slot as it was.
- `Store` (store.dfy) is the imperative part.
  - `Register` is a class over the two sequences; its `Write` and `Push`
    are proved against `RegisterHistory.Written` / `Pushed`.
  - `Registers` is a class holding the map from names to `Register` objects,
    the clipboard provider and `lastSearchRegister`. A ghost map `stored`
    gives the history under each name; `Valid()` ties it to the objects and
    keeps distinct names on distinct objects.
  - Each method states the whole new state in terms of `stored` and the
    provider: errors, "nothing else changes", and the write-then-read round
    trip through the clipboard.

`RegisterValues` is a `seq<string>`. `first` is its head and `last` its final element.

The native line ending is `"\n"`, its value on every platform except Windows.

The store follows the code as written, including where it departs from what
the code evidently intends:
- `contents_are_saved` accepts text after the last value. For `["ab","cd"]`
  against `"ab\ncde"` the code answers true, where an exact match would
  answer false.
- A clipboard write drops the line ending after leading empty values.
- A clipboard push puts the new value in front of the old clipboard text,
  while the cache appends it.

For these three, the behaviour the authors evidently intended is defined beside
the as-written members and proved separately; see "## Findings".

A clipboard push that finds the clipboard changed is reported as an error, yet
it still leaves an empty default register under `+`/`*`, through
`entry(name).or_default()`. The store models this as written, and
`Store.EmptyRegisterHidesEmptyClipboard` shows what it changes: an empty
clipboard then reads as no values instead of one empty value.

## Model

| member | source | states |
|---|---|---|
| RegisterHistory.BatchesShape | helix-view/src/register.rs:22-38 | In a register that keeps its invariant every batch is non-empty and the batches, in order, are exactly the stored values |
| RegisterHistory.Newest | helix-view/src/register.rs:45-55 | `values()` takes at most the stored values; `NewestIsLastBatch` proves it is the newest batch |
| RegisterHistory.Written | helix-view/src/register.rs:57-70 | `write` as a function on the history: evict the oldest batch when more than 100 are kept, then append `vs` as a batch. Its meaning is proved in `WrittenResult`, `WrittenValid` and `WrittenBatches` |
| RegisterHistory.Pushed | helix-view/src/register.rs:72-79 | `push` as a function on the history: exactly one value more, and at least one batch. Its meaning is proved in `PushedResult`, `PushedBatches` and `PushedNewest` |
| RegisterHistory.Latest | helix-view/src/register.rs:41-43 | There is a latest value exactly when some value is stored, and it is the last one stored |
| RegisterHistory.NewestIsLastBatch | helix-view/src/register.rs:45-55 | `values()` is the newest batch, or nothing when there is no batch |
| RegisterHistory.Evicted | helix-view/src/register.rs:59-63 | The number of values eviction removes never exceeds the number stored |
| RegisterHistory.WrittenValid | helix-view/src/register.rs:57-70 | `write` of a non-empty batch keeps the invariant (every size at least 1, sizes adding up to the stored values) |
| RegisterHistory.WrittenResult | helix-view/src/register.rs:57-70 | After `write(vs)`, `values()` is exactly `vs` and the latest value is its last element. The stored values lose exactly the evicted prefix. The batch count grows by one unless a batch was evicted, and stays at most 101 |
| RegisterHistory.WrittenBatches | helix-view/src/register.rs:57-70 | `write` evicts exactly the oldest batch when more than 100 are kept, keeps every other batch unchanged and adds `vs` as the newest |
| RegisterHistory.PushedValid | helix-view/src/register.rs:72-79 | `push` keeps the invariant |
| RegisterHistory.PushedResult | helix-view/src/register.rs:72-79 | After `push(v)`, `v` is the latest value and is appended to the stored values. The batch count is unchanged, except that the first batch is created when there was none |
| RegisterHistory.PushedBatches | helix-view/src/register.rs:72-79 | `push(v)` appends `v` to the newest batch (or makes `[v]` the only batch) and leaves every earlier batch unchanged |
| RegisterHistory.PushedNewest | helix-view/src/register.rs:72-79 | After `push(v)`, `values()` is the old `values()` followed by `v` |
| Store.Register.constructor | helix-view/src/register.rs:22-23 | `Register::default` holds no values and no batches, and satisfies the invariant |
| Store.Register.Values | helix-view/src/register.rs:45-55 | The register's `values()`: `Newest` of its history, never more than the stored values |
| Store.Register.LatestValue | helix-view/src/register.rs:41-43 | The register's latest value is missing exactly when nothing is stored, and is otherwise the last stored value |
| Store.Register.Write | helix-view/src/register.rs:57-70 | The register's new history is `Written(old history, vs)`; the invariant and the 101-batch bound are kept; `values()` becomes `vs` |
| Store.Register.Push | helix-view/src/register.rs:72-79 | The register's new history is `Pushed(old history, v)`; the invariant is kept; `values()` gains `v` at the end and `v` is the latest value |
| ContentMatch.ContentsAreSaved | helix-view/src/register.rs:330-350 | The forward pass answers true exactly when the batch is empty and the text is empty, or the batch is non-empty and its join is a prefix of the text |
| ContentMatch.JoinMatches | helix-view/src/register.rs:330-350 | Every batch matches its own join |
| ContentMatch.TrailingTextAccepted | helix-view/src/register.rs:330-350 | As written, `["ab","cd"]` matches `"ab\ncde"`: the text after the last value is not checked |
| ContentMatch.DropLeadingEmpty | helix-view/src/register.rs:161-167 | The batch splits into a prefix of empty values, all dropped, and a kept suffix that is empty or starts with a non-empty value |
| ContentMatch.AllEmptyMeaning | helix-view/src/register.rs:161-167 | The dropped prefix holds only empty strings: `AllEmpty` holds exactly when every value is `""` |
| ContentMatch.ClipboardText | helix-view/src/register.rs:161-167 | The text `write` builds for the clipboard is the join of the batch after its leading empty values are dropped |
| ContentMatch.ClipboardTextIsJoin | helix-view/src/register.rs:161-167 | When the first value is non-empty, the built text is the plain join |
| ContentMatch.ClipboardTextMatches | helix-view/src/register.rs:159-167 | The text `write` builds matches the batch just written exactly when the first value is non-empty or is the only value |
| ContentMatch.LeadingEmptyValueLost | helix-view/src/register.rs:161-167 | For `["", "a"]` the built text is `"a"`, which no longer matches `["", "a"]` |
| ContentMatch.PushedClipboardText | helix-view/src/register.rs:203-206 | As written, the text a clipboard push sets starts with the pushed value, followed by a line ending and the old text when that was non-empty |
| ContentMatch.PushedTextOutOfStep | helix-view/src/register.rs:198-208 | As written, a cache `["a"]` matches the clipboard `"a"`, but after pushing `"b"` the cache `["a","b"]` no longer matches the clipboard `"b\na"` |
| ContentMatch.AppendedClipboardText | helix-view/src/register.rs:202-208 | The intended push text keeps the old clipboard text as a prefix when the cached batch is non-empty |
| ContentMatch.AppendedTextInStep | helix-view/src/register.rs:202-208 | With the intended push text, a clipboard holding the joined batch holds the joined extended batch after the push, so cache and clipboard stay in step |
| Clipboard.GetContents | helix-view/src/register.rs:195 | A get succeeds exactly when that kind's get works, independently of its set, and then gives that slot's text |
| Clipboard.SetContents | helix-view/src/register.rs:168-175 | A set replaces only the addressed slot, and only when that kind's set works; which calls fail stays the same |
| Clipboard.SetResult | helix-view/src/register.rs:168-175 | A set reports success exactly when that kind's set works |
| Clipboard.GetWorksWhileSetFails | helix-view/src/register.rs:195-208 | Get and set fail independently: a provider whose get works can still refuse the set that follows, and then keeps its old text |
| Store.ClipboardTypeOf | helix-view/src/register.rs:145-149 | `+` is the system clipboard and `*` the primary selection, and nothing else maps to either |
| Special.NatToString | helix-view/src/register.rs:123 | A selection number's text is a non-empty string of decimal digits, without a leading zero |
| Special.ParseNatToString | helix-view/src/register.rs:123 | Read back as a decimal number, a selection number's text denotes that number |
| Special.NatToStringInjective | helix-view/src/register.rs:123 | Distinct selection numbers have distinct texts |
| Special.SelectionIndices | helix-view/src/register.rs:117-125 | The `#` register has one value per selection, the `i`-th being the decimal text of `i + 1` |
| Special.ThreeSelections | helix-view/src/register.rs:117-125 | With three selections `#` reads `["1","2","3"]` |
| Special.DocumentPath | helix-view/src/register.rs:131-141 | The `%` register's value is the document path, or the scratch buffer name when there is none |
| Special.FirstLine | helix-view/src/register.rs:234 | The first line is missing only for empty text. Otherwise it contains no `\n`: it is the whole text, or the text before the first `\n`, without a `\r` directly before that `\n` |
| Store.Preview | helix-view/src/register.rs:231-237 | A register's preview never contains a line break. It is `<empty>` when nothing is stored or the latest value is empty, otherwise the first line of the latest value, which is the value itself when that is one non-empty line |
| Store.PreviewOfTwoLines | helix-view/src/register.rs:231-237 | A register whose latest value is `"ab\ncd"` previews as `"ab"` |
| Store.ReadFromClipboard | helix-view/src/register.rs:296-328 | A failing get reads nothing. Otherwise the read gives the cached newest batch when it matches the clipboard, else the clipboard text as one value. Either way the joined result is a prefix of the clipboard text |
| Store.ClipboardRoundTrip | helix-view/src/register.rs:159-177 | After `write` stored `vs` and set the clipboard to the text it builds, with both get and set working, reading the clipboard gives `vs` back as separate values, provided the first value is non-empty or is the only one |
| Store.EmptyRegisterHidesEmptyClipboard | helix-view/src/register.rs:296-315 | With a working get and an empty clipboard, a cached empty register makes the read give no values, while no register makes it give one empty value |
| Store.TrailingTextDropped | helix-view/src/register.rs:310-314 | As written, with `["ab","cd"]` cached and `"ab\ncde"` on the clipboard, the read gives `["ab","cd"]`, whose join is not the clipboard text |
| Store.ReadFromClipboardExact | helix-view/src/register.rs:296-328 | With the exact check, whatever a working clipboard reads joins back to exactly the clipboard text |
| Store.Registers.constructor | helix-view/src/register.rs:103-111 | A new store holds no registers, the given provider, and `/` as the last search register |
| Store.Registers.Read | helix-view/src/register.rs:114-153 | `_` reads nothing. `#`, `.` and `%` read the selection numbers, the fragments and the document path. `+`/`*` read through the clipboard. Any other name reads its newest batch, or nothing when absent |
| Store.Registers.RegisterOf | helix-view/src/register.rs:144 | `inner.get(&name)`: a history exactly when the name is stored, and then that register's history |
| Store.Registers.First | helix-view/src/register.rs:219-221 | `first` is present exactly when the read is present and non-empty, and is its first value |
| Store.Registers.Last | helix-view/src/register.rs:223-225 | `last` is present exactly when the read is present and non-empty, and is its final value |
| Store.Registers.Entry | helix-view/src/register.rs:160 | `entry(name).or_default()` returns the register under `name`, inserting a fresh empty one when absent, and changes nothing else |
| Store.Registers.Write | helix-view/src/register.rs:155-183 | `_` succeeds and changes nothing, and `#`, `.`, `%` fail and change nothing. Other names get `vs` as a new batch and only that history changes. An ordinary name then reads back exactly `vs`. For `+`/`*` the clipboard is set to the built text and a failed set is reported with the cache still written. When the set and a later get both work and the first value is non-empty or the only one, the clipboard name reads back `vs` |
| Store.Registers.WriteToClipboard | helix-view/src/register.rs:159-177 | The `+`/`*` branch of `write`: cache written, slot set, set result returned, read-back when set and get work |
| Store.Registers.SetClipboardText | helix-view/src/register.rs:161-175 | The clipboard slot is set to the text built from the batch, and the set result is returned |
| Store.Registers.ReadAfterWrite | helix-view/src/register.rs:159-177 | Once the cache holds `Written(h, vs)` and the clipboard was set to the built text, reading `+`/`*` gives `vs` for every editor |
| Store.Registers.WriteRegister | helix-view/src/register.rs:178-181 | Writing an ordinary name changes only that name's history, to `Written(old or empty, vs)` |
| Store.Registers.Push | helix-view/src/register.rs:185-217 | `_` succeeds and `#`, `.`, `%` fail, both changing nothing. An ordinary name gets `v` appended to its newest batch and reads back the old batch plus `v`. For `+`/`*`: a failing get is reported before any change; a clipboard that no longer matches the cache is reported, the only change being the default register `or_default` may insert; otherwise the cache gets `v`, the slot gets the pushed text when the set works, and a failing set is reported with the cache already pushed |
| Store.Registers.PushRegister | helix-view/src/register.rs:212-215 | Pushing to an ordinary name changes only that name's history, to `Pushed(old or empty, v)` |
| Store.Registers.PushToClipboard | helix-view/src/register.rs:189-211 | The `+`/`*` branch of `push`, with its four outcomes: get failure, mismatch, push with the set failing (reported, cache pushed, slot unchanged), push with the set working |
| Store.Registers.PushIfSaved | helix-view/src/register.rs:196-208 | Once the clipboard text is known: mismatch reported with only `or_default` applied, or the cache pushed and the set's result returned |
| Store.Registers.PushSaved | helix-view/src/register.rs:202-208 | The cache under the name gets `v` at the end of its newest batch; the slot gets the pushed text when the set works, and the set's result is returned |
| Store.Registers.ClearClipboard | helix-view/src/register.rs:276-289 | The slot is set to empty text when its set works; a failing set changes nothing and is not reported |
| Store.Registers.Clear | helix-view/src/register.rs:253-257 | Every slot whose set works becomes empty, one whose set fails keeps its text, and every register, caches included, is dropped |
| Store.Registers.Remove | helix-view/src/register.rs:259-274 | `+`/`*`: the slot is cleared, the cache dropped, the answer is true. `_`, `#`, `.`, `%`: false and nothing changes. Any other name: dropped, answering whether it was present, and it then reads nothing |
| Store.Registers.IterPreview | helix-view/src/register.rs:227-251 | The stored registers other than `+`/`*` are listed once each with their preview, and only those; then come the six fixed entries for the special names |

## Left out

- The clipboard providers (`get_clipboard_provider`, the per-platform backends) and `clipboard_provider_name` are foreign. The provider is a value passed to the constructor: two slots, the kinds whose get fails and the kinds whose set fails. A failure is a fixed property of the provider value, so a backend that fails only on some calls is not modelled.
- The editor accessors (`current_ref!`, `doc!`, selection fragments, `to_string_lossy` on paths) are outside the model. The editor is given as a selection count, a list of fragments and an optional path.
- `SCRATCH_BUFFER_NAME` is defined in `helix-view/src/document.rs`, which is not part of this model. It is taken as `"[scratch]"`.
- `NATIVE_LINE_ENDING` is fixed to `"\n"`; the Windows `"\r\n"` value is not modelled.
- `log::error!` calls are side effects only and are left out. A failed clear or a failed read is otherwise modelled.
- `Cow`, `Box<dyn …>` and the `DoubleEndedExactSizeIterator` trait (`register.rs:352-404`) are Rust lifetime and dispatch mechanics. `RegisterValues` is a `seq<string>`, so laziness and sharing are not modelled.
- Store.Registers.IterPreview: the order of the stored registers follows the unspecified `HashMap` order. The model picks names in an arbitrary order and states only membership, uniqueness and the fixed six-entry tail.
- Special.FirstLine: models `str::lines` for `\n` and `\r\n` only. Rust strings are UTF-8 bytes while the model works on characters.
- RegisterHistory.Newest, RegisterHistory.Written, RegisterHistory.Pushed, Store.Register.Values: their own contracts state only sizes, because they appear in almost every store contract. What they compute is stated in the lemmas named in their rows.
- Store.Register.Write: an empty batch is the source's `expect` panic. The model excludes it by a precondition rather than modelling the abort.
- Store.Registers.Write: a write of zero values to `+`/`*` or an ordinary name reaches the same panic. It is excluded by the same precondition.

## Findings

| source | as written | input that shows it | evidently intended | confidence | as-written member | corrected member |
|---|---|---|---|---|---|---|
| helix-view/src/register.rs:161-167 | The line ending is added only when the text built so far is non-empty, so leading empty values leave no trace in the clipboard text | `write('+', ["", "a"])` sets the clipboard to `"a"`; the cache no longer matches it, so `read('+')` gives `["a"]` | The clipboard holds the plain join `"\na"`, which always matches the batch | not executed | ContentMatch.LeadingEmptyValueLost | ContentMatch.JoinMatches |
| helix-view/src/register.rs:202-208 | A clipboard push puts the new value in front of the old clipboard text while the cache appends it at the end | write `["a"]` to `+`, then push `"b"`: the clipboard becomes `"b\na"`, the cache `["a","b"]`, and a second push fails as a mismatch | The clipboard becomes the old text, a line ending and the new value, which is the join of the extended batch | not executed | ContentMatch.PushedTextOutOfStep | ContentMatch.AppendedTextInStep |
| helix-view/src/register.rs:330-350 | `contents_are_saved` stops after the last value without requiring the rest of the text to be empty | cache `["ab","cd"]`, clipboard `"ab\ncde"`: `read('+')` gives `["ab","cd"]` and the `"e"` is lost | The clipboard must equal the joined batch exactly, so a read always joins back to the clipboard text | not executed | Store.TrailingTextDropped | Store.ReadFromClipboardExact |

The store itself models the code as written. Each corrected member is a
definition beside it with the intended property proved.
