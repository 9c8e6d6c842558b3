# BrainBox session bookkeeping in Dafny

This project models the session bookkeeping of BrainBox's browser client
(`public/js/brainbox.js`), the part that decides what a user sees when an image is
opened and what is remembered when it is left:

- `BrainBox.hash`: an 8-symbol fingerprint of a string. It is Java's `String.hashCode`
  written with JavaScript's 32-bit bitwise operators, spelled in base 62.
- The reconciliation step of `configureBrainBox`. It merges the stored view history, the
  server's image information and the caller's requested view, slice, fullscreen flag and
  annotation index into the widget's state.
- The history upsert of `unload`: the entry for the current image is moved to the end of
  the versioned history, with the current view and slice.
- The annotation list operations `addAnnotation` and `removeAnnotation` on the image's
  annotation records, with `saveAnnotations`.
- The guard of `selectAnnotationTableRow`.
- The binding plan of `appendAnnotationTableRow` and `appendAnnotationTableRow2`: which
  record path is bound to which table cell, one-way or two-way.

Modules, one per file:

- `Js` (`js.dfy`): the JavaScript behaviour the code relies on. It covers truthiness of
  optional values, ToInt32 (section 7.1.6 of ECMA-262), `parseInt` of a quotient as
  truncating division, Number::toString of an integer, `String.prototype.replace` with a
  one-character pattern, `toLowerCase`, and `Array.prototype.splice(start, 1)`.
- `Fingerprint` (`fingerprint.dfy`): `hash`, both as two loop methods and as the
  specification function `HashOf`. It proves that the first loop is Java's hash code and
  that the symbols spell its magnitude in base 62.
- `SessionStore` (`session_store.dfy`): the versioned history envelope kept in
  `localStorage.AtlasMaker`, and the remove-then-append upsert `unload` performs on it.
- `Annotations` (`annotations.dfy`): annotation records, the record `addAnnotation`
  creates, the column descriptors, and the binding plan as a function.
- `BrainBox` (`brainbox.dfy`): the class `Session`. It holds `BrainBox.info`, the stored
  envelope and the widget fields the code reads or assigns (`User.view`, `User.slice`,
  `User.username`, `fullscreen`, `editMode`). It also keeps `effects`, the ordered log of
  calls made into the widget, the table and the binding helpers. Its methods follow the
  source's loops.

The record list `BrainBox.info.mri.atlas` is the field `atlas` of `ImageInfo`, and the
rest of `mri` is not modelled. `BrainBox.info`'s initial value `{}` is `info == None`.

## Model

| member | source | states |
|---|---|---|
| Js.OrZeroIsGetOr | public/js/brainbox.js:112 | defaulting the annotation index to 0 when it is falsy gives the index itself whenever it is defined, since the only falsy number is 0 |
| Js.ToInt32 | public/js/brainbox.js:40-41 | the result is a signed 32-bit value congruent to the input modulo 2^32 |
| Js.TruncDivRemainder | public/js/brainbox.js:45-46 | after `parseInt(v0/62)`, the remainder `v0 - v1*62` has the sign of v0 and magnitude below 62 |
| Js.IntToString | public/js/brainbox.js:235 | the record index written into a path is non-empty and starts with `-` exactly when the index is negative |
| Js.NatToStringReadsBack | public/js/brainbox.js:235 | the decimal digits written for a non-negative index spell that index |
| Js.IntToStringReadsBack | public/js/brainbox.js:235 | reading back the text written for any index, with its sign, gives the index |
| Js.IntToStringInjective | public/js/brainbox.js:235 | two indices are written as the same text if and only if they are equal |
| Js.ReplaceFirstInjective | public/js/brainbox.js:235 | when a path has a `#`, different replacement texts give different paths |
| Js.ReplaceFirstAt | public/js/brainbox.js:235 | `path.replace("#", i)` puts the index text in place of the first `#` only, keeping everything before and after it |
| Js.ReplaceFirstAbsent | public/js/brainbox.js:235 | a path without `#` is used unchanged |
| Js.ToLowerCase | public/js/brainbox.js:194 | the lower-cased view has the same length and no upper-case letter; each upper-case letter becomes its lower-case letter (code + 32) and every other character is unchanged |
| Js.ToLowerCaseIdempotent | public/js/brainbox.js:194 | lower-casing a stored view again changes nothing |
| Js.SpliceStart | public/js/brainbox.js:330 | the position `splice` starts at never lies past the end of the array |
| Js.SpliceOneInside | public/js/brainbox.js:330 | with a selected index inside the array, exactly that record goes and the others keep their order |
| Js.SpliceOneMinusOne | public/js/brainbox.js:319-330 | with no row selected (index -1), the last record is removed, and nothing from an empty list |
| Js.SpliceOneFromEnd | public/js/brainbox.js:330 | a negative start i with -length <= i < 0 removes exactly the element at length + i, keeping the rest in order |
| Js.SpliceOneBeforeStart | public/js/brainbox.js:330 | a start below -length removes the first element of a non-empty array |
| Js.SpliceOneBeyond | public/js/brainbox.js:330 | a start at or past the end removes nothing |
| Js.SpliceOneLength | public/js/brainbox.js:330 | the list shrinks by exactly one when it is non-empty and the index is below its length, and is otherwise unchanged |
| Fingerprint.AlphabetLayout | public/js/brainbox.js:37 | the alphabet has 62 symbols, the symbol at position d has digit value d, and reading it back gives d |
| Fingerprint.StepIsJavaStep | public/js/brainbox.js:40-41 | `((v0<<5)-v0)+ch` followed by `v0&v0` is Java's `31*h + c` wrapped to 32 bits |
| Fingerprint.AccumulateIsHashCode | public/js/brainbox.js:38-42 | the accumulator after the first loop is `s[0]*31^(n-1) + ... + s[n-1]` reduced to a signed 32-bit value, which is Java's String.hashCode |
| Fingerprint.SymbolIndex | public/js/brainbox.js:45-46 | the emitted index `abs(v0 - parseInt(v0/62)*62)` always lies in [0, 62) |
| Fingerprint.SymbolIndices | public/js/brainbox.js:44-49 | n iterations of the second loop emit n indices, all below 62 |
| Fingerprint.HashOf | public/js/brainbox.js:43-50 | the fingerprint has exactly 8 symbols, each drawn from the alphabet |
| Fingerprint.HashCode | public/js/brainbox.js:38-42 | the first loop leaves in the accumulator the value `Accumulate` gives, which is the hash code |
| Fingerprint.Symbols | public/js/brainbox.js:43-49 | the second loop emits the alphabet symbols of the 8 indices `SymbolIndices` gives |
| Fingerprint.Hash | public/js/brainbox.js:34-51 | `hash` returns the specified fingerprint: 8 alphabet symbols spelling the magnitude of its hash code |
| Fingerprint.UnspellSpell | public/js/brainbox.js:47 | reading the emitted symbols back gives the emitted indices |
| Fingerprint.DecodeSymbolIndices | public/js/brainbox.js:44-49 | n iterations write the magnitude of a value below 62^n in base 62, least significant digit first |
| Fingerprint.SymbolIndicesOfNegation | public/js/brainbox.js:45-46 | the symbol loop sees only the magnitude of the accumulator |
| Fingerprint.HashSpellsMagnitude | public/js/brainbox.js:43-50 | reading the fingerprint back as base-62 digits gives the magnitude of the hash code, so nothing but the sign is lost |
| Fingerprint.SameHashIff | public/js/brainbox.js:34-51 | two strings have the same fingerprint if and only if their hash codes have the same magnitude |
| SessionStore.FirstMatch | public/js/brainbox.js:139-145 | the search loop with `break` finds the first entry for the url, or establishes that none exists |
| SessionStore.Without | public/js/brainbox.js:182-187 | the reference for removal: exactly the entries for other urls, none for the url |
| SessionStore.NewEntry | public/js/brainbox.js:192-197 | the new entry is keyed by the image source (absent while `info` is `{}`) and stamped with the time; its view is the widget's view lower-cased when that is truthy and "sag" otherwise, so it is non-empty with no upper-case letter; its slice is the widget's slice when that is truthy and 0 otherwise |
| SessionStore.UpsertEndsWithEntry | public/js/brainbox.js:176-198 | the written envelope is current, and its last entry is the new one |
| SessionStore.UpsertStale | public/js/brainbox.js:178-191 | with missing storage or a version of 0 or another version, the result is a fresh envelope holding only the new entry |
| SessionStore.RemoveFirstAt | public/js/brainbox.js:182-187 | when the first entry for the url is at i, the loop's `splice(i, 1)` leaves exactly the entries before and after it, in order |
| SessionStore.RemoveFirstAbsent | public/js/brainbox.js:182-187 | with no entry for the url, the history is left as it is |
| SessionStore.RemoveFirstOfUnique | public/js/brainbox.js:182-187 | with one entry per url, removing the first match removes every entry for the url and keeps the rest in order |
| SessionStore.UpsertKeepsOthers | public/js/brainbox.js:176-198 | on a current history with one entry per url, the other entries keep their relative order and the new entry follows them |
| SessionStore.UpsertUnique | public/js/brainbox.js:176-198 | if the history held at most one entry per url, so does the written one |
| SessionStore.UpsertThenFind | public/js/brainbox.js:176-198 | after a write, the first entry found for the url is the one just written |
| SessionStore.UpsertTwice | public/js/brainbox.js:176-198 | two writes for one url leave exactly one entry for it, the later one |
| Annotations.NewAnnotationDefaults | public/js/brainbox.js:293-303 | the new record is an unnamed read/write volume without a project, owned by the current user, with the default label set, equal creation and modification times, and a filename ending in ".nii.gz" |
| Annotations.BindingPlanSound | public/js/brainbox.js:229-251 | every planned binding is for a column whose mode (1: one-way, 2: two-way) asks for it, at the column's path with the index substituted, on row irow+1; columns come in strictly increasing order, so no cell is bound twice |
| Annotations.BindingPlanComplete | public/js/brainbox.js:229-251 | every column of mode 1 or 2 gets a binding |
| Annotations.PathAtInjective | public/js/brainbox.js:326 | for a column path with a `#`, the paths for two record indices are equal if and only if the indices are, so unbinding the paths at one index touches no other record's paths |
| Annotations.UnbindPaths | public/js/brainbox.js:325-327 | one unbind path per column |
| BrainBox.ReconcileViewOverride | public/js/brainbox.js:150-155 | a truthy requested view wins over history and prior state, and the slice is then the requested one or null |
| BrainBox.ReconcileSliceOverride | public/js/brainbox.js:154-155 | a truthy requested slice always wins |
| BrainBox.ReconcileRemembered | public/js/brainbox.js:135-147 | without a requested view, the first history entry for the url of a current envelope gives the view, and the slice unless one is requested |
| BrainBox.ReconcileKeepsPrior | public/js/brainbox.js:135-155 | with no usable history entry, the widget's prior view and slice survive unless requested otherwise |
| BrainBox.ReconcileStaleIsAbsent | public/js/brainbox.js:136-138 | an envelope of another version counts exactly as no envelope |
| BrainBox.ReconcileRestoresUnload | public/js/brainbox.js:135-147 | reopening an image with nothing requested restores the view and slice `unload` saved for it |
| BrainBox.ReconcileExamples | public/js/brainbox.js:135-155 | stored `cor`/5 for "A" with `sag` requested gives `sag` and a null slice; with slice 9 requested it gives `cor`/9 |
| BrainBox.RejectOnlyOnDeferred | public/js/brainbox.js:122 | `reject` is not among the methods of jQuery's read-only promise, so `def.promise().reject()` throws; on the Deferred it rejects |
| BrainBox.SourceOf | public/js/brainbox.js:183 | `BrainBox.info.source` is defined exactly when `configureBrainBox` has set `BrainBox.info` |
| BrainBox.Session.constructor | public/js/brainbox.js:14 | a session starts with `BrainBox.info` still the empty object and no calls made |
| BrainBox.Session.Configure | public/js/brainbox.js:106-170 | as written. On `success === false`: the message log is reset and shows the error line, then a TypeError is thrown and nothing else changes. Otherwise the reply is installed as `Installed` states |
| BrainBox.Session.ConfigureRejecting | public/js/brainbox.js:118-123 | as intended. On `success === false` the promise is rejected, with no value, after the same log lines, and nothing else changes. Otherwise it behaves as Configure does |
| BrainBox.Session.Install | public/js/brainbox.js:124-169 | info is the reply, view and slice follow Reconcile, fullscreen is the truthy flag or false, editMode is 1, `param` gets dim and pixdim, and the widget is configured on the requested annotation (0 by default). `Resolved` carries the caller's `param` as lines 131-132 update it and the index passed to the widget; the promise itself resolves with no value |
| BrainBox.Session.Unload | public/js/brainbox.js:174-199 | the stored envelope becomes the upsert of the entry built from the widget's view and slice for the image source. Before any configure the source is undefined, so the first entry without a url is replaced |
| BrainBox.Session.SelectAnnotationTableRow | public/js/brainbox.js:206-220 | the row is selected and the widget reconfigured exactly when the index is non-negative and not the selected one; otherwise nothing happens |
| BrainBox.Session.AppendBoundRow | public/js/brainbox.js:224-252 | one row is appended, then exactly the bindings of the plan are requested, in column order |
| BrainBox.Session.AppendAnnotationTableRow | public/js/brainbox.js:224-252 | the plan uses irow both for the path index and for the row |
| BrainBox.Session.AppendAnnotationTableRow2 | public/js/brainbox.js:256-284 | the plan uses iarr for the path index and irow for the row |
| BrainBox.Session.SaveAnnotations | public/js/brainbox.js:338-344 | the current info, even the initial `{}`, is sent to the server and nothing else changes |
| BrainBox.Session.AddAnnotation | public/js/brainbox.js:288-311 | the records grow by exactly the new default record and earlier ones are unchanged; its row is bound at index length-1, then the info is saved |
| BrainBox.Session.RemoveAnnotation | public/js/brainbox.js:315-334 | the selected row is removed, every column's path at the pre-removal last index (not the removed one) is unbound, the record at the index is spliced out with `splice` semantics, then the info is saved |

## Findings

| source | as written | input that shows it | evidently intended | confidence | as-written member | corrected member |
|---|---|---|---|---|---|---|
| public/js/brainbox.js:122 | `return def.promise().reject();` calls `reject` on jQuery's read-only promise, which has no such method, so `configureBrainBox` throws a TypeError instead of returning a rejected promise | a server reply with `success: false` | `def.reject(); return def.promise();`, so the caller sees a rejected promise and its failure handlers run | high; not executed | BrainBox.Session.Configure (with BrainBox.RejectOnlyOnDeferred) | BrainBox.Session.ConfigureRejecting |

## Left out

- `loadScript`, `initBrainBox` and `loadLabelsets`: script injection, promises and a network fetch.
- `traceLog` and every `console.log`: debug output only. The `#msgLog` lines written by `configureBrainBox` are effects.
- `bind1`, `bind2`, `unbind2` and the `info_proxy` proxy are defined outside this file. Each call to them appears in `effects` with the mode, path and cell it asks for. The proxy's flush of pending edits by `JSON.stringify(param.info_proxy)`, and the `format`/`parse` callbacks, are not modelled.
- `AtlasMakerWidget.configureAtlasMaker` and `sendSaveMetadataMessage` are recorded as effects. The promise that `configureBrainBox` resolves after the widget is configured is the `Resolved` outcome.
- `localStorage` and JSON: the stored envelope is a datatype. `JSON.parse` throws on corrupt storage and nothing catches it; that exception is not modelled.
- Stored history entries are assumed to have the shape `unload` writes: a url that is a string or absent, a string view and an integer slice.
- `new Date()` and `Math.random().toString(36).slice(2)` are the parameters `now`, `date` and `stem`.
- DOM queries: the selected row index and the clicked row are parameters. The removed table row and the new row are single effects.
- The global `hash_old` that `saveAnnotations` sets is written but never read, so it is not modelled.
- The unused local variables `date` and `name` in `configureBrainBox` are not modelled.
- BrainBox.Session.Configure assumes that `param.info` and `param.url` are present (`ConfigParams` requires both). Without `param.info`, the source resets the message log and then throws a TypeError reading `data.success` at line 118. Without `param.url`, it sets `BrainBox.info` at line 124 and then throws a TypeError at line 126 (`param.url.split`), before it reconciles the view or configures the widget. Neither partial run is modelled.
- `param.fullscreen` is an optional boolean, not an arbitrary truthy value.
- `hash` takes its string as UTF-16 code units, as `charCodeAt` reads them. Its global loop variables `i` and `ch` are locals here.
- Js.ToLowerCase: it lower-cases only the ASCII letters, and other characters are unchanged. JavaScript's full Unicode case mapping is not modelled.
- BrainBox.Session.AddAnnotation requires that `configureBrainBox` has set `BrainBox.info`. Called earlier, `addAnnotation` throws a TypeError reading `BrainBox.info.mri.atlas` at line 293, before it changes anything; that run is not modelled.
- BrainBox.Session.RemoveAnnotation requires that `configureBrainBox` has set `BrainBox.info`. Called earlier, `removeAnnotation` first removes the selected table row (line 320) and then throws a TypeError reading `BrainBox.info.mri.atlas` at line 324; that partial run is not modelled.
- `configureBrainBox` looks history up by `param.url`, while `unload` keys the entry by `info.source`. The model keeps both keys as the source has them.
- With no matching history entry, the widget's previous `User.view` and `User.slice` survive, so `Reconcile` takes the prior state as input.
- `splice` removes nothing from an empty list, so removing an annotation shrinks the records by one only when there is one to remove (`Js.SpliceOneLength`).
- Unbinding in `removeAnnotation` targets the last record index, not the removed one. This is reproduced as written. After the splice, the records from the removed index onward shift down by one, so only the old last path is left without a record.
