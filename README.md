# diff — a verified model of the JSON tree differ and patcher

The Python package `diff` compares two JSON-like trees and replays edits. It has four parts.

- `json_path.py` flattens a tree into `(path, value)` pairs. Paths are in a JSONPath-like dialect: `$.a`, `$[0]`, `$["x.y"]`.
- `diff.py` subtracts and intersects the leaf maps of a new and an old tree. The result is a list of records `Delta(op, path, new_value, old_value)`, where `op` is one of `deleted`, `added`, `modified`.
- `patch.py` holds:
  - a path tokenizer;
  - `get_by_json_path`, `set_by_json_path` and `pop_by_json_path` (with pruning of emptied parents);
  - `patch`, which replays records on a copy of a base tree.

The model is split into these modules:

| module | file | contents |
|---|---|---|
| `Types` | types.dfy | trees (`Doc`), path tokens, errors, the record |
| `Digits`, `KeyOrder` | digits.dfy, key_order.dfy | decimal index text; ascending key order |
| `Tokenizer`, `TokenizerLaws` | tokenizer.dfy | the path tokenizer and its error cases |
| `JsonPath` | json_path.dfy | key escaping, `_join_path`, the walker and its wrappers |
| `PathLaws` | path_laws.dfy | the round trip between `_join_path` and the tokenizer |
| `Patch`, `PatchLaws` | patch.dfy, patch_laws.dfy | get, set, pop, patch, and what they promise |
| `WalkerLaws` | walker_laws.dfy | what the walker reports |
| `Diff`, `DiffLaws` | diff.dfy, diff_laws.dfy | `diff` and the meaning of its records |

How each part is modelled:

- **Trees are values.** `Doc` is `Null | Bool | Int | Str | Obj(map) | Arr(seq) | Tuple(seq)`. `Tuple` stands for any value the walker treats as an opaque leaf.
- **The tokenizer.** It is a `while` loop over an index, as in Python. `Tokenizer.TokenizeJsonPath` is proved equal to the recursive reading `Tokenizer.Tokenize`.
- **`set` and `pop`.** They are methods that walk down the tree. They keep a stack of frames (container, token), which is the `parents` list of the source, and write the changed child back up on the way out. Each method is proved equal to a recursive function (`Patch.Set`, `Patch.Pop`). The laws are proved about those functions.
- **`set` is atomic.** Python's `set_by_json_path` raises only before its first change, so a `Result` describes it fully.
- **`patch`.** It is a loop that is proved equal to a left fold of `ApplyDelta` over the records.
- **`diff`.** It is three loops over the deleted, added and shared path sets. Each set is drawn down one element at a time with `:|`. The result is specified by `Diff.ListsDiff`:
  - exactly the owed records;
  - one per path;
  - deletions before additions before modifications.

  The order within a group is left open, as Python's set iteration order is.

Where the docstring and the code disagree, the model follows the code. Inside a quoted key, the backslash of every escape is dropped, including unknown escapes like `\n`. The comment at src/diff/patch.py:69 says unknown escapes are kept; see `TokenizerLaws.UnknownEscapeDropsBackslash`.

## Model

| member | source | states |
|---|---|---|
| Digits.NatToString | src/diff/json_path.py:19-20 | the index text written by `_join_path` is non-empty, all digits, and has no leading zero unless it is `0` |
| Digits.DecimalValueOfNatToString | src/diff/patch.py:88-101 | reading back the written index text gives the index |
| KeyOrder.SortedKeys | src/diff/json_path.py:94-97 | the key sequence has the dict's keys exactly once each, in ascending order |
| Tokenizer.Tokenize | src/diff/patch.py:14-38 | the empty path is refused; `$` and `$.` give no token |
| Tokenizer.ReadSimpleKey | src/diff/patch.py:40-46 | reads the longest run without `.` or `[` and returns the position after it |
| Tokenizer.ReadQuotedKey | src/diff/patch.py:54-82 | the loop over a quoted key reads what `QuotedKey` reads: a backslash takes the next character whatever it is; the closing quote ends the key; an unclosed key or a trailing backslash is an error |
| Tokenizer.ReadIndex | src/diff/patch.py:88-101 | reads a digit run and requires `]` after it; gives the errors of a missing index and a missing `]` |
| Tokenizer.ReadBracketKeyOrIndex | src/diff/patch.py:48-101 | after `[`, reads a quoted key followed by `]`, or an index |
| Tokenizer.TokenizeJsonPath | src/diff/patch.py:14-115 | the tokenizer loop gives exactly the recursive reading `Tokenize` of the whole path, errors included |
| TokenizerLaws.SegmentsSkipDots | src/diff/patch.py:103-107 | extra dots between segments are skipped |
| TokenizerLaws.TokenizeAfterRoot | src/diff/patch.py:34-38 | after the leading `$` any run of dots is skipped |
| TokenizerLaws.DollarOnlyAtStart | src/diff/patch.py:34-38 | `$` is a root marker only at the start: `$$` is the key `$`, and `a.$b` has the key `$b` |
| TokenizerLaws.BareKeySegment | src/diff/patch.py:40-46 | a bare key segment becomes one key token |
| TokenizerLaws.IndexSegment | src/diff/patch.py:88-101 | `[digits]` becomes the index with that decimal value |
| TokenizerLaws.BracketAtEnd | src/diff/patch.py:50-52 | `[` at the end of a path is an unclosed-bracket error |
| TokenizerLaws.BracketNeitherQuoteNorDigit | src/diff/patch.py:92-96 | `[` followed by neither a quote nor a digit is an expected-index error |
| TokenizerLaws.DigitsNotClosed | src/diff/patch.py:98-99 | digits not followed by `]` are an error |
| TokenizerLaws.QuotedKeyDecodes | src/diff/patch.py:59-77 | any escaped encoding of a key decodes back to the key, and the rest of the path is left as it was |
| TokenizerLaws.EscapeEveryEncodes | src/diff/patch.py:61-70 | escaping every character of a key still decodes to the key |
| TokenizerLaws.UnknownEscapeDropsBackslash | src/diff/patch.py:66-70 | `$["\n"]` reads as the key `n`: the backslash of an unknown escape is dropped |
| TokenizerLaws.OpenQuotedKeyErrors | src/diff/patch.py:62-81 | a quoted key body, plain or with escapes, that is not closed by its quote is the unclosed-key error; followed by a lone backslash it is the trailing-backslash error |
| TokenizerLaws.QuotedKeyErrors | src/diff/patch.py:59-86 | the four error cases of a quoted bracket, for any body with or without escapes: unclosed, trailing backslash, and no `]` after the quote (at the end of the path or before another character) |
| TokenizerLaws.PlainEncodes | src/diff/patch.py:59-77 | a key without backslash or quote encodes as itself |
| JsonPath.ReplaceChar | src/diff/json_path.py:8 | `str.replace` of one character leaves a string without it unchanged |
| JsonPath.EscapeTwoPasses | src/diff/json_path.py:8 | doubling backslashes first and then escaping quotes escapes each character on its own; no added backslash is doubled again |
| JsonPath.EscapeKey | src/diff/json_path.py:6-8 | the escaped key puts one backslash before each backslash and each quote of the key and leaves every other character as it is |
| JsonPath.JoinPath | src/diff/json_path.py:11-31 | a joined path extends its non-empty base with `.` (dot-form key) or `[` (any other key or an index) |
| JsonPath.Kids | src/diff/json_path.py:92-136 | the children visited are exactly the dict's entries, once each, or the list's elements by index; other values have none |
| JsonPath.Visit | src/diff/json_path.py:72-144 | every value a visit reports is the node itself or a part of it |
| JsonPath.VisitKids | src/diff/json_path.py:99-136 | every value reported for the children of a container is a part of the container |
| JsonPath.IterJsonPaths | src/diff/json_path.py:146-150 | every value the walk reports is the root or a part of it |
| JsonPath.ListJsonPaths | src/diff/json_path.py:153-175 | the paths of the walk, in the walk's order |
| JsonPath.DropNone | src/diff/json_path.py:201-202 | keeps exactly the pairs whose value is not None, and no more pairs than it was given |
| JsonPath.DropNoneAppend | src/diff/json_path.py:201-202 | filtering a concatenation concatenates the filtered parts, so the kept pairs stay in their order |
| JsonPath.PathsWithValues | src/diff/json_path.py:178-203 | a pair is returned exactly when the walk reports it and, with `exclude_none`, its value is not None |
| JsonPath.PathValueMap | src/diff/json_path.py:206-228 | a path is a key exactly when the walk reports it with some value that, with `exclude_none`, is not None |
| JsonPath.ToMap | src/diff/json_path.py:228 | a path is a key of the dict exactly when some pair has it, and maps to the value of its last pair |
| PathLaws.EscapeKeyEncodes | src/diff/json_path.py:6-8 | the escaped key read back by the tokenizer's quoted-key reader gives the key |
| PathLaws.QuotedFormSegment | src/diff/json_path.py:30-31 | `["…"]` reads back as the key, for every key including `""` and keys with `.`, `[`, `"`, `\` |
| PathLaws.SuffixSegment | src/diff/json_path.py:19-31 | what `_join_path` appends reads back as exactly the one token |
| PathLaws.SegmentsAppend | src/diff/patch.py:103-115 | reading a path in two parts split before a separator concatenates the tokens |
| PathLaws.TokenizeAppend | src/diff/patch.py:14-115 | the same for a whole path after its root marker |
| PathLaws.JoinRoundTrip | src/diff/json_path.py:11-31 | for a non-empty base that tokenizes, `tokenize(_join_path(base, t)) == tokenize(base) + [t]` |
| PathLaws.RootlessRoundTrip | src/diff/json_path.py:26-27 | with the empty base the round trip holds except for dot-form keys starting with `$` |
| PathLaws.RootlessDollarKeyLosesDollar | src/diff/json_path.py:26-27 | the key `$a` joined to the empty base is read back as `a` |
| PathLaws.PathOfRoundTrip | src/diff/json_path.py:11-31 | the path the walk builds from `$` for any token list tokenizes back to exactly that list |
| PathLaws.PathOfInjective | src/diff/json_path.py:11-31 | two token lists built into the same path from `$` are the same list |
| PathLaws.DotAndQuotedFormsAgree | src/diff/json_path.py:24-31 | a dot-form key and its quoted form read the same |
| Patch.GetAt | src/diff/patch.py:204-216 | a successful lookup passes through a present first child and returns a part of the tree |
| Patch.GetByJsonPath | src/diff/patch.py:198-217 | the lookup loop computes `Get`: a missing key or a non-dict is a KeyError; a non-list is a TypeError; an index out of range is an IndexError |
| Patch.Put | src/diff/patch.py:152-183 | writing a child into a container that has the slot leaves that child there and the container non-empty |
| Patch.Padded | src/diff/patch.py:176-181 | a list is extended with None up to the index and keeps its elements |
| Patch.Placeholder | src/diff/patch.py:160-190 | a created intermediate is an empty list before an index and an empty dict before a key |
| Patch.SetAt | src/diff/patch.py:141-193 | a container of the wrong kind for the first token is a TypeError; a successful set keeps the container's kind and has the first token's slot |
| Patch.Set | src/diff/patch.py:118-134 | a set succeeds only on a path that tokenizes to at least one token |
| Patch.SetAtKeyStep | src/diff/patch.py:145-163 | one key step of `set`: a missing or None child is created only with `create_missing`, and the rest is set inside the child |
| Patch.SetAtIndexStep | src/diff/patch.py:164-193 | one index step of `set`: pad, create a None child only with `create_missing`, and set the rest inside the child |
| Patch.WalkForSet | src/diff/patch.py:136-193 | the walk over all but the last token fails exactly as `SetAt` does, or leaves frames whose replay of the last step is `SetAt` |
| Patch.SetStep | src/diff/patch.py:145-193 | one pass of the loop body before the last token fails exactly as `SetAt` does at that step, or gives the frame left behind and the child whose set, written back into the frame, is `SetAt` |
| Patch.SetLeaf | src/diff/patch.py:145-184 | the last step of the loop sets the key or the index as `SetAt` does on one token, padding only with `create_missing` |
| Patch.SetByJsonPath | src/diff/patch.py:118-195 | `set_by_json_path` computes `Set`; the root path is refused |
| Patch.DeleteInParent | src/diff/patch.py:220-243 | a parent of the wrong kind is a TypeError; a missing slot leaves it unchanged; otherwise the key is gone and every other entry kept, or the element is removed with the later ones moved down, or it is set to None with the others kept |
| Patch.Descend | src/diff/patch.py:273-299 | the walk to the parent of `pop` goes only through present, non-None children |
| Patch.RemoveLeaf | src/diff/patch.py:305-338 | removal succeeds exactly when the parent has the slot: otherwise TypeError for the wrong kind, KeyError for a missing key, IndexError for an index out of range; the removed value is the child there and the parent is changed as `DeleteInParent` changes it |
| Patch.Reattach | src/diff/patch.py:344-355 | a child that is not pruned is written back with every other child kept; an empty child under pruning is deleted: the key is gone, or the list is one shorter, or the element is None |
| Patch.PopAt | src/diff/patch.py:270-342 | a successful pop passes through a present first child and removes a part of the tree; it fails only with TypeError, KeyError or IndexError |
| Patch.PopReturnsValueAt | src/diff/patch.py:305-338 | the popped value is the value `get` finds at the path |
| Patch.Pop | src/diff/patch.py:253-342 | a pop succeeds only on a path with at least one token; with `missing_ok` only a malformed or root path fails |
| Patch.PopPresentSucceeds | src/diff/patch.py:270-342 | a pop at tokens `get` can follow succeeds, whatever `remove_from_list` and pruning say |
| Patch.PopSucceedsExactly | src/diff/patch.py:253-342 | without `missing_ok`, a pop succeeds exactly on a path that tokenizes to at least one token and that `get` can follow |
| Patch.UpWithoutPrune | src/diff/patch.py:344-355 | without pruning, writing back changes only the path to the leaf |
| Patch.UpFromNonEmpty | src/diff/patch.py:349-355 | pruning stops at the first non-empty container |
| Patch.WalkToParent | src/diff/patch.py:271-303 | the walk to the parent fails exactly as `PopAt` does, or leaves frames whose replay of the leaf removal is `PopAt` |
| Patch.PruneEmpty | src/diff/patch.py:344-355 | the bottom-up pruning loop computes `Up` with pruning |
| Patch.PopByJsonPath | src/diff/patch.py:253-357 | `pop_by_json_path` computes `Pop`, with `missing_ok` turning lookup failures into "unchanged, None" |
| Patch.ApplyDelta | src/diff/patch.py:364-372 | a replayed record names a path with at least one token; a deletion replays exactly when its path has at least one token and `get` can follow it |
| Patch.PatchSpec | src/diff/patch.py:360-373 | a successful replay had only records whose paths have at least one token |
| Patch.Patch | src/diff/patch.py:360-373 | `patch` replays the records in order on the base: deletions by pop with pruning and list removal, all others by set |
| PatchLaws.GetAtAppend | src/diff/patch.py:204-216 | following one more token from a found value reaches its child |
| PatchLaws.SetOnRootFails | src/diff/patch.py:133-134 | `set` on a path with no token is refused |
| PatchLaws.GetAfterSetAt | src/diff/patch.py:141-193 | after a successful set, `get` at the same tokens returns the value |
| PatchLaws.GetAfterSet | src/diff/patch.py:118-217 | after a successful `set(doc, p, v)`, `get(doc, p) == v` |
| PatchLaws.SetAtIdempotent | src/diff/patch.py:141-193 | setting the same value twice equals setting it once |
| PatchLaws.ApplyDeltaIdempotent | src/diff/patch.py:368-372 | replaying an added or modified record twice equals replaying it once |
| PatchLaws.SetAtKeepsOtherPaths | src/diff/patch.py:141-193 | a set leaves every path that does not run through the set path unchanged |
| PatchLaws.SetWithoutCreateNeedsParent | src/diff/patch.py:155-189 | without `create_missing`, a set succeeds only when the parent exists with the right kind, and a list already has the index |
| PatchLaws.SetWithParentSucceeds | src/diff/patch.py:145-189 | a set succeeds when the parent of the last token is there and of its kind: any dict for a key (a missing key is added), a list holding the index, or any list when creating |
| PatchLaws.SetWithoutCreateExactly | src/diff/patch.py:145-189 | without `create_missing`, a set succeeds exactly when the parent of the last token is there, of its kind, and a list holds the index |
| PatchLaws.SetWithoutCreateErrors | src/diff/patch.py:145-189 | without `create_missing`, a set fails at the first step it cannot take, at any depth: TypeError for a container of the wrong kind, IndexError for an index past the end, KeyError for a missing or None step before the last |
| PatchLaws.SetWrongKindErrors | src/diff/patch.py:145-189 | with or without `create_missing`, a key step on a non-dict or an index step on a non-list is a TypeError at any depth the set reaches; creation never replaces a value of the wrong kind |
| PatchLaws.CreateOnlyTypeError | src/diff/patch.py:145-189 | with `create_missing` (the mode `patch` uses), a set that fails fails with TypeError: missing and None steps are created and short lists padded, so no KeyError or IndexError remains |
| PatchLaws.SetCreatesPath | src/diff/patch.py:155-190 | with `create_missing`, a set into a fresh placeholder always succeeds |
| PatchLaws.SetPadsList | src/diff/patch.py:176-184 | setting past the end pads with None; without `create_missing` it is an IndexError |
| PatchLaws.PopOnRootFails | src/diff/patch.py:266-267 | `pop` on a path with no token is refused, even with `missing_ok` |
| PatchLaws.PopMissingFails | src/diff/patch.py:273-303 | a path `get` cannot follow cannot be popped (the converse is `Patch.PopPresentSucceeds`) |
| PatchLaws.PopMissing | src/diff/patch.py:280-342 | on a missing path, `missing_ok` leaves the tree unchanged and gives None; without it the pop fails |
| PatchLaws.PopChangesOnlyParent | src/diff/patch.py:305-355 | unless pruning removes it, the parent after a pop is the parent with the leaf removed |
| PatchLaws.PopAtBelow | src/diff/patch.py:270-303 | a pop passes through the node at every prefix of its path, and the rest of the pop from there removes the same value |
| PatchLaws.PopLeavesNode | src/diff/patch.py:344-355 | what a pop leaves of the node at any prefix of its path is at that prefix in the new tree, unless pruning removed it |
| PatchLaws.PopKeepsOtherPaths | src/diff/patch.py:305-355 | a path that parts ways with the popped path leads to the same value after the pop; when a list element before it is removed, it leads there one index lower |
| PatchLaws.PopPrunesUpward | src/diff/patch.py:344-355 | pruning goes up level by level: an empty result is deleted from its parent (a key removed, an element removed with the later ones moved down, or set to None), and the first non-empty one is written back and stays in the new tree |
| PatchLaws.EmptyHasNoPath | src/diff/patch.py:246-250 | nothing can be found below an empty container |
| PatchLaws.PopPrunesEmptyParent | src/diff/patch.py:344-355 | a corollary of `PopPrunesUpward` at the last level, stated for a path of dict keys: a parent the pop leaves empty is removed from its own parent, so its path leads nowhere |
| PatchLaws.PopKeepsRoot | src/diff/patch.py:344-355 | the root is never removed: it keeps its kind |
| PatchLaws.PatchInOrder | src/diff/patch.py:364-372 | replaying two lists of records is replaying the first, then the second on its result |
| PatchLaws.DeletingMissingPathFails | src/diff/patch.py:366-368 | replaying a deletion of a missing path fails, since `patch` pops without `missing_ok` |
| WalkerLaws.VisitReportsNoContainers | src/diff/json_path.py:85-136 | without `include_containers`, a visit reports no dict and no list, not even an empty one |
| WalkerLaws.IterReportsNoContainers | src/diff/json_path.py:146-150 | the same for the whole walk |
| WalkerLaws.VisitIgnoresLeavesOnly | src/diff/json_path.py:85-136 | without `include_containers`, `leaves_only` does not change a visit |
| WalkerLaws.IterIgnoresLeavesOnly | src/diff/json_path.py:146-150 | the same for the whole walk |
| WalkerLaws.ScalarRoot | src/diff/json_path.py:138-150 | a non-container root is reported once, under `$` or `""`; it is reported twice under `$` with `include_root`, `include_containers` and not `leaves_only`; a negative `max_depth` suppresses the visit |
| WalkerLaws.ContainerRootTwice | src/diff/json_path.py:86-148 | with `include_root`, `include_containers` and not `leaves_only`, a dict or list root is reported twice under `$` |
| WalkerLaws.VisitAddresses | src/diff/json_path.py:72-144 | every pair of a visit started at a path that leads to the node has a path that leads to its value |
| WalkerLaws.IterAddresses | src/diff/json_path.py:34-150 | with `include_root`, every reported `(p, v)` has `get_by_json_path(obj, p) == v`, and `p` has at most `max_depth + 1` tokens |
| WalkerLaws.VisitFindsLeaves | src/diff/json_path.py:72-136 | a visit reports every leaf below its node that `max_depth` lets it reach, under the walker's path of the leaf's tokens |
| WalkerLaws.IterFindsLeaves | src/diff/json_path.py:99-150 | with `include_root`, every leaf `max_depth` lets the walk reach is reported under the path of its tokens |
| WalkerLaws.VisitReportsFound | src/diff/json_path.py:72-136 | every pair a visit reports is a value below its node, reached within `max_depth`, under the path of its tokens |
| WalkerLaws.LeafWalkExactly | src/diff/json_path.py:34-150 | with `include_root` and no containers, the walk reports exactly the leaves `max_depth` lets it reach, each under the path of its tokens |
| WalkerLaws.SamePathSameLeaf | src/diff/json_path.py:34-150 | in such a walk two pairs with the same path are the same pair |
| WalkerLaws.LeafMapExactly | src/diff/json_path.py:206-228 | the map of such a walk maps the path of every reachable leaf to that leaf and has no other key |
| WalkerLaws.PathValueMapFromPairs | src/diff/json_path.py:178-228 | each entry of `path_value_map` is a reported pair; with `exclude_none` no entry is None |
| WalkerLaws.PathValueMapAddresses | src/diff/json_path.py:206-228 | with `include_root`, each entry maps a path to the value `get` finds there |
| Diff.NewLeaves | src/diff/diff.py:6-8 | the new map has the path of every leaf of the new tree, mapped to that leaf, and no other key |
| Diff.OldLeaves | src/diff/diff.py:9-11 | the same for the old map and the old tree |
| Diff.NewAndOldLeavesAgree | src/diff/diff.py:6-11 | the two walks of `diff`, differing only in `leaves_only`, give the same map |
| Diff.ListDeleted | src/diff/diff.py:14-19 | the first loop lists a deletion for each path only in the old map |
| Diff.AppendAdded | src/diff/diff.py:21-26 | the second loop adds an addition for each path only in the new map |
| Diff.AppendModified | src/diff/diff.py:28-39 | the third loop adds a modification for each shared path whose values differ |
| Diff.EmptyExactlyWhenLeavesAgree | src/diff/diff.py:15-31 | the list is empty exactly when the two maps are equal |
| Diff.ComputeDiff | src/diff/diff.py:5-41 | `diff(new, old)` lists exactly the owed records, one per path, grouped deleted–added–modified; `diff(D, D)` is empty |
| DiffLaws.RecordsAddressLeaves | src/diff/diff.py:17-38 | a record's old value is the leaf `get` finds in the old tree, its new value the leaf `get` finds in the new tree; unused values are None; a modification's values differ |
| DiffLaws.RootIsNeverARecord | src/diff/json_path.py:99-136 | between two dicts or lists, `$` is never a record's path: a walk without containers reports only leaves, so the root is left out by construction, as the comment at diff.py:40 intends |
| DiffLaws.LeafMapsAgreeExactly | src/diff/diff.py:6-11 | the leaf maps of two trees are equal exactly when the trees have the same leaves at the same token paths |
| DiffLaws.NoRecordsExactlyForSameLeaves | src/diff/diff.py:5-41 | `diff` is empty exactly when the two trees have the same leaves at the same token paths |
| DiffLaws.ChangedLeafIsOneModification | tests/test_diff.py:31-53 | `{"name": "Amin"}` to `{"name": "Amin2"}` is one modification of `$.name`, and patching it gives the new tree |
| DiffLaws.NewKeyIsOneAddition | tests/test_diff.py:79-93 | `{}` to `{"age": 30}` is one addition of `$.age`, and patching it gives the new tree |
| DiffLaws.DroppedKeyIsOneDeletion | tests/test_diff.py:96-110 | `{"name": "Amin"}` to `{}` is one deletion of `$.name`, and patching it gives `{}` |
| DiffLaws.EmptyContainerIsInvisible | src/diff/diff.py:6-11 | `{"a": {}}` against `{}` gives no record, so patching does not rebuild `{"a": {}}` |
| DiffLaws.PopPrunesNestedKey | src/diff/patch.py:344-355 | popping `$.a.b` from `{"a": {"b": 1}}` with pruning gives `{}` and the value 1 |

## Left out

- Identity and aliasing. Trees are values:
  - the `seen_ids` cycle guard (src/diff/json_path.py:65, 78-82) has no counterpart. Datatype trees cannot be cyclic, and a sub-object shared by two parents is walked at both places, where Python lists it only once;
  - in-place mutation and the `copy.deepcopy` in `patch` are implicit in the value semantics. No aliasing between the input and the output is modelled.
- `sort_keys`. Dict entries are visited in ascending code-point order. Python visits them in insertion order unless `sort_keys` is set, and compares `str(key)`. Only string keys are modelled, so the coercion of non-string keys with `str()` (src/diff/json_path.py:101-104) is left out. A walk may report a path twice (the root with `include_containers`), but the walks of `diff` have no containers, and in them two pairs with the same path are the same pair (`WalkerLaws.SamePathSameLeaf`). So the order does not change the maps `diff` builds. That the list of such a walk has no repeated entry is not stated.
- `include_values` and laziness. The walker returns the `(path, value)` pairs as a finished sequence. The generator form that yields only paths is represented by `ListJsonPaths`.
- Values. Floats are not modelled. Equality is exact datatype equality, so Python's `True == 1 == 1.0` at src/diff/diff.py:31 is not reproduced.
- Digits. Python's `str.isdigit` also accepts non-ASCII digits (src/diff/patch.py:92), and `int()` may then fail. Only ASCII `0`–`9` are modelled.
- Negative indices. Tokens hold natural numbers, because the tokenizer cannot produce a negative index. The negative-index checks of `set`, `get` and `pop` are therefore unreachable.
- Unreachable errors. The "expected key" error of `read_simple_key` (src/diff/patch.py:44-45) cannot be reached from the main loop. It is kept in the error type but has no case.
- Error messages. Errors are kinds (`JsonPathError`, `KeyError`, `TypeError`, `IndexError`) without their texts or positions.
- Record naming. `Delta` and `Operation` (src/diff/delta.py, src/diff/operation.py) are one record here. The name clashes among the source, its import at src/diff/patch.py:5 and the tests (`operation=`, `deltas=`) are not modelled.
- No general round trip. There is no lemma `patch(old, diff(new, old)) == new`, because it is false:
  - empty containers are invisible to `diff` (`DiffLaws.EmptyContainerIsInvisible`);
  - several deletions from one list shift the indices of later ones.

  It is proved for the three single-record cases of the tests only. The larger test trees (tests/test_diff.py:56-68, 113-146) and the round-trip tests on None values, several changes at once, repeated diffs and the reverse diff (tests/test_diff.py:149-225) are not worked out.
- PathLaws.RootlessRoundTrip: weaker than a universal round trip, because a dot-form key starting with `$` after the empty base is read as the root marker (`PathLaws.RootlessDollarKeyLosesDollar`).
- The pytest harness and its helpers (tests/test_diff.py:9-28) are not modelled.
