# MetagenomeDB persistent objects, modelled in Dafny

MetagenomeDB maps in-memory objects onto documents in a MongoDB store. This
project models the lifecycle of one such object, the class `Object` of
`MetagenomeDB/base.py`, and proves what it promises.

An object has two private fields: a nested property tree, and a committed flag.
The tree may hold the object's identifier under the top-level key `_id`.

- **Construction** builds the tree from a mapping, one entry at a time. An
  `_id` given as text is normalised to an ObjectId. The new object is committed
  exactly when it carries an `_id` the store knows; an unknown one is refused.
- **commit** does nothing on a committed object. Otherwise it:
  1. writes a transient patch over existing top-level properties;
  2. hands the properties to the store and records the identifier it answers as `_id`;
  3. marks the object committed and writes the patched keys back.
- **remove** is only for committed objects. It makes the store forget the
  document, drops `_id` and clears the flag.
- **Property writes and deletes** refuse `_id`. A write of the value already
  held (a "phantom" write) changes nothing. Any other write or delete clears the
  flag.
- **Queries** (`__getitem__`, `__contains__`, `get_property`,
  `get_properties`, `is_committed`) read the state. `get_neighbors` is refused on
  an uncommitted object.

Files:
- `errors.dfy`: module `Errors`, the exceptions as an `Error` datatype, and `Result`/`Option`.
- `objectid.dfy`: module `ObjectId`, identifiers and their 24-digit hexadecimal text form.
- `tree.dfy`: module `Tree`, the property tree: keys, get, set, delete, contains.
- `forge.dfy`: module `Forge`, the store as the object sees it: class `Store`.
- `lifecycle.dfy`: module `Lifecycle`, the object's state as a value, each operation as a function on it, and the lemmas.
- `base.dfy`: module `Base`, class `Object`. Its fields are `properties` and `committed`, and its methods update them in place. Each method is proved to follow the matching `Lifecycle` function.
- `scenario.dfy`: a client that uses only the contracts. It shows the guards, commit idempotence and the phantom rule.

Two points about the state that are easy to get wrong:
- **Committed and `_id`.** A committed object always holds an ObjectId `_id`,
  but not the other way round: a write to a committed object clears the flag and
  keeps `_id` (MetagenomeDB/base.py:152-153). So the invariant proved is one-way
  (`Lifecycle.Valid`), and `Scenario.CommitAndWrite` ends in a state that is
  uncommitted and still holds `_id`.
- **Shallow copy.** `get_properties` returns a shallow copy
  (MetagenomeDB/base.py:173); a value model cannot tell it from a deep one.

The collaborators the code calls, whose source is not part of this model, are modelled as
far as `Object` relies on them:
- `tree`: `validate_key` splits a dotted key on `.`. It refuses an empty
  segment, and `_id` anywhere but the root. `set` creates missing intermediate
  mappings and fails on an existing intermediate value that is not a mapping.
  `delete` leaves emptied intermediate mappings in place.
- `forge`: `exists` tells whether a document is stored. `commit` saves the
  document, under its own ObjectId `_id` if it has one and under a new
  identifier otherwise. `remove` forgets the document.
- `pymongo.objectid.ObjectId`: a string decodes exactly when it is 24
  hexadecimal digits.

## Model

| member | source | states |
|---|---|---|
| `Tree.ValidateJoin` | MetagenomeDB/base.py:19 | a valid path written as a dotted key validates back to the same path |
| `Tree.SplitJoin` | MetagenomeDB/base.py:19 | splitting a joined path gives the path back when no segment holds a separator |
| `Tree.JoinSplit` | MetagenomeDB/base.py:19 | joining the segments of any dotted key gives the key back |
| `Tree.ValidateKey` | MetagenomeDB/base.py:160 | a validated key is a non-empty path of non-empty segments with `_id` only at the root; the only error is InvalidKey |
| `Tree.Get` | MetagenomeDB/base.py:157 | reading a path fails only with MissingKey (a KeyError) |
| `Tree.Set` | MetagenomeDB/base.py:152 | writing a path keeps every other top-level entry and fails only with NotATree |
| `Tree.Delete` | MetagenomeDB/base.py:164 | deleting a path keeps every other top-level entry and fails only with MissingKey |
| `Tree.Contains` | MetagenomeDB/base.py:148 | `contains` never fails, and holds exactly when `get` finds a value at the path |
| `Tree.SetFailsIffBlocked` | MetagenomeDB/base.py:152 | `set` fails exactly when an existing value that is not a mapping lies on the path |
| `Tree.ContainedNotBlocked` | MetagenomeDB/base.py:148-152 | a path that is already there can always be overwritten |
| `Tree.GetAfterSet` | MetagenomeDB/base.py:152-157 | after `set`, `get` at the same path returns the value set and `contains` holds |
| `Tree.GetOtherAfterSet` | MetagenomeDB/base.py:152-157 | after a successful `set`, every path that diverges from the written one reads as it did before |
| `Tree.GetOtherAfterDelete` | MetagenomeDB/base.py:164 | after a successful `delete`, every path that diverges from the deleted one reads as it did before |
| `Tree.SetCurrentValue` | MetagenomeDB/base.py:147-150 | setting a path to the value it holds leaves the tree unchanged |
| `Tree.DeleteRemoves` | MetagenomeDB/base.py:164 | `delete` succeeds exactly on a contained path, and the path is gone afterwards |
| `Tree.DeleteTwice` | MetagenomeDB/base.py:164 | repeating a successful delete fails with MissingKey |
| `ObjectId.DecodeId` | MetagenomeDB/base.py:28-29 | a text identifier decodes exactly when it is 24 hexadecimal digits, to a number below 16^24 |
| `ObjectId.HexValue` | MetagenomeDB/base.py:29 | a digit string has a value exactly when every character is a hexadecimal digit, and the value is below 16 to the length |
| `ObjectId.DecodeEncode` | MetagenomeDB/base.py:28-30 | decoding the canonical text form of an identifier gives the identifier back |
| `ObjectId.EncodeDecode` | MetagenomeDB/base.py:28-30 | a lower-case text identifier that decodes is the canonical form of its value |
| `Lifecycle.NormalizeId` | MetagenomeDB/base.py:28-30 | a string `_id` becomes the ObjectId it decodes to, and fails with InvalidIdentifier exactly when it does not decode; any other value is kept unchanged |
| `Lifecycle.BuildProperties` | MetagenomeDB/base.py:15-20 | building the tree entry by entry from an empty one fails only with InvalidKey (a refused key) or NotATree (a path through a non-mapping value) |
| `Lifecycle.Construct` | MetagenomeDB/base.py:14-37 | a constructed object satisfies the invariant and starts committed exactly when it holds `_id` |
| `Lifecycle.BuildPrefixError` | MetagenomeDB/base.py:18-20 | once an entry of the mapping is refused, construction fails with that error |
| `Lifecycle.BuildKeysValid` | MetagenomeDB/base.py:18-19 | a construction that succeeds was given only valid keys |
| `Lifecycle.BuildLastEntry` | MetagenomeDB/base.py:18-20 | the value of the last entry can be read back at its key |
| `Lifecycle.BuildEntryStored` | MetagenomeDB/base.py:18-20 | every entry of the mapping is stored: its value reads back at its key unless a later entry writes over its path |
| `Lifecycle.ConstructOutcome` | MetagenomeDB/base.py:25-37 | without `_id`: uncommitted; with an ObjectId `_id`: committed if the store knows it, UnknownIdentifier if not; any other non-string `_id` is unknown; a text `_id` that does not decode is refused with InvalidIdentifier, one that does is checked as its ObjectId |
| `Lifecycle.ConstructFromIdText` | MetagenomeDB/base.py:28-35 | an `_id` in text form is stored as its ObjectId, and the object is committed if the store knows it, refused otherwise |
| `Lifecycle.GetItem` | MetagenomeDB/base.py:155-157 | InvalidKey for a key that does not validate; otherwise a value is found exactly when the path is contained, and the only other error is MissingKey |
| `Lifecycle.ContainsKey` | MetagenomeDB/base.py:167-169 | refused with InvalidKey exactly when the key does not validate; otherwise true exactly when `__getitem__` finds a value |
| `Lifecycle.GetProperty` | MetagenomeDB/base.py:177-182 | succeeds exactly on a valid key, refuses only with InvalidKey, and gives the stored value whenever `__getitem__` finds one |
| `Lifecycle.GetPropertyDefault` | MetagenomeDB/base.py:177-182 | `get_property` gives the default exactly for a valid missing key, the stored value for a present one, and propagates InvalidKey |
| `Lifecycle.NeighborAnchor` | MetagenomeDB/base.py:128-130 | succeeds exactly on a committed object, with its `_id`; otherwise UncommittedObject |
| `Lifecycle.SetItem` | MetagenomeDB/base.py:142-153 | fails only with InvalidKey, ReservedKey or NotATree; a key rooted at `_id` is refused; any other valid key fails exactly when a non-mapping value blocks its path |
| `Lifecycle.DelItem` | MetagenomeDB/base.py:159-165 | fails only with InvalidKey, ReservedKey or MissingKey; a key rooted at `_id` is refused; any other valid key is deleted exactly when it is there |
| `Lifecycle.ReservedKeyRefused` | MetagenomeDB/base.py:142-165 | a write or delete whose first segment is `_id` fails with ReservedKey |
| `Lifecycle.PhantomWrite` | MetagenomeDB/base.py:147-150 | writing the value a key already holds returns the state unchanged: same tree, same committed flag |
| `Lifecycle.SetItemStores` | MetagenomeDB/base.py:147-157 | after a write the key reads back as the value; the object stays committed exactly when it was committed and the write was phantom |
| `Lifecycle.DelItemRemoves` | MetagenomeDB/base.py:159-169 | a delete succeeds exactly on a present key; it leaves the object uncommitted and the key absent, and the same delete then fails with MissingKey |
| `Lifecycle.SetItemKeepsOthers` | MetagenomeDB/base.py:142-157 | after a successful `__setitem__`, `__getitem__` of any key whose path diverges from the written key's answers as before |
| `Lifecycle.DelItemKeepsOthers` | MetagenomeDB/base.py:155-165 | after a successful `__delitem__`, `__getitem__` of any key whose path diverges from the deleted key's answers as before |
| `Lifecycle.WritesKeepIdentifier` | MetagenomeDB/base.py:142-165 | writes and deletes keep the `_id` entry and the invariant |
| `Lifecycle.Remove` | MetagenomeDB/base.py:103-109 | succeeds exactly on a committed object; the result is uncommitted, has no `_id`, and keeps every other property |
| `Lifecycle.PatchFault` | MetagenomeDB/base.py:87-88 | a patch key passes exactly when it is not `_id` and is a top-level property; `_id` raises PatchOnIdentifier (the assertion), a missing key MissingKey (the KeyError) |
| `Lifecycle.Overwrite` | MetagenomeDB/base.py:89-97 | writing top-level entries in order never loses a key; `OverwriteHit`, `OverwriteMiss` and `OverwriteKeys` give the exact result |
| `Lifecycle.FirstFault` | MetagenomeDB/base.py:86-88 | the patch loop stops at the first key that is `_id` or not a top-level property; every earlier key passes |
| `Lifecycle.OverwriteHit` | MetagenomeDB/base.py:89-91 | after patching, each patched key holds its patch value, so the properties handed to the store carry the patch |
| `Lifecycle.OverwriteMiss` | MetagenomeDB/base.py:89 | patching leaves every key it does not name as it was |
| `Lifecycle.OverwriteKeys` | MetagenomeDB/base.py:89 | the keys after patching are the keys before plus the patched ones |
| `Lifecycle.PatchRestored` | MetagenomeDB/base.py:85-97 | the patch is transient: after `_id` is set and the saved values are written back, the properties are the pre-commit ones plus `_id` |
| `Lifecycle.FailedPatchLeftApplied` | MetagenomeDB/base.py:86-89 | when the patch loop stops part-way after an entry that changed a value, the properties differ from the pre-commit ones |
| `Lifecycle.FailedPatchExample` | MetagenomeDB/base.py:86-89 | patching `a` then the missing `b` stops at `b` with `a` still patched |
| `Lifecycle.Commit` | MetagenomeDB/base.py:79-99 | as written, given the store's identifier: a committed object is left alone with no answer; the commit is refused exactly when a patch key is `_id` or missing, with the first such key's error and the entries before it left applied; otherwise the object is committed with the pre-commit properties plus `_id` |
| `Lifecycle.CheckedCommit` | MetagenomeDB/base.py:79-99 | with all patch keys checked first: refused exactly when a patch key is `_id` or missing, with the first such key's error and the state unchanged; a committed object is left alone; a successful commit leaves the pre-commit properties plus `_id`, committed |
| `Lifecycle.CheckedCommitAgrees` | MetagenomeDB/base.py:79-99 | the checked commit answers as the written one and reaches the same state whenever it succeeds; they differ only in the state a refused patch leaves |
| `Forge.Store.Exists` | MetagenomeDB/base.py:32 | holds exactly when a document is stored under the identifier; every stored identifier is below the counter new identifiers come from |
| `Forge.Store.Commit` | MetagenomeDB/base.py:91 | the store keeps the document under the identifier it answers: the document's own ObjectId, or one it did not know |
| `Forge.Store.Remove` | MetagenomeDB/base.py:107 | the store forgets exactly that identifier |
| `Base.NewObject` | MetagenomeDB/base.py:14-37 | the constructor yields a fresh object in the state `Lifecycle.Construct` gives, or its error |
| `Base.Object.IsCommitted` | MetagenomeDB/base.py:74-75 | answers the committed flag; a committed object holds an ObjectId `_id` |
| `Base.Object.GetItem` | MetagenomeDB/base.py:155-157 | is `Lifecycle.GetItem` on the object's state; a value is found exactly when `__contains__` answers true |
| `Base.Object.ContainsKey` | MetagenomeDB/base.py:167-169 | is `Lifecycle.ContainsKey` on the object's state; refused exactly on a key that does not validate |
| `Base.Object.GetProperties` | MetagenomeDB/base.py:172-173 | the copy has the object's top-level keys, and each entry is what `__getitem__` reads at that key |
| `Base.Object.GetProperty` | MetagenomeDB/base.py:177-182 | is `Lifecycle.GetProperty` on the object's state: the default for a valid missing key, the stored value for a present one |
| `Base.Object.GetNeighbors` | MetagenomeDB/base.py:128-138 | refused with UncommittedObject exactly on an uncommitted object; otherwise the query is anchored on its `_id` |
| `Base.Object.SetItem` | MetagenomeDB/base.py:142-153 | the new state is `Lifecycle.SetItem`'s; a refused write changes nothing; the invariant is kept |
| `Base.Object.DelItem` | MetagenomeDB/base.py:159-165 | the new state is `Lifecycle.DelItem`'s; a refused delete changes nothing; the invariant is kept |
| `Base.Object.Remove` | MetagenomeDB/base.py:103-109 | uncommitted: UncommittedObject and nothing changes; committed: the store forgets the identifier and the object's state is `Lifecycle.Remove`'s |
| `Base.Object.Commit` | MetagenomeDB/base.py:79-99 | committed: returns nothing and changes nothing. Patch refused: fails with the earlier entries applied. Otherwise: committed with the store's identifier as `_id`, other properties as before, the store holding the patched properties. Answer and state are `Lifecycle.Commit`'s for the store's identifier |
| `Base.Object.ApplyPatch` | MetagenomeDB/base.py:85-89 | the patch loop leaves the properties patched up to the first refused entry and answers that entry's error; when no entry is refused, it has saved each patch key paired with its value before the patch |
| `Base.Object.RestoreSaved` | MetagenomeDB/base.py:95-97 | the restore loop writes every saved value back |
| `Base.Object.CommitChecked` | MetagenomeDB/base.py:79-99 | as `Commit`, except that a refused patch leaves the object and the store unchanged; answer and state are `Lifecycle.CheckedCommit`'s for the store's identifier |

## Findings

| source | as written | input that shows it | evidently intended | confidence | as-written member | corrected member |
|---|---|---|---|---|---|---|
| MetagenomeDB/base.py:86-89 | the patch loop writes each entry before checking the next one. A later entry naming `_id` (AssertionError) or a missing key (KeyError) stops `commit` with the earlier entries still written. | properties `{a: 1}`, `commit(a=2, b=3)` with `a` iterated first: KeyError on `b` and `a` stays 2 | the patch is transient (lines 83-84, 95-97), so a refused commit should leave the properties as they were | medium; not executed (the order of keyword arguments decides which entries are written first) | `Base.Object.Commit`, `Lifecycle.Commit`, `Lifecycle.FailedPatchLeftApplied`, `Lifecycle.FailedPatchExample` | `Base.Object.CommitChecked`, `Lifecycle.CheckedCommit`, `Lifecycle.CheckedCommitAgrees` |

## Left out

- The class methods `count`, `distinct`, `find`, `find_one` and `remove_all` (MetagenomeDB/base.py:42-69) are one-line pass-throughs to the store's query interface. They are not modelled.
- `forge.neighbors` and its graph traversal are not part of this model. `GetNeighbors` models the committed guard and the query it hands over, not the neighbours found.
- The identity cache behind `forge` is not modelled: at most one live object per identifier, with weak references. The store is a map from identifiers to documents.
- The `indices` argument of the constructor is not kept. Index registration happens inside `forge.commit`, which is not part of this model.
- `forge.commit` is assumed to save a document under its own ObjectId `_id` when it has one. This covers an uncommitted object that was committed before. Its source is not part of this model.
- Store failures (connection loss, refused credentials) are not modelled. `Store.Commit` and `Store.Remove` always succeed. If they failed, a patch would be left applied just as in the finding above.
- `Lifecycle.ConstructOutcome`: an `_id` that is neither text nor an ObjectId is treated as unknown, because the modelled store holds only ObjectId identifiers. In the code the answer comes from `forge.exists` (MetagenomeDB/base.py:32), which is not part of this model.
- `ObjectId.DecodeId` covers only the 24-digit text form. The 12-byte raw-string form that pymongo also accepts is not modelled.
- A `unicode` `_id` is not converted by the code, because `type(id) == str` is false for it. The model has one string kind, so every string `_id` is decoded.
- Python equality between values of different types (`1 == 1.0 == True`) is not modelled. Values are compared structurally.
- Aliasing is not modelled. The constructor stores the caller's nested mappings by reference, and `get_properties` returns a shallow copy. A value model has no shared sub-trees.
- `commit` as written assumes assertions are enabled. Under `python -O` the `_id` check disappears, and that behaviour is not modelled.
- `__del__`, `__str__` and `__repr__` (MetagenomeDB/base.py:111-193) are diagnostics and are not modelled. They test `hasattr(self, "__committed")`, but the field's real name is `_Object__committed`, so the test is always false. The warning therefore never prints, and `__str__` always returns `<Object (uncommitted)>`.
- MetagenomeDB/connection.py (configuration file, network connection) and lib/MetagenomeDB/__init__.py (version string, logging setup) are not modelled. They are I/O and configuration.
