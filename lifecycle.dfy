/** The life of one persistent object as values: its property tree and its
    committed flag, and what each operation of the object layer makes of them.
    The class Base.Object holds the same two fields and is proved to follow
    these functions; the lemmas here state what the operations promise. */
module Lifecycle {
  import opened Errors
  import opened ObjectId
  import opened Tree

  datatype State = State(properties: Props, committed: bool)

  /** A committed object holds its identifier. The converse does not hold: a
      write to a committed object clears the flag and keeps '_id'. */
  predicate Valid(s: State) {
    s.committed ==> IdKey in s.properties && s.properties[IdKey].Oid?
  }

  // ================================================================ construction

  /** Stores one (key, value) entry of the constructor's mapping. */
  function StoreEntry(t: Props, entry: (RawKey, Value)): (r: Result<Props>)
    ensures r.Err? ==> r.error == InvalidKey || r.error == NotATree
  {
    match ValidateKey(entry.0)
    case Err(e) => Err(e)
    case Ok(p) => Set(t, p, entry.1)
  }

  /** The property tree the constructor builds, entry by entry, from an empty one. */
  function BuildProperties(entries: seq<(RawKey, Value)>): (r: Result<Props>)
    ensures r.Err? ==> r.error == InvalidKey || r.error == NotATree
    decreases |entries|
  {
    if entries == [] then Ok(map[])
    else match BuildProperties(entries[..|entries| - 1])
      case Err(e) => Err(e)
      case Ok(t) => StoreEntry(t, entries[|entries| - 1])
  }

  /** An identifier given as a string is replaced by the ObjectId it decodes to. */
  function NormalizeId(v: Value): (r: Result<Value>)
    ensures !v.Str? ==> r == Ok(v)
    ensures v.Str? ==> (r.Ok? <==> DecodeId(v.s).Ok?)
    ensures v.Str? && r.Ok? ==> r.value == Oid(DecodeId(v.s).value)
    ensures r.Err? ==> r.error == InvalidIdentifier
  {
    if v.Str? then
      match DecodeId(v.s)
      case Ok(id) => Ok(Oid(id))
      case Err(e) => Err(e)
    else Ok(v)
  }

  /** The constructor: the state it starts in, given the identifiers the store knows. */
  function Construct(entries: seq<(RawKey, Value)>, known: set<Id>): (r: Result<State>)
    ensures r.Ok? ==> Valid(r.value)
    ensures r.Ok? ==> (r.value.committed <==> IdKey in r.value.properties)
  {
    match BuildProperties(entries)
    case Err(e) => Err(e)
    case Ok(t) =>
      if IdKey !in t then Ok(State(t, false))
      else match NormalizeId(t[IdKey])
        case Err(e) => Err(e)
        case Ok(v) =>
          if v.Oid? && v.id in known then Ok(State(t[IdKey := v], true))
          else Err(UnknownIdentifier)
  }

  /** Once a prefix of the entries fails, construction fails with that error. */
  lemma {:induction false} BuildPrefixError(entries: seq<(RawKey, Value)>, i: nat, e: Error)
    requires i <= |entries|
    requires BuildProperties(entries[..i]) == Err(e)
    ensures BuildProperties(entries) == Err(e)
    decreases |entries| - i
  {
    if i < |entries| {
      var es := entries[..i + 1];
      assert es[..|es| - 1] == entries[..i];
      BuildPrefixError(entries, i + 1, e);
    } else {
      assert entries[..i] == entries;
    }
  }

  /** A constructor that succeeds was given only valid keys. */
  lemma {:induction false} BuildKeysValid(entries: seq<(RawKey, Value)>)
    requires BuildProperties(entries).Ok?
    ensures forall i :: 0 <= i < |entries| ==> ValidateKey(entries[i].0).Ok?
    decreases |entries|
  {
    if entries != [] {
      var init := entries[..|entries| - 1];
      BuildKeysValid(init);
      assert forall i :: 0 <= i < |init| ==> init[i] == entries[i];
    }
  }

  /** The last entry's value can be read back at its key. */
  lemma BuildLastEntry(entries: seq<(RawKey, Value)>, p: seq<string>)
    requires |entries| > 0 && BuildProperties(entries).Ok?
    requires ValidateKey(entries[|entries| - 1].0) == Ok(p)
    ensures Get(BuildProperties(entries).value, p) == Ok(entries[|entries| - 1].1)
  {
    var t := BuildProperties(entries[..|entries| - 1]).value;
    GetAfterSet(t, p, entries[|entries| - 1].1);
  }

  /** Every entry of the mapping is stored: its value can be read back at its key,
      unless a later entry writes over its path. */
  lemma {:induction false} BuildEntryStored(entries: seq<(RawKey, Value)>, j: nat, p: seq<string>)
    requires BuildProperties(entries).Ok?
    requires j < |entries| && ValidateKey(entries[j].0) == Ok(p)
    requires forall k :: j < k < |entries| ==>
               ValidateKey(entries[k].0).Ok? && Diverge(p, ValidateKey(entries[k].0).value)
    ensures Get(BuildProperties(entries).value, p) == Ok(entries[j].1)
    decreases |entries|
  {
    var n := |entries|;
    if j == n - 1 {
      BuildLastEntry(entries, p);
    } else {
      var init := entries[..n - 1];
      assert BuildProperties(init).Ok?;
      assert forall k :: 0 <= k < |init| ==> init[k] == entries[k];
      BuildEntryStored(init, j, p);
      var q := ValidateKey(entries[n - 1].0).value;
      DivergeSymmetric(p, q);
      GetOtherAfterSet(BuildProperties(init).value, q, entries[n - 1].1, p);
    }
  }

  /** Without '_id' the object starts uncommitted; with an ObjectId '_id' it starts
      committed when the store knows it and is refused with UnknownIdentifier
      otherwise. A text '_id' is decoded first: one that does not decode is
      refused with InvalidIdentifier, one that does is checked as its ObjectId. */
  lemma ConstructOutcome(entries: seq<(RawKey, Value)>, known: set<Id>, t: Props)
    requires BuildProperties(entries) == Ok(t)
    ensures IdKey !in t ==> Construct(entries, known) == Ok(State(t, false))
    ensures IdKey in t && t[IdKey].Oid? && t[IdKey].id in known ==>
              Construct(entries, known) == Ok(State(t, true))
    ensures IdKey in t && t[IdKey].Oid? && t[IdKey].id !in known ==>
              Construct(entries, known) == Err(UnknownIdentifier)
    ensures IdKey in t && !t[IdKey].Oid? && !t[IdKey].Str? ==>
              Construct(entries, known) == Err(UnknownIdentifier)
    ensures IdKey in t && t[IdKey].Str? && DecodeId(t[IdKey].s).Err? ==>
              Construct(entries, known) == Err(InvalidIdentifier)
    ensures IdKey in t && t[IdKey].Str? && DecodeId(t[IdKey].s).Ok? ==>
              var id := DecodeId(t[IdKey].s).value;
              Construct(entries, known) ==
                if id in known then Ok(State(t[IdKey := Oid(id)], true)) else Err(UnknownIdentifier)
  {
    if IdKey in t && t[IdKey].Oid? {
      assert t[IdKey := t[IdKey]] == t;
    }
  }

  /** An '_id' given in its text form is normalised: the object starts committed
      holding the ObjectId when the store knows it. */
  lemma ConstructFromIdText(entries: seq<(RawKey, Value)>, known: set<Id>, t: Props, id: Id)
    requires BuildProperties(entries) == Ok(t)
    requires id < Pow16(HexLength)
    requires IdKey in t && t[IdKey] == Str(EncodeId(id))
    ensures Construct(entries, known) ==
              if id in known then Ok(State(t[IdKey := Oid(id)], true)) else Err(UnknownIdentifier)
  {
    DecodeEncode(id);
  }

  // ================================================================ queries

  /** __getitem__: InvalidKey for a key that does not validate; otherwise the
      value at the path, found exactly when the path is contained. */
  function GetItem(s: State, key: RawKey): (r: Result<Value>)
    ensures ValidateKey(key).Err? ==> r == Err(InvalidKey)
    ensures ValidateKey(key).Ok? ==> (r.Ok? <==> Contains(s.properties, ValidateKey(key).value))
    ensures r.Err? ==> r.error == InvalidKey || r.error == MissingKey
  {
    match ValidateKey(key)
    case Err(e) => Err(e)
    case Ok(p) => Get(s.properties, p)
  }

  /** __contains__: InvalidKey for a key that does not validate; otherwise
      whether __getitem__ finds a value. */
  function ContainsKey(s: State, key: RawKey): (r: Result<bool>)
    ensures r.Err? <==> ValidateKey(key).Err?
    ensures r.Err? ==> r.error == InvalidKey
    ensures r.Ok? ==> (r.value <==> GetItem(s, key).Ok?)
  {
    match ValidateKey(key)
    case Err(e) => Err(e)
    case Ok(p) => Ok(Contains(s.properties, p))
  }

  /** get_property: the value, or the default when the key is missing; only an
      invalid key is refused. */
  function GetProperty(s: State, key: RawKey, default: Value): (r: Result<Value>)
    ensures r.Ok? <==> ValidateKey(key).Ok?
    ensures r.Err? ==> r.error == InvalidKey
    ensures GetItem(s, key).Ok? ==> r == GetItem(s, key)
  {
    match GetItem(s, key)
    case Ok(v) => Ok(v)
    case Err(MissingKey) => Ok(default)
    case Err(e) => Err(e)
  }

  /** get_property gives the default exactly for a valid key that is not there,
      the stored value for one that is, and refuses an invalid key. */
  lemma GetPropertyDefault(s: State, key: RawKey, default: Value)
    ensures ContainsKey(s, key) == Ok(false) ==> GetProperty(s, key, default) == Ok(default)
    ensures ContainsKey(s, key) == Ok(true) ==>
              GetItem(s, key).Ok? && GetProperty(s, key, default) == GetItem(s, key)
    ensures ContainsKey(s, key).Err? ==> GetProperty(s, key, default) == Err(InvalidKey)
  {
  }

  /** get_neighbors' guard: the identifier neighbours are joined on, or
      UncommittedObject. */
  function NeighborAnchor(s: State): (r: Result<Id>)
    requires Valid(s)
    ensures r.Ok? <==> s.committed
    ensures r.Ok? ==> s.properties[IdKey] == Oid(r.value)
    ensures r.Err? ==> r.error == UncommittedObject
  {
    if !s.committed then Err(UncommittedObject) else Ok(s.properties[IdKey].id)
  }

  // ================================================================ writes

  /** __setitem__: '_id' is refused, a write of the value already there changes
      nothing, any other write stores the value and clears the committed flag. */
  function SetItem(s: State, key: RawKey, v: Value): (r: Result<State>)
    ensures r.Err? ==> r.error == InvalidKey || r.error == ReservedKey || r.error == NotATree
    ensures ValidateKey(key).Ok? && ValidateKey(key).value[0] == IdKey ==> r == Err(ReservedKey)
    ensures ValidateKey(key).Ok? && ValidateKey(key).value[0] != IdKey ==>
              (r.Err? <==> Blocked(s.properties, ValidateKey(key).value))
  {
    match ValidateKey(key)
    case Err(e) => Err(e)
    case Ok(p) =>
      if p[0] == IdKey then Err(ReservedKey)
      else if Contains(s.properties, p) && Get(s.properties, p) == Ok(v) then
        ContainedNotBlocked(s.properties, p);
        Ok(s)
      else
        SetFailsIffBlocked(s.properties, p, v);
        match Set(s.properties, p, v)
        case Err(e) => Err(e)
        case Ok(t) => Ok(State(t, false))
  }

  /** __delitem__: '_id' is refused, a missing key fails, anything else is removed
      and clears the committed flag. */
  function DelItem(s: State, key: RawKey): (r: Result<State>)
    ensures r.Err? ==> r.error == InvalidKey || r.error == ReservedKey || r.error == MissingKey
    ensures ValidateKey(key).Ok? && ValidateKey(key).value[0] == IdKey ==> r == Err(ReservedKey)
    ensures ValidateKey(key).Ok? && ValidateKey(key).value[0] != IdKey ==>
              (r.Ok? <==> Contains(s.properties, ValidateKey(key).value))
  {
    match ValidateKey(key)
    case Err(e) => Err(e)
    case Ok(p) =>
      if p[0] == IdKey then Err(ReservedKey)
      else
        DeleteRemoves(s.properties, p);
        match Delete(s.properties, p)
        case Err(e) => Err(e)
        case Ok(t) => Ok(State(t, false))
  }

  /** Writing and deleting any key whose first segment is '_id' is refused. */
  lemma ReservedKeyRefused(s: State, key: RawKey, v: Value)
    requires ValidateKey(key).Ok? && ValidateKey(key).value[0] == IdKey
    ensures SetItem(s, key, v) == Err(ReservedKey)
    ensures DelItem(s, key) == Err(ReservedKey)
  {
  }

  /** A phantom write, of the value a key already holds, changes nothing: the
      tree and the committed flag stay as they were. */
  lemma PhantomWrite(s: State, key: RawKey, v: Value)
    requires ValidateKey(key).Ok? && ValidateKey(key).value[0] != IdKey
    requires GetItem(s, key) == Ok(v)
    ensures SetItem(s, key, v) == Ok(s)
  {
  }

  /** After a successful write the key reads back as the value written, and the
      object stays committed exactly when it was committed and the write was phantom;
      a write that is not phantom leaves the object uncommitted. */
  lemma SetItemStores(s: State, key: RawKey, v: Value)
    requires SetItem(s, key, v).Ok?
    ensures GetItem(SetItem(s, key, v).value, key) == Ok(v)
    ensures SetItem(s, key, v).value.committed <==> s.committed && GetItem(s, key) == Ok(v)
    ensures SetItem(s, key, v).value != s ==> !SetItem(s, key, v).value.committed
  {
    var p := ValidateKey(key).value;
    if !(Contains(s.properties, p) && Get(s.properties, p) == Ok(v)) {
      GetAfterSet(s.properties, p, v);
    }
  }

  /** A successful delete leaves the object uncommitted and the key absent, so the
      same delete repeated fails with MissingKey; a delete of a valid, non-reserved
      key succeeds exactly when the key is there. */
  lemma DelItemRemoves(s: State, key: RawKey)
    ensures DelItem(s, key).Ok? ==>
              && !DelItem(s, key).value.committed
              && ContainsKey(DelItem(s, key).value, key) == Ok(false)
              && DelItem(DelItem(s, key).value, key) == Err(MissingKey)
    ensures ValidateKey(key).Ok? && ValidateKey(key).value[0] != IdKey ==>
              (DelItem(s, key).Ok? <==> ContainsKey(s, key) == Ok(true))
  {
    if ValidateKey(key).Ok? {
      var p := ValidateKey(key).value;
      DeleteRemoves(s.properties, p);
      if p[0] != IdKey && Delete(s.properties, p).Ok? {
        DeleteRemoves(Delete(s.properties, p).value, p);
      }
    }
  }

  /** A write leaves every key whose path diverges from the written one reading
      as it did before. */
  lemma SetItemKeepsOthers(s: State, key: RawKey, v: Value, other: RawKey)
    requires ValidateKey(key).Ok? && ValidateKey(other).Ok?
    requires SetItem(s, key, v).Ok?
    requires Diverge(ValidateKey(key).value, ValidateKey(other).value)
    ensures GetItem(SetItem(s, key, v).value, other) == GetItem(s, other)
  {
    var p := ValidateKey(key).value;
    if !(Contains(s.properties, p) && Get(s.properties, p) == Ok(v)) {
      GetOtherAfterSet(s.properties, p, v, ValidateKey(other).value);
    }
  }

  /** A delete leaves every key whose path diverges from the deleted one reading
      as it did before. */
  lemma DelItemKeepsOthers(s: State, key: RawKey, other: RawKey)
    requires ValidateKey(key).Ok? && ValidateKey(other).Ok?
    requires DelItem(s, key).Ok?
    requires Diverge(ValidateKey(key).value, ValidateKey(other).value)
    ensures GetItem(DelItem(s, key).value, other) == GetItem(s, other)
  {
    GetOtherAfterDelete(s.properties, ValidateKey(key).value, ValidateKey(other).value);
  }

  /** Writes and deletes keep the object's identifier and its invariant. */
  lemma WritesKeepIdentifier(s: State, key: RawKey, v: Value)
    requires Valid(s)
    ensures SetItem(s, key, v).Ok? ==>
              Valid(SetItem(s, key, v).value) && SameIdentifier(s, SetItem(s, key, v).value)
    ensures DelItem(s, key).Ok? ==>
              Valid(DelItem(s, key).value) && SameIdentifier(s, DelItem(s, key).value)
  {
  }

  /** Both states hold the same '_id' entry, or neither holds one. */
  predicate SameIdentifier(s: State, s': State) {
    && (IdKey in s.properties <==> IdKey in s'.properties)
    && (IdKey in s.properties ==> s.properties[IdKey] == s'.properties[IdKey])
  }

  // ================================================================ remove

  /** remove: only a committed object may be removed; it loses '_id' and its
      committed flag, and keeps every other property. */
  function Remove(s: State): (r: Result<State>)
    ensures r.Ok? <==> s.committed
    ensures r.Err? ==> r.error == UncommittedObject
    ensures r.Ok? ==> Valid(r.value) && !r.value.committed && IdKey !in r.value.properties
    ensures r.Ok? ==> forall k :: k != IdKey ==>
              (k in r.value.properties <==> k in s.properties) &&
              (k in s.properties ==> r.value.properties[k] == s.properties[k])
  {
    if !s.committed then Err(UncommittedObject)
    else Ok(State(s.properties - {IdKey}, false))
  }

  // ================================================================ commit

  /** What the patch loop of commit raises for one key, if anything: the key must
      not be '_id' and must already be a top-level property. */
  function PatchFault(t: Props, key: string): (r: Option<Error>)
    ensures r.None? <==> key != IdKey && key in t
    ensures r.Some? ==> (r.value == PatchOnIdentifier <==> key == IdKey)
    ensures r.Some? ==> (r.value == MissingKey <==> key != IdKey)
  {
    if key == IdKey then Some(PatchOnIdentifier)
    else if key !in t then Some(MissingKey)
    else None
  }

  /** Index of the first patch entry the loop refuses, or the patch length. */
  function FirstFault(t: Props, patch: seq<(string, Value)>): (i: nat)
    ensures i <= |patch|
    ensures forall j :: 0 <= j < i ==> patch[j].0 != IdKey && patch[j].0 in t
    ensures i < |patch| ==> PatchFault(t, patch[i].0).Some?
  {
    if patch == [] then 0
    else if PatchFault(t, patch[0].0).Some? then 0
    else 1 + FirstFault(t, patch[1..])
  }

  /** No two entries of a patch name the same key (a patch is a mapping). */
  predicate DistinctKeys(es: seq<(string, Value)>) {
    forall i, j :: 0 <= i < j < |es| ==> es[i].0 != es[j].0
  }

  /** The top-level properties after writing the entries in order. */
  function Overwrite(t: Props, es: seq<(string, Value)>): (r: Props)
    ensures t.Keys <= r.Keys
    decreases |es|
  {
    if es == [] then t
    else Overwrite(t, es[..|es| - 1])[es[|es| - 1].0 := es[|es| - 1].1]
  }

  /** The values a patch overwrites, as the loop saves them before patching. */
  function Saved(t: Props, es: seq<(string, Value)>): (r: seq<(string, Value)>)
    requires forall j :: 0 <= j < |es| ==> es[j].0 in t
    ensures |r| == |es|
  {
    seq(|es|, j requires 0 <= j < |es| => (es[j].0, t[es[j].0]))
  }

  /** A patched key holds the value of its (only) entry. */
  lemma {:induction false} OverwriteHit(t: Props, es: seq<(string, Value)>, j: nat)
    requires DistinctKeys(es) && j < |es|
    ensures es[j].0 in Overwrite(t, es) && Overwrite(t, es)[es[j].0] == es[j].1
    decreases |es|
  {
    if j < |es| - 1 {
      OverwriteHit(t, es[..|es| - 1], j);
    }
  }

  /** A key no entry names is left as it was. */
  lemma {:induction false} OverwriteMiss(t: Props, es: seq<(string, Value)>, k: string)
    requires forall j :: 0 <= j < |es| ==> es[j].0 != k
    ensures k in Overwrite(t, es) <==> k in t
    ensures k in t ==> Overwrite(t, es)[k] == t[k]
    decreases |es|
  {
    if es != [] {
      OverwriteMiss(t, es[..|es| - 1], k);
    }
  }

  /** The keys after overwriting are the keys before plus the keys written. */
  lemma {:induction false} OverwriteKeys(t: Props, es: seq<(string, Value)>)
    ensures Overwrite(t, es).Keys == t.Keys + set j | 0 <= j < |es| :: es[j].0
    decreases |es|
  {
    if es != [] {
      var init := es[..|es| - 1];
      OverwriteKeys(t, init);
      assert forall j :: 0 <= j < |init| ==> init[j] == es[j];
      assert (set j | 0 <= j < |es| :: es[j].0) ==
             (set j | 0 <= j < |init| :: init[j].0) + {es[|es| - 1].0};
    }
  }

  /** The patch is transient: writing the saved values back after the store has
      assigned '_id' gives the pre-commit properties plus '_id'. */
  lemma PatchRestored(t: Props, patch: seq<(string, Value)>, x: Value)
    requires DistinctKeys(patch)
    requires forall j :: 0 <= j < |patch| ==> patch[j].0 != IdKey && patch[j].0 in t
    ensures Overwrite(Overwrite(t, patch)[IdKey := x], Saved(t, patch)) == t[IdKey := x]
  {
    var patched := Overwrite(t, patch)[IdKey := x];
    var saved := Saved(t, patch);
    var restored := Overwrite(patched, saved);
    OverwriteKeys(t, patch);
    OverwriteKeys(patched, saved);
    assert restored.Keys == t[IdKey := x].Keys;
    forall k | k in restored
      ensures restored[k] == t[IdKey := x][k]
    {
      if j :| 0 <= j < |patch| && patch[j].0 == k {
        OverwriteHit(patched, saved, j);
      } else {
        OverwriteMiss(patched, saved, k);
        OverwriteMiss(t, patch, k);
      }
    }
  }

  /** As written, a patch that fails part-way leaves the entries before the failing
      one applied: when one of them changed a value, the properties differ from
      the pre-commit ones although commit raised. */
  lemma FailedPatchLeftApplied(t: Props, patch: seq<(string, Value)>, j: nat)
    requires DistinctKeys(patch)
    requires FirstFault(t, patch) < |patch|
    requires j < FirstFault(t, patch) && t[patch[j].0] != patch[j].1
    ensures Overwrite(t, patch[..FirstFault(t, patch)]) != t
  {
    var i := FirstFault(t, patch);
    OverwriteHit(t, patch[..i], j);
  }

  /** A concrete instance: patching 'a' and then the missing 'b' leaves 'a' patched. */
  lemma FailedPatchExample()
    ensures var t := map["a" := Int(1)];
            var patch := [("a", Int(2)), ("b", Int(3))];
            FirstFault(t, patch) == 1 && Overwrite(t, patch[..1]) == map["a" := Int(2)]
  {
  }

  /** commit, as written, given the identifier the store hands back: a committed
      object is left alone and nothing is returned; a refused patch entry raises
      with the entries before it still applied; otherwise the object is committed
      with that identifier as '_id' and the patch undone. */
  function Commit(s: State, patch: seq<(string, Value)>, id: Id): (r: (Result<Option<Id>>, State))
    requires DistinctKeys(patch)
    ensures s.committed ==> r == (Ok(None), s)
    ensures r.0.Err? <==> !s.committed && FirstFault(s.properties, patch) < |patch|
    ensures r.0.Err? ==>
              var i := FirstFault(s.properties, patch);
              && r.0.error == PatchFault(s.properties, patch[i].0).value
              && r.1 == State(Overwrite(s.properties, patch[..i]), false)
    ensures r.0.Ok? && !s.committed ==>
              r == (Ok(Some(id)), State(s.properties[IdKey := Oid(id)], true))
    ensures Valid(s) ==> Valid(r.1)
  {
    if s.committed then (Ok(None), s)
    else
      var i := FirstFault(s.properties, patch);
      if i < |patch| then
        (Err(PatchFault(s.properties, patch[i].0).value), State(Overwrite(s.properties, patch[..i]), false))
      else
        PatchRestored(s.properties, patch, Oid(id));
        (Ok(Some(id)),
         State(Overwrite(Overwrite(s.properties, patch)[IdKey := Oid(id)], Saved(s.properties, patch)), true))
  }

  /** The commit the source evidently intends: every patch key is checked before
      any is applied, so a refused patch leaves the state untouched. Given the
      identifier the store hands back, the resulting answer and state. */
  function CheckedCommit(s: State, patch: seq<(string, Value)>, id: Id): (r: (Result<Option<Id>>, State))
    requires DistinctKeys(patch)
    ensures s.committed ==> r == (Ok(None), s)
    ensures r.0.Err? <==> !s.committed && FirstFault(s.properties, patch) < |patch|
    ensures r.0.Err? ==>
              && r.0.error == PatchFault(s.properties, patch[FirstFault(s.properties, patch)].0).value
              && r.1 == s
    ensures r.0.Ok? && !s.committed ==>
              r == (Ok(Some(id)), State(s.properties[IdKey := Oid(id)], true))
    ensures Valid(s) ==> Valid(r.1)
  {
    if !s.committed && FirstFault(s.properties, patch) < |patch| then
      (Err(PatchFault(s.properties, patch[FirstFault(s.properties, patch)].0).value), s)
    else Commit(s, patch, id)
  }

  /** The intended commit answers as the written one does and differs from it
      only in the state a refused patch leaves: the written one keeps the entries
      before the refused one applied, the intended one keeps none. */
  lemma CheckedCommitAgrees(s: State, patch: seq<(string, Value)>, id: Id)
    requires DistinctKeys(patch)
    ensures CheckedCommit(s, patch, id).0 == Commit(s, patch, id).0
    ensures Commit(s, patch, id).0.Ok? ==> CheckedCommit(s, patch, id) == Commit(s, patch, id)
    ensures Commit(s, patch, id).0.Err? ==>
              CheckedCommit(s, patch, id).1 == s
              && Commit(s, patch, id).1.properties == Overwrite(s.properties, patch[..FirstFault(s.properties, patch)])
  {
  }
}
