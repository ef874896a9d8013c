/** The persistent object of MetagenomeDB/base.py: a property tree and a
    committed flag, updated in place by construction, commit, remove and the
    property writes. Every method is proved to follow the functions of
    Lifecycle, where the properties they promise are stated as lemmas. The store
    the Python code reaches through the global `forge` module is passed in. */
module Base {
  import opened Errors
  import opened ObjectId
  import opened Tree
  import opened Lifecycle
  import opened Forge

  datatype Direction = Ingoing | Outgoing

  /** The request get_neighbors hands to the relationship resolver: neighbours
      are found through relationships whose source (Outgoing) or target
      (Ingoing) is the anchor identifier. */
  datatype NeighborQuery = NeighborQuery(
    anchor: Id,
    direction: Direction,
    neighborKind: string,
    neighborFilter: Props,
    relationshipFilter: Props)

  class Object {
    var properties: Props
    var committed: bool

    /** The object's state as a value. */
    function View(): (s: State)
      reads this
    {
      State(properties, committed)
    }

    ghost predicate Valid()
      reads this
    {
      Lifecycle.Valid(View())
    }

    constructor Init(s: State)
      requires Lifecycle.Valid(s)
      ensures View() == s && Valid()
    {
      properties := s.properties;
      committed := s.committed;
    }

    /** is_committed: a committed object holds its ObjectId under '_id'. */
    function IsCommitted(): (r: bool)
      reads this
      requires Valid()
      ensures r <==> View().committed
      ensures r ==> IdKey in properties && properties[IdKey].Oid?
    {
      committed
    }

    /** __getitem__: a value is found exactly when __contains__ answers true. */
    function GetItem(key: RawKey): (r: Result<Value>)
      reads this
      ensures r == Lifecycle.GetItem(View(), key)
      ensures r.Ok? <==> Lifecycle.ContainsKey(View(), key) == Ok(true)
    {
      Lifecycle.GetItem(View(), key)
    }

    /** __contains__: only a key that does not validate is refused. */
    function ContainsKey(key: RawKey): (r: Result<bool>)
      reads this
      ensures r == Lifecycle.ContainsKey(View(), key)
      ensures r.Err? <==> ValidateKey(key).Err?
    {
      Lifecycle.ContainsKey(View(), key)
    }

    /** get_properties: a copy of the whole tree; each top-level entry is what
        __getitem__ reads at that key. */
    function GetProperties(): (r: Props)
      reads this
      ensures r.Keys == properties.Keys
      ensures forall k :: k in r && k != "" ==> GetItem(Compound([k])) == Ok(r[k])
    {
      properties
    }

    /** get_property: the default exactly when a valid key is not there. */
    function GetProperty(key: RawKey, default: Value): (r: Result<Value>)
      reads this
      ensures r == Lifecycle.GetProperty(View(), key, default)
      ensures ContainsKey(key) == Ok(false) ==> r == Ok(default)
      ensures ContainsKey(key) == Ok(true) ==> r == GetItem(key)
    {
      Lifecycle.GetProperty(View(), key, default)
    }

    /** get_neighbors, up to the hand-over to the relationship resolver: an
        uncommitted object is refused, a committed one is the anchor of the query. */
    function GetNeighbors(direction: Direction, neighborKind: string,
                          neighborFilter: Props, relationshipFilter: Props): (r: Result<NeighborQuery>)
      reads this
      requires Valid()
      ensures r.Ok? <==> committed
      ensures r.Err? ==> r.error == UncommittedObject
      ensures r.Ok? ==> properties[IdKey] == Oid(r.value.anchor)
                        && r.value.direction == direction && r.value.neighborKind == neighborKind
                        && r.value.neighborFilter == neighborFilter
                        && r.value.relationshipFilter == relationshipFilter
    {
      match NeighborAnchor(View())
      case Err(e) => Err(e)
      case Ok(id) => Ok(NeighborQuery(id, direction, neighborKind, neighborFilter, relationshipFilter))
    }

    /** __setitem__: the new state is the one Lifecycle.SetItem gives; a refused
        write changes nothing. */
    method SetItem(key: RawKey, value: Value) returns (r: Result<()>)
      requires Valid()
      modifies this
      ensures Valid()
      ensures match Lifecycle.SetItem(old(View()), key, value)
              case Ok(s) => r == Ok(()) && View() == s
              case Err(e) => r == Err(e) && View() == old(View())
    {
      WritesKeepIdentifier(View(), key, value);
      var keys := ValidateKey(key);
      if keys.Err? {
        return Err(keys.error);
      }
      var p := keys.value;
      if p[0] == IdKey {
        return Err(ReservedKey);
      }
      if Contains(properties, p) && Get(properties, p) == Ok(value) {
        return Ok(());
      }
      var t := Set(properties, p, value);
      if t.Err? {
        return Err(t.error);
      }
      properties := t.value;
      committed := false;
      r := Ok(());
    }

    /** __delitem__: the new state is the one Lifecycle.DelItem gives; a refused
        delete changes nothing. */
    method DelItem(key: RawKey) returns (r: Result<()>)
      requires Valid()
      modifies this
      ensures Valid()
      ensures match Lifecycle.DelItem(old(View()), key)
              case Ok(s) => r == Ok(()) && View() == s
              case Err(e) => r == Err(e) && View() == old(View())
    {
      WritesKeepIdentifier(View(), key, Null);
      var keys := ValidateKey(key);
      if keys.Err? {
        return Err(keys.error);
      }
      var p := keys.value;
      if p[0] == IdKey {
        return Err(ReservedKey);
      }
      var t := Delete(properties, p);
      if t.Err? {
        return Err(t.error);
      }
      properties := t.value;
      committed := false;
      r := Ok(());
    }

    /** remove: refuses an uncommitted object; otherwise the store forgets the
        identifier and the object drops '_id' and its committed flag. */
    method Remove(store: Store) returns (r: Result<()>)
      requires Valid() && store.Valid()
      modifies this, store
      ensures Valid() && store.Valid()
      ensures match Lifecycle.Remove(old(View()))
              case Ok(s) => r == Ok(()) && View() == s
                            && store.docs == old(store.docs) - {old(properties)[IdKey].id}
              case Err(e) => r == Err(e) && View() == old(View()) && store.docs == old(store.docs)
    {
      if !committed {
        return Err(UncommittedObject);
      }
      store.Remove(properties[IdKey].id);
      properties := properties - {IdKey};
      committed := false;
      r := Ok(());
    }

    /** commit, as written: a committed object is left alone and nothing is
        returned. Otherwise each patch entry's current value is saved and the
        entry written; the store saves the patched properties and answers an
        identifier, which becomes '_id'; the saved values are written back.
        A refused patch entry stops the loop with the earlier entries applied. */
    method Commit(patch: seq<(string, Value)>, store: Store) returns (r: Result<Option<Id>>)
      requires Valid() && store.Valid() && DistinctKeys(patch)
      modifies this, store
      ensures Valid() && store.Valid()
      ensures old(committed) ==>
                r == Ok(None) && View() == old(View()) && store.docs == old(store.docs)
      ensures !old(committed) && FirstFault(old(properties), patch) < |patch| ==>
                var i := FirstFault(old(properties), patch);
                && r == Err(PatchFault(old(properties), patch[i].0).value)
                && View() == State(Overwrite(old(properties), patch[..i]), false)
                && store.docs == old(store.docs)
      ensures !old(committed) && FirstFault(old(properties), patch) == |patch| ==>
                r.Ok? && r.value.Some? && CommitDone(old(properties), patch, r.value.value, old(store.docs), store)
      ensures (r, View()) == Lifecycle.Commit(old(View()), patch, StoreAnswer(r))
    {
      if committed {
        return Ok(None);
      }
      ghost var t := properties;
      var saved, fault := ApplyPatch(patch);
      if fault.Some? {
        return Err(fault.value);
      }
      OverwriteMiss(t, patch, IdKey);
      var id := store.Commit(properties);
      committed := true;
      properties := properties[IdKey := Oid(id)];
      RestoreSaved(saved);
      PatchRestored(t, patch, Oid(id));
      r := Ok(Some(id));
    }

    /** The patch loop of commit: saves each entry's current value and writes the
        entry, stopping at the first entry it refuses. */
    method ApplyPatch(patch: seq<(string, Value)>) returns (saved: seq<(string, Value)>, fault: Option<Error>)
      requires DistinctKeys(patch)
      modifies this`properties
      ensures var i := FirstFault(old(properties), patch);
              if i < |patch| then
                fault == PatchFault(old(properties), patch[i].0)
                && properties == Overwrite(old(properties), patch[..i])
              else
                fault == None
                && properties == Overwrite(old(properties), patch)
                && saved == Saved(old(properties), patch)
    {
      ghost var t := properties;
      saved := [];
      var i := 0;
      while i < |patch|
        invariant i <= FirstFault(t, patch)
        invariant properties == Overwrite(t, patch[..i])
        invariant properties.Keys == t.Keys
        invariant saved == Saved(t, patch[..i])
      {
        var (key, value) := patch[i];
        if key == IdKey {
          return saved, Some(PatchOnIdentifier);
        }
        if key !in properties {
          return saved, Some(MissingKey);
        }
        OverwriteMiss(t, patch[..i], key);
        saved := saved + [(key, properties[key])];
        properties := properties[key := value];
        assert patch[..i + 1][..i] == patch[..i];
        i := i + 1;
      }
      assert patch[..i] == patch;
      fault := None;
    }

    /** The restoring loop of commit: writes the saved values back. */
    method RestoreSaved(saved: seq<(string, Value)>)
      modifies this`properties
      ensures properties == Overwrite(old(properties), saved)
    {
      var j := 0;
      while j < |saved|
        invariant j <= |saved|
        invariant properties == Overwrite(old(properties), saved[..j])
      {
        properties := properties[saved[j].0 := saved[j].1];
        assert saved[..j + 1][..j] == saved[..j];
        j := j + 1;
      }
      assert saved[..j] == saved;
    }

    /** The identifier the store answered to a commit, read off its result; any
        identifier when the store was not reached. */
    static function StoreAnswer(r: Result<Option<Id>>): (id: Id) {
      if r.Ok? && r.value.Some? then r.value.value else 0
    }

    /** What a commit that got past the patch loop leaves: the object is committed
        with the store's identifier as '_id' and its other properties as before
        the commit, the store holds the patched properties under that identifier,
        and the identifier is the object's former ObjectId if it had one and an
        identifier new to the store otherwise. */
    ghost predicate CommitDone(before: Props, patch: seq<(string, Value)>, id: Id,
                               docsBefore: map<Id, Props>, store: Store)
      reads this, store
    {
      && committed
      && properties == before[IdKey := Oid(id)]
      && store.docs == docsBefore[id := Overwrite(before, patch)[IdKey := Oid(id)]]
      && (IdKey in before && before[IdKey].Oid? ==> id == before[IdKey].id)
      && (!(IdKey in before && before[IdKey].Oid?) ==> id !in docsBefore)
    }

    /** commit as evidently intended: every patch key is checked before any is
        applied, so a refused patch leaves the object and the store untouched. */
    method CommitChecked(patch: seq<(string, Value)>, store: Store) returns (r: Result<Option<Id>>)
      requires Valid() && store.Valid() && DistinctKeys(patch)
      modifies this, store
      ensures Valid() && store.Valid()
      ensures old(committed) ==>
                r == Ok(None) && View() == old(View()) && store.docs == old(store.docs)
      ensures !old(committed) && FirstFault(old(properties), patch) < |patch| ==>
                && r == Err(PatchFault(old(properties), patch[FirstFault(old(properties), patch)].0).value)
                && View() == old(View())
                && store.docs == old(store.docs)
      ensures !old(committed) && FirstFault(old(properties), patch) == |patch| ==>
                r.Ok? && r.value.Some? && CommitDone(old(properties), patch, r.value.value, old(store.docs), store)
      ensures (r, View()) == CheckedCommit(old(View()), patch, StoreAnswer(r))
    {
      if !committed {
        var i := FirstFault(properties, patch);
        if i < |patch| {
          return Err(PatchFault(properties, patch[i].0).value);
        }
      }
      r := Commit(patch, store);
    }
  }

  /** The constructor Object(properties, indices): builds the tree from the
      entries in order, normalises a textual '_id' and checks it against the
      store. The result is the state Lifecycle.Construct gives, or its error. */
  method NewObject(entries: seq<(RawKey, Value)>, store: Store) returns (r: Result<Object>)
    ensures match Construct(entries, store.docs.Keys)
            case Ok(s) => r.Ok? && fresh(r.value) && r.value.View() == s && r.value.Valid()
            case Err(e) => r == Err(e)
  {
    var t: Props := map[];
    var i := 0;
    while i < |entries|
      invariant i <= |entries|
      invariant BuildProperties(entries[..i]) == Ok(t)
    {
      var (key, value) := entries[i];
      assert entries[..i + 1][..i] == entries[..i];
      var keys := ValidateKey(key);
      if keys.Err? {
        BuildPrefixError(entries, i + 1, keys.error);
        return Err(keys.error);
      }
      var t' := Set(t, keys.value, value);
      if t'.Err? {
        BuildPrefixError(entries, i + 1, t'.error);
        return Err(t'.error);
      }
      t := t'.value;
      i := i + 1;
    }
    assert entries[..i] == entries;

    var committed := false;
    if IdKey in t {
      var id := t[IdKey];
      if id.Str? {
        var decoded := DecodeId(id.s);
        if decoded.Err? {
          return Err(decoded.error);
        }
        id := Oid(decoded.value);
        t := t[IdKey := id];
      }
      if !(id.Oid? && store.Exists(id.id)) {
        return Err(UnknownIdentifier);
      }
      committed := true;
    }
    var o := new Object.Init(State(t, committed));
    r := Ok(o);
  }
}
