/** The document store as the object layer sees it through the `forge` module:
    which identifiers it knows, what it saves on commit, and what it forgets on
    remove. Stored documents are kept by identifier; identifiers the store
    hands out itself come from a counter that stays above every known one. */
module Forge {
  import opened ObjectId
  import opened Tree

  class Store {
    var docs: map<Id, Props>
    var next: Id

    ghost predicate Valid()
      reads this
    {
      forall id :: id in docs ==> id < next
    }

    constructor ()
      ensures Valid() && docs == map[]
    {
      docs := map[];
      next := 0;
    }

    /** forge.exists: whether a document with this identifier is stored. Every
        stored identifier lies below the counter new identifiers come from. */
    predicate Exists(id: Id): (r: bool)
      reads this
      ensures r <==> id in docs
      ensures Valid() && r ==> id < next
    {
      id in docs
    }

    /** forge.commit: saves a document. A document that carries an ObjectId under
        '_id' is saved under it; any other gets an identifier the store did not
        know. The stored copy holds its identifier under '_id'. */
    method Commit(doc: Props) returns (id: Id)
      requires Valid()
      modifies this
      ensures Valid()
      ensures IdKey in doc && doc[IdKey].Oid? ==> id == doc[IdKey].id
      ensures !(IdKey in doc && doc[IdKey].Oid?) ==> id !in old(docs)
      ensures docs == old(docs)[id := doc[IdKey := Oid(id)]]
    {
      if IdKey in doc && doc[IdKey].Oid? {
        id := doc[IdKey].id;
      } else {
        id := next;
      }
      docs := docs[id := doc[IdKey := Oid(id)]];
      if next <= id {
        next := id + 1;
      }
    }

    /** forge.remove: forgets the document with this identifier. */
    method Remove(id: Id)
      requires Valid()
      modifies this
      ensures Valid()
      ensures docs == old(docs) - {id}
    {
      docs := docs - {id};
    }
  }
}
