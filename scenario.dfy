/** A client of the object layer: the guards, commit's idempotence and the
    phantom-write rule, as a caller sees them through the contracts alone. */
module Scenario {
  import opened Errors
  import opened Tree
  import opened Lifecycle
  import opened Forge
  import opened Base

  method CommitAndWrite()
  {
    var store := new Store();
    var name := Compound(["name"]);
    ConstructOutcome([(name, Str("sample"))], store.docs.Keys, map["name" := Str("sample")]);
    var made := NewObject([(name, Str("sample"))], store);
    var o := made.value;
    assert !o.committed;

    var removed := o.Remove(store);
    assert removed == Err(UncommittedObject);
    var anchor := o.GetNeighbors(Outgoing, "Sequence", map[], map[]);
    assert anchor == Err(UncommittedObject);

    var first := o.Commit([], store);
    assert first.Ok? && first.value.Some? && o.committed;
    var again := o.Commit([], store);
    assert again == Ok(None) && o.committed;

    PhantomWrite(o.View(), name, Str("sample"));
    var same := o.SetItem(name, Str("sample"));
    assert same == Ok(()) && o.committed;

    var changed := o.SetItem(name, Str("other"));
    assert changed == Ok(()) && !o.committed && IdKey in o.properties;
  }
}
