/**
 * DbSet<T>: the list of loaded entities of one type, with its change tracker.
 * Every successful add or remove is recorded in the tracker; null items are
 * rejected with an ArgumentNullException (here an error outcome) and change
 * nothing.
 */
module DbSets {
  import opened Wrappers
  import opened Sequences
  import opened Entities
  import opened ChangeTracking
  import opened Metadata

  datatype SetError = ArgumentNull

  class DbSet {
    /** The entity type T of DbSet<T>. */
    const elementType: string
    /** The properties of T, in declaration order. */
    const elementProperties: seq<Property>
    var entities: seq<Entity>
    const tracker: ChangeTracker<Entity>

    /** An instance of T. */
    predicate IsElement(e: Entity)
    {
      e.typeName == elementType && e.properties == elementProperties
    }

    /** Every entity is a T, as the static type of List<T> guarantees. */
    predicate Valid()
      reads this
    {
      forall e :: e in entities ==> IsElement(e)
    }

    /** A set over loaded instances of t; its tracker starts empty. */
    constructor (t: EntityType, entities: seq<Entity>)
      requires forall e :: e in entities ==> e.typeName == t.name && e.properties == t.properties
      ensures elementType == t.name && elementProperties == t.properties && this.entities == entities
      ensures fresh(tracker) && tracker.added == [] && tracker.removed == []
      ensures Valid()
    {
      elementType := t.name;
      elementProperties := t.properties;
      this.entities := entities;
      tracker := new ChangeTracker();
    }

    /** ICollection<T>.Count. */
    function Count(): (n: nat)
      reads this
      ensures n == |entities|
    {
      |entities|
    }

    /** ICollection<T>.Contains: membership by reference. */
    function Contains(item: Entity?): (r: bool)
      reads this
      ensures r <==> exists i :: 0 <= i < |entities| && entities[i] == item
    {
      item in entities
    }

    method Add(item: Entity?) returns (r: Outcome<SetError>)
      requires Valid() && (item != null ==> IsElement(item))
      modifies this, tracker
      ensures Valid()
      ensures item == null ==> r == Fail(ArgumentNull)
      ensures item == null ==> entities == old(entities) && unchanged(tracker)
      ensures item != null ==> r == Pass
      ensures item != null ==> entities == old(entities) + [item]
      ensures item != null ==> tracker.added == old(tracker.added) + [item]
      ensures tracker.removed == old(tracker.removed)
    {
      if item == null {
        return Fail(ArgumentNull);
      }
      entities := entities + [item];
      tracker.Add(item);
      r := Pass;
    }

    /**
     * List<T>.Remove on the entities: only the first occurrence goes. The
     * tracker records the removal only when something was removed.
     */
    method Remove(item: Entity?) returns (r: Result<bool, SetError>)
      requires Valid()
      modifies this, tracker
      ensures Valid()
      ensures item == null ==> r == Err(ArgumentNull)
      ensures item == null ==> entities == old(entities) && unchanged(tracker)
      ensures item != null ==> r == Ok(old(Contains(item)))
      ensures item != null ==> entities == RemoveFirst(old(entities), item)
      ensures tracker.added == old(tracker.added)
      ensures tracker.removed == if r == Ok(true) then old(tracker.removed) + [item] else old(tracker.removed)
    {
      if item == null {
        return Err(ArgumentNull);
      }
      var removedSuccessfully := item in entities;
      var rest := RemoveFirst(entities, item);
      assert forall i :: 0 <= i < |rest| ==> rest[i] in entities;
      entities := rest;
      if removedSuccessfully {
        tracker.Remove(item);
      }
      r := Ok(removedSuccessfully);
    }

    /** Removes the first entity until none is left; each removal is recorded. */
    method Clear()
      requires Valid()
      modifies this, tracker
      ensures Valid()
      ensures entities == []
      ensures tracker.removed == old(tracker.removed) + old(entities)
      ensures tracker.added == old(tracker.added)
    {
      ghost var k := 0;
      while entities != []
        invariant k <= |old(entities)| && entities == old(entities)[k..]
        invariant tracker.removed == old(tracker.removed) + old(entities)[..k]
        invariant tracker.added == old(tracker.added)
        invariant Valid()
        decreases |entities|
      {
        var entity := entities[0];
        RemoveFirstOfHead(entities);
        var _ := Remove(entity);
        assert old(entities)[..k + 1] == old(entities)[..k] + [entity];
        k := k + 1;
      }
    }

    /**
     * One turn of RemoveRange: after items[..i] were removed from `s` with
     * the removals recorded after `removed`, removes items[i]; a null item
     * fails and changes nothing.
     */
    method RemoveNext(items: seq<Entity?>, i: nat, ghost s: seq<Entity>, ghost removed: seq<Entity>)
      returns (r: Outcome<SetError>)
      requires i < |items| && null !in items[..i]
      requires entities == RemoveEach(s, items[..i]).0
      requires tracker.removed == removed + RemoveEach(s, items[..i]).1
      requires Valid()
      modifies this, tracker
      ensures Valid()
      ensures r.Fail? <==> items[i] == null
      ensures r.Fail? ==> entities == old(entities) && tracker.removed == old(tracker.removed)
      ensures r.Pass? ==> null !in items[..i + 1]
      ensures r.Pass? ==> entities == RemoveEach(s, items[..i + 1]).0
      ensures r.Pass? ==> tracker.removed == removed + RemoveEach(s, items[..i + 1]).1
      ensures tracker.added == old(tracker.added)
    {
      ghost var before := RemoveEach(s, items[..i]);
      var result := Remove(items[i]);
      if result.Err? {
        return Fail(result.error);
      }
      assert entities == RemoveEach(s, items[..i + 1]).0
          && tracker.removed == removed + RemoveEach(s, items[..i + 1]).1 by {
        assert items[..i + 1] == items[..i] + [items[i]];
        RemoveEachStep(s, items[..i], items[i]);
      }
      r := Pass;
    }

    /**
     * Removes each item of a snapshot of `items` in turn; items that are not
     * present are skipped. A null item stops the loop with ArgumentNull after
     * the items before it have been removed.
     */
    method RemoveRange(items: seq<Entity?>) returns (r: Outcome<SetError>)
      requires Valid()
      modifies this, tracker
      ensures Valid()
      ensures r == Pass <==> null !in items
      ensures var n := if null in items then IndexOf(items, null) else |items|;
        entities == RemoveEach(old(entities), items[..n]).0
        && tracker.removed == old(tracker.removed) + RemoveEach(old(entities), items[..n]).1
      ensures tracker.added == old(tracker.added)
    {
      var i := 0;
      while i < |items|
        invariant i <= |items| && null !in items[..i]
        invariant entities == RemoveEach(old(entities), items[..i]).0
        invariant tracker.removed == old(tracker.removed) + RemoveEach(old(entities), items[..i]).1
        invariant tracker.added == old(tracker.added)
        invariant Valid()
      {
        r := RemoveNext(items, i, old(entities), old(tracker.removed));
        if r.Fail? {
          IndexOfFirst(items, null, i);
          return;
        }
        i := i + 1;
      }
      assert items[..i] == items;
      r := Pass;
    }
  }
}
