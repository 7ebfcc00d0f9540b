/**
 * ChangeTracker<T>: two append-only lists, the items added to a set and the
 * items removed from it since it was loaded. It never coalesces: an item
 * added and then removed appears in both lists, and an item added twice
 * appears twice.
 */
module ChangeTracking {

  class ChangeTracker<T> {
    var added: seq<T>
    var removed: seq<T>

    /** A new tracker has recorded nothing. */
    constructor ()
      ensures added == [] && removed == []
    {
      added := [];
      removed := [];
    }

    /** The added items in the order they were recorded (a read-only view: a value). */
    function Added(): (r: seq<T>)
      reads this
      ensures |r| == |added| && forall i :: 0 <= i < |r| ==> r[i] == added[i]
    {
      added
    }

    /** The removed items in the order they were recorded (a read-only view: a value). */
    function Removed(): (r: seq<T>)
      reads this
      ensures |r| == |removed| && forall i :: 0 <= i < |r| ==> r[i] == removed[i]
    {
      removed
    }

    method Add(item: T)
      modifies this
      ensures added == old(added) + [item]
      ensures removed == old(removed)
    {
      added := added + [item];
    }

    method Remove(item: T)
      modifies this
      ensures removed == old(removed) + [item]
      ensures added == old(added)
    {
      removed := removed + [item];
    }
  }

  /** Recording an add and then a remove of the same item keeps both records. */
  method AddThenRemove<T>(tracker: ChangeTracker<T>, item: T)
    modifies tracker
    ensures tracker.added == old(tracker.added) + [item]
    ensures tracker.removed == old(tracker.removed) + [item]
  {
    tracker.Add(item);
    tracker.Remove(item);
  }

  /** Recording the same add twice lists the item twice. */
  method AddTwice<T>(tracker: ChangeTracker<T>, item: T)
    modifies tracker
    ensures tracker.added == old(tracker.added) + [item, item]
    ensures tracker.removed == old(tracker.removed)
  {
    tracker.Add(item);
    tracker.Add(item);
  }
}
