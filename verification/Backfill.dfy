/** The paged backfill: pages are found newest first and emitted oldest first,
    and none is emitted before the walk reaches the resume bound. */
module Paging {
  datatype BackfillStep<+K> = Enumerate | Emit(key: K) | Done

  class Backfill<K> {
    /** Page keys in walk order, newest first; emission pops from the back. */
    var pending: seq<K>
    var reachedBound: bool

    constructor ()
      ensures pending == [] && !reachedBound
    {
      pending := [];
      reachedBound := false;
    }

    method Extend(keys: seq<K>, reached: bool)
      modifies this
      ensures pending == old(pending) + keys && reachedBound == reached
    {
      pending := pending + keys;
      reachedBound := reached;
    }

    /** Looking changes nothing, so a caller that fails may ask again. */
    function Step(): (r: BackfillStep<K>)
      reads this
      ensures r.Enumerate? <==> !reachedBound
      ensures r.Done? <==> CaughtUp()
      ensures r.Emit? ==> pending != [] && r.key == pending[|pending| - 1]
    {
      if !reachedBound then Enumerate
      else if pending == [] then Done
      else Emit(pending[|pending| - 1])
    }

    method Commit()
      modifies this
      ensures reachedBound == old(reachedBound)
      ensures pending == if old(pending) == [] then [] else old(pending)[..|old(pending)| - 1]
    {
      if pending != [] {
        pending := pending[..|pending| - 1];
      }
    }

    predicate CaughtUp()
      reads this
    {
      reachedBound && pending == []
    }

    method Restart()
      modifies this
      ensures pending == [] && !reachedBound
    {
      pending := [];
      reachedBound := false;
    }
  }
}
