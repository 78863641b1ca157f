/** Which answers to a page's reloads are still news when they arrive. */
module LoadOrders {

  datatype Ticket = Ticket(number: nat, full: bool)

  class LoadOrder {
    var started: nat
    var startedFull: nat
    /** The reloads begun so far, and whether each was a full one. */
    ghost var begun: seq<bool>

    ghost predicate Valid()
      reads this
    {
      && started == |begun|
      && startedFull <= started
      && (startedFull > 0 ==> begun[startedFull - 1])
      && forall k :: startedFull <= k < |begun| ==> !begun[k]
    }

    constructor ()
      ensures Valid() && begun == []
    {
      started, startedFull, begun := 0, 0, [];
    }

    method Begin(full: bool) returns (t: Ticket)
      requires Valid()
      modifies this
      ensures Valid() && begun == old(begun) + [full]
      ensures t == Ticket(|begun|, full)
    {
      started := started + 1;
      if full {
        startedFull := started;
      }
      begun := begun + [full];
      t := Ticket(started, full);
    }

    /** No reload of either kind has begun since. */
    predicate FreshComments(t: Ticket)
      requires Valid() && 1 <= t.number <= |begun|
      reads this
      ensures FreshComments(t) <==> t.number == |begun|
    {
      t.number == started
    }

    /** A full reload, and none has begun since. */
    predicate FreshDiffs(t: Ticket)
      requires Valid() && 1 <= t.number <= |begun| && t.full == begun[t.number - 1]
      reads this
      ensures FreshDiffs(t) <==> t.full && forall k :: t.number <= k < |begun| ==> !begun[k]
    {
      t.full && t.number == startedFull
    }
  }
}
