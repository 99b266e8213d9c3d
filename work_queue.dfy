/// The rate-limiting work queue of client-go, seen only through the calls the
/// controller makes on it. Its dedup, dirty/processing sets and backoff are not
/// modelled: the queue records each call in `trace`, and `Get` hands out the items
/// of `deliveries` in order, reporting shutdown once they are used up.
module WorkQueue {
  import opened Entries

  /** A value stored in the queue: Go's interface{} holding a *queueEntry, nil,
      or a value of some other type, told apart by a number; a Foreign item is
      never a queue entry. */
  datatype Item = Nil | Entry(entry: QueueEntry) | Foreign(id: nat)

  datatype QueueCall =
    | AddCall(item: Item)
    | GetCall
    | DoneCall(item: Item)
    | ForgetCall(item: Item)
    | AddRateLimitedCall(item: Item)

  class Queue {
    var trace: seq<QueueCall>
    var deliveries: seq<Item>

    constructor (deliveries: seq<Item>)
      ensures trace == [] && this.deliveries == deliveries
    {
      trace := [];
      this.deliveries := deliveries;
    }

    method Add(item: Item)
      modifies this
      ensures trace == old(trace) + [AddCall(item)]
      ensures deliveries == old(deliveries)
    {
      trace := trace + [AddCall(item)];
    }

    /** Get: the next item, or quit once the queue is shut down and drained. */
    method Get() returns (item: Item, quit: bool)
      modifies this
      ensures trace == old(trace) + [GetCall]
      ensures quit <==> old(deliveries) == []
      ensures quit ==> item == Nil && deliveries == old(deliveries)
      ensures !quit ==> item == old(deliveries)[0] && deliveries == old(deliveries)[1..]
    {
      trace := trace + [GetCall];
      if deliveries == [] {
        item, quit := Nil, true;
      } else {
        item, quit := deliveries[0], false;
        deliveries := deliveries[1..];
      }
    }

    method Done(item: Item)
      modifies this
      ensures trace == old(trace) + [DoneCall(item)]
      ensures deliveries == old(deliveries)
    {
      trace := trace + [DoneCall(item)];
    }

    method Forget(item: Item)
      modifies this
      ensures trace == old(trace) + [ForgetCall(item)]
      ensures deliveries == old(deliveries)
    {
      trace := trace + [ForgetCall(item)];
    }

    method AddRateLimited(item: Item)
      modifies this
      ensures trace == old(trace) + [AddRateLimitedCall(item)]
      ensures deliveries == old(deliveries)
    {
      trace := trace + [AddRateLimitedCall(item)];
    }
  }
}
