/** The cancellable chunk stream behind a server-sent-events response, and its uncompressed body. */
module Streams {

  newtype Byte = x: int | 0 <= x < 256

  datatype Item = Chunk(bytes: seq<Byte>) | Fault | Over | NotYet

  /** The receiving end of the chunk queue together with the engine's cancellation token. */
  class Source {
    var queue: seq<seq<Byte>>
    var closed: bool
    var cancelled: bool
    var done: bool
    ghost var sent: seq<seq<Byte>>
    ghost var taken: seq<seq<Byte>>

    ghost predicate Valid()
      reads this
    {
      sent == taken + queue
    }

    constructor ()
      ensures Valid() && sent == taken == [] && !closed && !cancelled && !done
    {
      queue, sent, taken := [], [], [];
      closed, cancelled, done := false, false, false;
    }

    /** What the other threads may do at any moment: send chunks, hang up, cancel the token. */
    method Others()
      requires Valid()
      modifies this
      ensures Valid() && old(sent) <= sent && taken == old(taken) && done == old(done)
      ensures old(cancelled) ==> cancelled
      ensures old(closed) ==> closed && sent == old(sent)
    {
      var more: seq<seq<Byte>> := *;
      if !closed {
        queue := queue + more;
        sent := sent + more;
      }
      if * {
        closed := true;
      }
      if * {
        cancelled := true;
      }
    }

    /** One poll. The token is looked at before the queue, and nothing follows an error or the end. */
    method Next() returns (item: Item)
      requires Valid()
      modifies this
      ensures Valid() && old(sent) <= sent
      ensures old(cancelled) ==> cancelled
      ensures old(closed) ==> closed && sent == old(sent)
      ensures old(done) ==> item.Over? && done && taken == old(taken)
      ensures old(cancelled) && !old(done) ==> item.Fault?
      ensures item.Chunk? ==> !done && !old(done) && taken == old(taken) + [item.bytes]
      ensures !item.Chunk? ==> taken == old(taken)
      ensures item.Fault? ==> cancelled && done
      ensures item.Over? ==> done && (old(done) || (closed && taken == sent))
      ensures item.NotYet? ==> !done && !closed && taken == sent
    {
      Others();
      if done {
        item := Over;
      } else if cancelled {
        done := true;
        item := Fault;
      } else if queue != [] {
        item := Chunk(queue[0]);
        taken := taken + [queue[0]];
        queue := queue[1..];
      } else if closed {
        done := true;
        item := Over;
      } else {
        item := NotYet;
      }
    }
  }

  datatype Outcome<F> = Pending | Data(frame: F) | Failed | End

  /** What one poll of a cancellable body may answer, given whether it was over at the start and is at
      the end, and whether the token was cancelled at the start and is at the end. */
  ghost predicate MayAnswer<F>(over: bool, cancelled: bool, r: Outcome<F>, nowOver: bool, nowCancelled: bool) {
    && (over ==> r.End? && nowOver)
    && (cancelled && !over ==> r.Failed?)
    && (r.Failed? ==> nowCancelled && nowOver)
    && (r.End? ==> nowOver)
    && (r.Pending? ==> !nowOver)
  }

  /** The uncompressed response body. */
  class PlainBody {
    const inner: Source
    ghost var sent: seq<seq<Byte>>

    ghost predicate Valid()
      reads this, inner
    {
      inner.Valid() && sent == inner.taken
    }

    constructor (source: Source)
      requires source.Valid() && source.taken == []
      ensures Valid() && inner == source && sent == []
    {
      inner, sent := source, [];
    }

    method Poll() returns (r: Outcome<seq<Byte>>)
      requires Valid()
      modifies this, inner
      ensures Valid()
      ensures sent == if r.Data? then old(sent) + [r.frame] else old(sent)
      ensures MayAnswer(old(inner.done), old(inner.cancelled), r, inner.done, inner.cancelled)
      ensures r.Pending? || (r.End? && !old(inner.done)) ==> sent == inner.sent
      ensures r.End? && !old(inner.done) ==> inner.closed
    {
      var item := inner.Next();
      match item
      case Chunk(bytes) =>
        sent := sent + [bytes];
        r := Data(bytes);
      case Fault => r := Failed;
      case Over => r := End;
      case NotYet => r := Pending;
    }
  }
}
