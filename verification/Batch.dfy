/** Recording dispatches and submitting them together (elements-core
    `gpu/batch.rs`). */
module Batches {

  class ComputeBatch<D> {
    var dispatches: seq<D>
    var submissions: nat
    /** Everything that reached the queue, in the queue's order. */
    ghost var queued: seq<D>

    /** A batch that will submit to a queue holding `queue` already. */
    constructor (ghost queue: seq<D>)
      ensures dispatches == [] && submissions == 0 && queued == queue
    {
      dispatches, submissions, queued := [], 0, queue;
    }

    /** Everything recorded so far, in recording order: what the device will
        have run once all of it is submitted. */
    ghost function Recorded(): seq<D>
      reads this
    {
      queued + dispatches
    }

    method Dispatch(d: D)
      modifies `dispatches
      ensures dispatches == old(dispatches) + [d]
      ensures Recorded() == old(Recorded()) + [d]
    {
      dispatches := dispatches + [d];
    }

    /** Submit what is recorded and go on recording. Even when it reports a
        failure, what was recorded is in the queue. */
    method Flush() returns (ok: bool)
      modifies this
      ensures Recorded() == old(Recorded()) && dispatches == [] && queued == old(Recorded())
      ensures old(dispatches) == [] ==> ok && submissions == old(submissions)
      ensures old(dispatches) != [] ==> submissions == old(submissions) + 1
    {
      if dispatches == [] {
        assert queued + dispatches == queued;
        return true;
      }
      queued := queued + dispatches;
      dispatches := [];
      submissions := submissions + 1;
      ok := *;
    }

    method SubmittedAny() returns (any: bool)
      ensures any <==> submissions > 0
    {
      return submissions > 0;
    }
  }
}
