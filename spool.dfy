/**
 * The CUPS spooler as the programs see it through cupsPrintFile(): each call
 * is recorded, and the job id it returns is given by an oracle indexed by the
 * call's position (a positive id for an accepted job, 0 or less for a refusal).
 */
module Spool {
  /** One cupsPrintFile() call: destination, file, job title and the option pairs. */
  datatype Submission = Submission(printer: string, file: string, title: string, options: seq<(string, string)>)

  class Cups {
    /** The job id returned by the k-th cupsPrintFile() call. */
    const jobIds: nat -> int
    /** Every submission, in order. */
    var submitted: seq<Submission>

    constructor (jobIds: nat -> int)
      ensures this.jobIds == jobIds && submitted == []
    {
      this.jobIds := jobIds;
      submitted := [];
    }

    /** cupsPrintFile(): the call is recorded and its job id returned. */
    method PrintFile(printer: string, file: string, title: string, options: seq<(string, string)>) returns (job: int)
      modifies this`submitted
      ensures job == jobIds(|old(submitted)|)
      ensures submitted == old(submitted) + [Submission(printer, file, title, options)]
    {
      job := jobIds(|submitted|);
      submitted := submitted + [Submission(printer, file, title, options)];
    }
  }

  /**
   * How many of the next `n` submissions, starting at call `start`, are
   * accepted before the first refusal.
   */
  function Accepted(jobIds: nat -> int, start: nat, n: nat): (k: nat)
    ensures k <= n
    ensures forall c :: start <= c < start + k ==> jobIds(c) > 0
    ensures k < n ==> jobIds(start + k) <= 0
    decreases n
  {
    if n == 0 || jobIds(start) <= 0 then 0
    else
      1 + Accepted(jobIds, start + 1, n - 1)
  }

  /** The accepted run is characterised by its two ends: all accepted before it, a refusal (or the end) at it. */
  lemma AcceptedUnique(jobIds: nat -> int, start: nat, n: nat, k: nat)
    requires k <= n
    requires forall c :: start <= c < start + k ==> jobIds(c) > 0
    requires k < n ==> jobIds(start + k) <= 0
    ensures Accepted(jobIds, start, n) == k
  {
  }

  /** Copies that are all accepted are all counted, whatever the spooler does afterwards. */
  lemma AcceptedAll(jobIds: nat -> int, start: nat, n: nat)
    requires forall c :: start <= c < start + n ==> jobIds(c) > 0
    ensures Accepted(jobIds, start, n) == n
  {
  }
}
