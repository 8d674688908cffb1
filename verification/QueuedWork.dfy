/** What queued work has in common: it is claimed under a lease and settled, or put off. */
module QueuedWork {

  /** Milliseconds a claim holds the work, and between passes that keep enforcing something. */
  const LEASE := 2 * 60 * 1000
  const RECHECK := 5 * 1000

  datatype Status = Pending | Processing | Succeeded

  /** A claim is refused only while another holds the lease or the work is not yet due. */
  predicate Due(status: Status, availableAt: nat, leasedUntil: nat, now: nat) {
    && (status.Processing? ==> leasedUntil <= now)
    && (status.Pending? ==> availableAt <= now)
  }
}
