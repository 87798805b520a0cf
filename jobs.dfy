/**
 * The resolve-once cell shared by the two background collectors: a job is
 * `Working` until its value is first asked for; the outcome of that one
 * receive on the job's channel is cached as `Done` and returned by every
 * later request without waiting again.
 */
module Jobs {
  import opened Common
  import Config

  /**
   * What one receive on the channel of a job gives: the value the worker
   * sent (itself optional), no value before the deadline, or a channel whose
   * worker went away without sending.
   */
  datatype Outcome<T> = Received(value: Option<T>) | TimedOut | Disconnected

  /** The state in the `RefCell` of a job. */
  datatype JobState<T> = Working(deadline: Option<Config.Nanos>) | Done(result: Option<T>)

  /**
   * A receive can only time out when there is a deadline: without one the
   * job waits with a plain blocking receive.
   */
  predicate Possible<T>(state: JobState<T>, outcome: Outcome<T>) {
    state.Working? && state.deadline.None? ==> !outcome.TimedOut?
  }

  /** `recv_timeout(..).ok().flatten()` or `recv().ok().flatten()`. */
  function Flattened<T>(outcome: Outcome<T>): (r: Option<T>)
    ensures r.Some? <==> outcome.Received? && outcome.value.Some?
    ensures r.Some? ==> r.value == outcome.value.value
  {
    if outcome.Received? then outcome.value else None
  }

  /**
   * `get`: a finished job returns its cached result and stays as it is; a
   * working job takes the outcome of its receive, caches it and returns it.
   */
  function Resolve<T>(state: JobState<T>, outcome: Outcome<T>): (r: (JobState<T>, Option<T>))
    requires Possible(state, outcome)
    ensures r.0.Done? && r.0.result == r.1
    ensures state.Done? ==> r.0 == state
    ensures state.Working? ==> r.1 == Flattened(outcome)
  {
    match state
    case Done(n) => (state, n)
    case Working(_) => var res := Flattened(outcome); (Done(res), res)
  }

  /**
   * Resolve once: after the first `get`, every later one returns the same
   * value and leaves the state alone, whatever its receive would give.
   */
  lemma ResolveOnce<T>(state: JobState<T>, first: Outcome<T>, later: Outcome<T>)
    requires Possible(state, first)
    ensures Possible(Resolve(state, first).0, later)
    ensures Resolve(Resolve(state, first).0, later) == Resolve(state, first)
  {
  }

  /**
   * The worker of a job sends exactly one value, `sent`, the result of its
   * computation: a receive that gets something gets that.
   */
  predicate Delivers<T(==)>(outcome: Outcome<T>, sent: Option<T>) {
    outcome.Received? ==> outcome.value == sent
  }

  /** A job whose cache holds nothing but what its worker sent. */
  predicate Caches<T(==)>(state: JobState<T>, sent: Option<T>) {
    state.Done? && state.result.Some? ==> state.result == sent
  }

  /**
   * Whatever the timing, `get` returns either nothing or the value the
   * worker computed, and the cache keeps holding only that value.
   */
  lemma ResolveDelivers<T>(state: JobState<T>, outcome: Outcome<T>, sent: Option<T>)
    requires Possible(state, outcome) && Delivers(outcome, sent) && Caches(state, sent)
    ensures Resolve(state, outcome).1.Some? ==> Resolve(state, outcome).1 == sent
    ensures Caches(Resolve(state, outcome).0, sent)
  {
  }

  /** A timeout or a closed channel is cached as `Done(None)` for good. */
  lemma FailureCached<T>(deadline: Option<Config.Nanos>, outcome: Outcome<T>, later: Outcome<T>)
    requires outcome.Disconnected? || (outcome.TimedOut? && deadline.Some?)
    ensures Resolve(Working(deadline), outcome).0 == Done(None)
    ensures Resolve(Resolve(Working(deadline), outcome).0, later).1 == None
  {
  }
}
