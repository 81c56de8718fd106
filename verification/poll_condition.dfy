/** testPointToCondition: the adapter that turns one check of the
    stats-extender integration test into a polling condition. A failed check
    means "not yet, poll again", never an error that stops the polling. */
module PollCondition {
  import opened Wrappers

  /** What the condition returns after the check returned `check`: whether
      polling is done, and the error that would abort it. */
  function PointToCondition<E>(check: Outcome<E>): (r: (bool, Option<E>))
    ensures r.1 == None
    ensures r.0 <==> check.Pass?
  {
    if check.Fail? then (false, None) else (true, None)
  }
}
