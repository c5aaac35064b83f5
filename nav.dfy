/**
 * The final decision of both scripts: the NAV per share is published only when
 * shares outstanding is known and positive and no holding was left unvalued;
 * every other outcome is the `ERROR` sentinel and exit status 1.
 */
module Nav {
  import opened Wrappers
  import opened Valuation

  /** The result written to the result file: a numeric NAV or `ERROR`. */
  datatype NavOutcome = Published(nav: real) | Error

  /**
   * The NAV per share is `total / shares`; it is computed whenever shares
   * outstanding is positive but only published when the missing list is empty.
   */
  function Decide(total: real, shares: Option<real>, missing: seq<Missing>): (r: NavOutcome)
    ensures r.Published? <==> shares.Some? && shares.value > 0.0 && missing == []
    ensures r.Published? ==> r.nav * shares.value == total
  {
    if shares.None? || shares.value <= 0.0 then Error
    else
      var nav := total / shares.value;
      if missing == [] then Published(nav) else Error
  }

  /** The process exit status: 1 whenever the result is `ERROR`, 0 otherwise. */
  function ExitCode(r: NavOutcome): (code: int)
    ensures code == 0 <==> r.Published?
    ensures code == 1 <==> r.Error?
  {
    if r.Error? then 1 else 0
  }
}
