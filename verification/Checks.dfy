/** Lists of checks: what a guard demands, in order, and the error it answers with. */
module Checks {
  import opened Prelude

  datatype Check = Check(holds: bool, error: CliError)

  ghost predicate AllHold(checks: seq<Check>) {
    forall i :: 0 <= i < |checks| ==> checks[i].holds
  }

  /** The error of the first check that fails. */
  ghost predicate FirstFailure(checks: seq<Check>, error: CliError) {
    exists i :: FailsAt(checks, i) && checks[i].error == error
  }

  ghost predicate FailsAt(checks: seq<Check>, i: int) {
    0 <= i < |checks| && !checks[i].holds && forall j :: 0 <= j < i ==> checks[j].holds
  }

  /** A guard runs the checks in order: it passes when all hold and otherwise
      answers with the error of the first that fails. */
  ghost predicate Decides(checks: seq<Check>, fault: Option<CliError>) {
    match fault
    case None => AllHold(checks)
    case Some(error) => FirstFailure(checks, error)
  }

  function FaultOf<T>(r: Result<T, CliError>): Option<CliError> {
    if r.Err? then Some(r.error) else None
  }

  /** A guard has one answer. */
  lemma DecidesOnce(checks: seq<Check>, a: Option<CliError>, b: Option<CliError>)
    requires Decides(checks, a) && Decides(checks, b)
    ensures a == b
  {
    if a.Some? && b.Some? {
      var i :| FailsAt(checks, i) && checks[i].error == a.value;
      var j :| FailsAt(checks, j) && checks[j].error == b.value;
      assert i == j;
    }
  }

  lemma FailureIsExclusive(checks: seq<Check>, error: CliError)
    requires FirstFailure(checks, error)
    ensures !AllHold(checks)
  {
  }

  /** One guard after the other. */
  lemma DecidesBoth(first: seq<Check>, second: seq<Check>, fault: Option<CliError>)
    requires (Decides(first, fault) && fault.Some?) || (AllHold(first) && Decides(second, fault))
    ensures Decides(first + second, fault)
  {
    var both := first + second;
    if AllHold(first) {
      assert forall i :: |first| <= i < |both| ==> both[i] == second[i - |first|];
      if fault.Some? {
        var i :| FailsAt(second, i) && second[i].error == fault.value;
        assert FailsAt(both, |first| + i);
      }
    } else {
      var i :| FailsAt(first, i) && first[i].error == fault.value;
      assert FailsAt(both, i) && both[i] == first[i];
    }
  }
}
