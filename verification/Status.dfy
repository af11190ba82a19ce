/** Step statuses, run reports and the exit code of a run (src/engine/status.rs). */
module Status {
  datatype Mode = Check | Apply

  datatype StepStatus =
    | AlreadyConfigured
    | Configured
    | NotConfigured
    | RebootRequired
    | Skipped
    | Error
    | NotRun

  /** The process exit code: 1 for any error, 3 for a pending reboot in apply mode, else 0. */
  function ExitCode(mode: Mode, steps: seq<StepStatus>): (code: nat)
    ensures code == 1 <==> Error in steps
    ensures code == 3 <==> Error !in steps && mode == Apply && RebootRequired in steps
    ensures code in {0, 1, 3}
  {
    if Error in steps then 1
    else if mode == Apply && RebootRequired in steps then 3
    else 0
  }
}
