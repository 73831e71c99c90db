/** The dry-run backend (src/idle_inhibitor/dry/mod.rs): it only keeps a flag and logs
    when the flag flips. Each call returns the new state, the call's outcome and whether
    a log line was written. */
module DryRunInhibitor {
  import opened Base

  datatype DryRun = DryRun(inhibited: bool)

  /** The derived `Default`: not inhibited. */
  const Initial: DryRun := DryRun(false)

  /** `inhibit`. */
  function Inhibit(s: DryRun): (r: (DryRun, Status, bool))
    ensures r.0.inhibited
    ensures r.1 == Ok
    ensures r.2 <==> !s.inhibited
  {
    if !s.inhibited then (DryRun(true), Ok, true) else (s, Ok, false)
  }

  /** `uninhibit`. */
  function Uninhibit(s: DryRun): (r: (DryRun, Status, bool))
    ensures !r.0.inhibited
    ensures r.1 == Ok
    ensures r.2 <==> s.inhibited
  {
    if s.inhibited then (DryRun(false), Ok, true) else (s, Ok, false)
  }

  lemma InitialIsUninhibited()
    ensures !Initial.inhibited
  {
  }

  /** The backend contract (src/idle_inhibitor/mod.rs:23-28): each call does nothing when
      the backend is already in the requested state; and a second identical call is such
      a case, so both calls are idempotent. */
  lemma MeetsContract(s: DryRun)
    ensures s.inhibited ==> Inhibit(s) == (s, Ok, false)
    ensures !s.inhibited ==> Uninhibit(s) == (s, Ok, false)
    ensures Inhibit(Inhibit(s).0) == (Inhibit(s).0, Ok, false)
    ensures Uninhibit(Uninhibit(s).0) == (Uninhibit(s).0, Ok, false)
  {
  }
}
