/** Exactly when the accept thread can stop for good: go round for ever in its search for a worker, or
    panic for want of one. */
module HaltBoundary {
  import opened Options
  import opened Protocol
  import opened ProtocolProofs
  import opened ProtocolTheorems
  import opened AcceptSearch
  import opened LimitRuns
  import opened ConnectionLimit
  import opened StaleFlag
  import opened OneDeath
  import opened TwoDeaths

  /** In every run with at most `d` deaths the accept thread can go on. */
  ghost predicate GoesOn(limit: nat, threads: nat, sockets: nat, d: nat)
    requires limit > 0
  {
    forall t, e: nat :: e <= d && Leads(Start(limit, threads, sockets), t, e) ==> !Halting(t)
  }

  /** Nobody may die, or there is no worker, or with a limit of one there is only one worker or only
      one death. */
  predicate CannotHalt(limit: nat, threads: nat, d: nat) {
    d == 0 || threads == 0 || (limit == 1 && (threads == 1 || d == 1))
  }

  lemma SoloGoesOn(s: State)
    requires Inv(s) && Solo(s)
    ensures !Halting(s)
  {
    AllAreZero(s);
    assert s.handles != [] ==> s.handles[0] in s.handles;
  }

  /** No run that is short of deaths, or of workers, halts. */
  lemma SuchRunsGoOn(limit: nat, threads: nat, sockets: nat, steps: seq<Step>)
    requires limit > 0 && After(Start(limit, threads, sockets), steps).Some?
    requires CannotHalt(limit, threads, Deaths(steps))
    ensures !Halting(After(Start(limit, threads, sockets), steps).value)
  {
    var t := After(Start(limit, threads, sockets), steps).value;
    EveryRunKeepsInv(limit, threads, sockets, steps);
    if Deaths(steps) == 0 {
      NobodyDied(Start(limit, threads, sockets), steps);
      AliveGoesOn(t);
    } else if threads == 0 {
      assert Leads(Start(limit, 0, sockets), t, Deaths(steps));
      NobodyToExceed(limit, sockets, t, Deaths(steps));
      AliveGoesOn(t);
    } else if threads == 1 {
      SoloRun(sockets, steps);
      SoloGoesOn(t);
    } else {
      OneDeathGoesOn(threads, sockets, steps);
    }
  }

  /** The exact boundary: in all runs with at most `d` deaths the accept thread can go on, if and only
      if nobody may die, or there is no worker, or the limit is one and there is one worker only or one
      death only. */
  lemma GoesOnIff(limit: nat, threads: nat, sockets: nat, d: nat)
    requires limit > 0 && sockets > 0
    ensures GoesOn(limit, threads, sockets, d) <==> CannotHalt(limit, threads, d)
  {
    var s0 := Start(limit, threads, sockets);
    if CannotHalt(limit, threads, d) {
      forall t, e: nat | e <= d && Leads(s0, t, e) ensures !Halting(t) {
        var steps :| After(s0, steps) == Some(t) && Deaths(steps) == e;
        SuchRunsGoOn(limit, threads, sockets, steps);
      }
    } else if limit == 1 {
      TwoDeathsHalt(threads, sockets);
      var t :| Leads(s0, t, 2) && Halting(t);
    } else if threads == 1 {
      PanicIsReachable(limit, sockets);
      var t :| Leads(s0, t, 1) && t.placing.Looking? && t.handles == [];
    } else {
      SpinningIsReachable(limit, threads, sockets);
      var t :| Leads(s0, t, 1) && Spinning(t);
    }
  }
}
