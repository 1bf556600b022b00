/** The flag that SIGALRM sets, as a loop finds it at its top. */
module Alarms {
  import opened Timeval

  /** One look at has_alarm: whether it was set, and the clock. */
  datatype Check = Check(alarmed: bool, now: Timeval)

  /** The checks that found the flag set, in order, ... */
  function AlarmTurns(checks: seq<Check>): seq<nat> {
    if checks == [] then [] else
    var n := |checks| - 1;
    AlarmTurns(checks[..n]) + (if checks[n].alarmed then [n] else [])
  }

  /** ... and what the clock said there. */
  function AlarmClocks(checks: seq<Check>): seq<Timeval> {
    if checks == [] then [] else
    var n := |checks| - 1;
    AlarmClocks(checks[..n]) + (if checks[n].alarmed then [checks[n].now] else [])
  }

  lemma {:induction false} AlarmTurnsAre(checks: seq<Check>)
    ensures var ps := AlarmTurns(checks);
            && (forall i :: i in ps <==> 0 <= i < |checks| && checks[i].alarmed)
            && (forall j, k :: 0 <= j < k < |ps| ==> ps[j] < ps[k])
            && |AlarmClocks(checks)| == |ps|
            && (forall j :: 0 <= j < |ps| ==>
                  ps[j] < |checks| && AlarmClocks(checks)[j] == checks[ps[j]].now)
  {
    if checks != [] {
      AlarmTurnsAre(checks[..|checks| - 1]);
    }
  }

  lemma AlarmsAppend(checks: seq<Check>, c: Check)
    ensures AlarmTurns(checks + [c]) == AlarmTurns(checks) + (if c.alarmed then [|checks|] else [])
    ensures AlarmClocks(checks + [c]) == AlarmClocks(checks) + (if c.alarmed then [c.now] else [])
  {
    assert (checks + [c])[..|checks|] == checks;
  }

  /** The j-th of a row of positions, counted from one, with zero in front. */
  function Cut(cuts: seq<nat>, j: nat): nat
    requires j <= |cuts|
  {
    if j == 0 then 0 else cuts[j - 1]
  }
}
