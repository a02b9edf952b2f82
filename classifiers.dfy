/** The per-object failure classifiers of app/report.py. Each returns the
    empty string for a healthy object and a short reason otherwise. */
module Classifiers {
  import opened Results
  import opened Snapshots
  import opened Decimal

  /** `datetime.timedelta(days=1)` in seconds. */
  const Day: int := 86400

  const StalePrefix := "Has not run successfully in "

  function Abs(x: int): nat {
    if x < 0 then -x else x
  }

  /** The two timestamps lie at least one day apart, in either order. */
  predicate Stale(schedule: Timestamp, successful: Timestamp) {
    schedule - successful >= Day || successful - schedule >= Day
  }

  predicate Suspended(job: CronJob) {
    job.spec.Some? && job.spec.value.suspend == Some(true)
  }

  predicate Unsuspended(job: CronJob) {
    job.spec.Some? && job.spec.value.suspend == Some(false)
  }

  /** `is_failed_cronjob`. `clock` is the wall-clock time and `naturalDelta`
      stands for `humanize.naturaldelta`. */
  function IsFailedCronJob(job: CronJob, clock: Timestamp, naturalDelta: nat -> string): (r: Result<string>)
    ensures job.spec.None? ==> r == Err(KeyError("spec"))
    ensures job.spec.Some? && job.spec.value.suspend.None? ==> r == Err(KeyError("suspend"))
    ensures Suspended(job) ==> r == Ok("")
    ensures Unsuspended(job) ==> (r.Ok? <==> job.status.Some?)
    ensures Unsuspended(job) && job.status.None? ==> r == Err(KeyError("status"))
    ensures Unsuspended(job) && job.status.Some? && job.status.value.lastScheduleTime.None? ==>
              r == Ok("Never scheduled")
    ensures Unsuspended(job) && job.status.Some? && job.status.value.lastScheduleTime.Some? &&
            job.status.value.lastSuccessfulTime.None? ==>
              r == Ok("Never successfully ran")
    ensures Unsuspended(job) && job.status.Some? && job.status.value.lastScheduleTime.Some? &&
            job.status.value.lastSuccessfulTime.Some? ==>
              var schedule, successful := job.status.value.lastScheduleTime.value, job.status.value.lastSuccessfulTime.value;
              && r.Ok?
              && (r.value != "" <==> Stale(schedule, successful))
              && (r.value != "" ==> r.value == StalePrefix + naturalDelta(Abs(clock - successful)))
  {
    match job.spec
    case None => Err(KeyError("spec"))
    case Some(spec) =>
      match spec.suspend
      case None => Err(KeyError("suspend"))
      case Some(true) => Ok("")
      case Some(false) =>
        match job.status
        case None => Err(KeyError("status"))
        case Some(status) =>
          if status.lastScheduleTime.None? then Ok("Never scheduled")
          else if status.lastSuccessfulTime.None? then Ok("Never successfully ran")
          else
            var schedule, successful := status.lastScheduleTime.value, status.lastSuccessfulTime.value;
            if Abs(schedule - successful) >= Day then
              Ok(StalePrefix + naturalDelta(Abs(clock - successful)))
            else
              Ok("")
  }

  /** `status.get("replicas", 0)`. */
  function Desired(status: ReplicaStatus): int {
    status.replicas.GetOr(0)
  }

  /** `status.get("readyReplicas", 0)`. */
  function Ready(status: ReplicaStatus): int {
    status.readyReplicas.GetOr(0)
  }

  /** `f"{ready}/{desired} Ready"`. */
  function ReadyRatio(ready: int, desired: int): string {
    IntToString(ready) + "/" + IntToString(desired) + " Ready"
  }

  /** The first position of `c` in `s`, if any. */
  function FirstIndex(s: string, c: char): (r: Option<nat>)
    ensures r.None? ==> c !in s
    ensures r.Some? ==> r.value < |s| && s[r.value] == c && c !in s[..r.value]
  {
    if |s| == 0 then None
    else if s[0] == c then Some(0)
    else
      match FirstIndex(s[1..], c)
      case None => None
      case Some(i) => assert s[..i + 1] == [s[0]] + s[1..][..i]; Some(i + 1)
  }

  /** Reads the two counts back out of a `ReadyRatio` text. */
  function ParseReadyRatio(s: string): Option<(int, int)> {
    if |s| < 6 || s[|s| - 6..] != " Ready" then None
    else
      var body := s[..|s| - 6];
      match FirstIndex(body, '/')
      case None => None
      case Some(k) =>
        match (ParseInt(body[..k]), ParseInt(body[k + 1..]))
        case (Some(ready), Some(desired)) => Some((ready, desired))
        case _ => None
  }

  /** The reason text determines both counts: nothing is lost in formatting. */
  lemma ReadyRatioRoundTrip(ready: int, desired: int)
    ensures ParseReadyRatio(ReadyRatio(ready, desired)) == Some((ready, desired))
  {
    var a, b := IntToString(ready), IntToString(desired);
    var s := ReadyRatio(ready, desired);
    var body := a + "/" + b;
    assert s == body + " Ready";
    assert s[..|s| - 6] == body;
    assert s[|s| - 6..] == " Ready";
    var k := FirstIndex(body, '/').value;
    assert forall i :: 0 <= i < |a| ==> body[i] == a[i];
    assert k == |a|;
    assert body[..|a|] == a && body[|a| + 1..] == b;
    IntRoundTrip(ready);
    IntRoundTrip(desired);
  }

  /** The reason shared by the two replica-based classifiers. */
  function ReplicaReason(status: ReplicaStatus): (r: string)
    ensures r == "" <==> Ready(status) == Desired(status)
    ensures r != "" ==> r == ReadyRatio(Ready(status), Desired(status))
    ensures r != "" ==> ParseReadyRatio(r) == Some((Ready(status), Desired(status)))
  {
    var desired := Desired(status);
    var ready := Ready(status);
    if ready == desired then
      ""
    else
      ReadyRatioRoundTrip(ready, desired);
      ReadyRatio(ready, desired)
  }

  /** `is_failed_deployment`. */
  function IsFailedDeployment(workload: Workload): (r: Result<string>)
    ensures r.Ok? <==> workload.status.Some?
    ensures r.Err? ==> r.error == KeyError("status")
    ensures r.Ok? ==> (r.value == "" <==> Ready(workload.status.value) == Desired(workload.status.value))
    ensures r.Ok? && r.value != "" ==> r.value == ReadyRatio(Ready(workload.status.value), Desired(workload.status.value))
    ensures r.Ok? && r.value != "" ==>
              ParseReadyRatio(r.value) == Some((Ready(workload.status.value), Desired(workload.status.value)))
  {
    match workload.status
    case None => Err(KeyError("status"))
    case Some(status) => Ok(ReplicaReason(status))
  }

  /** `is_failed_statefulset`. */
  function IsFailedStatefulSet(workload: Workload): (r: Result<string>)
    ensures r.Ok? <==> workload.status.Some?
    ensures r.Err? ==> r.error == KeyError("status")
    ensures r.Ok? ==> (r.value == "" <==> Ready(workload.status.value) == Desired(workload.status.value))
    ensures r.Ok? && r.value != "" ==> r.value == ReadyRatio(Ready(workload.status.value), Desired(workload.status.value))
    ensures r.Ok? && r.value != "" ==>
              ParseReadyRatio(r.value) == Some((Ready(workload.status.value), Desired(workload.status.value)))
  {
    match workload.status
    case None => Err(KeyError("status"))
    case Some(status) => Ok(ReplicaReason(status))
  }

  /** The two replica classifiers are the same test. */
  lemma DeploymentAgreesWithStatefulSet(workload: Workload)
    ensures IsFailedDeployment(workload) == IsFailedStatefulSet(workload)
  {
  }

  /** A status with neither count is healthy: both default to 0. */
  lemma MissingCountsAreHealthy()
    ensures IsFailedDeployment(Workload(Some(ReplicaStatus(None, None)))) == Ok("")
    ensures IsFailedStatefulSet(Workload(Some(ReplicaStatus(None, None)))) == Ok("")
  {
  }

  /** The staleness test does not depend on which timestamp is the later one. */
  lemma StalenessIsSymmetric(job: CronJob, swapped: CronJob, clock: Timestamp, naturalDelta: nat -> string)
    requires Unsuspended(job) && job.status.Some?
    requires job.status.value.lastScheduleTime.Some? && job.status.value.lastSuccessfulTime.Some?
    requires swapped.spec == job.spec
    requires swapped.status == Some(CronJobStatus(job.status.value.lastSuccessfulTime, job.status.value.lastScheduleTime))
    ensures (IsFailedCronJob(job, clock, naturalDelta).value != "") == (IsFailedCronJob(swapped, clock, naturalDelta).value != "")
  {
  }

  /** Three desired replicas of which one is ready. */
  lemma OneOfThreeReady()
    ensures IsFailedDeployment(Workload(Some(ReplicaStatus(Some(3), Some(1))))) == Ok("1/3 Ready")
  {
    var status := ReplicaStatus(Some(3), Some(1));
    assert DigitChar(1) == '1' && DigitChar(3) == '3';
    assert IntToString(1) == "1" && IntToString(3) == "3";
    assert ReadyRatio(1, 3) == "1/3 Ready";
    assert ReplicaReason(status) == "1/3 Ready";
  }

  lemma OneOfTwoReady()
    ensures IsFailedDeployment(Workload(Some(ReplicaStatus(Some(2), Some(1))))) == Ok("1/2 Ready")
  {
    assert DigitChar(1) == '1' && DigitChar(2) == '2';
    assert IntToString(1) == "1" && IntToString(2) == "2";
    assert ReadyRatio(1, 2) == "1/2 Ready";
  }
}
