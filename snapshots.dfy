/** The parts of a snapshot record (the JSON document written by the
    snapshot producer) that the report reads. A key that the report
    subscripts with `[...]` is an `Option` whose `None` stands for the key
    being absent. The two timestamps, read with `.get(key)` and no default,
    are `Option`s whose `None` stands for absent, `null` or the empty
    string. A key read with `.get(key, default)` is an `Option` whose
    `None` stands for the key being absent, which yields the default. */
module Snapshots {
  import opened Results

  /** A point in time, in whole seconds. */
  type Timestamp = int

  /** An ISO-8601 timestamp as written in the snapshot, with the instant it denotes. */
  datatype Instant = Instant(iso: string, seconds: Timestamp)

  datatype Metadata = Metadata(start: Option<Instant>)

  datatype CronJobSpec = CronJobSpec(suspend: Option<bool>)

  datatype CronJobStatus = CronJobStatus(lastScheduleTime: Option<Timestamp>, lastSuccessfulTime: Option<Timestamp>)

  datatype CronJob = CronJob(spec: Option<CronJobSpec>, status: Option<CronJobStatus>)

  datatype ReplicaStatus = ReplicaStatus(replicas: Option<int>, readyReplicas: Option<int>)

  /** A Deployment or a StatefulSet: both are read only through their status. */
  datatype Workload = Workload(status: Option<ReplicaStatus>)

  /** A snapshot, keyed by object name within each kind. */
  datatype Snapshot = Snapshot(
    metadata: Option<Metadata>,
    cronjobs: Option<map<string, CronJob>>,
    deployments: Option<map<string, Workload>>,
    statefulsets: Option<map<string, Workload>>)

  /** The snapshot the report uses as `previous` when there is only one file. */
  const EmptySnapshot := Snapshot(None, None, None, None)
}
