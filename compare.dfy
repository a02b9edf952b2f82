/** `compare_snapshots` of app/report.py: per kind, the names of both
    snapshots, each tagged "Deleted", "New" and/or with its classifier's
    reason; names with no tag are left out. */
module Compare {
  import opened Results
  import opened Snapshots
  import opened Classifiers

  /** The dictionary `compare_snapshots` returns: `metadata.now`,
      `metadata.delta` (in seconds) and one name-to-descriptor map per kind. */
  datatype Comparison = Comparison(
    now: string,
    delta: int,
    cronjobs: map<string, string>,
    jobs: map<string, string>,
    deployments: map<string, string>,
    statefulsets: map<string, string>,
    pods: map<string, string>)

  /** `sep.join(parts)`. */
  function Join(parts: seq<string>, sep: string): string
    decreases |parts|
  {
    if |parts| == 0 then ""
    else if |parts| == 1 then parts[0]
    else parts[0] + sep + Join(parts[1..], sep)
  }

  lemma JoinOfTwo(sep: string)
    ensures forall a, b :: Join([a, b], sep) == a + sep + b
  {
    forall a, b
      ensures Join([a, b], sep) == a + sep + b
    {
      assert [a, b][1..] == [b];
    }
  }

  /** The `descriptors` list for one name: "Deleted" alone for a vanished
      object; otherwise "New" for an object the previous snapshot lacks,
      followed by a non-empty classifier reason. */
  function Descriptors(deleted: bool, isNew: bool, reason: string): seq<string> {
    if deleted then ["Deleted"]
    else (if isNew then ["New"] else []) + (if reason == "" then [] else [reason])
  }

  /** Every record of `records` can be classified without an error. */
  predicate AllClassified<R>(records: map<string, R>, classify: R -> Result<string>) {
    forall name :: name in records ==> classify(records[name]).Ok?
  }

  function Tags<R>(name: string, current: map<string, R>, previous: map<string, R>, classify: R -> Result<string>): seq<string>
    requires name in current ==> classify(current[name]).Ok?
  {
    var reason := if name in current then classify(current[name]).value else "";
    Descriptors(name !in current, name !in previous, reason)
  }

  lemma NewTags<R>(current: map<string, R>, previous: map<string, R>, classify: R -> Result<string>)
    requires AllClassified(current, classify)
    ensures forall name :: name in current && name !in previous ==>
              Join(Tags(name, current, previous, classify), ", ")
                == (if classify(current[name]).value == "" then "New" else "New, " + classify(current[name]).value)
  {
    JoinOfTwo(", ");
    forall name | name in current && name !in previous
      ensures Join(Tags(name, current, previous, classify), ", ")
                == (if classify(current[name]).value == "" then "New" else "New, " + classify(current[name]).value)
    {
      var reason := classify(current[name]).value;
      if reason != "" {
        assert Tags(name, current, previous, classify) == ["New", reason];
      }
    }
  }

  /** What one `for name in ...` loop of `compare_snapshots` leaves in its kind's map. */
  function Diff<R>(current: map<string, R>, previous: map<string, R>, classify: R -> Result<string>): (d: map<string, string>)
    requires AllClassified(current, classify)
    ensures d.Keys <= current.Keys + previous.Keys
    ensures forall name :: name in previous && name !in current ==> name in d && d[name] == "Deleted"
    ensures forall name :: name in current && name !in previous ==>
              && name in d
              && d[name] == (if classify(current[name]).value == "" then "New" else "New, " + classify(current[name]).value)
    ensures forall name :: name in current && name in previous ==>
              && (name in d <==> classify(current[name]).value != "")
              && (name in d ==> d[name] == classify(current[name]).value)
  {
    NewTags(current, previous, classify);
    map name | name in current.Keys + previous.Keys && Tags(name, current, previous, classify) != []
      :: Join(Tags(name, current, previous, classify), ", ")
  }

  /** `data` holds exactly what `Diff` gives for the names in `done`. */
  ghost predicate Recorded<R>(data: map<string, string>, done: set<string>,
                              current: map<string, R>, previous: map<string, R>, classify: R -> Result<string>)
  {
    && (forall name :: name in done && name in current ==> classify(current[name]).Ok?)
    && data.Keys <= done
    && (forall name :: name in done ==> (name in data <==> Tags(name, current, previous, classify) != []))
    && (forall name :: name in data ==> data[name] == Join(Tags(name, current, previous, classify), ", "))
  }

  lemma RecordOne<R>(data: map<string, string>, done: set<string>, name: string,
                     current: map<string, R>, previous: map<string, R>, classify: R -> Result<string>)
    requires Recorded(data, done, current, previous, classify)
    requires name in current ==> classify(current[name]).Ok?
    ensures var tags := Tags(name, current, previous, classify);
            Recorded(if tags != [] then data[name := Join(tags, ", ")] else data, done + {name}, current, previous, classify)
  {
  }

  lemma RecordedAll<R>(data: map<string, string>, current: map<string, R>, previous: map<string, R>, classify: R -> Result<string>)
    requires Recorded(data, current.Keys + previous.Keys, current, previous, classify)
    ensures AllClassified(current, classify)
    ensures data == Diff(current, previous, classify)
  {
    var expected := Diff(current, previous, classify);
    assert data.Keys == expected.Keys;
  }

  /** One of the three loops of `compare_snapshots`, for any kind. Names are
      visited in no particular order, as Python iterates a set; the first
      record whose classifier raises aborts the loop with that error. */
  method DiffKind<R>(current: map<string, R>, previous: map<string, R>, classify: R -> Result<string>)
    returns (r: Result<map<string, string>>)
    ensures r.Ok? <==> AllClassified(current, classify)
    ensures r.Ok? ==> r.value == Diff(current, previous, classify)
    ensures r.Err? ==> exists name :: name in current && classify(current[name]) == Err(r.error)
  {
    var data: map<string, string> := map[];
    var pending := current.Keys + previous.Keys;
    ghost var done: set<string> := {};
    while pending != {}
      invariant pending + done == current.Keys + previous.Keys
      invariant pending !! done
      invariant Recorded(data, done, current, previous, classify)
      decreases pending
    {
      var name :| name in pending;
      var descriptors: seq<string> := [];
      if name !in current {
        descriptors := descriptors + ["Deleted"];
      } else {
        if name !in previous {
          descriptors := descriptors + ["New"];
        }
        var reason := classify(current[name]);
        if reason.Err? {
          return Err(reason.error);
        }
        if reason.value != "" {
          descriptors := descriptors + [reason.value];
        }
      }
      assert descriptors == Tags(name, current, previous, classify);
      RecordOne(data, done, name, current, previous, classify);
      if descriptors != [] {
        data := data[name := Join(descriptors, ", ")];
      }
      pending := pending - {name};
      done := done + {name};
    }
    RecordedAll(data, current, previous, classify);
    r := Ok(data);
  }

  /** `previous.get("metadata", {}).get("start", now)`. */
  function PreviousStart(previous: Snapshot, now: Instant): Instant {
    match previous.metadata
    case Some(Metadata(Some(start))) => start
    case _ => now
  }

  /** `previous.get(kind, {})`. */
  function PreviousKind<R>(kind: Option<map<string, R>>): map<string, R> {
    kind.GetOr(map[])
  }

  /** `is_failed_cronjob` with the wall clock and `humanize.naturaldelta` fixed. */
  function CronJobClassifier(clock: Timestamp, naturalDelta: nat -> string): CronJob -> Result<string> {
    job => IsFailedCronJob(job, clock, naturalDelta)
  }

  predicate KindOk<R>(kind: Option<map<string, R>>, classify: R -> Result<string>) {
    kind.Some? && AllClassified(kind.value, classify)
  }

  /** `current` has everything `compare_snapshots` subscripts, and no record
      makes its classifier raise. */
  predicate WellFormed(current: Snapshot, clock: Timestamp, naturalDelta: nat -> string) {
    && current.metadata.Some?
    && current.metadata.value.start.Some?
    && KindOk(current.cronjobs, CronJobClassifier(clock, naturalDelta))
    && KindOk(current.deployments, IsFailedDeployment)
    && KindOk(current.statefulsets, IsFailedStatefulSet)
  }

  /** `e` is an error the loop over `current[key]` can raise. */
  ghost predicate RaisedByKind<R>(kind: Option<map<string, R>>, key: string, classify: R -> Result<string>, e: Error) {
    match kind
    case None => e == KeyError(key)
    case Some(records) => exists name :: name in records && classify(records[name]) == Err(e)
  }

  /** `e` is an error `compare_snapshots` can raise: the first failing step
      in program order, and within one kind the error of some record. */
  ghost predicate RaisedBy(current: Snapshot, clock: Timestamp, naturalDelta: nat -> string, e: Error) {
    if current.metadata.None? then e == KeyError("metadata")
    else if current.metadata.value.start.None? then e == KeyError("start")
    else if !KindOk(current.cronjobs, CronJobClassifier(clock, naturalDelta)) then
      RaisedByKind(current.cronjobs, "cronjobs", CronJobClassifier(clock, naturalDelta), e)
    else if !KindOk(current.deployments, IsFailedDeployment) then
      RaisedByKind(current.deployments, "deployments", IsFailedDeployment, e)
    else
      RaisedByKind(current.statefulsets, "statefulsets", IsFailedStatefulSet, e)
  }

  /** `compare_snapshots(current, previous)`, with `clock` the wall-clock time
      the CronJob classifier reads and `naturalDelta` standing for
      `humanize.naturaldelta`. */
  method CompareSnapshots(current: Snapshot, previous: Snapshot, clock: Timestamp, naturalDelta: nat -> string)
    returns (r: Result<Comparison>)
    ensures r.Ok? <==> WellFormed(current, clock, naturalDelta)
    ensures r.Err? ==> RaisedBy(current, clock, naturalDelta, r.error)
    ensures r.Ok? ==>
              var start := current.metadata.value.start.value;
              && r.value.now == start.iso
              && r.value.delta == start.seconds - PreviousStart(previous, start).seconds
              && r.value.cronjobs == Diff(current.cronjobs.value, PreviousKind(previous.cronjobs), CronJobClassifier(clock, naturalDelta))
              && r.value.deployments == Diff(current.deployments.value, PreviousKind(previous.deployments), IsFailedDeployment)
              && r.value.statefulsets == Diff(current.statefulsets.value, PreviousKind(previous.statefulsets), IsFailedStatefulSet)
              && r.value.jobs == map[]
              && r.value.pods == map[]
    ensures r.Ok? && (previous.metadata.None? || previous.metadata.value.start.None?) ==> r.value.delta == 0
  {
    if current.metadata.None? {
      return Err(KeyError("metadata"));
    }
    if current.metadata.value.start.None? {
      return Err(KeyError("start"));
    }
    var now := current.metadata.value.start.value;
    var earlier := PreviousStart(previous, now);
    var delta := now.seconds - earlier.seconds;

    if current.cronjobs.None? {
      return Err(KeyError("cronjobs"));
    }
    var cronjobs :- DiffKind(current.cronjobs.value, PreviousKind(previous.cronjobs), CronJobClassifier(clock, naturalDelta));

    if current.deployments.None? {
      return Err(KeyError("deployments"));
    }
    var deployments :- DiffKind(current.deployments.value, PreviousKind(previous.deployments), IsFailedDeployment);

    if current.statefulsets.None? {
      return Err(KeyError("statefulsets"));
    }
    var statefulsets :- DiffKind(current.statefulsets.value, PreviousKind(previous.statefulsets), IsFailedStatefulSet);

    r := Ok(Comparison(now.iso, delta, cronjobs, map[], deployments, statefulsets, map[]));
  }

  /** Comparing a kind with itself yields no "New" and no "Deleted": every
      entry is the classifier's reason alone. */
  lemma SelfComparisonHasNoTags<R>(records: map<string, R>, classify: R -> Result<string>)
    requires AllClassified(records, classify)
    ensures forall name :: name in Diff(records, records, classify) ==>
              name in records && Diff(records, records, classify)[name] == classify(records[name]).value
  {
  }

  /** Against an empty previous kind, every current name is reported, and
      every entry starts with "New". */
  lemma NothingPreviousAllNew<R>(current: map<string, R>, classify: R -> Result<string>)
    requires AllClassified(current, classify)
    ensures Diff(current, map[], classify).Keys == current.Keys
    ensures forall name :: name in current ==>
              |Diff(current, map[], classify)[name]| >= 3 && Diff(current, map[], classify)[name][..3] == "New"
  {
    var d := Diff(current, map[], classify);
    forall name | name in current
      ensures |d[name]| >= 3 && d[name][..3] == "New"
    {
      var reason := classify(current[name]).value;
      if reason != "" {
        assert d[name] == "New" + (", " + reason);
      }
    }
  }

  /** With a single snapshot file, `previous` is `{}`: the delta is 0 and every
      current object of every kind is reported as new. */
  lemma FirstReportAllNew(current: Snapshot, clock: Timestamp, naturalDelta: nat -> string)
    requires WellFormed(current, clock, naturalDelta)
    ensures var start := current.metadata.value.start.value;
            start.seconds - PreviousStart(EmptySnapshot, start).seconds == 0
    ensures forall name :: name in current.cronjobs.value ==>
              var d := Diff(current.cronjobs.value, PreviousKind(EmptySnapshot.cronjobs), CronJobClassifier(clock, naturalDelta));
              name in d && |d[name]| >= 3 && d[name][..3] == "New"
    ensures forall name :: name in current.deployments.value ==>
              var d := Diff(current.deployments.value, PreviousKind(EmptySnapshot.deployments), IsFailedDeployment);
              name in d && |d[name]| >= 3 && d[name][..3] == "New"
    ensures forall name :: name in current.statefulsets.value ==>
              var d := Diff(current.statefulsets.value, PreviousKind(EmptySnapshot.statefulsets), IsFailedStatefulSet);
              name in d && |d[name]| >= 3 && d[name][..3] == "New"
  {
    NothingPreviousAllNew(current.cronjobs.value, CronJobClassifier(clock, naturalDelta));
    NothingPreviousAllNew(current.deployments.value, IsFailedDeployment);
    NothingPreviousAllNew(current.statefulsets.value, IsFailedStatefulSet);
  }

  /** A snapshot as the snapshot producer writes it (metadata and CronJobs
      only) cannot be compared: once its CronJobs classify, the comparison
      raises `KeyError("deployments")` and nothing else. */
  lemma ProducerSnapshotRaises(start: Instant, cronjobs: map<string, CronJob>, clock: Timestamp, naturalDelta: nat -> string)
    requires AllClassified(cronjobs, CronJobClassifier(clock, naturalDelta))
    ensures var current := Snapshot(Some(Metadata(Some(start))), Some(cronjobs), None, None);
            && !WellFormed(current, clock, naturalDelta)
            && forall e :: RaisedBy(current, clock, naturalDelta, e) <==> e == KeyError("deployments")
  {
  }

  const ScenarioPrevious := map["A" := Workload(Some(ReplicaStatus(Some(2), Some(2))))]
  const ScenarioCurrent := map["A" := Workload(Some(ReplicaStatus(Some(2), Some(1)))),
                               "B" := Workload(Some(ReplicaStatus(Some(1), Some(1))))]

  lemma ScenarioEntries()
    ensures
      var d := Diff(ScenarioCurrent, ScenarioPrevious, IsFailedDeployment);
      d.Keys <= {"A", "B"} && "A" in d && d["A"] == "1/2 Ready" && "B" in d && d["B"] == "New"
  {
    var d := Diff(ScenarioCurrent, ScenarioPrevious, IsFailedDeployment);
    assert "A" in d && d["A"] == "1/2 Ready" by {
      assert "A" in ScenarioCurrent && "A" in ScenarioPrevious;
      OneOfTwoReady();
    }
    assert "B" in d && d["B"] == "New" by {
      assert "B" in ScenarioCurrent && "B" !in ScenarioPrevious;
      assert IsFailedDeployment(ScenarioCurrent["B"]) == Ok("");
    }
  }

  /** Previous `{A: 2 of 2 ready}`, current `{A: 1 of 2 ready, B: 1 of 1
      ready}`: A is reported as "1/2 Ready" and B as "New". */
  lemma DeploymentScenario()
    ensures Diff(ScenarioCurrent, ScenarioPrevious, IsFailedDeployment) == map["A" := "1/2 Ready", "B" := "New"]
  {
    ScenarioEntries();
  }
}
