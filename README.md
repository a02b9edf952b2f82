# k8s status report: snapshot comparison and failure classification

This project models the decision logic of the report step of a small
Kubernetes monitoring tool, `app/report.py`. The tool takes two snapshots of a
cluster's workloads, the current one and the previous one. For each of three
kinds (CronJobs, Deployments, StatefulSets) it lists:

- the objects that are new;
- the objects that were deleted;
- the objects whose status shows a failure.

It then renders that list as the HTML body of an e-mail.

The model has four parts:

- **Classifiers** (`classifiers.dfy`): `is_failed_cronjob`,
  `is_failed_deployment` and `is_failed_statefulset`, as functions. Each
  returns the empty string for a healthy object and a reason otherwise.
- **Diff engine** (`compare.dfy`): `compare_snapshots`, as a method.
  - Its three identical loops are one generic method, `DiffKind`, which takes
    the classifier as a parameter. `CompareSnapshots` calls it once per kind.
  - `DiffKind` is proved against the specification function `Diff`.
  - `Diff`'s contract states the outcome for each membership case: deleted,
    new, or present in both snapshots.
- **Renderer** (`html.dfy`): `get_html`, as a method that appends to the page
  in loops. It is proved against the specification function `Page`.
- **Supporting text functions**:
  - `decimal.dfy`: integer formatting, with a parser proved to invert it.
  - `string_order.dfy`: Python's ordering of strings, and `sorted()` on a set
    of names. `Sorted` is proved ascending, complete and the only ascending
    enumeration of the set.

Conventions of the model:

- Snapshots are values.
- A dictionary key that the source subscripts with `[...]` is an `Option`. A
  missing key yields `Err(KeyError(key))`, which is Python's `KeyError`.
- The two CronJob timestamps, read with `.get(key)` and no default, are
  `Option`s whose `None` stands for a value that is absent, `null` or empty.
- A key read with `.get(key, default)` is an `Option` whose `None` stands for
  an absent key, which yields the default.
- Timestamps are whole seconds. The metadata `start` keeps both its ISO text
  and its value, because the result reports the raw text as `now`.
- Three inputs are parameters:
  - `clock`, the wall-clock time;
  - `naturalDelta`, for `humanize.naturaldelta`;
  - `preciseDelta`, for `humanize.precisedelta`.

The code has none of the following, and the model does not add them:

- a pod classifier or an owner-reference filter;
- cron-expression evaluation or a 7-day grace period;
- a "Never scheduled (but has run successfully)" reason;
- a strict one-sided staleness test. The test is
  `abs(schedule - successful) >= 1 day`, which is symmetric and includes
  exactly one day;
- a finding of its own for a record with a missing field. The whole
  comparison raises `KeyError` instead;
- any content in the `jobs` and `pods` maps of the result, which are always
  empty.

One consequence is visible in the model. Snapshots written by
`app/snapshot.py` have no `deployments` key, and `ProducerSnapshotRaises`
shows that comparing such a snapshot raises `KeyError("deployments")`.

## Model

| member | source | states |
|---|---|---|
| Classifiers.IsFailedCronJob | app/report.py:39-56 | A suspended CronJob is healthy whatever its status. Unsuspended, a missing schedule time gives exactly "Never scheduled"; otherwise a missing success time gives exactly "Never successfully ran". With both times, the reason is non-empty iff the two lie at least one day apart in either order, and it is then "Has not run successfully in " followed by the humanized time since the last success. Missing `spec`, `suspend` or (when unsuspended) `status` raises KeyError. |
| Classifiers.StalenessIsSymmetric | app/report.py:53 | Swapping the schedule and success times does not change whether a CronJob is flagged. |
| Classifiers.ReplicaReason | app/report.py:63-66 | The reason is empty iff the ready count equals the desired count (each defaulting to 0). Otherwise it is exactly "<ready>/<desired> Ready", and both counts can be read back from it. |
| Classifiers.IsFailedDeployment | app/report.py:59-66 | Raises KeyError("status") iff the status is missing. Otherwise it is healthy iff ready == desired. An unhealthy reason is exactly "<ready>/<desired> Ready", and it encodes exactly (ready, desired). |
| Classifiers.IsFailedStatefulSet | app/report.py:69-76 | The same contract as for Deployments. |
| Classifiers.DeploymentAgreesWithStatefulSet | app/report.py:59-76 | The Deployment and StatefulSet classifiers agree on every input. |
| Classifiers.MissingCountsAreHealthy | app/report.py:63-64 | A status with neither `replicas` nor `readyReplicas` is healthy, because both default to 0. |
| Classifiers.ReadyRatioRoundTrip | app/report.py:66 | Parsing "<ready>/<desired> Ready" gives back (ready, desired) for every pair of integers. |
| Classifiers.OneOfThreeReady | app/report.py:63-66 | Three desired replicas with one ready give exactly "1/3 Ready". |
| Classifiers.OneOfTwoReady | app/report.py:63-66 | Two desired replicas with one ready give exactly "1/2 Ready". |
| Decimal.IntRoundTrip | app/report.py:66 | The decimal text that the f-string writes for an integer parses back to the same integer. |
| Compare.Diff | app/report.py:108-118 | For one kind: the keys are a subset of the union of both snapshots' names. A name only in the previous snapshot maps to exactly "Deleted", whatever the classifier says. A name only in the current snapshot is always present and maps to "New", or "New, <reason>" when the reason is non-empty. A name in both is present iff its reason is non-empty, and then maps to the reason alone. |
| Compare.DiffKind | app/report.py:108-142 | The loop over the union of names returns Ok iff every current record classifies without error, and then its map is `Diff`. Otherwise it returns the error that some current record's classifier raises. |
| Compare.CompareSnapshots | app/report.py:87-144 | Succeeds iff the current snapshot has `metadata.start`, the three kinds and only classifiable records. On success, `now` is the current start's text and `delta` is the current start minus the previous start, which is 0 when the previous snapshot has no start. Each kind's map is `Diff` of that kind, with a missing previous kind read as empty. `jobs` and `pods` are empty. On failure, the error is the first KeyError in program order. |
| Compare.NothingPreviousAllNew | app/report.py:108-118 | Against an empty previous kind, every current name is reported, and every entry starts with "New". |
| Compare.FirstReportAllNew | app/report.py:103-142 | With `{}` as the previous snapshot, as used when there is only one snapshot file, the delta is 0 and every current object of every kind is reported with an entry starting with "New". |
| Compare.ProducerSnapshotRaises | app/report.py:120 | A snapshot holding only metadata and CronJobs whose records all classify cannot be compared. The only error the comparison can raise is KeyError("deployments"). |
| Compare.SelfComparisonHasNoTags | app/report.py:108-142 | Comparing a kind with itself yields no "New" and no "Deleted": every entry is the record's own non-empty reason. |
| Compare.DeploymentScenario | app/report.py:120-130 | Previous {A: 2 of 2 ready} and current {A: 1 of 2, B: 1 of 1} give exactly {A: "1/2 Ready", B: "New"}. |
| StringOrder.LessTotal | app/report.py:157 | Python's string order is total: two different names are always ordered one way or the other. |
| StringOrder.LessTransitive | app/report.py:157 | Python's string order is transitive. |
| StringOrder.Sorted | app/report.py:157 | `sorted()` of a set of names is strictly ascending and contains exactly the set's names. |
| StringOrder.AscendingUnique | app/report.py:157 | Two strictly ascending sequences with the same names are equal, so `sorted()` has only one possible result. |
| StringOrder.SortedSplit | app/report.py:157 | In the sorted names, each name comes after exactly the smaller names and before exactly the larger ones. |
| Html.AppendItems | app/report.py:157-158 | The loop appends one `<li>name: descriptor</li>` per name, in the given order. |
| Html.AppendSection | app/report.py:155-161 | One kind's block appends that kind's `Section` to the page. |
| Html.GetHtml | app/report.py:147-179 | The page is the intro paragraph (only when delta is non-zero), then the CronJobs, Deployments and StatefulSets sections, in that order. |
| Html.SectionIsAscending | app/report.py:155-159 | In a non-empty section, each name's item is preceded by the items of exactly the smaller names and followed by those of exactly the larger ones. |
| Html.NothingToReportIffEmpty | app/report.py:155-161 | A kind's section is "Nothing to report for <Kind>." exactly when the kind has no entries. |

## Left out

- app/snapshot.py: the cluster client, the clock read and the JSON file write are I/O. Its two scanners are unimplemented.
- `load_snapshot`, `main`, `send_email`, `entrypoint` and the environment configuration in app/report.py: file I/O, directory listing, SMTP, logging and process exit. The choice of `{}` as the previous snapshot when only one file exists is `Snapshots.EmptySnapshot`, and `Compare.FirstReportAllNew` states what the comparison then gives.
- ISO-8601 parsing by `dateutil.parser.isoparse` and `datetime.fromisoformat` is left out. Timestamps arrive already parsed, in seconds. An unparsable timestamp (ValueError) and a mix of naive and aware times (TypeError) are not modelled.
- `humanize.naturaldelta` and `humanize.precisedelta` are function-typed parameters, with no properties assumed.
- The source reads the wall clock at every CronJob it flags. The model reads one `clock` value per comparison, so the humanized durations of one report use the same "now".
- JSON values of unexpected types are not modelled. Examples: a `null` `suspend` (falsy in Python) and replica counts that are not integers.
- A key present with value `null` under a `.get(key, default)` read is treated as absent, so it yields the default. Python's `dict.get` returns `None` there instead. This affects `Classifiers.ReplicaReason`: a `null` `readyReplicas` against 0 replicas reads as healthy, where the source reports "None/0 Ready". It also affects `Compare.PreviousStart` and `Compare.PreviousKind`: a `null` previous `metadata` or kind is read as `{}`, where the source raises.
- CompareSnapshots: on failure inside one kind, the contract names the error of some failing record, not which record. Python visits a set's names in an order the program does not control, so which record fails first is not determined by the source.
- DiffKind: for the same reason, its error is stated as the error of some failing current record.
