/** The backup validator: lists the vault's recovery points of the last day, classifies each,
    summarises the outcome and publishes an alert when anything is not healthy. */
module BackupValidator {
  import opened Wrappers
  import opened Lambda

  const Completed := "COMPLETED"
  const ErrorPrefix := "Error during backup validation: "
  const MissingVaultMessage := "Missing BACKUP_VAULT_NAME environment variable"
  const NoBackupsMessage := "No backups found in the last 24 hours"
  const AlertSubjectPrefix := "Backup Validation Alert - "
  /** The listing window is hard-coded to one day before the invocation time. */
  const Window := MicrosecondsPerDay

  /** The environment the handler reads. */
  datatype Config = Config(
    backupVaultName: Option<string>,
    projectName: Option<string>,
    environment: Option<string>,
    snsTopicArn: Option<string>)

  /** One entry of the listing; times are microseconds since the epoch. */
  datatype RecoveryPoint = RecoveryPoint(
    recoveryPointArn: string, status: string, creationDate: int, resourceArn: string)

  datatype ListRequest = ListRequest(backupVaultName: string, byCreatedAfter: int, byCreatedBefore: int)
  /** The listing answer; the `RecoveryPoints` key may be absent. */
  datatype ListResponse = ListResponse(recoveryPoints: Option<seq<RecoveryPoint>>)
  datatype DescribeRequest = DescribeRequest(backupVaultName: string, recoveryPointArn: string)
  /** The detail answer; both keys may be absent. */
  datatype Details = Details(backupSizeInBytes: Option<int>, isEncrypted: Option<bool>)

  /** The backup service's two calls, with faults as data. */
  type Fetcher = ListRequest -> Result<ListResponse, string>
  type Describer = DescribeRequest -> Result<Details, string>

  datatype ValidationStatus = Success | Failed | Error | Missing

  /** An item of `validation_results` or `failed_backups`. */
  datatype Entry =
    | Validated(recoveryPointArn: string, resourceArn: string, status: string, creationDate: int,
                backupSizeBytes: int, isEncrypted: bool, validationStatus: ValidationStatus)
    | Errored(recoveryPointArn: string, resourceArn: string, error: string)
    | NoBackups(error: string)
  {
    /** The entry's `validation_status`. */
    function Verdict(): ValidationStatus
    {
      match this
      case Validated(_, _, _, _, _, _, v) => v
      case Errored(_, _, _) => Error
      case NoBackups(_) => Missing
    }
  }

  datatype Summary = Summary(
    projectName: Option<string>,
    environment: Option<string>,
    backupVaultName: string,
    validationTimestamp: int,
    totalRecoveryPoints: nat,
    successfulBackups: nat,
    failedBackups: nat,
    validationResults: seq<Entry>,
    failedBackupDetails: seq<Entry>)

  /** The fields the alert text is formatted from (the text itself is not modelled). */
  datatype AlertMessage = AlertMessage(
    projectName: Option<string>,
    environment: Option<string>,
    backupVaultName: string,
    validationTime: int,
    totalRecoveryPoints: nat,
    successfulBackups: nat,
    failedBackups: nat,
    failedBackupDetails: seq<Entry>)

  type Publisher = PublishRequest<AlertMessage> -> Option<string>

  datatype Body =
    | SummaryBody(summary: Summary)
    | ErrorBody(error: string, backupVaultName: Option<string>, projectName: Option<string>,
                environment: Option<string>)

  datatype Response = Response(statusCode: int, body: Body)

  // ---------------------------------------------------------------------------
  // Classification of one record

  /** The detail lookup the loop makes for one record. */
  function Lookup(vault: string, describe: Describer, rp: RecoveryPoint): Result<Details, string>
  {
    describe(DescribeRequest(vault, rp.recoveryPointArn))
  }

  /** The entry built for a record whose lookup succeeded. */
  function ValidatedEntry(rp: RecoveryPoint, d: Details): (e: Entry)
    ensures e.Validated?
    ensures e.recoveryPointArn == rp.recoveryPointArn && e.resourceArn == rp.resourceArn
    ensures e.status == rp.status && e.creationDate == rp.creationDate
    ensures e.backupSizeBytes == (if d.backupSizeInBytes.Some? then d.backupSizeInBytes.value else 0)
    ensures e.isEncrypted <==> d.isEncrypted == Some(true)
    ensures e.Verdict() == Success <==> rp.status == Completed
    ensures e.Verdict() == Success || e.Verdict() == Failed
  {
    Validated(rp.recoveryPointArn, rp.resourceArn, rp.status, rp.creationDate,
              d.backupSizeInBytes.GetOr(0), d.isEncrypted.GetOr(false),
              if rp.status == Completed then Success else Failed)
  }

  /** The entry built for a record whose lookup raised. */
  function ErroredEntry(rp: RecoveryPoint, fault: string): (e: Entry)
    ensures e.Verdict() == Error
    ensures e.Errored? && e.recoveryPointArn == rp.recoveryPointArn
            && e.resourceArn == rp.resourceArn && e.error == fault
  {
    Errored(rp.recoveryPointArn, rp.resourceArn, fault)
  }

  /** What one record appends to `validation_results`. */
  function ResultsOf(vault: string, describe: Describer, rp: RecoveryPoint): seq<Entry>
  {
    match Lookup(vault, describe, rp)
    case Ok(d) => [ValidatedEntry(rp, d)]
    case Err(_) => []
  }

  /** What one record appends to `failed_backups`. */
  function FailuresOf(vault: string, describe: Describer, rp: RecoveryPoint): seq<Entry>
  {
    match Lookup(vault, describe, rp)
    case Ok(d) => if rp.status != Completed then [ValidatedEntry(rp, d)] else []
    case Err(fault) => [ErroredEntry(rp, fault)]
  }

  /** A record is healthy when its lookup succeeded and it is completed. */
  predicate Healthy(vault: string, describe: Describer, rp: RecoveryPoint)
  {
    Lookup(vault, describe, rp).Ok? && rp.status == Completed
  }

  // ---------------------------------------------------------------------------
  // The lists the loop builds, as functions of the input

  /** `validation_results` after the loop has walked `ps`. */
  function ValidationResults(vault: string, describe: Describer, ps: seq<RecoveryPoint>): seq<Entry>
  {
    if ps == [] then []
    else ValidationResults(vault, describe, ps[..|ps| - 1]) + ResultsOf(vault, describe, ps[|ps| - 1])
  }

  /** `failed_backups` after the loop has walked `ps`, before the empty-input check. */
  function LoopFailures(vault: string, describe: Describer, ps: seq<RecoveryPoint>): seq<Entry>
  {
    if ps == [] then []
    else LoopFailures(vault, describe, ps[..|ps| - 1]) + FailuresOf(vault, describe, ps[|ps| - 1])
  }

  /** `failed_backups` as the summary reports it: a `MISSING` item is added for an empty listing. */
  function FailedBackups(vault: string, describe: Describer, ps: seq<RecoveryPoint>): (failed: seq<Entry>)
    ensures |ps| == 0 <==> failed == [NoBackups(NoBackupsMessage)]
    ensures |ps| > 0 ==> failed == LoopFailures(vault, describe, ps)
    ensures forall e <- failed :: e.Verdict() != Success
  {
    LoopNoSuccess(vault, describe, ps);
    assert |ps| > 0 ==> NoBackups(NoBackupsMessage) !in LoopFailures(vault, describe, ps);
    assert |ps| > 0 ==> LoopFailures(vault, describe, ps) != [NoBackups(NoBackupsMessage)];
    LoopFailures(vault, describe, ps) + if |ps| == 0 then [NoBackups(NoBackupsMessage)] else []
  }

  /** The number of entries with verdict `v`. */
  function CountVerdict(es: seq<Entry>, v: ValidationStatus): nat
  {
    if es == [] then 0
    else CountVerdict(es[..|es| - 1], v) + if es[|es| - 1].Verdict() == v then 1 else 0
  }

  // Reference counts taken on the input records directly.

  function CountDescribed(vault: string, describe: Describer, ps: seq<RecoveryPoint>): nat
  {
    if ps == [] then 0
    else CountDescribed(vault, describe, ps[..|ps| - 1])
         + if Lookup(vault, describe, ps[|ps| - 1]).Ok? then 1 else 0
  }

  function CountHealthy(vault: string, describe: Describer, ps: seq<RecoveryPoint>): nat
  {
    if ps == [] then 0
    else CountHealthy(vault, describe, ps[..|ps| - 1])
         + if Healthy(vault, describe, ps[|ps| - 1]) then 1 else 0
  }

  /** The summary record the handler returns. */
  function SummaryOf(config: Config, vault: string, now: int, ps: seq<RecoveryPoint>,
                     results: seq<Entry>, failed: seq<Entry>): (s: Summary)
    ensures s.projectName == config.projectName && s.environment == config.environment
    ensures s.backupVaultName == vault && s.validationTimestamp == now
    ensures s.totalRecoveryPoints == |ps|
    ensures s.successfulBackups <= |s.validationResults| && s.validationResults == results
    ensures s.failedBackups == |s.failedBackupDetails| && s.failedBackupDetails == failed
  {
    CountVerdictBound(results, Success);
    Summary(config.projectName, config.environment, vault, now, |ps|,
            CountVerdict(results, Success), |failed|, results, failed)
  }

  /** The alert's subject line. */
  function AlertSubject(config: Config): (subject: string)
    ensures AlertSubjectPrefix + Format(config.projectName) + " (" <= subject
    ensures subject[|subject| - 1] == ')'
    ensures subject[|AlertSubjectPrefix + Format(config.projectName) + " ("|..|subject| - 1]
            == Format(config.environment)
  {
    AlertSubjectPrefix + Format(config.projectName) + " (" + Format(config.environment) + ")"
  }

  /** The alert's message fields, taken from the summary. */
  function AlertOf(s: Summary): (m: AlertMessage)
    ensures m.projectName == s.projectName && m.environment == s.environment
    ensures m.backupVaultName == s.backupVaultName && m.validationTime == s.validationTimestamp
    ensures m.totalRecoveryPoints == s.totalRecoveryPoints
    ensures m.successfulBackups == s.successfulBackups
    ensures m.failedBackups == s.failedBackups && m.failedBackupDetails == s.failedBackupDetails
  {
    AlertMessage(s.projectName, s.environment, s.backupVaultName, s.validationTimestamp,
                 s.totalRecoveryPoints, s.successfulBackups, s.failedBackups, s.failedBackupDetails)
  }

  /** The 500 envelope: the error text plus the configuration as it was read. */
  function ErrorResponse(config: Config, fault: string): (r: Response)
    ensures r.statusCode == 500 && r.body.ErrorBody?
    ensures ErrorPrefix <= r.body.error && r.body.error[|ErrorPrefix|..] == fault
    ensures r.body.backupVaultName == config.backupVaultName
    ensures r.body.projectName == config.projectName && r.body.environment == config.environment
  {
    Response(500, ErrorBody(ErrorPrefix + fault, config.backupVaultName, config.projectName,
                            config.environment))
  }

  // ---------------------------------------------------------------------------
  // The handler

  /** The classification loop: walks the records in order, appending to the two lists, and adds
      the `MISSING` item when there were none. */
  method ValidateRecoveryPoints(vault: string, describe: Describer, points: seq<RecoveryPoint>)
    returns (validationResults: seq<Entry>, failedBackups: seq<Entry>)
    ensures validationResults == ValidationResults(vault, describe, points)
    ensures failedBackups == FailedBackups(vault, describe, points)
    ensures |validationResults| + CountVerdict(failedBackups, Error) == |points|
    ensures |points| == 0 <==> failedBackups == [NoBackups(NoBackupsMessage)]
  {
    validationResults, failedBackups := [], [];
    for i := 0 to |points|
      invariant validationResults == ValidationResults(vault, describe, points[..i])
      invariant failedBackups == LoopFailures(vault, describe, points[..i])
    {
      var rp := points[i];
      assert points[..i + 1][..i] == points[..i];
      match describe(DescribeRequest(vault, rp.recoveryPointArn)) {
        case Ok(details) =>
          var result := ValidatedEntry(rp, details);
          if rp.status != Completed {
            failedBackups := failedBackups + [result];
          }
          validationResults := validationResults + [result];
        case Err(fault) =>
          failedBackups := failedBackups + [ErroredEntry(rp, fault)];
      }
    }
    assert points[..|points|] == points;
    if |points| == 0 {
      failedBackups := failedBackups + [NoBackups(NoBackupsMessage)];
    }
    EveryRecordLandsOnce(vault, describe, points);
    MissingIffEmpty(vault, describe, points);
  }

  /** The handler: reads the configuration, lists the last day's recovery points, validates them,
      publishes an alert when there are failures and a topic is configured, and answers with a
      200 summary or a 500 error envelope. `r.requests` are the notifier calls made. */
  method Handler(config: Config, now: int, fetch: Fetcher, describe: Describer, publish: Publisher)
    returns (r: Invocation<Response, AlertMessage>)
    ensures r.response.statusCode == 200 || r.response.statusCode == 500
    ensures r.response.statusCode == 500 <==> r.response.body.ErrorBody?
    ensures !Truthy(config.backupVaultName) ==>
              r.response == ErrorResponse(config, MissingVaultMessage) && r.requests == []
    ensures Truthy(config.backupVaultName) ==>
              var vault := config.backupVaultName.value;
              var listing := fetch(ListRequest(vault, now - Window, now));
              if listing.Err? then
                r.response == ErrorResponse(config, listing.error) && r.requests == []
              else
                var points := listing.value.recoveryPoints.GetOr([]);
                var results := ValidationResults(vault, describe, points);
                var failed := FailedBackups(vault, describe, points);
                var summary := SummaryOf(config, vault, now, points, results, failed);
                var alert := |failed| > 0 && Truthy(config.snsTopicArn);
                && r.requests == (if alert then [PublishRequest(config.snsTopicArn.value,
                                                              AlertSubject(config),
                                                              AlertOf(summary))]
                                else [])
                && r.response == (if alert && publish(r.requests[0]).Some?
                                then ErrorResponse(config, publish(r.requests[0]).value)
                                else Response(200, SummaryBody(summary)))
  {
    if !Truthy(config.backupVaultName) {
      return Invocation(ErrorResponse(config, MissingVaultMessage), []);
    }
    var vault := config.backupVaultName.value;
    var listing := fetch(ListRequest(vault, now - Window, now));
    if listing.Err? {
      return Invocation(ErrorResponse(config, listing.error), []);
    }
    var points := listing.value.recoveryPoints.GetOr([]);
    var validationResults, failedBackups := ValidateRecoveryPoints(vault, describe, points);
    var summary := SummaryOf(config, vault, now, points, validationResults, failedBackups);
    if |failedBackups| > 0 && Truthy(config.snsTopicArn) {
      var request := PublishRequest(config.snsTopicArn.value, AlertSubject(config), AlertOf(summary));
      var fault := publish(request);
      if fault.Some? {
        return Invocation(ErrorResponse(config, fault.value), [request]);
      }
      return Invocation(Response(200, SummaryBody(summary)), [request]);
    }
    return Invocation(Response(200, SummaryBody(summary)), []);
  }

  // ---------------------------------------------------------------------------
  // Properties of the loop's lists

  /** The loop is compositional: walking `ps + qs` appends what `qs` alone gives to what `ps`
      gives, so both lists keep input order. */
  lemma ListsAppend(vault: string, describe: Describer, ps: seq<RecoveryPoint>, qs: seq<RecoveryPoint>)
    ensures ValidationResults(vault, describe, ps + qs)
            == ValidationResults(vault, describe, ps) + ValidationResults(vault, describe, qs)
    ensures LoopFailures(vault, describe, ps + qs)
            == LoopFailures(vault, describe, ps) + LoopFailures(vault, describe, qs)
  {
    ResultsAppend(vault, describe, ps, qs);
    FailuresAppend(vault, describe, ps, qs);
  }

  lemma {:induction false} ResultsAppend(vault: string, describe: Describer,
                                         ps: seq<RecoveryPoint>, qs: seq<RecoveryPoint>)
    ensures ValidationResults(vault, describe, ps + qs)
            == ValidationResults(vault, describe, ps) + ValidationResults(vault, describe, qs)
    decreases |qs|
  {
    if qs == [] {
      assert ps + qs == ps;
    } else {
      var init, last, all := qs[..|qs| - 1], qs[|qs| - 1], ps + qs;
      assert all[..|all| - 1] == ps + init;
      assert all[|all| - 1] == last;
      ResultsAppend(vault, describe, ps, init);
      calc {
        ValidationResults(vault, describe, all);
        ValidationResults(vault, describe, ps + init) + ResultsOf(vault, describe, last);
        ValidationResults(vault, describe, ps) + ValidationResults(vault, describe, init)
          + ResultsOf(vault, describe, last);
        ValidationResults(vault, describe, ps) + ValidationResults(vault, describe, qs);
      }
    }
  }

  lemma {:induction false} FailuresAppend(vault: string, describe: Describer,
                                          ps: seq<RecoveryPoint>, qs: seq<RecoveryPoint>)
    ensures LoopFailures(vault, describe, ps + qs)
            == LoopFailures(vault, describe, ps) + LoopFailures(vault, describe, qs)
    decreases |qs|
  {
    if qs == [] {
      assert ps + qs == ps;
    } else {
      var init, last, all := qs[..|qs| - 1], qs[|qs| - 1], ps + qs;
      assert all[..|all| - 1] == ps + init;
      assert all[|all| - 1] == last;
      FailuresAppend(vault, describe, ps, init);
      calc {
        LoopFailures(vault, describe, all);
        LoopFailures(vault, describe, ps + init) + FailuresOf(vault, describe, last);
        LoopFailures(vault, describe, ps) + LoopFailures(vault, describe, init)
          + FailuresOf(vault, describe, last);
        LoopFailures(vault, describe, ps) + LoopFailures(vault, describe, qs);
      }
    }
  }

  /** A single record on its own contributes exactly its own entries. */
  lemma SingleRecord(vault: string, describe: Describer, rp: RecoveryPoint)
    ensures ValidationResults(vault, describe, [rp]) == ResultsOf(vault, describe, rp)
    ensures LoopFailures(vault, describe, [rp]) == FailuresOf(vault, describe, rp)
  {
  }

  /** Splitting the input around record `i`. */
  lemma SplitAt(vault: string, describe: Describer, ps: seq<RecoveryPoint>, i: nat)
    requires i < |ps|
    ensures ValidationResults(vault, describe, ps)
            == ValidationResults(vault, describe, ps[..i]) + ResultsOf(vault, describe, ps[i])
               + ValidationResults(vault, describe, ps[i + 1..])
    ensures LoopFailures(vault, describe, ps)
            == LoopFailures(vault, describe, ps[..i]) + FailuresOf(vault, describe, ps[i])
               + LoopFailures(vault, describe, ps[i + 1..])
  {
    assert ps == ps[..i] + [ps[i]] + ps[i + 1..];
    ListsAppend(vault, describe, ps[..i] + [ps[i]], ps[i + 1..]);
    ListsAppend(vault, describe, ps[..i], [ps[i]]);
    SingleRecord(vault, describe, ps[i]);
  }

  /** A lookup fault on record `i` does not stop the loop: it leaves one `ERROR` item in
      `failed_backups`, and the records after it are classified exactly as if they were alone. */
  lemma FaultDoesNotStopLoop(vault: string, describe: Describer, ps: seq<RecoveryPoint>, i: nat)
    requires i < |ps| && Lookup(vault, describe, ps[i]).Err?
    ensures ValidationResults(vault, describe, ps)
            == ValidationResults(vault, describe, ps[..i]) + ValidationResults(vault, describe, ps[i + 1..])
    ensures LoopFailures(vault, describe, ps)
            == LoopFailures(vault, describe, ps[..i])
               + [ErroredEntry(ps[i], Lookup(vault, describe, ps[i]).error)]
               + LoopFailures(vault, describe, ps[i + 1..])
  {
    SplitAt(vault, describe, ps, i);
  }

  lemma {:induction false} CountVerdictAppend(es: seq<Entry>, fs: seq<Entry>, v: ValidationStatus)
    ensures CountVerdict(es + fs, v) == CountVerdict(es, v) + CountVerdict(fs, v)
    decreases |fs|
  {
    if fs == [] {
      assert es + fs == es;
    } else {
      CountVerdictAppend(es, fs[..|fs| - 1], v);
      assert (es + fs)[..|es + fs| - 1] == es + fs[..|fs| - 1];
    }
  }

  /** Every record lands in exactly one place: a `validation_results` entry when its lookup
      succeeded, an `ERROR` item of `failed_backups` when it raised. */
  lemma {:induction false} EveryRecordLandsOnce(vault: string, describe: Describer, ps: seq<RecoveryPoint>)
    ensures |ValidationResults(vault, describe, ps)| == CountDescribed(vault, describe, ps)
    ensures CountVerdict(FailedBackups(vault, describe, ps), Error) == |ps| - CountDescribed(vault, describe, ps)
    ensures |ValidationResults(vault, describe, ps)| + CountVerdict(FailedBackups(vault, describe, ps), Error) == |ps|
  {
    LoopErrors(vault, describe, ps);
    var tail := if |ps| == 0 then [NoBackups(NoBackupsMessage)] else [];
    CountVerdictAppend(LoopFailures(vault, describe, ps), tail, Error);
    assert CountVerdict(tail, Error) == 0 by {
      if tail != [] { assert tail[..0] == []; }
    }
  }

  lemma {:induction false} LoopErrors(vault: string, describe: Describer, ps: seq<RecoveryPoint>)
    ensures |ValidationResults(vault, describe, ps)| == CountDescribed(vault, describe, ps)
    ensures CountVerdict(LoopFailures(vault, describe, ps), Error) + CountDescribed(vault, describe, ps) == |ps|
  {
    if ps != [] {
      var init, rp := ps[..|ps| - 1], ps[|ps| - 1];
      LoopErrors(vault, describe, init);
      CountVerdictAppend(LoopFailures(vault, describe, init), FailuresOf(vault, describe, rp), Error);
      match Lookup(vault, describe, rp)
      case Ok(d) =>
        if rp.status != Completed {
          CountVerdictSingle(ValidatedEntry(rp, d), Error);
        }
      case Err(fault) =>
        CountVerdictSingle(ErroredEntry(rp, fault), Error);
    }
  }

  lemma {:induction false} CountVerdictBound(es: seq<Entry>, v: ValidationStatus)
    ensures CountVerdict(es, v) <= |es|
  {
    if es != [] {
      CountVerdictBound(es[..|es| - 1], v);
    }
  }

  /** The `ERROR` items of `failed_backups` are exactly the records whose lookup raised: each
      such item is built from one of them with its fault text, and each of them has its item. */
  lemma ErrorItemsAreFaults(vault: string, describe: Describer, ps: seq<RecoveryPoint>)
    ensures forall e <- FailedBackups(vault, describe, ps) :: e.Errored? ==>
              exists i :: 0 <= i < |ps| && Lookup(vault, describe, ps[i]).Err?
                          && e == ErroredEntry(ps[i], Lookup(vault, describe, ps[i]).error)
    ensures forall i :: 0 <= i < |ps| && Lookup(vault, describe, ps[i]).Err? ==>
              ErroredEntry(ps[i], Lookup(vault, describe, ps[i]).error)
                in FailedBackups(vault, describe, ps)
  {
    LoopErrorItems(vault, describe, ps);
    forall i | 0 <= i < |ps| && Lookup(vault, describe, ps[i]).Err?
      ensures ErroredEntry(ps[i], Lookup(vault, describe, ps[i]).error)
                in FailedBackups(vault, describe, ps)
    {
      SplitAt(vault, describe, ps, i);
    }
  }

  lemma {:induction false} LoopErrorItems(vault: string, describe: Describer, ps: seq<RecoveryPoint>)
    ensures forall e <- LoopFailures(vault, describe, ps) :: e.Errored? ==>
              exists i :: 0 <= i < |ps| && Lookup(vault, describe, ps[i]).Err?
                          && e == ErroredEntry(ps[i], Lookup(vault, describe, ps[i]).error)
  {
    if ps != [] {
      var init, last := ps[..|ps| - 1], ps[|ps| - 1];
      LoopErrorItems(vault, describe, init);
      forall e | e in LoopFailures(vault, describe, ps) && e.Errored?
        ensures exists i :: 0 <= i < |ps| && Lookup(vault, describe, ps[i]).Err?
                            && e == ErroredEntry(ps[i], Lookup(vault, describe, ps[i]).error)
      {
        if e in LoopFailures(vault, describe, init) {
          var i :| 0 <= i < |init| && Lookup(vault, describe, init[i]).Err?
                   && e == ErroredEntry(init[i], Lookup(vault, describe, init[i]).error);
          assert init[i] == ps[i];
        } else {
          assert e in FailuresOf(vault, describe, last);
          assert Lookup(vault, describe, ps[|ps| - 1]).Err?;
        }
      }
    }
  }

  lemma CountVerdictSingle(e: Entry, v: ValidationStatus)
    ensures CountVerdict([e], v) == if e.Verdict() == v then 1 else 0
  {
    assert [e][..0] == [];
  }

  /** Each `validation_results` entry is `SUCCESS` exactly when its status is `COMPLETED`, and
      `FAILED` otherwise. */
  lemma {:induction false} ResultVerdicts(vault: string, describe: Describer, ps: seq<RecoveryPoint>)
    ensures forall e <- ValidationResults(vault, describe, ps) ::
              e.Validated? && (e.Verdict() == Success <==> e.status == Completed)
              && (e.Verdict() == Success || e.Verdict() == Failed)
  {
    if ps != [] {
      ResultVerdicts(vault, describe, ps[..|ps| - 1]);
    }
  }

  /** Nothing in `failed_backups` is a success: a record validated there is never
      `COMPLETED`. */
  lemma {:induction false} NoSuccessInFailed(vault: string, describe: Describer, ps: seq<RecoveryPoint>)
    ensures forall e <- FailedBackups(vault, describe, ps) ::
              e.Verdict() != Success && (e.Validated? ==> e.status != Completed)
  {
    LoopNoSuccess(vault, describe, ps);
  }

  lemma {:induction false} LoopNoSuccess(vault: string, describe: Describer, ps: seq<RecoveryPoint>)
    ensures forall e <- LoopFailures(vault, describe, ps) ::
              e.Verdict() != Success && (e.Validated? ==> e.status != Completed) && e.Verdict() != Missing
  {
    if ps != [] {
      LoopNoSuccess(vault, describe, ps[..|ps| - 1]);
    }
  }

  /** A described record that is not `COMPLETED` appears in both lists; a described `COMPLETED`
      record appears in `validation_results` and never in `failed_backups`. */
  lemma WhereARecordLands(vault: string, describe: Describer, ps: seq<RecoveryPoint>, i: nat)
    requires i < |ps| && Lookup(vault, describe, ps[i]).Ok?
    ensures var e := ValidatedEntry(ps[i], Lookup(vault, describe, ps[i]).value);
            && e in ValidationResults(vault, describe, ps)
            && (e in FailedBackups(vault, describe, ps) <==> ps[i].status != Completed)
  {
    SplitAt(vault, describe, ps, i);
    NoSuccessInFailed(vault, describe, ps);
  }

  /** The `MISSING` item is there exactly when the listing is empty, and is then the only item. */
  lemma MissingIffEmpty(vault: string, describe: Describer, ps: seq<RecoveryPoint>)
    ensures |ps| == 0 ==> FailedBackups(vault, describe, ps) == [NoBackups(NoBackupsMessage)]
    ensures |ps| > 0 ==> forall e <- FailedBackups(vault, describe, ps) :: e.Verdict() != Missing
    ensures |ps| == 0 <==> FailedBackups(vault, describe, ps) == [NoBackups(NoBackupsMessage)]
  {
    LoopNoSuccess(vault, describe, ps);
    if |ps| > 0 {
      assert FailedBackups(vault, describe, ps) == LoopFailures(vault, describe, ps);
      assert NoBackups(NoBackupsMessage) !in LoopFailures(vault, describe, ps);
    }
  }

  /** `successful_backups` counts exactly the healthy records. */
  lemma {:induction false} SuccessfulAreHealthy(vault: string, describe: Describer, ps: seq<RecoveryPoint>)
    ensures CountVerdict(ValidationResults(vault, describe, ps), Success) == CountHealthy(vault, describe, ps)
  {
    if ps != [] {
      var init, rp := ps[..|ps| - 1], ps[|ps| - 1];
      SuccessfulAreHealthy(vault, describe, init);
      CountVerdictAppend(ValidationResults(vault, describe, init), ResultsOf(vault, describe, rp), Success);
      match Lookup(vault, describe, rp)
      case Ok(d) => CountVerdictSingle(ValidatedEntry(rp, d), Success);
      case Err(_) =>
    }
  }

  /** Every record that is not healthy leaves exactly one item in `failed_backups`. */
  lemma {:induction false} FailuresAreUnhealthy(vault: string, describe: Describer, ps: seq<RecoveryPoint>)
    ensures |LoopFailures(vault, describe, ps)| + CountHealthy(vault, describe, ps) == |ps|
  {
    if ps != [] {
      FailuresAreUnhealthy(vault, describe, ps[..|ps| - 1]);
    }
  }

  /** The summary's counts: the total is the number of records, the successes are the healthy
      records, and on a non-empty listing every record is either a success or a failure. */
  lemma SummaryCounts(config: Config, vault: string, now: int, describe: Describer, ps: seq<RecoveryPoint>)
    ensures var s := SummaryOf(config, vault, now, ps, ValidationResults(vault, describe, ps),
                               FailedBackups(vault, describe, ps));
            && s.totalRecoveryPoints == |ps|
            && s.successfulBackups == CountHealthy(vault, describe, ps)
            && s.failedBackups == |s.failedBackupDetails|
            && (|ps| > 0 ==> s.successfulBackups + s.failedBackups == s.totalRecoveryPoints)
            && (|ps| == 0 ==> s.successfulBackups == 0 && s.failedBackups == 1)
  {
    SuccessfulAreHealthy(vault, describe, ps);
    FailuresAreUnhealthy(vault, describe, ps);
  }

  /** The alert decision: `failed_backups` is non-empty exactly when the listing is empty or some
      record is not healthy. */
  lemma AlertIff(vault: string, describe: Describer, ps: seq<RecoveryPoint>)
    ensures |FailedBackups(vault, describe, ps)| > 0
            <==> |ps| == 0 || exists i :: 0 <= i < |ps| && !Healthy(vault, describe, ps[i])
  {
    FailuresAreUnhealthy(vault, describe, ps);
    if exists i :: 0 <= i < |ps| && !Healthy(vault, describe, ps[i]) {
      var i :| 0 <= i < |ps| && !Healthy(vault, describe, ps[i]);
      SplitAt(vault, describe, ps, i);
    } else {
      AllHealthyCount(vault, describe, ps);
    }
  }

  /** A non-empty listing of healthy records leaves `failed_backups` empty, so nothing is
      published. */
  lemma AllHealthyNoAlert(vault: string, describe: Describer, ps: seq<RecoveryPoint>)
    requires |ps| > 0 && forall i :: 0 <= i < |ps| ==> Healthy(vault, describe, ps[i])
    ensures FailedBackups(vault, describe, ps) == []
  {
    AllHealthyCount(vault, describe, ps);
    FailuresAreUnhealthy(vault, describe, ps);
  }

  lemma {:induction false} AllHealthyCount(vault: string, describe: Describer, ps: seq<RecoveryPoint>)
    requires forall i :: 0 <= i < |ps| ==> Healthy(vault, describe, ps[i])
    ensures CountHealthy(vault, describe, ps) == |ps|
  {
    if ps != [] {
      AllHealthyCount(vault, describe, ps[..|ps| - 1]);
    }
  }
}
