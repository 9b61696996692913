# Backup and certificate health checks

This project models the decision logic of two scheduled AWS Lambda handlers in Dafny:

- **Backup validator** (`BackupValidator`). It reads its configuration and lists the vault's
  recovery points from the last 24 hours. For each point it makes a detail lookup and files the
  point under a verdict: `SUCCESS`, `FAILED`, or `ERROR` when the lookup raised. If the listing is
  empty it adds a synthetic `MISSING` item. It then builds the summary, publishes an alert when
  `failed_backups` is non-empty and a topic is configured, and answers with a 200 summary or a
  500 error envelope. The loop is the imperative method `ValidateRecoveryPoints`. It is proved
  equal to the specification functions `ValidationResults` and `FailedBackups`, and the
  properties of those functions are proved as lemmas.
- **Certificate monitor** (`CertificateMonitor`). It checks its configuration and describes the
  certificate. It computes the whole days left until `NotAfter`, rounded toward minus infinity
  as Python's `timedelta.days` does. It publishes a warning when 30 or fewer days remain and
  answers 200 with the message record, or 500 with an error record. This part is pure functions
  and lemmas.

Modelling choices:

- Times are integers in microseconds since the epoch, the resolution of Python's `datetime`.
  One day is `Lambda.MicrosecondsPerDay`. Dafny's `/` with a positive divisor is floor division,
  which is what `timedelta.days` computes.
- Every call into AWS is a function parameter, and a fault is data (`Wrappers.Result`, or
  `Some(fault)` from the publisher):
  - `fetch` is `list_recovery_points`. It gets the vault and the hard-coded window
    `[now - 1 day, now]`.
  - `describe` is `describe_recovery_point` or `describe_certificate`. Collaborators are pure
    functions of their request, so two listed records with the same recovery-point ARN get the
    same lookup answer, where the code makes one separate call per record that could answer
    differently; no proved property depends on this.
  - `publish` is `sns.publish`.
- Both handlers return a `Lambda.Invocation`: the envelope (`response`) next to the notifier
  calls made (`requests`). A call that faults is still listed, and the envelope then says 500.
- The environment is an explicit `Config` datatype with `Option<string>` fields. Python
  truthiness is modelled by `Lambda.Truthy`: an unset variable and an empty one are both absent.
  This holds for the vault name, the certificate ARN, the domain name and the topic ARN.
- `dict.get(key, default)` on the detail answer is `Option.GetOr`: size 0 and not encrypted when
  the key is absent. A listing without the `RecoveryPoints` key is treated as empty.
- The subject of the backup alert is spelled out. A missing project or environment renders as
  "None", as an f-string renders it (`Lambda.Format`). The message texts are abstract records of
  the fields they are formatted from (`AlertMessage`, `Warning`).

Three behaviours of the code are worth stating plainly:

- A notifier fault turns the answer into a 500, because the publish call is inside the
  handler's `try`.
- The 30-day threshold and the 24-hour window are fixed constants, not configuration.
- The listing is not paginated: only the first page of `list_recovery_points` is examined.

## Model

| member | source | states |
|---|---|---|
| BackupValidator.ValidateRecoveryPoints | modules/backup/lambda/backup_validator.py:43-88 | the loop builds exactly `ValidationResults` and `FailedBackups` of its input; every record is counted once; the listing is empty iff `failed_backups` is the single `MISSING` item |
| BackupValidator.Handler | modules/backup/lambda/backup_validator.py:17-153 | status is 200 or 500, and 500 iff the body is an error body. An absent vault name gives 500 with the missing-variable error and no publish. A listing fault gives 500 with its text. Otherwise the notifier is called once iff `failed_backups` is non-empty and a topic is set. The answer is 500 iff that call faults, else 200 with the summary of the listed points, whatever the per-record lookups did |
| BackupValidator.ValidatedEntry | modules/backup/lambda/backup_validator.py:59-67 | the entry of a described record copies its ARNs, status and creation date. Size and encryption default to 0 and not encrypted when absent. The verdict is `SUCCESS` iff the status is `COMPLETED`, and `FAILED` otherwise |
| BackupValidator.ErroredEntry | modules/backup/lambda/backup_validator.py:76-81 | the entry of a record whose lookup raised has the `ERROR` verdict, the record's ARNs and the fault text |
| BackupValidator.FailedBackups | modules/backup/lambda/backup_validator.py:84-88 | `failed_backups` is the single `MISSING` item iff the listing is empty, is what the loop appended otherwise, and never holds a success |
| BackupValidator.SummaryOf | modules/backup/lambda/backup_validator.py:91-101 | the summary names the configured project and environment, the vault and `now`. Its total is the number of listed points. Its success count is at most the number of results; that it equals the number of described `COMPLETED` records is proved in `SummaryCounts` and `SuccessfulAreHealthy`. Its failure count is the length of the detail list it carries |
| BackupValidator.AlertSubject | modules/backup/lambda/backup_validator.py:127 | the subject starts with "Backup Validation Alert - ", then the project as an f-string renders it, then " (", then the environment as an f-string renders it, and it ends with ")" |
| BackupValidator.AlertOf | modules/backup/lambda/backup_validator.py:105-120 | the alert reports the summary's project, environment, vault, time, total, success count, failure count and failure details |
| BackupValidator.ErrorResponse | modules/backup/lambda/backup_validator.py:141-153 | the error envelope is a 500 whose error is "Error during backup validation: " followed by the fault text, and it carries the vault, project and environment as read |
| BackupValidator.ErrorItemsAreFaults | modules/backup/lambda/backup_validator.py:74-81 | every `ERROR` item of `failed_backups` is built from a listed record whose lookup raised, with that fault's text, and every such record has its `ERROR` item there |
| BackupValidator.ListsAppend | modules/backup/lambda/backup_validator.py:46-81 | walking `ps + qs` gives the lists of `ps` followed by those of `qs`, so both lists keep input order |
| BackupValidator.SplitAt | modules/backup/lambda/backup_validator.py:46-81 | the lists are what precedes record `i`, then what record `i` adds, then what follows it, in order |
| BackupValidator.FaultDoesNotStopLoop | modules/backup/lambda/backup_validator.py:74-81 | a lookup fault on record `i` adds one `ERROR` item with the fault text, and every later record is classified exactly as if on its own |
| BackupValidator.EveryRecordLandsOnce | modules/backup/lambda/backup_validator.py:46-81 | `validation_results` has one entry per record whose lookup succeeded, `failed_backups` has as many `ERROR` items as there are records whose lookup raised, and the two counts add up to `len(recovery_points)` |
| BackupValidator.ResultVerdicts | modules/backup/lambda/backup_validator.py:59-67 | every `validation_results` entry is `SUCCESS` exactly when its status is `COMPLETED`, and `FAILED` otherwise |
| BackupValidator.NoSuccessInFailed | modules/backup/lambda/backup_validator.py:69-70 | no item of `failed_backups` is a success, and no validated item there is `COMPLETED` |
| BackupValidator.WhereARecordLands | modules/backup/lambda/backup_validator.py:69-72 | a described record's entry is in `validation_results`, and it is in `failed_backups` iff its status is not `COMPLETED` |
| BackupValidator.MissingIffEmpty | modules/backup/lambda/backup_validator.py:84-88 | on an empty listing `failed_backups` is exactly one `MISSING` item; on a non-empty one no item is `MISSING` |
| BackupValidator.SuccessfulAreHealthy | modules/backup/lambda/backup_validator.py:97 | `successful_backups` equals the number of records that were described and are `COMPLETED` |
| BackupValidator.FailuresAreUnhealthy | modules/backup/lambda/backup_validator.py:46-81 | the loop adds one `failed_backups` item for each record that is not both described and `COMPLETED` |
| BackupValidator.SummaryCounts | modules/backup/lambda/backup_validator.py:91-101 | `total_recovery_points` is the number of records. `successful_backups` is the number of healthy records. `failed_backups` is the length of the detail list. Successes and failures add up to the total on a non-empty listing; an empty one reports 0 successes and 1 failure |
| BackupValidator.AlertIff | modules/backup/lambda/backup_validator.py:104 | the alert condition holds iff the listing is empty or some record is not healthy |
| BackupValidator.AllHealthyNoAlert | modules/backup/lambda/backup_validator.py:104 | a non-empty listing of healthy records leaves `failed_backups` empty |
| CertificateMonitor.DaysUntilExpiry | modules/ssl/lambda/certificate_monitor.py:38-39 | the result `d` brackets the time left: `d` days <= `not_after - now` < `d + 1` days |
| CertificateMonitor.DaysIsFloor | modules/ssl/lambda/certificate_monitor.py:39 | that bracket determines the day count uniquely, so it is the floor |
| CertificateMonitor.ExpiredIffNegative | modules/ssl/lambda/certificate_monitor.py:39 | the day count is negative exactly when the certificate has already expired |
| CertificateMonitor.JustExpired | modules/ssl/lambda/certificate_monitor.py:39 | one microsecond past expiry gives -1 |
| CertificateMonitor.AlertIff | modules/ssl/lambda/certificate_monitor.py:52 | the warning fires iff less than 31 whole days remain |
| CertificateMonitor.AlertBoundary | modules/ssl/lambda/certificate_monitor.py:52 | exactly 30 days out fires, exactly 31 days out does not, one microsecond short of 31 days fires |
| CertificateMonitor.AlertMonotone | modules/ssl/lambda/certificate_monitor.py:39-52 | an earlier expiry never has more days left, and if the warning fires for an expiry it fires for every earlier one |
| CertificateMonitor.Fail | modules/ssl/lambda/certificate_monitor.py:83-94 | the error envelope is a 500 whose error is "Error monitoring certificate: " followed by the fault text, and it carries the domain and ARN as read and the notifier calls already made |
| CertificateMonitor.Handler | modules/ssl/lambda/certificate_monitor.py:17-94 | status is 200 or 500, and 500 iff the body is an error body. A missing ARN or domain gives 500 with the missing-variables error and no publish. An error body carries the error text and the domain and ARN as read. A message body carries the configured domain and ARN, the described expiry and status, `now`, and the floored day count. At most one publish happens, only to the configured topic, for a firing decision, with subject "SSL Certificate Expiry Warning - " and the domain. Its warning carries the domain, the ARN, the floored day count, the described expiry and the described status |
| CertificateMonitor.MissingExpiryFails | modules/ssl/lambda/certificate_monitor.py:34-36 | a certificate without `NotAfter` gives 500 with the expiry-not-found error and no publish |
| CertificateMonitor.DescribeFaultFails | modules/ssl/lambda/certificate_monitor.py:30-31 | a describe fault gives 500 with the fault text and no publish |
| CertificateMonitor.SuccessfulCheck | modules/ssl/lambda/certificate_monitor.py:42-81 | once an expiry is known, the notifier is called iff the warning fires and a topic is set. The status is 500 iff that call faults, with the fault text; otherwise it is 200 whether or not the warning fires, with the message built from the inputs unchanged. A request made goes to the topic, with the domain in the subject and a warning of the domain, the ARN, the day count, the expiry and the status |

## Left out

- AWS client construction, credentials and transport are left out. The answers of
  `list_recovery_points`, `describe_recovery_point`, `describe_certificate` and `sns.publish` are
  function parameters.
- `datetime.now` is the parameter `now`. Time zones are not modelled: all times are UTC
  microseconds.
- `isoformat`, `strftime`, `json.dumps` and the exact alert and warning texts are left out. Bodies
  and messages are records of the fields they format. Timestamps in them stay integers.
- `print` logging is left out: it has no effect on the result.
- A failure of `boto3.client` before the configuration is read is left out. In the code it leads
  to an unbound-variable error in the `except` block rather than an envelope.
- Missing keys in a listed recovery point (`rp['Status']` and the like) are left out: the record
  datatype always has them. In the code such a key error would end in the outer 500 envelope.
- Any other exception text, such as that of a key error on the `Certificate` key, is taken to be
  part of the collaborator's fault string.
- Statelessness and determinism across invocations hold by construction (pure functions and a
  method over values), so no lemma states them.
