/** The certificate monitor: looks up one certificate, computes the whole days left until it
    expires, and publishes a warning when 30 days or fewer remain. */
module CertificateMonitor {
  import opened Wrappers
  import opened Lambda

  /** The warning threshold, inclusive and hard-coded. */
  const ExpiryWarningDays := 30
  const ErrorPrefix := "Error monitoring certificate: "
  const MissingConfigMessage := "Missing required environment variables"
  const MissingExpiryMessage := "Certificate expiry date not found"
  const SubjectPrefix := "SSL Certificate Expiry Warning - "

  /** The environment the handler reads. */
  datatype Config = Config(
    certificateArn: Option<string>,
    domainName: Option<string>,
    snsTopicArn: Option<string>)

  /** The certificate as described by the certificate service; `notAfter` in microseconds since
      the epoch. */
  datatype Certificate = Certificate(notAfter: Option<int>, status: Option<string>)

  /** `describe_certificate` by ARN, with faults (including a missing `Certificate` key) as data. */
  type Describer = string -> Result<Certificate, string>

  /** The success body. */
  datatype Message = Message(
    domainName: string,
    certificateArn: string,
    daysUntilExpiry: int,
    expiryDate: int,
    status: Option<string>,
    timestamp: int)

  /** The fields the warning text is formatted from (the text itself is not modelled). */
  datatype Warning = Warning(
    domainName: string,
    certificateArn: string,
    daysUntilExpiry: int,
    expiryDate: int,
    status: Option<string>)

  type Publisher = PublishRequest<Warning> -> Option<string>

  datatype Body =
    | MessageBody(message: Message)
    | ErrorBody(error: string, domainName: Option<string>, certificateArn: Option<string>)

  datatype Response = Response(statusCode: int, body: Body)

  type Outcome = Invocation<Response, Warning>

  /** Whole days from `now` to `notAfter`, rounded toward minus infinity as `timedelta.days`
      does. */
  function DaysUntilExpiry(notAfter: int, now: int): (days: int)
    ensures days * MicrosecondsPerDay <= notAfter - now < (days + 1) * MicrosecondsPerDay
  {
    (notAfter - now) / MicrosecondsPerDay
  }

  /** The alert decision. */
  predicate ExpiringSoon(days: int)
  {
    days <= ExpiryWarningDays
  }

  /** The 500 envelope: the error text plus the configuration as it was read. */
  function Fail(config: Config, fault: string, requests: seq<PublishRequest<Warning>>): (r: Outcome)
    ensures r.response.statusCode == 500 && r.response.body.ErrorBody?
    ensures ErrorPrefix <= r.response.body.error
    ensures r.response.body.error[|ErrorPrefix|..] == fault
    ensures r.response.body.domainName == config.domainName
    ensures r.response.body.certificateArn == config.certificateArn
    ensures r.requests == requests
  {
    Invocation(Response(500, ErrorBody(ErrorPrefix + fault, config.domainName, config.certificateArn)),
               requests)
  }

  /** The handler. */
  function Handler(config: Config, now: int, describe: Describer, publish: Publisher): (r: Outcome)
    ensures r.response.statusCode == 200 || r.response.statusCode == 500
    ensures r.response.statusCode == 500 <==> r.response.body.ErrorBody?
    ensures r.response.body.ErrorBody? ==>
              && r.response.body.domainName == config.domainName
              && r.response.body.certificateArn == config.certificateArn
              && ErrorPrefix <= r.response.body.error
    ensures !Truthy(config.certificateArn) || !Truthy(config.domainName) ==>
              r == Fail(config, MissingConfigMessage, [])
    ensures r.response.body.MessageBody? ==>
              && r.response.body.message.domainName == config.domainName.value
              && r.response.body.message.certificateArn == config.certificateArn.value
              && r.response.body.message.timestamp == now
              && describe(config.certificateArn.value).Ok?
              && describe(config.certificateArn.value).value.notAfter
                 == Some(r.response.body.message.expiryDate)
              && r.response.body.message.status == describe(config.certificateArn.value).value.status
              && r.response.body.message.daysUntilExpiry
                 == DaysUntilExpiry(r.response.body.message.expiryDate, now)
    ensures |r.requests| <= 1
    ensures r.requests != [] ==>
              && Truthy(config.domainName) && Truthy(config.snsTopicArn)
              && r.requests[0].topicArn == config.snsTopicArn.value
              && r.requests[0].subject == SubjectPrefix + config.domainName.value
              && ExpiringSoon(r.requests[0].message.daysUntilExpiry)
              && describe(config.certificateArn.value).Ok?
              && describe(config.certificateArn.value).value.notAfter.Some?
              && r.requests[0].message
                 == Warning(config.domainName.value, config.certificateArn.value,
                            DaysUntilExpiry(describe(config.certificateArn.value).value.notAfter.value, now),
                            describe(config.certificateArn.value).value.notAfter.value,
                            describe(config.certificateArn.value).value.status)
  {
    if !Truthy(config.certificateArn) || !Truthy(config.domainName) then
      Fail(config, MissingConfigMessage, [])
    else
      var arn, domain := config.certificateArn.value, config.domainName.value;
      match describe(arn)
      case Err(fault) => Fail(config, fault, [])
      case Ok(cert) =>
        match cert.notAfter
        case None => Fail(config, MissingExpiryMessage, [])
        case Some(notAfter) =>
          var days := DaysUntilExpiry(notAfter, now);
          var message := Message(domain, arn, days, notAfter, cert.status, now);
          if ExpiringSoon(days) && Truthy(config.snsTopicArn) then
            var request := PublishRequest(config.snsTopicArn.value, SubjectPrefix + domain,
                                          Warning(domain, arn, days, notAfter, cert.status));
            match publish(request)
            case Some(fault) => Fail(config, fault, [request])
            case None => Invocation(Response(200, MessageBody(message)), [request])
          else
            Invocation(Response(200, MessageBody(message)), [])
  }

  // ---------------------------------------------------------------------------
  // Properties of the day count and the decision

  /** The day count is the floor of the elapsed days: the only whole number of days that brackets
      the time left. */
  lemma DaysIsFloor(notAfter: int, now: int, d: int)
    requires d * MicrosecondsPerDay <= notAfter - now < (d + 1) * MicrosecondsPerDay
    ensures d == DaysUntilExpiry(notAfter, now)
  {
  }

  /** The day count is negative exactly once the certificate has expired. */
  lemma ExpiredIffNegative(notAfter: int, now: int)
    ensures DaysUntilExpiry(notAfter, now) < 0 <==> notAfter < now
  {
  }

  /** One microsecond past expiry already counts as day -1. */
  lemma JustExpired(now: int)
    ensures DaysUntilExpiry(now - 1, now) == -1
  {
  }

  /** The decision fires exactly when less than 31 full days remain. */
  lemma AlertIff(notAfter: int, now: int)
    ensures ExpiringSoon(DaysUntilExpiry(notAfter, now))
            <==> notAfter - now < (ExpiryWarningDays + 1) * MicrosecondsPerDay
  {
  }

  /** The threshold is inclusive: exactly 30 days out fires, exactly 31 days out does not. */
  lemma AlertBoundary(now: int)
    ensures ExpiringSoon(DaysUntilExpiry(now + 30 * MicrosecondsPerDay, now))
    ensures !ExpiringSoon(DaysUntilExpiry(now + 31 * MicrosecondsPerDay, now))
    ensures ExpiringSoon(DaysUntilExpiry(now + 31 * MicrosecondsPerDay - 1, now))
  {
  }

  /** The decision is monotone: an earlier expiry at the same `now` never has more days left, so
      whatever fires for a later expiry fires for it too. */
  lemma AlertMonotone(earlier: int, later: int, now: int)
    requires earlier <= later
    ensures DaysUntilExpiry(earlier, now) <= DaysUntilExpiry(later, now)
    ensures ExpiringSoon(DaysUntilExpiry(later, now)) ==> ExpiringSoon(DaysUntilExpiry(earlier, now))
  {
  }

  // ---------------------------------------------------------------------------
  // Properties of the handler

  /** A certificate without an expiry date gives a 500 and no alert decision is made. */
  lemma MissingExpiryFails(config: Config, now: int, describe: Describer, publish: Publisher)
    requires Truthy(config.certificateArn) && Truthy(config.domainName)
    requires describe(config.certificateArn.value).Ok?
    requires describe(config.certificateArn.value).value.notAfter.None?
    ensures Handler(config, now, describe, publish) == Fail(config, MissingExpiryMessage, [])
  {
  }

  /** A describe fault gives a 500 carrying the fault's text and no alert decision is made. */
  lemma DescribeFaultFails(config: Config, now: int, describe: Describer, publish: Publisher)
    requires Truthy(config.certificateArn) && Truthy(config.domainName)
    requires describe(config.certificateArn.value).Err?
    ensures Handler(config, now, describe, publish)
            == Fail(config, describe(config.certificateArn.value).error, [])
  {
  }

  /** Once the certificate is described with an expiry date: the notifier is called exactly when
      the decision fires and a topic is configured; the status is 200 whether or not it fires,
      unless the notifier call faults; and the body carries the inputs unchanged. */
  lemma SuccessfulCheck(config: Config, now: int, describe: Describer, publish: Publisher)
    requires Truthy(config.certificateArn) && Truthy(config.domainName)
    requires describe(config.certificateArn.value).Ok?
    requires describe(config.certificateArn.value).value.notAfter.Some?
    ensures var cert := describe(config.certificateArn.value).value;
            var days := DaysUntilExpiry(cert.notAfter.value, now);
            var r := Handler(config, now, describe, publish);
            && (|r.requests| == 1 <==> ExpiringSoon(days) && Truthy(config.snsTopicArn))
            && (r.requests != [] ==>
                  r.requests[0] == PublishRequest(config.snsTopicArn.value,
                                                  SubjectPrefix + config.domainName.value,
                                                  Warning(config.domainName.value,
                                                          config.certificateArn.value, days,
                                                          cert.notAfter.value, cert.status)))
            && (r.response.statusCode == 500 <==> r.requests != [] && publish(r.requests[0]).Some?)
            && (r.response.statusCode == 200 ==>
                  r.response.body == MessageBody(Message(config.domainName.value,
                                                         config.certificateArn.value, days,
                                                         cert.notAfter.value, cert.status, now)))
            && (r.response.statusCode == 500 ==>
                  r.response.body.error == ErrorPrefix + publish(r.requests[0]).value)
  {
  }
}
