/** What the two Lambda handlers share: configuration reading, time and the notifier interface. */
module Lambda {
  import opened Wrappers

  /** One day of a `timedelta`, in microseconds: the resolution of Python's datetime. */
  const MicrosecondsPerDay: int := 86_400_000_000

  /** Python truthiness of an environment value: an unset and an empty variable are both absent. */
  predicate Truthy(o: Option<string>)
  {
    o.Some? && o.value != ""
  }

  /** How an f-string renders an optional text: `None` prints as "None". */
  function Format(o: Option<string>): string
  {
    match o
    case Some(s) => s
    case None => "None"
  }

  /** One call to the notifier's `publish`: topic, subject line and message. */
  datatype PublishRequest<M> = PublishRequest(topicArn: string, subject: string, message: M)

  /** What one invocation produces: the envelope it returns and the notifier calls it made. */
  datatype Invocation<R, M> = Invocation(response: R, requests: seq<PublishRequest<M>>)
}
