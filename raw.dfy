/**
  The request shapes of the Pub/Sub v1beta1 service that the client fills in,
  and the service itself, seen only as the log of the requests sent to it.

  A Go pointer field that may be nil is an Option; a Go slice that may be nil
  is an Option of a sequence where nil and empty must be told apart.
 */
module Raw {
  import opened Wrappers

  /** Go's int64. */
  type int64 = x: int | -0x8000_0000_0000_0000 <= x < 0x8000_0000_0000_0000

  datatype PushConfig = PushConfig(pushEndpoint: string)

  /** A subscription resource as sent on creation; a zero deadline means "not set". */
  datatype Subscription = Subscription(
    topic: string,
    name: string,
    ackDeadlineSeconds: int64,
    pushConfig: Option<PushConfig>)

  datatype ModifyAckDeadlineRequest = ModifyAckDeadlineRequest(subscription: string, ackDeadlineSeconds: int64)

  datatype ModifyPushConfigRequest = ModifyPushConfigRequest(subscription: string, pushConfig: Option<PushConfig>)

  datatype AcknowledgeRequest = AcknowledgeRequest(subscription: string, ackId: seq<string>)

  datatype Topic = Topic(name: string)

  /** One label on the wire: the value sits in exactly one of the two value fields. */
  datatype Label = Label(key: string, numValue: int64, strValue: string)

  /** A message on the wire: `data` is base64 text, `labels` is the Go field `Label`. */
  datatype PubsubMessage = PubsubMessage(data: string, labels: Option<seq<Label>>)

  datatype PublishRequest = PublishRequest(topic: string, message: PubsubMessage)

  /** One RPC of the service, with the request it carries. */
  datatype Call =
    | SubscriptionsCreate(sub: Subscription)
    | SubscriptionsDelete(subscription: string)
    | SubscriptionsModifyAckDeadline(modifyAckDeadline: ModifyAckDeadlineRequest)
    | SubscriptionsModifyPushConfig(modifyPushConfig: ModifyPushConfigRequest)
    | SubscriptionsAcknowledge(acknowledge: AcknowledgeRequest)
    | TopicsCreate(topic: Topic)
    | TopicsDelete(topicName: string)
    | TopicsPublish(publish: PublishRequest)

  /** The service: every request issued through `Do` is appended to `log`, in order. */
  class Service {
    var log: seq<Call>

    constructor ()
      ensures log == []
    {
      log := [];
    }

    /** Issue one request. */
    method Do(c: Call)
      modifies this
      ensures log == old(log) + [c]
    {
      log := log + [c];
    }
  }
}
