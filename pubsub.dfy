/**
  The Cloud Pub/Sub client: handles on a project's topics and subscriptions
  that turn each operation into one request to the v1beta1 service.
 */
module PubSub {
  import opened Wrappers
  import Base64
  import Format
  import Raw

  type int64 = Raw.int64

  /** A time.Duration: a count of nanoseconds in an int64. */
  type Duration = int64

  const Second: Duration := 1_000_000_000

  // ---------------------------------------------------------------------
  // Resource names

  /** The path of subscription `name` in project `proj`: the prefix, the project, a slash, the name. */
  function FullSubName(proj: string, name: string): (r: string)
    ensures |r| == 16 + |proj| + |name|
    ensures r[..15] == "/subscriptions/" && r[15..15 + |proj|] == proj
    ensures r[15 + |proj|] == '/' && r[16 + |proj|..] == name
  {
    "/subscriptions/" + proj + "/" + name
  }

  /** The path of topic `name` in project `proj`: the prefix, the project, a slash, the name. */
  function FullTopicName(proj: string, name: string): (r: string)
    ensures |r| == 9 + |proj| + |name|
    ensures r[..8] == "/topics/" && r[8..8 + |proj|] == proj
    ensures r[8 + |proj|] == '/' && r[9 + |proj|..] == name
  {
    "/topics/" + proj + "/" + name
  }

  /** `FullSubName` is what fmt.Sprintf makes of the format "/subscriptions/%s/%s". */
  lemma FullSubNameIsSprintf(proj: string, name: string)
    ensures FullSubName(proj, name) == Format.Sprintf("/subscriptions/%s/%s", [proj, name])
  {
    assert "/subscriptions/%s/%s" == "/subscriptions/" + "%s/%s";
    Format.SprintfTwoSegments("/subscriptions/", proj, name);
  }

  /** `FullTopicName` is what fmt.Sprintf makes of the format "/topics/%s/%s". */
  lemma FullTopicNameIsSprintf(proj: string, name: string)
    ensures FullTopicName(proj, name) == Format.Sprintf("/topics/%s/%s", [proj, name])
  {
    assert "/topics/%s/%s" == "/topics/" + "%s/%s";
    Format.SprintfTwoSegments("/topics/", proj, name);
  }

  /** Equal paths under one prefix have equal tails. */
  lemma CancelPrefix(prefix: string, x: string, y: string)
    requires prefix + x == prefix + y
    ensures x == y
  {
    assert x == (prefix + x)[|prefix|..];
    assert y == (prefix + y)[|prefix|..];
  }

  /**
    `p + "/" + n` determines `p` and `n` when `p` has no slash: the first slash
    of the path is the separator.
   */
  lemma SplitAtFirstSlash(p1: string, n1: string, p2: string, n2: string)
    requires '/' !in p1 && '/' !in p2
    requires p1 + "/" + n1 == p2 + "/" + n2
    ensures p1 == p2 && n1 == n2
  {
    var s := p1 + "/" + n1;
    assert s[|p1|] == '/';
    assert s[|p2|] == '/';
    if |p1| < |p2| {
      assert false;
    } else if |p2| < |p1| {
      assert false;
    }
    assert p1 == s[..|p1|] && p2 == s[..|p2|];
    assert n1 == s[|p1| + 1..] && n2 == s[|p2| + 1..];
  }

  /** Within one project, distinct subscription names give distinct paths, whatever the names hold. */
  lemma FullSubNameInjectiveInProject(proj: string, n1: string, n2: string)
    ensures FullSubName(proj, n1) == FullSubName(proj, n2) <==> n1 == n2
  {
    if FullSubName(proj, n1) == FullSubName(proj, n2) {
      var prefix := "/subscriptions/" + proj + "/";
      assert FullSubName(proj, n1) == prefix + n1 && FullSubName(proj, n2) == prefix + n2;
      CancelPrefix(prefix, n1, n2);
    }
  }

  /** Within one project, distinct topic names give distinct paths, whatever the names hold. */
  lemma FullTopicNameInjectiveInProject(proj: string, n1: string, n2: string)
    ensures FullTopicName(proj, n1) == FullTopicName(proj, n2) <==> n1 == n2
  {
    if FullTopicName(proj, n1) == FullTopicName(proj, n2) {
      var prefix := "/topics/" + proj + "/";
      assert FullTopicName(proj, n1) == prefix + n1 && FullTopicName(proj, n2) == prefix + n2;
      CancelPrefix(prefix, n1, n2);
    }
  }

  /**
    Across projects, two subscription paths are equal exactly when project and
    name both are, provided neither project contains a slash.
   */
  lemma FullSubNameInjective(p1: string, n1: string, p2: string, n2: string)
    requires '/' !in p1 && '/' !in p2
    ensures FullSubName(p1, n1) == FullSubName(p2, n2) <==> p1 == p2 && n1 == n2
  {
    if FullSubName(p1, n1) == FullSubName(p2, n2) {
      assert FullSubName(p1, n1) == "/subscriptions/" + (p1 + "/" + n1);
      assert FullSubName(p2, n2) == "/subscriptions/" + (p2 + "/" + n2);
      CancelPrefix("/subscriptions/", p1 + "/" + n1, p2 + "/" + n2);
      SplitAtFirstSlash(p1, n1, p2, n2);
    }
  }

  /**
    Across projects, two topic paths are equal exactly when project and name
    both are, provided neither project contains a slash.
   */
  lemma FullTopicNameInjective(p1: string, n1: string, p2: string, n2: string)
    requires '/' !in p1 && '/' !in p2
    ensures FullTopicName(p1, n1) == FullTopicName(p2, n2) <==> p1 == p2 && n1 == n2
  {
    if FullTopicName(p1, n1) == FullTopicName(p2, n2) {
      assert FullTopicName(p1, n1) == "/topics/" + (p1 + "/" + n1);
      assert FullTopicName(p2, n2) == "/topics/" + (p2 + "/" + n2);
      CancelPrefix("/topics/", p1 + "/" + n1, p2 + "/" + n2);
      SplitAtFirstSlash(p1, n1, p2, n2);
    }
  }

  /**
    Names are pasted in without escaping, so a project containing a slash can
    make two different handles address the same subscription.
   */
  lemma FullSubNameAmbiguous()
    ensures FullSubName("a/b", "c") == FullSubName("a", "b/c")
  {
  }

  /** No subscription path is a topic path. */
  lemma SubAndTopicNamesDisjoint(p1: string, n1: string, p2: string, n2: string)
    ensures FullSubName(p1, n1) != FullTopicName(p2, n2)
  {
    assert FullSubName(p1, n1)[1] == 's';
    assert FullTopicName(p2, n2)[1] == 't';
  }

  // ---------------------------------------------------------------------
  // Messages and labels

  /** The dynamic type of a label value: int64, string, or anything else. */
  datatype LabelValue = Int64(n: int64) | Str(s: string) | Other

  /** A message to publish; a nil label map is None, which is not the same as an empty one. */
  datatype Message = Message(data: seq<Base64.Byte>, labels: Option<map<string, LabelValue>>)

  datatype Error = Error(text: string)

  const LabelTypeError: Error := Error("pubsub: label value could be either an int64 or a string")

  /** A message can be published when every value of its label map, if it has one, is an int64 or a string. */
  predicate Publishable(msg: Message): (ok: bool)
    ensures msg.labels.None? ==> ok
    ensures msg.labels == Some(map[]) ==> ok
    ensures forall k | msg.labels.Some? && k in msg.labels.value :: msg.labels.value[k].Other? ==> !ok
  {
    msg.labels.None? || forall k | k in msg.labels.value :: !msg.labels.value[k].Other?
  }

  /** The wire label for key `k`: an int64 goes to the numeric field, a string to the string field. */
  function WireLabel(k: string, v: LabelValue): (l: Raw.Label)
    requires !v.Other?
    ensures l.key == k
    ensures v.Int64? ==> l.numValue == v.n && l.strValue == ""
    ensures v.Str? ==> l.numValue == 0 && l.strValue == v.s
  {
    match v
    case Int64(n) => Raw.Label(k, n, "")
    case Str(str) => Raw.Label(k, 0, str)
  }

  /** The keys of a sequence of wire labels, in order. */
  function Keys(ls: seq<Raw.Label>): set<string>
  {
    set l | l in ls :: l.key
  }

  lemma KeysAppend(ls: seq<Raw.Label>, l: Raw.Label)
    ensures Keys(ls + [l]) == Keys(ls) + {l.key}
  {
    assert forall x | x in ls + [l] :: x in ls || x == l;
    assert forall x | x in ls :: x in ls + [l];
  }

  /**
    Walks the label map in an unspecified order, turning each entry into its
    wire label, and stops with an error at the first value that is neither an
    int64 nor a string. Whether it fails does not depend on the order: it
    fails exactly when some value has another type. On success every entry
    appears exactly once, with its own value.
   */
  method WireLabels(m: map<string, LabelValue>) returns (r: Result<seq<Raw.Label>, Error>)
    ensures r.Failure? <==> exists k | k in m :: m[k].Other?
    ensures r.Failure? ==> r.error == LabelTypeError
    ensures r.Success? ==> Keys(r.value) == m.Keys
    ensures r.Success? ==> forall i | 0 <= i < |r.value| ::
      r.value[i].key in m && r.value[i] == WireLabel(r.value[i].key, m[r.value[i].key])
    ensures r.Success? ==> forall i, j | 0 <= i < j < |r.value| :: r.value[i].key != r.value[j].key
  {
    var labels: seq<Raw.Label> := [];
    var pending := m.Keys;
    while pending != {}
      invariant pending <= m.Keys
      invariant Keys(labels) == m.Keys - pending
      invariant forall k | k in m.Keys - pending :: !m[k].Other?
      invariant forall i | 0 <= i < |labels| ::
        labels[i].key in m && labels[i] == WireLabel(labels[i].key, m[labels[i].key])
      invariant forall i, j | 0 <= i < j < |labels| :: labels[i].key != labels[j].key
      decreases pending
    {
      var k :| k in pending;
      var v := m[k];
      if v.Other? {
        return Failure(LabelTypeError);
      }
      var l := WireLabel(k, v);
      assert k !in Keys(labels);
      KeysAppend(labels, l);
      labels := labels + [l];
      pending := pending - {k};
    }
    return Success(labels);
  }

  // ---------------------------------------------------------------------
  // Requests

  /**
    The subscription resource Create sends. The deadline is set only when
    positive, and then holds the Duration's raw nanosecond count; the push
    config is set only for a non-empty endpoint.
   */
  function SubscriptionResource(proj: string, name: string, topic: string, deadline: Duration, endpoint: string): (r: Raw.Subscription)
    ensures r.topic == FullTopicName(proj, topic) && r.name == FullSubName(proj, name)
    ensures r.ackDeadlineSeconds != 0 <==> deadline > 0
    ensures deadline > 0 ==> r.ackDeadlineSeconds == deadline
    ensures r.pushConfig.Some? <==> endpoint != ""
    ensures r.pushConfig.Some? ==> r.pushConfig.value == Raw.PushConfig(endpoint)
  {
    var sub := Raw.Subscription(FullTopicName(proj, topic), FullSubName(proj, name), 0, None);
    var sub := if deadline > 0 then sub.(ackDeadlineSeconds := deadline) else sub;
    if endpoint != "" then sub.(pushConfig := Some(Raw.PushConfig(endpoint))) else sub
  }

  /**
    Two Create calls on one handle send the same resource exactly when they
    name the same topic and endpoint and agree on the deadline, where every
    non-positive deadline counts as "not set".
   */
  lemma SubscriptionResourceEqualIff(proj: string, name: string,
                                      t1: string, d1: Duration, e1: string,
                                      t2: string, d2: Duration, e2: string)
    ensures SubscriptionResource(proj, name, t1, d1, e1) == SubscriptionResource(proj, name, t2, d2, e2)
        <==> t1 == t2 && e1 == e2 && (d1 > 0 || d2 > 0 ==> d1 == d2)
  {
    var r1, r2 := SubscriptionResource(proj, name, t1, d1, e1), SubscriptionResource(proj, name, t2, d2, e2);
    if r1 == r2 {
      var prefix := "/topics/" + proj + "/";
      assert FullTopicName(proj, t1) == prefix + t1 && FullTopicName(proj, t2) == prefix + t2;
      CancelPrefix(prefix, t1, t2);
      assert r1.pushConfig == r2.pushConfig;
    }
  }

  /**
    The Duration is passed on as a count of seconds without conversion: ten
    seconds become ten thousand million "seconds".
   */
  lemma DeadlineSentAsNanoseconds(proj: string, name: string, topic: string, endpoint: string)
    ensures SubscriptionResource(proj, name, topic, 10 * Second, endpoint).ackDeadlineSeconds == 10_000_000_000
  {
  }

  // ---------------------------------------------------------------------
  // Handles

  /** A client for one project; every handle it gives out shares its service. */
  class Client {
    const proj: string
    const s: Raw.Service

    constructor (proj: string, s: Raw.Service)
      ensures this.proj == proj && this.s == s
    {
      this.proj := proj;
      this.s := s;
    }

    /** A handle on subscription `name` of this client's project; nothing is sent. */
    method Subscription(name: string) returns (sub: Subscription)
      ensures fresh(sub) && sub.proj == proj && sub.name == name && sub.s == s
    {
      sub := new Subscription(proj, name, s);
    }

    /** A handle on topic `name` of this client's project; nothing is sent. */
    method Topic(name: string) returns (t: Topic)
      ensures fresh(t) && t.proj == proj && t.name == name && t.s == s
    {
      t := new Topic(proj, name, s);
    }
  }

  /** A subscription of a project. Each operation sends exactly one request, for this subscription. */
  class Subscription {
    const proj: string
    const name: string
    const s: Raw.Service

    constructor (proj: string, name: string, s: Raw.Service)
      ensures this.proj == proj && this.name == name && this.s == s
    {
      this.proj := proj;
      this.name := name;
      this.s := s;
    }

    /** Creates this subscription on `topic`; see SubscriptionResource for what is set. */
    method Create(topic: string, deadline: Duration, endpoint: string)
      modifies s
      ensures s.log == old(s.log) + [Raw.SubscriptionsCreate(SubscriptionResource(proj, name, topic, deadline, endpoint))]
    {
      var sub := SubscriptionResource(proj, name, topic, deadline, endpoint);
      s.Do(Raw.SubscriptionsCreate(sub));
    }

    method Delete()
      modifies s
      ensures s.log == old(s.log) + [Raw.SubscriptionsDelete(FullSubName(proj, name))]
    {
      s.Do(Raw.SubscriptionsDelete(FullSubName(proj, name)));
    }

    /** Sends the deadline as given: zero and negative values are not filtered out. */
    method ModifyAckDeadline(deadline: Duration)
      modifies s
      ensures s.log == old(s.log) + [Raw.SubscriptionsModifyAckDeadline(
                Raw.ModifyAckDeadlineRequest(FullSubName(proj, name), deadline))]
    {
      s.Do(Raw.SubscriptionsModifyAckDeadline(Raw.ModifyAckDeadlineRequest(FullSubName(proj, name), deadline)));
    }

    /** Always sends a push config, even for an empty endpoint. */
    method ModifyPushEndpoint(endpoint: string)
      modifies s
      ensures s.log == old(s.log) + [Raw.SubscriptionsModifyPushConfig(
                Raw.ModifyPushConfigRequest(FullSubName(proj, name), Some(Raw.PushConfig(endpoint))))]
    {
      s.Do(Raw.SubscriptionsModifyPushConfig(
        Raw.ModifyPushConfigRequest(FullSubName(proj, name), Some(Raw.PushConfig(endpoint)))));
    }

    /** One batched request carrying the ack ids as given, in order. */
    method Ack(ids: seq<string>)
      modifies s
      ensures s.log == old(s.log) + [Raw.SubscriptionsAcknowledge(Raw.AcknowledgeRequest(FullSubName(proj, name), ids))]
    {
      s.Do(Raw.SubscriptionsAcknowledge(Raw.AcknowledgeRequest(FullSubName(proj, name), ids)));
    }
  }

  /** A topic of a project. */
  class Topic {
    const proj: string
    const name: string
    const s: Raw.Service

    constructor (proj: string, name: string, s: Raw.Service)
      ensures this.proj == proj && this.name == name && this.s == s
    {
      this.proj := proj;
      this.name := name;
      this.s := s;
    }

    method Create()
      modifies s
      ensures s.log == old(s.log) + [Raw.TopicsCreate(Raw.Topic(FullTopicName(proj, name)))]
    {
      s.Do(Raw.TopicsCreate(Raw.Topic(FullTopicName(proj, name))));
    }

    method Delete()
      modifies s
      ensures s.log == old(s.log) + [Raw.TopicsDelete(FullTopicName(proj, name))]
    {
      s.Do(Raw.TopicsDelete(FullTopicName(proj, name)));
    }

    /**
      Checks the label values, then sends the payload as base64. The labels
      are checked but never sent: the list that is built is a local of the
      inner block, and the outer one, still nil, is what goes on the wire.
     */
    method Publish(msg: Message) returns (err: Option<Error>)
      modifies s
      ensures err.Some? <==> !Publishable(msg)
      ensures err.Some? ==> err.value == LabelTypeError && s.log == old(s.log)
      ensures err.None? ==> s.log == old(s.log) + [Raw.TopicsPublish(Raw.PublishRequest(
                FullTopicName(proj, name), Raw.PubsubMessage(Base64.Encode(msg.data), None)))]
      ensures err.None? ==> Base64.Decode(s.log[|s.log| - 1].publish.message.data) == Some(msg.data)
    {
      var labels: Option<seq<Raw.Label>> := None;
      if msg.labels.Some? {
        var labels := WireLabels(msg.labels.value);
        if labels.Failure? {
          return Some(labels.error);
        }
      }
      Base64.DecodeEncode(msg.data);
      s.Do(Raw.TopicsPublish(Raw.PublishRequest(
        FullTopicName(proj, name), Raw.PubsubMessage(Base64.Encode(msg.data), labels))));
      return None;
    }
  }
}
