# Cloud Pub/Sub client: request construction

A Dafny model of the Go package `pubsub`, a client for the Cloud Pub/Sub
v1beta1 service. A `Client` for one project gives out `Subscription` and
`Topic` handles. Each operation on a handle builds one request and issues it
to the shared service. The model covers what those requests contain:

- the resource paths `/subscriptions/{project}/{name}` and `/topics/{project}/{name}`;
- which optional fields `Subscription.Create` fills in;
- the requests of `Delete`, `ModifyAckDeadline`, `ModifyPushEndpoint`, `Ack` and `Topic.Create`;
- label validation in `Topic.Publish`, and the base64 body it sends.

Files:

- `wrappers.dfy` (`Wrappers`): `Option` and `Result`.
- `base64.dfy` (`Base64`): the standard padded base64 of RFC 4648 section 4.
  It has an encoder and a strict decoder, proved inverse to each other, and
  the test vectors of RFC 4648 section 10. This stands in for
  `base64.StdEncoding`.
- `format.dfy` (`Format`): the part of `fmt.Sprintf` the name helpers use,
  namely `%s` applied to strings, plus `%%`.
- `raw.dfy` (`Raw`): the request shapes of the v1beta1 API, as pubsub.go
  fills them in. The service is a `Service` object whose `log` records every
  request issued through it, in order. The two request fields where the code
  may leave nil, `PushConfig` and the message's `Label`, are Options; `None`
  is nil.
- `pubsub.dfy` (`PubSub`): the package itself. It has the name helpers, the
  label types and the label walk, the subscription resource built by
  `Create`, and the classes `Client`, `Subscription` and `Topic`. Every handle
  shares one `Raw.Service`. Each operation either appends exactly one request
  to its log or, for `Publish` with a bad label, returns an error and appends
  nothing.

Go's `interface{}` label values are `LabelValue`: `Int64(n)`, `Str(s)`, or
`Other` for every other dynamic type. A `time.Duration` is an `int64` count
of nanoseconds. A nil label map is `None`, kept apart from an empty map,
because the code tests `msg.Labels != nil`. The order in which Go's `range`
visits map entries is unspecified. `WireLabels` models it by choosing the
next key arbitrarily (`:|`), so its contract holds for every visiting order.

## Behaviour as written

The model keeps these behaviours of the code as they are:

- `int64(deadline)` passes the Duration's nanosecond count as the value of
  `AckDeadlineSeconds`, with no unit conversion. This happens in `Create` and
  in `ModifyAckDeadline`. `DeadlineSentAsNanoseconds` shows that ten seconds
  become 10,000,000,000.
- In `Publish`, the statement `labels := []*raw.Label{}` inside the `if`
  declares a new variable that shadows the outer `labels`. The labels are
  checked and converted, but the outer variable, which stays nil, is what is
  sent. So every published message has a nil `Label`. `Topic.Publish` states
  this.
- `ModifyAckDeadline` sends zero and negative deadlines unchanged. Only
  `Create` leaves a non-positive deadline unset.
- `ModifyPushEndpoint` always sends a push config, even for an empty
  endpoint. `Create` omits the push config when the endpoint is empty.
- Names are pasted into paths without escaping. When the project contains
  no `/`, different handles always get different paths (`FullSubNameInjective`).
  With a `/` in the project, two handles can collide (`FullSubNameAmbiguous`).
- The type switch accepts exactly `int64` and `string`. Any other Go type is
  `Other` and is rejected, including `int`, which is the default type of an
  untyped constant such as `3`.

## Model

| member | source | states |
|---|---|---|
| `Format.SprintfTwoSegments` | pubsub.go:180-186 | For a prefix without `%`, formatting `prefix%s/%s` with two operands gives the prefix, the first operand, `/`, then the second operand |
| `PubSub.FullSubNameIsSprintf` | pubsub.go:180-182 | `FullSubName(p, n)` is `fmt.Sprintf("/subscriptions/%s/%s", p, n)` |
| `PubSub.FullTopicNameIsSprintf` | pubsub.go:184-186 | `FullTopicName(p, n)` is `fmt.Sprintf("/topics/%s/%s", p, n)` |
| `PubSub.FullSubName` | pubsub.go:180-182 | The path is `/subscriptions/`, then the project, a slash, then the name, at exactly those positions |
| `PubSub.FullTopicName` | pubsub.go:184-186 | The path is `/topics/`, then the project, a slash, then the name, at exactly those positions |
| `PubSub.FullSubNameInjectiveInProject` | pubsub.go:180-182 | Within one project, two subscription paths are equal if and only if the names are, with no condition on the names |
| `PubSub.FullTopicNameInjectiveInProject` | pubsub.go:184-186 | Within one project, two topic paths are equal if and only if the names are |
| `PubSub.FullSubNameInjective` | pubsub.go:180-182 | For projects without a slash, two subscription paths are equal if and only if project and name are both equal |
| `PubSub.FullTopicNameInjective` | pubsub.go:184-186 | The same for topic paths |
| `PubSub.FullSubNameAmbiguous` | pubsub.go:180-182 | Without that condition, the handles ("a/b", "c") and ("a", "b/c") address the same subscription |
| `PubSub.SubAndTopicNamesDisjoint` | pubsub.go:180-186 | No subscription path equals any topic path |
| `PubSub.SubscriptionResource` | pubsub.go:58-67 | Topic and name are the full paths. The deadline is non-zero if and only if the Duration is positive, and then equals its nanosecond count. The push config is present if and only if the endpoint is non-empty, and then carries it verbatim |
| `PubSub.SubscriptionResourceEqualIff` | pubsub.go:58-67 | Two `Create` calls on one handle send the same resource if and only if topic and endpoint are equal and the deadlines agree, where all non-positive deadlines count as the same (unset) |
| `PubSub.DeadlineSentAsNanoseconds` | pubsub.go:62-64 | A ten-second deadline is sent as 10,000,000,000 |
| `PubSub.Publishable` | pubsub.go:156-167 | A nil label map and an empty one can always be published; a map in which some value is neither `int64` nor `string` cannot |
| `PubSub.WireLabel` | pubsub.go:159-164 | An `int64` value goes in the numeric field with the string field empty; a string goes in the string field with the numeric field zero; the key is kept |
| `PubSub.WireLabels` | pubsub.go:156-170 | The walk fails if and only if some value is neither `int64` nor `string`, whatever the iteration order. On failure it returns the package's label error. On success each map entry appears exactly once, with its own value, and nothing else appears |
| `PubSub.Client.constructor` | pubsub.go:14-17 | A client holds its project and the service |
| `PubSub.Client.Subscription` | pubsub.go:48-55 | Returns a new handle with the client's project and service and the given name; sends nothing |
| `PubSub.Client.Topic` | pubsub.go:131-137 | Returns a new handle with the client's project and service and the given name; sends nothing |
| `PubSub.Subscription.constructor` | pubsub.go:49-54 | A subscription handle holds its project, name and service |
| `PubSub.Subscription.Create` | pubsub.go:57-70 | Appends exactly one create request carrying `SubscriptionResource` for this handle |
| `PubSub.Subscription.Delete` | pubsub.go:72-74 | Appends exactly one delete request for this subscription's path |
| `PubSub.Subscription.ModifyAckDeadline` | pubsub.go:76-81 | Appends exactly one request carrying this subscription's path and the deadline unchanged, zero or negative included |
| `PubSub.Subscription.ModifyPushEndpoint` | pubsub.go:83-90 | Appends exactly one request whose push config is always present and holds the endpoint, even an empty one |
| `PubSub.Subscription.Ack` | pubsub.go:96-101 | Appends exactly one request whose ack-id list is the argument list, in the same order, for this subscription's path |
| `PubSub.Topic.constructor` | pubsub.go:132-136 | A topic handle holds its project, name and service |
| `PubSub.Topic.Create` | pubsub.go:139-144 | Appends exactly one create request for this topic's path |
| `PubSub.Topic.Delete` | pubsub.go:146-148 | Appends exactly one delete request for this topic's path |
| `PubSub.Topic.Publish` | pubsub.go:154-178 | Returns an error, and sends nothing, if and only if the label map is non-nil and some value is neither `int64` nor `string`. Otherwise it appends exactly one publish request to the topic's path, whose message has a nil label list and whose data is the base64 of the payload; decoding that data gives the payload back |
| `Raw.Service.Do` | pubsub.go:68 | Issuing a request appends it to the service's log and changes nothing else |
| `Base64.Encode` | pubsub.go:174 | The encoding of n bytes has 4 * ceil(n / 3) characters |
| `Base64.Decode` | pubsub.go:174 | Every successful decoding is the one encoding of its result |
| `Base64.DecodeEncode` | pubsub.go:174 | Decoding the encoding of any byte string gives that byte string back |
| `Base64.DecodeSucceedsIff` | pubsub.go:174 | Decoding succeeds exactly on the strings that are encodings of some byte string |
| `Base64.EncodeTestVectors` | pubsub.go:174 | The encoder reproduces the test vectors of RFC 4648 section 10 |

## Left out

- RPC errors: the error that `.Do()` returns (transport or service failure) is not modelled. Every issued request is recorded and counts as accepted. So `Create`, `Delete`, `ModifyAckDeadline`, `ModifyPushEndpoint`, `Ack` and `Topic.Create` return nothing, and `Publish` returns only its label error. The service's own behaviour is not modelled.
- `New` and `NewWithClient` (pubsub.go:38-46): HTTP transport wiring, with the error of `raw.New` dropped. A `Client` is built directly from a project and a `Raw.Service`.
- `Listen` and `Stop` (pubsub.go:107-129), and with them the `open` channel field of `Subscription`: a goroutine, a `select` and channel operations, all concurrency.
- `pull`, `Subscription.IsExists` and `Topic.IsExists` (pubsub.go:92-94, 103-105, 150-152): they only panic, so they have no behaviour to state.
- PubSub.Topic.Publish: on a nil `*Message`, the code panics when it reads `msg.Labels` (pubsub.go:156). The model takes the message as a value, so that case cannot arise.
- PubSub.Subscription.Ack: `Ack()` with no ids sends a nil `AckId` slice (pubsub.go:99). The model's ack-id list is a sequence, so it sends the empty sequence and does not tell nil from empty.
- Format.Sprintf: models only `%s` with string operands, `%%`, and a missing operand. Other verbs and fmt's note for extra operands are not modelled; the code uses neither.
- Base64.Decode: a strict decoder written to state the round trip. The code never decodes. Go's lenient decoding (skipping newlines, ignoring padding bits) is not modelled. `Base64.Encode` is the encoding itself, defined as in RFC 4648.
- example_test.go: an authentication example and an empty test, with no logic.
