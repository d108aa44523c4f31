/** The push side of `LineMessenger` (line_notifier.py, lines 18-69): the
    request body sent to the messaging provider's push endpoint, the rule
    that turns its answer into success or failure, and the broadcast that
    pushes the same message to every recipient. The HTTP call itself is an
    oracle: a function from the request to the answer it gets. */
module Push {
  import opened Wrappers

  /** One entry of the `messages` array of a push request. */
  datatype Message =
    | Text(text: string)
    | Image(originalContentUrl: string, previewImageUrl: string)

  /** The JSON body of a push request: a recipient and its messages. */
  datatype Payload = Payload(to: string, messages: seq<Message>)

  /** What `requests.post` gives back: a response with a status code and a
      body, or an exception raised before any response arrived. */
  datatype Response =
    | Status(code: int, body: string)
    | Raised(error: string)

  /** The status code the provider answers an accepted push with. */
  const StatusOk: int := 200

  /** The three values a push request carries. */
  datatype PushFields = PushFields(to: string, message: string, imageUrl: string)

  /** The request body `send_message_with_image` builds: the text first,
      then the image, whose full-size and preview URLs are the same URL. */
  function PushPayload(userId: string, message: string, imageUrl: string): (p: Payload)
    ensures ReadPushPayload(p) == Some(PushFields(userId, message, imageUrl))
  {
    Payload(userId, [Text(message), Image(imageUrl, imageUrl)])
  }

  /** Recovers the recipient, text and image URL from a request body that has
      exactly the shape `PushPayload` builds, and nothing from any other. */
  function ReadPushPayload(p: Payload): Option<PushFields>
  {
    if |p.messages| == 2 && p.messages[0].Text? && p.messages[1].Image?
       && p.messages[1].originalContentUrl == p.messages[1].previewImageUrl
    then Some(PushFields(p.to, p.messages[0].text, p.messages[1].originalContentUrl))
    else None
  }

  /** `ReadPushPayload` only accepts what `PushPayload` builds, so the
      builder is injective and its image of all inputs is exactly the set of
      bodies the reader accepts. */
  lemma ReadPushPayloadInverse(p: Payload, f: PushFields)
    ensures ReadPushPayload(p) == Some(f) <==> p == PushPayload(f.to, f.message, f.imageUrl)
  {
  }

  /** One push: the request that went out and whether it counted as sent. */
  datatype Attempt = Attempt(request: Payload, ok: bool)

  /** `send_message_with_image`: one request with the text and the image;
      success exactly when the answer is status 200, failure on any other
      status and on an exception. */
  function SendMessageWithImage(userId: string, message: string, imageUrl: string,
                                post: Payload -> Response): (a: Attempt)
    ensures ReadPushPayload(a.request) == Some(PushFields(userId, message, imageUrl))
    ensures a.ok <==> post(a.request).Status? && post(a.request).code == StatusOk
    ensures post(a.request).Raised? ==> !a.ok
  {
    var request := PushPayload(userId, message, imageUrl);
    match post(request)
    case Status(code, _) => Attempt(request, code == StatusOk)
    case Raised(_) => Attempt(request, false)
  }

  /** The outcome of a broadcast: the overall flag and the requests sent, in order. */
  datatype Broadcast = Broadcast(success: bool, sent: seq<Payload>)

  /** The recipients of a sequence of requests, in order. */
  function AttemptedIds(sent: seq<Payload>): seq<string>
  {
    seq(|sent|, i requires 0 <= i < |sent| => sent[i].to)
  }

  /** The `n`th request of a broadcast was answered with status 200. */
  predicate Accepted(post: (nat, Payload) -> Response, n: nat, request: Payload) {
    post(n, request).Status? && post(n, request).code == StatusOk
  }

  /** `send_to_all_users`: push to every recipient in list order, keep going
      after a failure, and report success only when every push succeeded.
      `post(n, request)` is the answer the `n`th request gets. */
  function SendToAllUsers(userIds: seq<string>, message: string, imageUrl: string,
                          post: (nat, Payload) -> Response): (b: Broadcast)
    ensures |b.sent| == |userIds|
    ensures AttemptedIds(b.sent) == userIds
    ensures forall i :: 0 <= i < |b.sent| ==>
      ReadPushPayload(b.sent[i]) == Some(PushFields(userIds[i], message, imageUrl))
    ensures b.success <==> forall i :: 0 <= i < |userIds| ==> Accepted(post, i, b.sent[i])
    decreases |userIds|
  {
    if userIds == [] then Broadcast(true, [])
    else
      var n := |userIds| - 1;
      var before := SendToAllUsers(userIds[..n], message, imageUrl, post);
      var attempt := SendMessageWithImage(userIds[n], message, imageUrl, request => post(n, request));
      var sent := before.sent + [attempt.request];
      assert forall i :: 0 <= i < n ==> sent[i] == before.sent[i];
      assert AttemptedIds(sent) == userIds by {
        assert AttemptedIds(sent)[n] == userIds[n];
        assert forall i :: 0 <= i < n ==> AttemptedIds(sent)[i] == AttemptedIds(before.sent)[i];
      }
      Broadcast(before.success && attempt.ok, sent)
  }
}
