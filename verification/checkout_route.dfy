/**
 * `POST` of src/app/api/stripe/checkout/route.ts: checks the caller is signed in
 * and named a price, then asks the payment processor for a checkout session
 * whose metadata carries the caller's user id, and the pack or subscription
 * type the request names.
 */
module CheckoutRoute {
  import opened Wrappers
  import opened Stripe

  /** `session.user` as the identity provider returns it. */
  datatype SessionUser = SessionUser(id: string, email: Option<string>)

  /** What `await auth()` yields: it throws, there is no `session?.user`, or there is. */
  datatype AuthResult = AuthFailed | SignedOut | SignedIn(user: SessionUser)

  /** `{ priceId, packId, subscriptionType }` of the JSON body. */
  datatype CheckoutBody = CheckoutBody(priceId: Option<string>, packId: Option<string>, subscriptionType: Option<string>)

  /** What the processor answers to `stripe.checkout.sessions.create`: a session (whose `url` may be null), or a thrown error. */
  datatype ProcessorReply = SessionCreated(url: Option<string>) | ProcessorFailed

  datatype CheckoutResponse =
    | Redirect(url: Option<string>)  // 200 `{ url }`
    | Unauthorized                   // 401
    | PriceRequired                  // 400
    | CheckoutFailed                 // 500

  function StatusCode(r: CheckoutResponse): int {
    match r
    case Redirect(_) => 200
    case Unauthorized => 401
    case PriceRequired => 400
    case CheckoutFailed => 500
  }

  /** The response and, when the route got that far, the checkout request it sent. */
  datatype CheckoutOutcome = CheckoutOutcome(response: CheckoutResponse, sent: Option<CheckoutSessionParams>)

  /** `{ userId, ...(packId && { packId }), ...(subscriptionType && { subscriptionType }) }` */
  function CheckoutMetadata(userId: string, body: CheckoutBody): (metadata: map<string, string>)
    ensures "userId" in metadata && metadata["userId"] == userId
    ensures "packId" in metadata <==> Truthy(body.packId)
    ensures "packId" in metadata ==> metadata["packId"] == body.packId.value
    ensures "subscriptionType" in metadata <==> Truthy(body.subscriptionType)
    ensures "subscriptionType" in metadata ==> metadata["subscriptionType"] == body.subscriptionType.value
    ensures metadata.Keys <= {"userId", "packId", "subscriptionType"}
  {
    var withPack := if Truthy(body.packId) then map["userId" := userId, "packId" := body.packId.value]
                    else map["userId" := userId];
    if Truthy(body.subscriptionType) then withPack["subscriptionType" := body.subscriptionType.value]
    else withPack
  }

  /**
   * The route: `auth` is the session lookup, `body` the parsed JSON body (`None`
   * when `request.json()` throws), `reply` the processor's answer to the request
   * the route sends.
   */
  function Post(auth: AuthResult, body: Option<CheckoutBody>, reply: ProcessorReply,
                ids: PriceIds, nextAuthUrl: Option<string>): (out: CheckoutOutcome)
    ensures auth.SignedOut? ==> out == CheckoutOutcome(Unauthorized, None)
    ensures auth.AuthFailed? ==> out == CheckoutOutcome(CheckoutFailed, None)
    ensures auth.SignedIn? && body.None? ==> out == CheckoutOutcome(CheckoutFailed, None)
    ensures auth.SignedIn? && body.Some? && !Truthy(body.value.priceId) ==> out == CheckoutOutcome(PriceRequired, None)
    ensures out.sent.Some? <==> auth.SignedIn? && body.Some? && Truthy(body.value.priceId)
    ensures out.sent.Some? ==>
              var params := out.sent.value;
              && params.clientReferenceId == Some(auth.user.id)
              && params.customerEmail == auth.user.email
              && params.metadata == Some(CheckoutMetadata(auth.user.id, body.value))
              && params.lineItems == [LineItem(body.value.priceId.value, 1)]
              && (params.mode == SubscriptionMode <==> body.value.priceId.value == ids.premiumMonthly)
    ensures out.sent.Some? && reply.SessionCreated? ==> out.response == Redirect(reply.url)
    ensures out.sent.Some? && reply.ProcessorFailed? ==> out.response == CheckoutFailed
  {
    match auth
    case AuthFailed => CheckoutOutcome(CheckoutFailed, None)
    case SignedOut => CheckoutOutcome(Unauthorized, None)
    case SignedIn(user) =>
      if body.None? then CheckoutOutcome(CheckoutFailed, None)
      else if !Truthy(body.value.priceId) then CheckoutOutcome(PriceRequired, None)
      else
        var params := CheckoutSessionParamsFor(
          body.value.priceId.value, Some(user.id), user.email,
          Some(CheckoutMetadata(user.id, body.value)), ids, nextAuthUrl);
        match reply
        case SessionCreated(url) => CheckoutOutcome(Redirect(url), Some(params))
        case ProcessorFailed => CheckoutOutcome(CheckoutFailed, Some(params))
  }
}
