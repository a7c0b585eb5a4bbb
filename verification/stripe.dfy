/**
 * src/lib/stripe.ts: the configured price identifiers and the parameters sent to
 * the payment processor when a checkout session or a billing-portal session is
 * created. The processor itself is outside the model; these functions build
 * the request it receives.
 */
module Stripe {
  import opened Wrappers

  /** `STRIPE_PRICE_IDS` */
  datatype PriceIds = PriceIds(
    starter: string,
    proCoding: string,
    writing: string,
    business: string,
    premiumMonthly: string,
    premiumLifetime: string)

  /** `process.env[name] || ''` */
  function EnvOrEmpty(env: map<string, string>, name: string): (value: string)
    ensures name !in env ==> value == ""
    ensures name in env ==> value == env[name]
  {
    Lookup(env, name).GetOr("")
  }

  /** `STRIPE_PRICE_IDS` as read from the environment at start-up. */
  function PriceIdsFromEnv(env: map<string, string>): (ids: PriceIds)
    ensures ids.starter == (if "STRIPE_PRICE_STARTER" in env then env["STRIPE_PRICE_STARTER"] else "")
    ensures ids.proCoding == (if "STRIPE_PRICE_PRO_CODING" in env then env["STRIPE_PRICE_PRO_CODING"] else "")
    ensures ids.writing == (if "STRIPE_PRICE_WRITING" in env then env["STRIPE_PRICE_WRITING"] else "")
    ensures ids.business == (if "STRIPE_PRICE_BUSINESS" in env then env["STRIPE_PRICE_BUSINESS"] else "")
    ensures ids.premiumMonthly == (if "STRIPE_PRICE_PREMIUM_MONTHLY" in env then env["STRIPE_PRICE_PREMIUM_MONTHLY"] else "")
    ensures ids.premiumLifetime == (if "STRIPE_PRICE_PREMIUM_LIFETIME" in env then env["STRIPE_PRICE_PREMIUM_LIFETIME"] else "")
  {
    PriceIds(
      EnvOrEmpty(env, "STRIPE_PRICE_STARTER"),
      EnvOrEmpty(env, "STRIPE_PRICE_PRO_CODING"),
      EnvOrEmpty(env, "STRIPE_PRICE_WRITING"),
      EnvOrEmpty(env, "STRIPE_PRICE_BUSINESS"),
      EnvOrEmpty(env, "STRIPE_PRICE_PREMIUM_MONTHLY"),
      EnvOrEmpty(env, "STRIPE_PRICE_PREMIUM_LIFETIME"))
  }

  datatype Mode = SubscriptionMode | PaymentMode

  datatype LineItem = LineItem(price: string, quantity: nat)

  /** The argument of `stripe.checkout.sessions.create`. */
  datatype CheckoutSessionParams = CheckoutSessionParams(
    mode: Mode,
    paymentMethodTypes: seq<string>,
    lineItems: seq<LineItem>,
    customerEmail: Option<string>,
    clientReferenceId: Option<string>,
    metadata: Option<map<string, string>>,
    successUrl: string,
    cancelUrl: string)

  /** `${process.env.NEXTAUTH_URL}`: an unset variable is interpolated as `undefined`. */
  function AppUrl(nextAuthUrl: Option<string>): (url: string)
    ensures nextAuthUrl.Some? ==> url == nextAuthUrl.value
    ensures nextAuthUrl.None? ==> url == "undefined"
  {
    nextAuthUrl.GetOr("undefined")
  }

  /** `createCheckoutSession({ priceId, userId, userEmail, metadata })` */
  function CheckoutSessionParamsFor(
    priceId: string,
    userId: Option<string>,
    userEmail: Option<string>,
    metadata: Option<map<string, string>>,
    ids: PriceIds,
    nextAuthUrl: Option<string>): (params: CheckoutSessionParams)
    ensures params.mode == SubscriptionMode <==> priceId == ids.premiumMonthly
    ensures params.mode == PaymentMode <==> priceId != ids.premiumMonthly
    ensures |params.lineItems| == 1 && params.lineItems[0].price == priceId && params.lineItems[0].quantity == 1
    ensures params.paymentMethodTypes == ["card"]
    ensures params.clientReferenceId == userId && params.customerEmail == userEmail
    ensures params.metadata == metadata
    ensures params.successUrl == AppUrl(nextAuthUrl) + "/dashboard?success=true"
    ensures params.cancelUrl == AppUrl(nextAuthUrl) + "/pricing?canceled=true"
  {
    CheckoutSessionParams(
      if priceId == ids.premiumMonthly then SubscriptionMode else PaymentMode,
      ["card"],
      [LineItem(priceId, 1)],
      userEmail,
      userId,
      metadata,
      AppUrl(nextAuthUrl) + "/dashboard?success=true",
      AppUrl(nextAuthUrl) + "/pricing?canceled=true")
  }

  /** The pack prices and the lifetime price are one-time payments unless configured equal to the monthly price. */
  lemma OneTimePricesArePayments(ids: PriceIds, priceId: string, userId: Option<string>, userEmail: Option<string>,
                                 metadata: Option<map<string, string>>, nextAuthUrl: Option<string>)
    requires priceId in {ids.starter, ids.proCoding, ids.writing, ids.business, ids.premiumLifetime}
    requires priceId != ids.premiumMonthly
    ensures CheckoutSessionParamsFor(priceId, userId, userEmail, metadata, ids, nextAuthUrl).mode == PaymentMode
  {
  }

  /** The argument of `stripe.billingPortal.sessions.create`. */
  datatype PortalSessionParams = PortalSessionParams(customer: string, returnUrl: string)

  /** `createCustomerPortalSession(customerId)` */
  function PortalSessionParamsFor(customerId: string, nextAuthUrl: Option<string>): (params: PortalSessionParams)
    ensures params.customer == customerId
    ensures params.returnUrl == AppUrl(nextAuthUrl) + "/dashboard"
  {
    PortalSessionParams(customerId, AppUrl(nextAuthUrl) + "/dashboard")
  }
}
