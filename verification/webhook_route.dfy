/**
 * `POST` of src/app/api/stripe/webhook/route.ts: applies one payment-processor
 * event to the store. Deliveries are handled one at a time, and nothing
 * recognises a redelivered event.
 */
module WebhookRoute {
  import opened Wrappers
  import opened Schema

  /** The fields of a completed checkout session that the handler reads. */
  datatype CheckoutSession = CheckoutSession(
    metadata: map<string, string>,
    customer: Option<string>,
    paymentIntent: Option<string>,
    amountTotal: Option<int>)

  /** The fields of a subscription that the handler reads. */
  datatype Subscription = Subscription(customer: string, status: string)

  /**
   * A parsed event, by its `type`. `OtherEvent` stands for every type the `switch`
   * has no case for; its `kind` is never `checkout.session.completed`,
   * `customer.subscription.updated` or `customer.subscription.deleted`, which
   * always parse to the first three constructors.
   */
  datatype Event =
    | CheckoutSessionCompleted(session: CheckoutSession)
    | SubscriptionUpdated(subscription: Subscription)
    | SubscriptionDeleted(subscription: Subscription)
    | OtherEvent(kind: string)

  /** A request body with the outcome of checking its signature against the webhook secret. */
  datatype Delivery = Delivery(signatureValid: bool, event: Event)

  datatype WebhookResponse =
    | Received           // 200 `{ received: true }`
    | SignatureRejected  // 400
    | ProcessingFailed   // 500

  function StatusCode(r: WebhookResponse): int {
    match r
    case Received => 200
    case SignatureRejected => 400
    case ProcessingFailed => 500
  }

  datatype Handled = Handled(store: Store, response: WebhookResponse)

  /** The purchase row a completed checkout session inserts for `userId`. */
  function PurchaseFor(userId: string, session: CheckoutSession): (p: Purchase)
    ensures p.userId == userId
    ensures p.packId == OrNull(Lookup(session.metadata, "packId"))
    ensures p.subscriptionType == OrNull(Lookup(session.metadata, "subscriptionType"))
    ensures p.stripePaymentId == session.paymentIntent
    ensures session.amountTotal.None? ==> p.amount == 0
    ensures session.amountTotal.Some? ==> p.amount == session.amountTotal.value
  {
    Purchase(
      userId,
      OrNull(Lookup(session.metadata, "packId")),
      OrNull(Lookup(session.metadata, "subscriptionType")),
      session.paymentIntent,
      session.amountTotal.GetOr(0))
  }

  /** Some user other than `userId` already holds `customer`. */
  predicate CustomerTakenByOther(users: map<string, User>, userId: string, customer: string) {
    exists other :: other in users && other != userId && users[other].stripeCustomerId == Some(customer)
  }

  /**
   * `prisma.user.update` after a checkout: record the customer id and, for a
   * subscription checkout, mark the subscription active. The update throws when
   * the user row does not exist or the customer id is taken by another user.
   */
  function RecordCustomer(users: map<string, User>, userId: string, customer: string, subscriptionType: Option<string>)
    : (updated: Option<map<string, User>>)
    ensures updated.Some? <==> userId in users && !CustomerTakenByOther(users, userId, customer)
    ensures updated.Some? ==> updated.value.Keys == users.Keys
    ensures updated.Some? ==> forall u :: u in users && u != userId ==> updated.value[u] == users[u]
    ensures updated.Some? ==> updated.value[userId].stripeCustomerId == Some(customer)
    ensures updated.Some? && Truthy(subscriptionType) ==>
              updated.value[userId].subscriptionStatus == Some(ActiveStatus)
              && updated.value[userId].subscriptionTier == Some(PremiumTier)
    ensures updated.Some? && !Truthy(subscriptionType) ==>
              updated.value[userId].subscriptionStatus == users[userId].subscriptionStatus
              && updated.value[userId].subscriptionTier == users[userId].subscriptionTier
  {
    if userId !in users || CustomerTakenByOther(users, userId, customer) then None
    else
      var user := users[userId].(stripeCustomerId := Some(customer));
      var user' := if Truthy(subscriptionType)
                   then user.(subscriptionStatus := Some(ActiveStatus), subscriptionTier := Some(PremiumTier))
                   else user;
      Some(users[userId := user'])
  }

  /** The `checkout.session.completed` branch. */
  function CompleteCheckout(store: Store, session: CheckoutSession): (h: Handled)
    requires ValidStore(store)
    ensures ValidStore(h.store)
    ensures !Truthy(Lookup(session.metadata, "userId")) ==> h == Handled(store, ProcessingFailed)
    ensures Truthy(Lookup(session.metadata, "userId")) ==>
              h.store.purchases == store.purchases + [PurchaseFor(session.metadata["userId"], session)]
    ensures h.store.users.Keys == store.users.Keys
    ensures forall u :: u in store.users && Some(u) != Lookup(session.metadata, "userId") ==>
              h.store.users[u] == store.users[u]
    ensures !Truthy(session.customer) || h.response != Received ==> h.store.users == store.users
    ensures Truthy(Lookup(session.metadata, "userId")) && !Truthy(session.customer) ==> h.response == Received
    ensures Truthy(Lookup(session.metadata, "userId")) && Truthy(session.customer) ==>
              var userId := session.metadata["userId"];
              var customer := session.customer.value;
              (h.response == Received <==> userId in store.users && !CustomerTakenByOther(store.users, userId, customer))
              && (h.response == Received ==> h.store.users[userId].stripeCustomerId == Some(customer))
    ensures h.response == Received && Truthy(Lookup(session.metadata, "userId")) ==>
              var userId := session.metadata["userId"];
              userId in store.users ==>
                if Truthy(Lookup(session.metadata, "subscriptionType")) && Truthy(session.customer) then
                  HasActiveSubscription(h.store.users[userId])
                else
                  && h.store.users[userId].subscriptionStatus == store.users[userId].subscriptionStatus
                  && h.store.users[userId].subscriptionTier == store.users[userId].subscriptionTier
  {
    var userId := Lookup(session.metadata, "userId");
    if !Truthy(userId) then Handled(store, ProcessingFailed)
    else
      var purchase := PurchaseFor(userId.value, session);
      var withPurchase := store.(purchases := store.purchases + [purchase]);
      if !Truthy(session.customer) then Handled(withPurchase, Received)
      else
        match RecordCustomer(store.users, userId.value, session.customer.value, purchase.subscriptionType)
        case None => Handled(withPurchase, ProcessingFailed)
        case Some(users) => Handled(withPurchase.(users := users), Received)
  }

  /** The user whose stored customer id is `customer`, if any (the index on it is unique). */
  function UserByCustomer(users: map<string, User>, customer: string): (found: Option<string>)
    requires CustomerIdsUnique(users)
    ensures found.Some? ==> found.value in users && users[found.value].stripeCustomerId == Some(customer)
    ensures found.None? ==> forall u :: u in users ==> users[u].stripeCustomerId != Some(customer)
  {
    if exists u :: u in users && users[u].stripeCustomerId == Some(customer) then
      var u :| u in users && users[u].stripeCustomerId == Some(customer);
      Some(u)
    else None
  }

  /** The `customer.subscription.updated` / `customer.subscription.deleted` branch. */
  function SyncSubscription(store: Store, subscription: Subscription): (h: Handled)
    requires ValidStore(store)
    ensures ValidStore(h.store)
    ensures h.response == Received
    ensures h.store.purchases == store.purchases
    ensures h.store.users.Keys == store.users.Keys
    ensures (forall u :: u in store.users ==> store.users[u].stripeCustomerId != Some(subscription.customer)) ==>
              h.store == store
    ensures forall u :: u in store.users ==>
              if store.users[u].stripeCustomerId == Some(subscription.customer) then
                && h.store.users[u].subscriptionStatus == Some(subscription.status)
                && (h.store.users[u].subscriptionTier == Some(PremiumTier) <==> subscription.status == ActiveStatus)
                && (h.store.users[u].subscriptionTier.None? <==> subscription.status != ActiveStatus)
                && h.store.users[u].stripeCustomerId == store.users[u].stripeCustomerId
              else h.store.users[u] == store.users[u]
  {
    match UserByCustomer(store.users, subscription.customer)
    case None => Handled(store, Received)
    case Some(userId) =>
      var user := store.users[userId].(
        subscriptionStatus := Some(subscription.status),
        subscriptionTier := if subscription.status == ActiveStatus then Some(PremiumTier) else None);
      Handled(store.(users := store.users[userId := user]), Received)
  }

  /** The whole handler. */
  function HandleWebhook(store: Store, delivery: Delivery): (h: Handled)
    requires ValidStore(store)
    ensures ValidStore(h.store)
    ensures !delivery.signatureValid ==> h == Handled(store, SignatureRejected)
    ensures delivery.signatureValid ==> h.response != SignatureRejected
    ensures delivery.event.OtherEvent? ==> h.store == store
    ensures delivery.signatureValid && delivery.event.OtherEvent? ==> h == Handled(store, Received)
    ensures |store.purchases| <= |h.store.purchases| <= |store.purchases| + 1
    ensures h.store.purchases[..|store.purchases|] == store.purchases
    ensures h.store.users.Keys == store.users.Keys
  {
    if !delivery.signatureValid then Handled(store, SignatureRejected)
    else
      match delivery.event
      case CheckoutSessionCompleted(session) => CompleteCheckout(store, session)
      case SubscriptionUpdated(subscription) => SyncSubscription(store, subscription)
      case SubscriptionDeleted(subscription) => SyncSubscription(store, subscription)
      case OtherEvent(_) => Handled(store, Received)
  }

  /** Handling a checkout-completed event adds a purchase row every time it is delivered. */
  lemma RedeliveredCheckoutAppendsTwice(store: Store, session: CheckoutSession)
    requires ValidStore(store)
    requires Truthy(Lookup(session.metadata, "userId"))
    ensures var once := HandleWebhook(store, Delivery(true, CheckoutSessionCompleted(session)));
            var twice := HandleWebhook(once.store, Delivery(true, CheckoutSessionCompleted(session)));
            var p := PurchaseFor(session.metadata["userId"], session);
            && twice.store.purchases == store.purchases + [p, p]
            && |twice.store.purchases| == |store.purchases| + 2
            && twice.response == once.response
  {
    var userId := session.metadata["userId"];
    var once := HandleWebhook(store, Delivery(true, CheckoutSessionCompleted(session)));
    if Truthy(session.customer) {
      var customer := session.customer.value;
      if once.response == Received {
        assert !CustomerTakenByOther(once.store.users, userId, customer);
      } else {
        assert once.store.users == store.users;
      }
    }
    assert store.purchases + [PurchaseFor(userId, session)] + [PurchaseFor(userId, session)]
        == store.purchases + [PurchaseFor(userId, session), PurchaseFor(userId, session)];
  }
}
