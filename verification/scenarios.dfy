/**
 * End-to-end properties across the checkout route, the webhook and the access
 * check: what a completed checkout unlocks, what it never takes away, and how
 * a subscription's end falls back to pack ownership. The payment processor is
 * modelled as carrying the checkout request's metadata into the session it
 * later reports as completed.
 */
module Scenarios {
  import opened Wrappers
  import opened Schema
  import Stripe
  import CheckoutRoute
  import WebhookRoute
  import Prompts
  import Seed

  /** The completed session the processor reports for a checkout request. */
  function CompletedSession(params: Stripe.CheckoutSessionParams, customer: Option<string>,
                            paymentIntent: Option<string>, amountTotal: Option<int>): (session: WebhookRoute.CheckoutSession)
    ensures session.metadata == params.metadata.GetOr(map[])
    ensures session.customer == customer
  {
    WebhookRoute.CheckoutSession(params.metadata.GetOr(map[]), customer, paymentIntent, amountTotal)
  }

  function CheckoutDelivery(session: WebhookRoute.CheckoutSession): WebhookRoute.Delivery {
    WebhookRoute.Delivery(true, WebhookRoute.CheckoutSessionCompleted(session))
  }

  /**
   * A signed-in user who checks out a pack, and whose payment completes, can open
   * every paid prompt of that pack, whether or not the user row update succeeds.
   */
  lemma PackCheckoutUnlocksPack(store: Store, user: CheckoutRoute.SessionUser, body: CheckoutRoute.CheckoutBody,
                                reply: CheckoutRoute.ProcessorReply, ids: Stripe.PriceIds, nextAuthUrl: Option<string>,
                                customer: Option<string>, paymentIntent: Option<string>, amountTotal: Option<int>,
                                prompt: Prompt)
    requires ValidStore(store)
    requires user.id != ""
    requires Truthy(body.priceId) && Truthy(body.packId)
    requires prompt.packId == body.packId
    ensures var out := CheckoutRoute.Post(CheckoutRoute.SignedIn(user), Some(body), reply, ids, nextAuthUrl);
            && out.sent.Some?
            && var session := CompletedSession(out.sent.value, customer, paymentIntent, amountTotal);
               Prompts.CheckUserHasAccess(Some(user.id), prompt, WebhookRoute.HandleWebhook(store, CheckoutDelivery(session)).store)
  {
    var out := CheckoutRoute.Post(CheckoutRoute.SignedIn(user), Some(body), reply, ids, nextAuthUrl);
    var session := CompletedSession(out.sent.value, customer, paymentIntent, amountTotal);
    var after := WebhookRoute.HandleWebhook(store, CheckoutDelivery(session)).store;
    assert Lookup(session.metadata, "userId") == Some(user.id);
    assert Lookup(session.metadata, "packId") == body.packId;
    var p := WebhookRoute.PurchaseFor(user.id, session);
    assert after.purchases == store.purchases + [p];
    assert after.purchases[|store.purchases|] == p;
    assert OwnsPack(after.purchases, user.id, body.packId.value);
  }

  /** A completed checkout keeps a user's subscription, if the user had one. */
  lemma CheckoutKeepsSubscription(store: Store, session: WebhookRoute.CheckoutSession, userId: string)
    requires ValidStore(store)
    requires Prompts.SubscribedUser(store, userId)
    ensures Prompts.SubscribedUser(WebhookRoute.HandleWebhook(store, CheckoutDelivery(session)).store, userId)
  {
    var h := WebhookRoute.CompleteCheckout(store, session);
    if h.store.users != store.users && Some(userId) == Lookup(session.metadata, "userId") {
      assert Truthy(Lookup(session.metadata, "userId"));
    }
  }

  /** A completed checkout never takes access away from anyone, to any prompt. */
  lemma CheckoutNeverRevokesAccess(store: Store, session: WebhookRoute.CheckoutSession,
                                   userId: Option<string>, prompt: Prompt)
    requires ValidStore(store)
    requires Prompts.CheckUserHasAccess(userId, prompt, store)
    ensures Prompts.CheckUserHasAccess(userId, prompt, WebhookRoute.HandleWebhook(store, CheckoutDelivery(session)).store)
  {
    var after := WebhookRoute.HandleWebhook(store, CheckoutDelivery(session)).store;
    if prompt.tier != Free {
      var u := userId.value;
      if Prompts.SubscribedUser(store, u) {
        CheckoutKeepsSubscription(store, session, u);
      } else {
        var i :| 0 <= i < |store.purchases| && store.purchases[i].userId == u && store.purchases[i].packId == Some(prompt.packId.value);
        assert after.purchases[..|store.purchases|][i] == after.purchases[i];
        assert OwnsPack(after.purchases, u, prompt.packId.value);
      }
    }
  }

  /**
   * A subscription checkout activates premium access; when the subscription is
   * later deleted with a status other than `active`, the user is left with the
   * packs they bought.
   */
  lemma SubscriptionEndFallsBackToPacks(store: Store, session: WebhookRoute.CheckoutSession, userId: string,
                                        customer: string, status: string, prompt: Prompt)
    requires ValidStore(store)
    requires userId != "" && userId in store.users
    requires Lookup(session.metadata, "userId") == Some(userId)
    requires Truthy(Lookup(session.metadata, "subscriptionType"))
    requires session.customer == Some(customer) && customer != ""
    requires !WebhookRoute.CustomerTakenByOther(store.users, userId, customer)
    requires status != ActiveStatus && prompt.tier != Free
    ensures var paid := WebhookRoute.HandleWebhook(store, CheckoutDelivery(session));
            && paid.response == WebhookRoute.Received
            && Prompts.SubscribedUser(paid.store, userId)
            && var ended := WebhookRoute.HandleWebhook(paid.store, WebhookRoute.Delivery(true,
                 WebhookRoute.SubscriptionDeleted(WebhookRoute.Subscription(customer, status))));
               && !Prompts.SubscribedUser(ended.store, userId)
               && (Prompts.CheckUserHasAccess(Some(userId), prompt, ended.store)
                   <==> Truthy(prompt.packId) && OwnsPack(paid.store.purchases, userId, prompt.packId.value))
  {
    var paid := WebhookRoute.HandleWebhook(store, CheckoutDelivery(session));
    assert session.metadata["userId"] == userId;
    assert paid.store.users[userId].stripeCustomerId == Some(customer);
    var ended := WebhookRoute.HandleWebhook(paid.store, WebhookRoute.Delivery(true,
                   WebhookRoute.SubscriptionDeleted(WebhookRoute.Subscription(customer, status))));
    assert ended.store.users[userId].subscriptionTier.None?;
    Prompts.InactivePremiumFallsThrough(userId, prompt, ended.store);
  }

  /** Two stores that agree on who is subscribed and on the purchase rows give every access decision alike. */
  lemma SameSubscribersSameAccess(s1: Store, s2: Store, userId: Option<string>, prompt: Prompt)
    requires forall u :: Prompts.SubscribedUser(s1, u) <==> Prompts.SubscribedUser(s2, u)
    requires s1.purchases == s2.purchases
    ensures Prompts.CheckUserHasAccess(userId, prompt, s1) == Prompts.CheckUserHasAccess(userId, prompt, s2)
  {
  }

  /**
   * The pricing page posts only a price, so the session metadata names neither a
   * pack nor a subscription type: the completed payment is recorded but changes
   * no access decision.
   */
  lemma PriceOnlyCheckoutGrantsNothing(store: Store, user: CheckoutRoute.SessionUser, priceId: string,
                                       reply: CheckoutRoute.ProcessorReply, ids: Stripe.PriceIds, nextAuthUrl: Option<string>,
                                       customer: Option<string>, paymentIntent: Option<string>, amountTotal: Option<int>,
                                       who: Option<string>, prompt: Prompt)
    requires ValidStore(store)
    requires priceId != ""
    ensures var body := CheckoutRoute.CheckoutBody(Some(priceId), None, None);
            var out := CheckoutRoute.Post(CheckoutRoute.SignedIn(user), Some(body), reply, ids, nextAuthUrl);
            && out.sent.Some?
            && var after := WebhookRoute.HandleWebhook(store,
                 CheckoutDelivery(CompletedSession(out.sent.value, customer, paymentIntent, amountTotal))).store;
               Prompts.CheckUserHasAccess(who, prompt, after) == Prompts.CheckUserHasAccess(who, prompt, store)
  {
    var body := CheckoutRoute.CheckoutBody(Some(priceId), None, None);
    var out := CheckoutRoute.Post(CheckoutRoute.SignedIn(user), Some(body), reply, ids, nextAuthUrl);
    var session := CompletedSession(out.sent.value, customer, paymentIntent, amountTotal);
    var h := WebhookRoute.HandleWebhook(store, CheckoutDelivery(session));
    assert session.metadata == map["userId" := user.id];
    assert Lookup(session.metadata, "subscriptionType").None?;
    if user.id != "" {
      var p := WebhookRoute.PurchaseFor(user.id, session);
      assert p.packId.None?;
      forall u
        ensures Prompts.SubscribedUser(h.store, u) <==> Prompts.SubscribedUser(store, u)
      {
      }
      var appended := store.(purchases := store.purchases + [p]);
      SameSubscribersSameAccess(h.store, appended, who, prompt);
      if prompt.tier == Free {
      } else if prompt.packId.None? {
        Prompts.PacklessPromptNeedsSubscription(who, prompt, appended);
        Prompts.PacklessPromptNeedsSubscription(who, prompt, store);
      } else {
        Prompts.UnrelatedPurchasesGrantNothing(who, prompt, store, [p]);
      }
    }
  }

  /** A seeded pro prompt outside the coding, writing, business and research categories opens only to subscribers. */
  lemma SeededUnpackedProPromptNeedsSubscription(db: Seed.CatalogDb, entries: seq<Seed.SeedEntry>,
                                                 newIds: Seed.PackKey -> string, i: nat,
                                                 userId: Option<string>, store: Store)
    requires i < |entries| && entries[i].tier == Pro
    requires entries[i].category !in {"coding", "writing", "business", "research"}
    ensures Prompts.CheckUserHasAccess(userId, Seed.RunSeed(db, entries, newIds).prompts[i], store)
            <==> Truthy(userId) && Prompts.SubscribedUser(store, userId.value)
  {
    Seed.SeededPromptPack(db, entries, newIds, i);
    Prompts.PacklessPromptNeedsSubscription(userId, Seed.RunSeed(db, entries, newIds).prompts[i], store);
  }

  /** Buying the starter pack opens every seeded starter prompt. */
  lemma StarterPackOpensSeededStarterPrompts(db: Seed.CatalogDb, entries: seq<Seed.SeedEntry>,
                                             newIds: Seed.PackKey -> string, i: nat, userId: string, store: Store)
    requires i < |entries| && entries[i].tier == Starter && userId != ""
    ensures var seeded := Seed.RunSeed(db, entries, newIds);
            var starterId := seeded.packs[Seed.PackSlug(Seed.StarterPack)].id;
            starterId != "" && OwnsPack(store.purchases, userId, starterId) ==>
              Prompts.CheckUserHasAccess(Some(userId), seeded.prompts[i], store)
  {
    Seed.SeededPromptPack(db, entries, newIds, i);
  }
}
