/**
 * The database records the core reads and writes (users, purchases, prompts),
 * and the store the payment handlers update: a user table keyed by id and the
 * append-only purchase table.
 */
module Schema {
  import opened Wrappers

  /** Access level of a prompt. */
  datatype Tier = Free | Starter | Pro

  /** The text stored in a prompt's `tier` column. */
  function TierName(t: Tier): string {
    match t
    case Free => "free"
    case Starter => "starter"
    case Pro => "pro"
  }

  datatype Prompt = Prompt(
    title: string,
    description: string,
    content: string,
    variables: seq<string>,
    category: string,
    subcategory: Option<string>,
    tags: seq<string>,
    platforms: seq<string>,
    tier: Tier,
    packId: Option<string>,
    featured: bool,
    published: bool)

  /** The billing fields of a user row; `stripeCustomerId` is unique across users. */
  datatype User = User(
    subscriptionTier: Option<string>,
    subscriptionStatus: Option<string>,
    stripeCustomerId: Option<string>)

  /** One completed checkout. Rows are only ever inserted. */
  datatype Purchase = Purchase(
    userId: string,
    packId: Option<string>,
    subscriptionType: Option<string>,
    stripePaymentId: Option<string>,
    amount: int)

  datatype Store = Store(users: map<string, User>, purchases: seq<Purchase>)

  const PremiumTier: string := "premium"
  const ActiveStatus: string := "active"

  /** The unique index on `stripeCustomerId`: no two users share a customer id. */
  predicate CustomerIdsUnique(users: map<string, User>) {
    forall a, b :: a in users && b in users && a != b && users[a].stripeCustomerId.Some? ==>
      users[a].stripeCustomerId != users[b].stripeCustomerId
  }

  predicate ValidStore(store: Store) {
    CustomerIdsUnique(store.users)
  }

  /** `subscriptionTier === 'premium' && subscriptionStatus === 'active'` */
  predicate HasActiveSubscription(u: User) {
    u.subscriptionTier == Some(PremiumTier) && u.subscriptionStatus == Some(ActiveStatus)
  }

  /** Some purchase row links `userId` to `packId`. */
  predicate OwnsPack(purchases: seq<Purchase>, userId: string, packId: string) {
    exists i :: 0 <= i < |purchases| && purchases[i].userId == userId && purchases[i].packId == Some(packId)
  }
}
