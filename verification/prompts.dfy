/**
 * src/lib/prompts.ts: the catalog query of `getPrompts` and the entitlement
 * decision of `checkUserHasAccess`.
 */
module Prompts {
  import opened Wrappers
  import opened Text
  import opened Schema

  // ---------------------------------------------------------------------------
  // getPrompts
  // ---------------------------------------------------------------------------

  /** The arguments of `getPrompts`; `None` is an argument left undefined. */
  datatype Query = Query(
    category: Option<string>,
    search: Option<string>,
    tier: Option<string>,
    featured: Option<bool>,
    limit: Option<nat>,
    offset: Option<nat>)

  /** `{ prompts, total }` */
  datatype Page = Page(prompts: seq<Prompt>, total: nat)

  const DefaultLimit: nat := 50
  const DefaultOffset: nat := 0

  /** `{ contains: search, mode: 'insensitive' }` */
  predicate ContainsIgnoringCase(field: string, search: string) {
    Contains(Lower(field), Lower(search))
  }

  /** The `OR` of title, description and tags that a search adds. */
  predicate MatchesSearch(p: Prompt, search: string) {
    || ContainsIgnoringCase(p.title, search)
    || ContainsIgnoringCase(p.description, search)
    || search in p.tags
  }

  /** The `where` clause `getPrompts` builds: always published, then each filter that was given. */
  predicate MatchesQuery(p: Prompt, q: Query)
    ensures MatchesQuery(p, q) ==> p.published
    ensures !Truthy(q.category) && !Truthy(q.tier) && q.featured.None? && !Truthy(q.search) ==>
              (MatchesQuery(p, q) <==> p.published)
  {
    && p.published
    && (Truthy(q.category) ==> p.category == q.category.value)
    && (Truthy(q.tier) ==> TierName(p.tier) == q.tier.value)
    && (q.featured.Some? ==> p.featured == q.featured.value)
    && (Truthy(q.search) ==> MatchesSearch(p, q.search.value))
  }

  /** The rows the `where` clause selects, in table order; each as often as it is in the table. */
  function Where(table: seq<Prompt>, q: Query): (matched: seq<Prompt>)
    ensures forall p {:trigger multiset(matched)[p]} :: multiset(matched)[p] == if MatchesQuery(p, q) then multiset(table)[p] else 0
    ensures forall p :: p in matched ==> MatchesQuery(p, q)
    decreases |table|
  {
    if |table| == 0 then []
    else
      assert table == [table[0]] + table[1..];
      (if MatchesQuery(table[0], q) then [table[0]] else []) + Where(table[1..], q)
  }

  /** Rows are selected one at a time, so the matches of a table keep its order. */
  lemma {:induction false} WhereAppend(a: seq<Prompt>, b: seq<Prompt>, q: Query)
    ensures Where(a + b, q) == Where(a, q) + Where(b, q)
    decreases |a|
  {
    if |a| == 0 {
      assert a + b == b;
    } else {
      WhereAppend(a[1..], b, q);
      assert (a + b)[0] == a[0] && (a + b)[1..] == a[1..] + b;
    }
  }

  /** A single row is selected exactly when it passes the `where` clause. */
  lemma WhereSingleton(p: Prompt, q: Query)
    ensures Where([p], q) == if MatchesQuery(p, q) then [p] else []
  {
    assert [p][1..] == [];
  }

  /** A query for a value that is not a tier's name selects nothing. */
  lemma UnknownTierSelectsNothing(table: seq<Prompt>, q: Query)
    requires Truthy(q.tier) && q.tier.value !in {"free", "starter", "pro"}
    ensures Where(table, q) == []
  {
  }

  /**
   * `getPrompts(query)` over the prompt table, given in the order of the query's
   * `orderBy`: the `take`/`skip` window of the matching rows, and their count.
   */
  function GetPrompts(table: seq<Prompt>, q: Query): (page: Page)
    ensures page.total == |Where(table, q)|
    ensures var offset := q.offset.GetOr(DefaultOffset);
            && |page.prompts| == Min(q.limit.GetOr(DefaultLimit), Max(page.total - offset, 0))
            && forall j :: 0 <= j < |page.prompts| ==> page.prompts[j] == Where(table, q)[offset + j]
  {
    var matched := Where(table, q);
    var start := Min(q.offset.GetOr(DefaultOffset), |matched|);
    var end := Min(start + q.limit.GetOr(DefaultLimit), |matched|);
    Page(matched[start..end], |matched|)
  }

  /** Every prompt on the page passes the `where` clause. */
  lemma GetPromptsReturnsMatches(table: seq<Prompt>, q: Query)
    ensures forall p :: p in GetPrompts(table, q).prompts ==> MatchesQuery(p, q)
  {
    var page := GetPrompts(table, q);
    var matched := Where(table, q);
    var offset := q.offset.GetOr(DefaultOffset);
    forall p | p in page.prompts
      ensures MatchesQuery(p, q)
    {
      var j :| 0 <= j < |page.prompts| && page.prompts[j] == p;
      assert p == matched[offset + j];
      assert p in matched;
    }
  }

  function Min(a: int, b: int): int {
    if a <= b then a else b
  }

  function Max(a: int, b: int): int {
    if a <= b then b else a
  }

  /** `total` does not depend on the window. */
  lemma TotalIgnoresPaging(table: seq<Prompt>, q: Query, limit: Option<nat>, offset: Option<nat>)
    ensures GetPrompts(table, q.(limit := limit, offset := offset)).total == GetPrompts(table, q).total
  {
    assert forall p :: MatchesQuery(p, q.(limit := limit, offset := offset)) == MatchesQuery(p, q);
    WhereDependsOnFiltersOnly(table, q, q.(limit := limit, offset := offset));
  }

  lemma {:induction false} WhereDependsOnFiltersOnly(table: seq<Prompt>, q1: Query, q2: Query)
    requires forall p :: MatchesQuery(p, q1) == MatchesQuery(p, q2)
    ensures Where(table, q1) == Where(table, q2)
    decreases |table|
  {
    if |table| > 0 {
      WhereDependsOnFiltersOnly(table[1..], q1, q2);
    }
  }

  // ---------------------------------------------------------------------------
  // checkUserHasAccess
  // ---------------------------------------------------------------------------

  /**
   * `prisma.purchase.findFirst({ where: { userId, packId } })`: the index of the first
   * purchase row of `userId` for `packId`.
   */
  function FindFirstPurchase(purchases: seq<Purchase>, userId: string, packId: string): (found: Option<nat>)
    ensures found.Some? ==> (found.value < |purchases|
                             && purchases[found.value].userId == userId
                             && purchases[found.value].packId == Some(packId))
    ensures found.Some? ==> forall j :: 0 <= j < found.value ==>
              !(purchases[j].userId == userId && purchases[j].packId == Some(packId))
    ensures found.None? <==> !OwnsPack(purchases, userId, packId)
    decreases |purchases|
  {
    if |purchases| == 0 then None
    else if purchases[0].userId == userId && purchases[0].packId == Some(packId) then Some(0)
    else
      var rest := FindFirstPurchase(purchases[1..], userId, packId);
      assert OwnsPack(purchases, userId, packId) ==> OwnsPack(purchases[1..], userId, packId) by {
        if OwnsPack(purchases, userId, packId) {
          var i :| 0 <= i < |purchases| && purchases[i].userId == userId && purchases[i].packId == Some(packId);
          assert purchases[1..][i - 1] == purchases[i];
        }
      }
      if rest.Some? then
        assert purchases[rest.value + 1] == purchases[1..][rest.value];
        assert forall j :: 1 <= j <= rest.value ==> purchases[j] == purchases[1..][j - 1];
        Some(rest.value + 1)
      else None
  }

  /** The user row `prisma.user.findUnique({ where: { id } })` returns, if any, has an active premium subscription. */
  predicate SubscribedUser(store: Store, userId: string) {
    userId in store.users && HasActiveSubscription(store.users[userId])
  }

  /**
   * `checkUserHasAccess(userId, prompt)`: free prompts are open to everyone; any other
   * prompt needs a signed-in user who either has an active premium subscription or
   * bought the prompt's pack.
   */
  function CheckUserHasAccess(userId: Option<string>, prompt: Prompt, store: Store): (granted: bool)
    ensures prompt.tier == Free ==> granted
    ensures prompt.tier != Free && !Truthy(userId) ==> !granted
    ensures prompt.tier != Free && Truthy(userId) ==>
              (granted <==> SubscribedUser(store, userId.value)
                            || (Truthy(prompt.packId) && OwnsPack(store.purchases, userId.value, prompt.packId.value)))
  {
    if prompt.tier == Free then true
    else if !Truthy(userId) then false
    else
      var user := Lookup(store.users, userId.value);
      if user.Some? && HasActiveSubscription(user.value) then true
      else if Truthy(prompt.packId) then
        FindFirstPurchase(store.purchases, userId.value, prompt.packId.value).Some?
      else false
  }

  /** An active premium subscription opens every prompt, whatever its pack and whatever was bought. */
  lemma SubscriptionOpensEverything(userId: string, prompt: Prompt, store: Store)
    requires userId != "" && SubscribedUser(store, userId)
    ensures CheckUserHasAccess(Some(userId), prompt, store)
  {
  }

  /** A premium tier whose status is not `active` counts for nothing: only the pack check is left. */
  lemma InactivePremiumFallsThrough(userId: string, prompt: Prompt, store: Store)
    requires userId != "" && prompt.tier != Free
    requires userId in store.users && store.users[userId].subscriptionStatus != Some(ActiveStatus)
    ensures CheckUserHasAccess(Some(userId), prompt, store)
            <==> Truthy(prompt.packId) && OwnsPack(store.purchases, userId, prompt.packId.value)
  {
  }

  /** A paid prompt in no pack is open only to subscribers. */
  lemma PacklessPromptNeedsSubscription(userId: Option<string>, prompt: Prompt, store: Store)
    requires prompt.tier != Free && prompt.packId.None?
    ensures CheckUserHasAccess(userId, prompt, store) <==> Truthy(userId) && SubscribedUser(store, userId.value)
  {
  }

  /**
   * Purchase rows of other users, or for other packs, never change the decision:
   * adding any number of them grants nothing.
   */
  lemma {:induction false} UnrelatedPurchasesGrantNothing(userId: Option<string>, prompt: Prompt, store: Store, extra: seq<Purchase>)
    requires forall e :: e in extra ==> Some(e.userId) != userId || e.packId != prompt.packId
    ensures CheckUserHasAccess(userId, prompt, store.(purchases := store.purchases + extra))
            == CheckUserHasAccess(userId, prompt, store)
  {
    if prompt.tier != Free && Truthy(userId) && Truthy(prompt.packId) {
      var all := store.purchases + extra;
      if OwnsPack(all, userId.value, prompt.packId.value) {
        var i :| 0 <= i < |all| && all[i].userId == userId.value && all[i].packId == prompt.packId;
        assert store.purchases[i] == all[i];
      }
      if OwnsPack(store.purchases, userId.value, prompt.packId.value) {
        var i :| 0 <= i < |store.purchases| && store.purchases[i].userId == userId.value
                 && store.purchases[i].packId == prompt.packId;
        assert all[i] == store.purchases[i];
      }
    }
  }
}
