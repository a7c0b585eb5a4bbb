# Prompt library store — a Dafny model of its core

This project models the core of a prompt-library web store, in which users
browse prompt templates, buy packs of them or subscribe, and get access to the
paid prompts. The model covers:

- the text helpers of `src/lib/utils.ts`: `extractVariables`, `fillTemplate`,
  `truncate` and `slugify`;
- the catalog query of `getPrompts` and the entitlement check
  `checkUserHasAccess` (`src/lib/prompts.ts`);
- the payment-processor helpers of `src/lib/stripe.ts`, i.e. the configured
  price ids and the requests for checkout and billing-portal sessions;
- the checkout route, which turns a signed-in user's request into a checkout
  session whose metadata carries the user, pack and subscription type;
- the webhook route, which records purchases and keeps the user's
  subscription fields in step with the processor's events;
- the database seed: four packs are upserted by slug, the prompt table is
  wiped, and one prompt is inserted per seed entry, in the pack chosen by its
  tier and category.

The database is a value:

- a `Store` holds the user rows, keyed by id, and the purchase rows, in
  insertion order;
- a `CatalogDb` holds the pack table, keyed by slug, and the prompt table.

Every route is a pure function from the store and the request to the new
store and the response. The outside world enters as parameters:

- the session lookup;
- the parsed request body;
- the processor's reply;
- the result of the signature check;
- the environment variables;
- the identifiers the database assigns.

Module layout:

| file | module | covers |
|---|---|---|
| `wrappers.dfy` | `Wrappers` | optional values and JavaScript truthiness (`if (x)`, `x \|\| null`) |
| `text.dfy` | `Text` | ASCII regular-expression classes, lower-casing, substrings |
| `templates.dfy` | `Templates` | `extractVariables`, `fillTemplate`, `truncate` |
| `slugs.dfy` | `Slugs` | `slugify` |
| `schema.dfy` | `Schema` | prompt, user and purchase rows; the store and its unique customer-id index |
| `prompts.dfy` | `Prompts` | `getPrompts`, `checkUserHasAccess` |
| `stripe.dfy` | `Stripe` | `STRIPE_PRICE_IDS`, `createCheckoutSession`, `createCustomerPortalSession` |
| `checkout_route.dfy` | `CheckoutRoute` | `POST /api/stripe/checkout` |
| `webhook_route.dfy` | `WebhookRoute` | `POST /api/stripe/webhook` |
| `seed.dfy` | `Seed` | `prisma/seed.ts` |
| `scenarios.dfy` | `Scenarios` | checkout, then webhook, then access, end to end |

The pricing page posts a body holding only `priceId`
(`src/app/(marketing)/pricing/page.tsx:85`). The session it creates therefore
names neither a pack nor a subscription type.
`Scenarios.PriceOnlyCheckoutGrantsNothing` shows what follows: once such a
payment completes, no access decision changes for anyone. Access comes only
from pack purchases that name the pack, or from a later subscription event.

## Model

| member | source | states |
|---|---|---|
| Wrappers.OrNull | src/app/api/stripe/webhook/route.ts:44-45 | `x \|\| null` keeps a non-empty string and turns the empty string and a missing value into null; a kept value is never empty |
| Wrappers.Lookup | src/app/api/stripe/webhook/route.ts:32-34 | reading a record field is defined exactly when the key is present, and then yields the stored value |
| Text.ToLower | src/lib/utils.ts:56 | lower-casing maps each upper-case letter to its own lower-case letter, 32 code points on (`A` to `a`, …, `Z` to `z`), and leaves every other character alone; it keeps letters and digits alphanumeric and ASCII stays ASCII |
| Text.Lower | src/lib/utils.ts:56 | lower-casing a string keeps its length and works character by character |
| Templates.Braced | src/lib/utils.ts:25 | the placeholder of a name is two opening braces, then the name itself, then two closing braces |
| Templates.WordRun | src/lib/utils.ts:25 | the greedy `\w+` run starting at a position stays in the string, holds only word characters, and stops at the end or at a non-word character |
| Templates.MatchAt | src/lib/utils.ts:25 | a match of the placeholder pattern at a position lies inside the string, captures a non-empty word and is that word's placeholder |
| Templates.Scan | src/lib/utils.ts:25-33 | the `exec` loop from `lastIndex` `i` reports its first match, if any, at or after `i`; with the next two rows, it reports exactly the placeholder occurrences, in increasing position |
| Templates.ScanSound | src/lib/utils.ts:25-33 | every match of the `exec` loop is a placeholder occurrence at or after the start position, and the matches come at strictly increasing positions |
| Templates.ScanFindsEveryPlaceholder | src/lib/utils.ts:25-33 | every placeholder occurrence at or after the start position is one of the matches the `exec` loop reports |
| Templates.MatchesDoNotOverlap | src/lib/utils.ts:25-33 | an occurrence of a placeholder cannot begin inside an earlier match, so the global regex never skips one |
| Templates.MatchAtPlaceholder | src/lib/utils.ts:25 | at the start of a placeholder occurrence the pattern matches and captures exactly that name |
| Templates.Names | src/lib/utils.ts:29-31 | the captured names of the matches, one per match, in match order |
| Templates.FirstIndex | src/lib/utils.ts:30 | the position of the first occurrence of a name in a list, before which the name does not occur |
| Templates.Dedup | src/lib/utils.ts:26-33 | the `includes`/`push` loop keeps each name once, loses no name, and keeps names in the order of their first occurrence |
| Templates.FirstIndexOfPrefix | src/lib/utils.ts:30-31 | pushing a name does not move the first occurrence of names already in the list, and a new name is found at the end |
| Templates.ExtractVariables | src/lib/utils.ts:24-36 | the result has no duplicates, and every name in it is a word whose placeholder occurs in the content |
| Templates.ExtractVariablesExact | src/lib/utils.ts:24-36 | a name is extracted if and only if it is a word whose placeholder occurs in the content |
| Templates.ExtractVariablesInFirstOccurrenceOrder | src/lib/utils.ts:24-36 | a name listed before another has an occurrence that comes before every occurrence of the other |
| Templates.LaterNameOccursLater | src/lib/utils.ts:29-33 | every occurrence of a name lies beyond each match that precedes the name's first match |
| Templates.ContainsPastFirst | src/lib/utils.ts:43 | when the pattern does not start the string, it occurs in the string exactly when it occurs after the first character |
| Templates.CountReplacedZeroIffAbsent | src/lib/utils.ts:43 | a global replace replaces something if and only if the pattern occurs |
| Templates.ReplaceAll | src/lib/utils.ts:43 | when the global replace finds no occurrence of the pattern, the string comes back unchanged |
| Templates.ReplaceAllLength | src/lib/utils.ts:43 | each replaced occurrence changes the length by the value's length minus the pattern's length |
| Templates.ReplaceAllAbsent | src/lib/utils.ts:43 | replacing a pattern that does not occur leaves the string unchanged |
| Templates.ReplaceAllBySelf | src/lib/utils.ts:43 | replacing a pattern by itself leaves the string unchanged |
| Templates.ReplaceAllKeeps | src/lib/utils.ts:43 | where the pattern does not start, the global replace keeps the character and goes on from the next one |
| Templates.ReplaceAllReplaces | src/lib/utils.ts:43 | where the pattern starts, the global replace puts in the value and goes on after the occurrence |
| Templates.ReplacedExampleTail | src/lib/utils.ts:43 | replacing `{{abc}}` by `b` in `{{abc}}c}}` gives `bc}}` |
| Templates.ReplacedExampleMiddle | src/lib/utils.ts:43 | replacing `{{abc}}` by `b` in `a{{abc}}c}}` gives `abc}}` |
| Templates.ReplacedExampleFront | src/lib/utils.ts:43 | replacing `{{abc}}` by `b` in `{{a{{abc}}c}}` gives `{{abc}}` |
| Templates.FillTemplate | src/lib/utils.ts:38-47 | filling with no entries returns the content unchanged |
| Templates.FillTemplateSkipsAbsentKeys | src/lib/utils.ts:38-47 | entries whose placeholders do not occur in the content change nothing |
| Templates.FillUnlistedVariable | src/lib/utils.ts:24-47 | filling a name that `extractVariables` does not report leaves the content unchanged |
| Templates.FillTemplateWithPlaceholders | src/lib/utils.ts:38-47 | filling every key with its own placeholder is the identity |
| Templates.FillTemplateAppend | src/lib/utils.ts:38-47 | filling with two lists of entries in a row is the same as filling with their concatenation, because keys are applied one after another |
| Templates.FillOneEntry | src/lib/utils.ts:38-47 | filling with a single entry is one global replace of that key's placeholder by its value |
| Templates.FillCanLeaveFilledPlaceholder | src/lib/utils.ts:38-47 | filling a key can leave that key's placeholder in the result: `{{a{{abc}}c}}` filled with `abc` = `b` gives `{{abc}}` |
| Templates.EncodeChar | src/lib/utils.ts:50-51 | a character below U+10000 is one UTF-16 code unit equal to it; a higher one is a high surrogate followed by a low surrogate that together give back the character |
| Templates.Utf16 | src/lib/utils.ts:50-51 | a JavaScript string has at least as many code units as characters |
| Templates.Utf16BasicPlane | src/lib/utils.ts:50-51 | for text below U+10000 the code units are the characters themselves, one each |
| Templates.Utf16Append | src/lib/utils.ts:51 | the code units of a concatenation are those of its parts |
| Templates.Utf16Prefix | src/lib/utils.ts:51 | for text below U+10000 the first `n` code units encode the first `n` characters |
| Templates.Truncate | src/lib/utils.ts:49-52 | a string of at most `length` code units is returned as is; a longer one keeps its first `length` code units, followed by `...` |
| Templates.TruncateIdempotent | src/lib/utils.ts:49-52 | truncating twice to the same length gives the same as truncating once |
| Templates.TruncateBasicPlane | src/lib/utils.ts:49-52 | for text below U+10000 the limit counts characters: a longer text keeps its first `length` characters, followed by `...` |
| Templates.TruncateCountsCodeUnits | src/lib/utils.ts:49-52 | two emoji are four code units, so truncating them to 2 keeps one emoji and adds `...` |
| Templates.TruncateCanSplitPair | src/lib/utils.ts:49-52 | truncating one emoji to 1 keeps only its high surrogate `0xD83D` before the `...` |
| Slugs.StripPunctuation | src/lib/utils.ts:57 | every word character, whitespace and dash survives as often as it occurs and nothing else does; input without upper-case letters leaves only lower-case letters, digits, `_`, whitespace and dashes |
| Slugs.StripPunctuationAppend | src/lib/utils.ts:57 | removing punctuation from a concatenation removes it from each part, keeping their order |
| Slugs.StripPunctuationChar | src/lib/utils.ts:57 | a single character is kept exactly when it is in `[\w\s-]` |
| Slugs.SkipSeparators | src/lib/utils.ts:58 | removes exactly the leading run of whitespace, `_` and `-`; what is left does not start with a separator |
| Slugs.CollapseSeparators | src/lib/utils.ts:58 | a string starting with a separator starts with `-` afterwards and one starting with another character keeps it; no `--` remains; lowered kept characters become slug characters |
| Slugs.SkipSeparatorsRun | src/lib/utils.ts:58 | a whole run of separators is matched by `[\s_-]+`, up to the next other character |
| Slugs.CollapseSeparatorsCopies | src/lib/utils.ts:58 | a character that is not a separator is copied as it is |
| Slugs.CollapseSeparatorsWord | src/lib/utils.ts:58 | a stretch without separators is copied unchanged, and collapsing goes on after it |
| Slugs.CollapseSeparatorsRun | src/lib/utils.ts:58 | a whole run of separators becomes exactly one `-`, and collapsing goes on after it |
| Slugs.SliceNoDoubleDash | src/lib/utils.ts:59 | a slice of a string without `--` has no `--` |
| Slugs.TrimLeadingDashes | src/lib/utils.ts:59 | removes exactly the leading dashes |
| Slugs.TrimTrailingDashes | src/lib/utils.ts:59 | removes exactly the trailing dashes |
| Slugs.TrimDashes | src/lib/utils.ts:59 | the result is the input with only dashes cut from its two ends, and it neither starts nor ends with a dash; it has no `--` and no foreign character when its input had none |
| Slugs.TrimmedSlice | src/lib/utils.ts:59 | the two trims leave a slice of the input with only dashes before and after it |
| Slugs.Slugify | src/lib/utils.ts:54-60 | the result uses only `a-z`, `0-9` and `-`, has no `--`, and does not start or end with a dash |
| Slugs.StripPunctuationKeepsKept | src/lib/utils.ts:57 | removing punctuation from a string that has none changes nothing |
| Slugs.SkipSingleDash | src/lib/utils.ts:58 | a lone dash followed by a slug character is a separator run of length one |
| Slugs.CollapseSeparatorsStep | src/lib/utils.ts:58 | on a slug, collapsing keeps the first character as it is |
| Slugs.CollapseSeparatorsKeepsSlug | src/lib/utils.ts:58 | collapsing separators in a string of slug characters without `--` changes nothing |
| Slugs.LowerKeepsLowercase | src/lib/utils.ts:56 | lower-casing a string without upper-case letters changes nothing |
| Slugs.TrimDashesKeepsSlug | src/lib/utils.ts:59 | trimming the dashes of a slug changes nothing |
| Slugs.SlugCharIsAscii | src/lib/utils.ts:54-60 | every slug character is ASCII |
| Slugs.SlugifyFixesSlugs | src/lib/utils.ts:54-60 | a slug is its own slug |
| Slugs.SlugifyIdempotent | src/lib/utils.ts:54-60 | slugifying a slug again changes nothing |
| Slugs.AlnumsAppend | src/lib/utils.ts:54-60 | the letters and digits of a concatenation are those of its parts, in order |
| Slugs.AlnumsNone | src/lib/utils.ts:54-60 | a string without letters or digits has none to keep |
| Slugs.AlnumsLower | src/lib/utils.ts:56 | lower-casing commutes with taking the letters and digits |
| Slugs.AlnumsStripPunctuation | src/lib/utils.ts:57 | removing punctuation keeps every letter and digit, in order |
| Slugs.AlnumsSkipSeparators | src/lib/utils.ts:58 | skipping separators keeps every letter and digit |
| Slugs.AlnumsCollapseSeparators | src/lib/utils.ts:58 | collapsing separators keeps every letter and digit, in order |
| Slugs.AlnumsTrimLeadingDashes | src/lib/utils.ts:59 | trimming leading dashes keeps every letter and digit |
| Slugs.AlnumsTrimTrailingDashes | src/lib/utils.ts:59 | trimming trailing dashes keeps every letter and digit |
| Slugs.AlnumsTrimDashes | src/lib/utils.ts:59 | trimming dashes keeps every letter and digit |
| Slugs.SlugifyKeepsAlphanumerics | src/lib/utils.ts:54-60 | the slug holds exactly the input's letters and digits, lower-cased and in order |
| Slugs.SlugifyEmptyIffNoAlphanumerics | src/lib/utils.ts:54-60 | the slug is empty if and only if the input has no letter or digit |
| Slugs.LowerAppend | src/lib/utils.ts:56 | lower-casing a concatenation lower-cases each part |
| Slugs.LowerWord | src/lib/utils.ts:56 | a lower-cased word of letters and digits holds only `a-z` and `0-9` |
| Slugs.LowerJoin | src/lib/utils.ts:56 | lower-casing leaves the separators between two words alone |
| Slugs.JoinIsKept | src/lib/utils.ts:57 | two lower-cased words with separators between them lose nothing to punctuation removal |
| Slugs.CollapseJoin | src/lib/utils.ts:58 | the separator run between two words becomes one dash |
| Slugs.JoinIsSlug | src/lib/utils.ts:59 | two non-empty words joined by one dash are a slug, so trimming keeps them |
| Slugs.SlugifyJoinsWords | src/lib/utils.ts:54-60 | two words of letters and digits joined by any run of whitespace, `_` and `-` become the two words lower-cased with one dash between them |
| Prompts.MatchesQuery | src/lib/prompts.ts:23-45 | only published rows match; a query without category, tier, featured or search matches exactly the published rows |
| Prompts.Where | src/lib/prompts.ts:23-45 | the `where` clause keeps each matching row as often as it occurs in the table and drops every other row; only matching rows are kept |
| Prompts.WhereAppend | src/lib/prompts.ts:23-45 | the rows selected from two tables in a row are those selected from each, in table order |
| Prompts.WhereSingleton | src/lib/prompts.ts:23-45 | one row is selected exactly when it passes the `where` clause |
| Prompts.UnknownTierSelectsNothing | src/lib/prompts.ts:31-33 | a non-empty `tier` that names no tier selects no row |
| Prompts.GetPrompts | src/lib/prompts.ts:8-65 | `total` counts all matching rows; the page is the `skip`/`take` window of the matching rows, 50 rows from offset 0 by default |
| Prompts.GetPromptsReturnsMatches | src/lib/prompts.ts:23-62 | every prompt on the page is published and passes every filter that was given |
| Prompts.TotalIgnoresPaging | src/lib/prompts.ts:47-62 | `total` does not depend on `limit` or `offset` |
| Prompts.WhereDependsOnFiltersOnly | src/lib/prompts.ts:23-45 | two queries that accept the same prompts select the same rows |
| Prompts.FindFirstPurchase | src/lib/prompts.ts:194-199 | finds a purchase row of the user for the pack exactly when such a row exists; the model takes the earliest in insertion order |
| Prompts.CheckUserHasAccess | src/lib/prompts.ts:168-207 | free prompts are open to all; paid ones are closed to signed-out callers, and open to a signed-in user if and only if the user has an active premium subscription or bought the prompt's pack |
| Prompts.SubscriptionOpensEverything | src/lib/prompts.ts:183-190 | an active premium subscription opens every prompt |
| Prompts.InactivePremiumFallsThrough | src/lib/prompts.ts:188-206 | a premium tier whose status is not `active` counts for nothing, and only the pack check is left |
| Prompts.PacklessPromptNeedsSubscription | src/lib/prompts.ts:168-207 | a paid prompt in no pack is open exactly to signed-in subscribers |
| Prompts.UnrelatedPurchasesGrantNothing | src/lib/prompts.ts:192-204 | purchase rows of other users, or for other packs, never change the decision |
| Stripe.EnvOrEmpty | src/lib/stripe.ts:13-18 | an unset variable reads as the empty string, and a set one as its value |
| Stripe.PriceIdsFromEnv | src/lib/stripe.ts:12-19 | each price id is its environment variable, or the empty string when that is unset |
| Stripe.CheckoutSessionParamsFor | src/lib/stripe.ts:21-49 | the session is a subscription if and only if the price is the monthly premium price; it holds one line item of that price with quantity 1, card payment, the caller's e-mail, reference and metadata, and the dashboard and pricing return URLs |
| Stripe.OneTimePricesArePayments | src/lib/stripe.ts:12-33 | a pack price or the lifetime price is charged as a one-time payment unless it is configured equal to the monthly price |
| Stripe.AppUrl | src/lib/stripe.ts:44-54 | the base of the return URLs is `NEXTAUTH_URL` when it is set, and the text `undefined` that template interpolation gives when it is not |
| Stripe.PortalSessionParamsFor | src/lib/stripe.ts:51-58 | the portal session is for the given customer and returns to the dashboard |
| CheckoutRoute.CheckoutMetadata | src/app/api/stripe/checkout/route.ts:30-34 | the metadata always holds the user id; it holds the pack id and the subscription type exactly when they are non-empty, and nothing else |
| CheckoutRoute.Post | src/app/api/stripe/checkout/route.ts:5-45 | 401 for signed-out callers, 500 if the session lookup or body parse throws, and 400 without a price; a request is sent if and only if all guards pass, for the caller and that price; the reply's URL is returned, or 500 if the processor fails |
| WebhookRoute.PurchaseFor | src/app/api/stripe/webhook/route.ts:40-49 | the purchase row holds the user, the pack and subscription type (or null when empty), the payment intent, and the amount (0 when missing) |
| WebhookRoute.RecordCustomer | src/app/api/stripe/webhook/route.ts:51-62 | the user update succeeds if and only if the user exists and no other user holds the customer id; it stores the customer id, activates premium exactly for a subscription checkout, and changes no other user |
| WebhookRoute.CompleteCheckout | src/app/api/stripe/webhook/route.ts:29-66 | without a user id it fails and changes nothing; otherwise it appends exactly one purchase row, records the customer, and activates a subscription only when the metadata names one; a failed user update leaves the row appended and answers 500; the customer-id index stays unique |
| WebhookRoute.UserByCustomer | src/app/api/stripe/webhook/route.ts:72-74 | finds the user holding the customer id, or reports that none does |
| WebhookRoute.SyncSubscription | src/app/api/stripe/webhook/route.ts:68-87 | the user holding the customer id gets the event's status, and tier premium exactly when the status is `active` (else null); all other rows, and the whole store for an unknown customer, stay unchanged |
| WebhookRoute.HandleWebhook | src/app/api/stripe/webhook/route.ts:7-98 | a bad signature answers 400 and changes nothing; a validly signed event of a type the route does not handle answers 200 `received` and changes nothing; purchase rows are only appended, at most one per delivery; no user row is added or removed |
| WebhookRoute.RedeliveredCheckoutAppendsTwice | src/app/api/stripe/webhook/route.ts:29-49 | delivering the same completed checkout twice inserts two identical purchase rows, since nothing detects the repeat |
| Seed.AssignedPack | prisma/seed.ts:78-92 | starter prompts go to the starter pack; pro prompts go to the pack of coding, writing, or business and research; free prompts and other pro categories get no pack |
| Seed.NewPack | prisma/seed.ts:13-20 | a pack created by an upsert takes its slug, name, description and price from the seed's `create` data, is featured and published, and has the id the database gives it |
| Seed.Upsert | prisma/seed.ts:10-21 | an existing slug returns the stored pack untouched (`update: {}`); a new slug is created from the `create` data |
| Seed.UpsertKey | prisma/seed.ts:10-60 | one pack upsert adds its slug, keeps every existing pack, and creates the pack with the new id when its slug is new |
| Seed.UpsertPacks | prisma/seed.ts:10-60 | the upserts add exactly the pack slugs, keep every existing pack, and create each missing pack from its `create` data |
| Seed.SlugsOfCons | prisma/seed.ts:10-60 | the slugs of a list of packs are the first pack's slug plus the slugs of the rest |
| Seed.UpsertStepCreates | prisma/seed.ts:10-60 | a pack created by one upsert survives the later ones, which use other slugs |
| Seed.AllPacksUpserted | prisma/seed.ts:9-70 | after the four upserts every pack slug is present, and the missing ones are created with their name, description, price, and featured and published flags |
| Seed.SeededSlugs | prisma/seed.ts:11-50 | the seed's pack slugs are `starter-pack`, `pro-coding-pack`, `complete-writing-pack` and `business-bundle` |
| Seed.SeededPrompt | prisma/seed.ts:94-112 | a seeded prompt is published in the given pack; it copies its entry's title, description, content, category, tags, platforms, tier and featured flag; it takes the entry's variables, or `[]` when they are missing, and its subcategory, or null when that is missing or empty |
| Seed.SeedPackId | prisma/seed.ts:64-92 | a prompt's pack id is null exactly when no pack is assigned, and otherwise is the stored id of the assigned pack |
| Seed.SeedPrompts | prisma/seed.ts:72-115 | the prompt table is rebuilt with one published prompt per entry, in entry order: the prompt at each position copies that entry's title, description, content, category, tags, platforms, tier and featured flag, takes its variables or `[]`, its subcategory or null, and has the pack id its tier and category select |
| Seed.RunSeed | prisma/seed.ts:6-115 | existing packs keep their ids and data; missing packs are created with the new ids and their prices; the prompt table is exactly the one `SeedPrompts` builds from the entries and the upserted packs |
| Seed.SeededPromptPack | prisma/seed.ts:64-105 | each seeded prompt is in the pack its tier and category select, under that pack's stored id |
| Seed.UpsertExistingIsIdentity | prisma/seed.ts:10-60 | upserting packs that all exist leaves the pack table as it was |
| Seed.ReseedIsStable | prisma/seed.ts:6-115 | running the seed a second time leaves the catalog equal, on the modelled fields, to what the first run left |
| Scenarios.CompletedSession | src/app/api/stripe/webhook/route.ts:30-34 | the completed session carries the metadata of the checkout request and the processor's customer |
| Scenarios.PackCheckoutUnlocksPack | src/app/api/stripe/checkout/route.ts:26-35 | a signed-in user who checks out a pack, and whose payment completes, can open every paid prompt of that pack, even when the user row update fails |
| Scenarios.CheckoutKeepsSubscription | src/app/api/stripe/webhook/route.ts:51-62 | a completed checkout never ends anyone's active subscription |
| Scenarios.CheckoutNeverRevokesAccess | src/app/api/stripe/webhook/route.ts:29-66 | a completed checkout never takes away anyone's access to any prompt |
| Scenarios.SubscriptionEndFallsBackToPacks | src/app/api/stripe/webhook/route.ts:51-84 | a subscription checkout activates premium; deleting the subscription with a non-active status ends it, leaving access only to the packs the user bought |
| Scenarios.SameSubscribersSameAccess | src/lib/prompts.ts:168-207 | the access decision depends only on who is subscribed and on the purchase rows |
| Scenarios.PriceOnlyCheckoutGrantsNothing | src/app/api/stripe/checkout/route.ts:17-34 | a checkout whose body names only a price records a payment but changes no access decision |
| Scenarios.SeededUnpackedProPromptNeedsSubscription | prisma/seed.ts:82-92 | a seeded pro prompt outside coding, writing, business and research opens only to subscribers |
| Scenarios.StarterPackOpensSeededStarterPrompts | prisma/seed.ts:82-83 | a user who bought the starter pack, under the id the seed stored for it, can open every seeded starter prompt |

## Left out

- `cn`, `formatPrice` and `formatDate` in `src/lib/utils.ts`. They are class-name merging and `Intl` formatting, which lie outside this model.
- Slugs.Slugify: requires ASCII input. JavaScript's Unicode `toLowerCase` is not modelled, and neither are non-ASCII characters in `\s`.
- Templates.Truncate: takes a non-negative `length`. `slice` with a negative end counts from the end of the string, and that case is not modelled. Lengths are counted in UTF-16 code units, as JavaScript does.
- Templates.FillTemplate: requires keys made of `\w` characters and values without `$`. Other keys would be read as regular-expression syntax, and `$` patterns in values as replacement patterns; neither is modelled. The entries are given as a sequence, so the key order of `Object.entries` (integer-like keys first) is not modelled.
- Templates.FillTemplate: its own contract states only the empty case. The behaviour is stated by the lemmas listed above.
- Prompts.GetPrompts: the table is assumed to be given already sorted by the query's `orderBy` (featured, rating, creation time). Ratings, timestamps and the pack `include` are not modelled.
- Prompts.GetPrompts: `limit` and `offset` are modelled as non-negative integers. The prompts route passes them through `parseInt`, so a negative number or `NaN` can reach `take` and `skip`; a negative `take` counts from the end and `NaN` is rejected by the client, and neither is modelled.
- Prompts.MatchesQuery: the `tier` filter is compared with the tier's name as a string column. If the column were a database enum, an unknown name would be rejected by the client instead of selecting nothing; the schema is not part of this model.
- Prompts.ContainsIgnoringCase: the database's case-insensitive `contains` is modelled as ASCII lower-casing.
- WebhookRoute.HandleWebhook: the signature check is a boolean input. The HMAC computation, `STRIPE_WEBHOOK_SECRET` and the request headers are not modelled.
- WebhookRoute.CompleteCheckout: the purchase insert always succeeds. The database schema is not part of this model, so no foreign-key failure is modelled.
- WebhookRoute.HandleWebhook: does not claim idempotence. The source has no such check, and `RedeliveredCheckoutAppendsTwice` states what happens instead.
- Deliveries are handled one at a time, so concurrent requests and transactions are not modelled.
- The module-load throw when `STRIPE_SECRET_KEY` is unset, the processor's API version, and the network calls are not modelled. The processor's reply is a parameter.
- CheckoutRoute.Post: body fields are optional strings. Non-string JSON values, such as numbers or objects given as `priceId`, are not modelled. A missing e-mail is passed on as missing, following the non-null assertion at run time.
- The seed's random `copyCount`, `viewCount` and `rating` are not modelled. Neither are the console output and the per-pack counts printed after seeding, which change nothing.
- Seed.ReseedIsStable: prompts have no id and no `createdAt` in the model. Each run deletes every prompt row and creates new rows, with new ids and creation times, so references to the old rows do not survive a re-seed. The equality holds only on the modelled fields.
- Seed.RunSeed: every database call succeeds. In the source a failing upsert, delete or insert rejects `main`, which exits after a partial seed; that is not modelled.
- The seed entries' `tier` is one of `free`, `starter` and `pro`. Other strings are not modelled.
- The portal route, the prompts routes and the pages call into the core but are not part of it.
