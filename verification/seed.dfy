/**
 * prisma/seed.ts: create the four packs if their slugs are new, wipe the prompt
 * table, and insert one prompt per seed entry, in the pack its tier and
 * category select.
 */
module Seed {
  import opened Wrappers
  import opened Schema

  datatype PackKey = StarterPack | ProCodingPack | WritingPack | BusinessBundle

  /**
   * The pack-assignment rule of the seeding loop: starter prompts go to the
   * starter pack, pro prompts to the pack of their category when it has one,
   * free prompts nowhere.
   */
  function AssignedPack(tier: Tier, category: string): (key: Option<PackKey>)
    ensures key == Some(StarterPack) <==> tier == Starter
    ensures key.Some? && key.value != StarterPack ==> tier == Pro
    ensures tier == Free ==> key.None?
    ensures key == Some(ProCodingPack) ==> category == "coding"
    ensures key == Some(WritingPack) ==> category == "writing"
    ensures key == Some(BusinessBundle) ==> category == "business" || category == "research"
    ensures tier == Pro ==> (key.None? <==> category !in {"coding", "writing", "business", "research"})
  {
    match tier
    case Starter => Some(StarterPack)
    case Pro =>
      if category == "coding" then Some(ProCodingPack)
      else if category == "writing" then Some(WritingPack)
      else if category == "business" || category == "research" then Some(BusinessBundle)
      else None
    case Free => None
  }

  datatype Pack = Pack(id: string, name: string, description: string, slug: string, price: nat, featured: bool, published: bool)

  function PackSlug(key: PackKey): string {
    match key
    case StarterPack => "starter-pack"
    case ProCodingPack => "pro-coding-pack"
    case WritingPack => "complete-writing-pack"
    case BusinessBundle => "business-bundle"
  }

  lemma PackSlugsDistinct(a: PackKey, b: PackKey)
    ensures PackSlug(a) == PackSlug(b) ==> a == b
  {
  }

  function PackName(key: PackKey): string {
    match key
    case StarterPack => "Starter Pack"
    case ProCodingPack => "Pro Coding Pack"
    case WritingPack => "Complete Writing Pack"
    case BusinessBundle => "Business Bundle"
  }

  function PackDescription(key: PackKey): string {
    match key
    case StarterPack => "15 essential prompts for developers and content creators"
    case ProCodingPack => "Advanced prompts for software development, architecture, and code quality"
    case WritingPack => "Professional writing prompts for blogs, emails, social media, and more"
    case BusinessBundle => "Strategic business prompts for planning, analysis, and decision making"
  }

  /** Price in cents. */
  function PackPrice(key: PackKey): nat {
    match key
    case StarterPack => 900
    case ProCodingPack => 2900
    case WritingPack => 2900
    case BusinessBundle => 4900
  }

  /** The `create` data of a pack's upsert; `id` is the identifier the database assigns. */
  function NewPack(key: PackKey, id: string): (p: Pack)
    ensures p.id == id && p.slug == PackSlug(key) && p.price == PackPrice(key)
    ensures p.name == PackName(key) && p.description == PackDescription(key)
    ensures p.featured && p.published
  {
    Pack(id, PackName(key), PackDescription(key), PackSlug(key), PackPrice(key), true, true)
  }

  /** `prisma.promptPack.upsert({ where: { slug }, update: {}, create })` on the pack table keyed by slug. */
  function Upsert(packs: map<string, Pack>, create: Pack): (r: (map<string, Pack>, Pack))
    ensures create.slug in packs ==> r.0 == packs && r.1 == packs[create.slug]
    ensures create.slug !in packs ==> r.0 == packs[create.slug := create] && r.1 == create
    ensures create.slug in r.0 && r.0[create.slug] == r.1
  {
    if create.slug in packs then (packs, packs[create.slug]) else (packs[create.slug := create], create)
  }

  /** The upsert of one pack, created with `id` if its slug is new. */
  function UpsertKey(packs: map<string, Pack>, key: PackKey, id: string): (r: map<string, Pack>)
    ensures r.Keys == packs.Keys + {PackSlug(key)}
    ensures forall slug :: slug in packs ==> r[slug] == packs[slug]
    ensures PackSlug(key) !in packs ==> r[PackSlug(key)] == NewPack(key, id)
  {
    Upsert(packs, NewPack(key, id)).0
  }

  /** The upsert order of `main`. */
  const PackOrder: seq<PackKey> := [StarterPack, ProCodingPack, WritingPack, BusinessBundle]

  function SlugsOf(keys: seq<PackKey>): set<string> {
    set key | key in keys :: PackSlug(key)
  }

  /** Upserts the packs of `keys` in order; a pack whose slug is new gets the identifier `newIds` gives it. */
  function UpsertPacks(packs: map<string, Pack>, keys: seq<PackKey>, newIds: PackKey -> string): (r: map<string, Pack>)
    ensures r.Keys == packs.Keys + SlugsOf(keys)
    ensures forall slug :: slug in packs ==> r[slug] == packs[slug]
    ensures forall key :: key in keys && PackSlug(key) !in packs ==> r[PackSlug(key)] == NewPack(key, newIds(key))
    decreases |keys|
  {
    if keys == [] then packs
    else
      var first := UpsertKey(packs, keys[0], newIds(keys[0]));
      var r := UpsertPacks(first, keys[1..], newIds);
      UpsertStepCreates(packs, first, r, keys, newIds);
      r
  }

  lemma SlugsOfCons(keys: seq<PackKey>)
    requires keys != []
    ensures SlugsOf(keys) == {PackSlug(keys[0])} + SlugsOf(keys[1..])
  {
    forall slug | slug in SlugsOf(keys)
      ensures slug in {PackSlug(keys[0])} + SlugsOf(keys[1..])
    {
      var key :| key in keys && PackSlug(key) == slug;
      if key != keys[0] {
        var i :| 0 <= i < |keys| && keys[i] == key;
        assert keys[1..][i - 1] == key;
      }
    }
  }

  /** A pack created by the first upsert survives the rest; a later new slug is not the first one's. */
  lemma UpsertStepCreates(packs: map<string, Pack>, first: map<string, Pack>, r: map<string, Pack>,
                          keys: seq<PackKey>, newIds: PackKey -> string)
    requires keys != []
    requires first == UpsertKey(packs, keys[0], newIds(keys[0]))
    requires r.Keys == first.Keys + SlugsOf(keys[1..])
    requires forall slug :: slug in first ==> r[slug] == first[slug]
    requires forall key :: key in keys[1..] && PackSlug(key) !in first ==> r[PackSlug(key)] == NewPack(key, newIds(key))
    ensures r.Keys == packs.Keys + SlugsOf(keys)
    ensures forall key :: key in keys && PackSlug(key) !in packs ==> r[PackSlug(key)] == NewPack(key, newIds(key))
  {
    SlugsOfCons(keys);
    forall key | key in keys && PackSlug(key) !in packs
      ensures r[PackSlug(key)] == NewPack(key, newIds(key))
    {
      if PackSlug(key) in first {
        PackSlugsDistinct(key, keys[0]);
      } else {
        var i :| 0 <= i < |keys| && keys[i] == key;
        assert keys[1..][i - 1] == key;
      }
    }
  }

  /** Every pack slug is in the table. */
  predicate HasAllPacks(packs: map<string, Pack>) {
    forall key :: PackSlug(key) in packs
  }

  /** The packs `after` holds under slugs `before` lacked are the ones created with `newIds`. */
  predicate CreatedMissingPacks(before: map<string, Pack>, after: map<string, Pack>, newIds: PackKey -> string)
    requires HasAllPacks(after)
  {
    forall key :: PackSlug(key) !in before ==> after[PackSlug(key)] == NewPack(key, newIds(key))
  }

  lemma InPackOrder(key: PackKey)
    ensures key in PackOrder
  {
    match key
    case StarterPack => assert PackOrder[0] == key;
    case ProCodingPack => assert PackOrder[1] == key;
    case WritingPack => assert PackOrder[2] == key;
    case BusinessBundle => assert PackOrder[3] == key;
  }

  lemma AllPacksUpserted(packs: map<string, Pack>, newIds: PackKey -> string)
    ensures HasAllPacks(UpsertPacks(packs, PackOrder, newIds))
    ensures CreatedMissingPacks(packs, UpsertPacks(packs, PackOrder, newIds), newIds)
  {
    var r := UpsertPacks(packs, PackOrder, newIds);
    forall key
      ensures PackSlug(key) in r
      ensures PackSlug(key) !in packs ==> r[PackSlug(key)] == NewPack(key, newIds(key))
    {
      InPackOrder(key);
      assert PackSlug(key) in SlugsOf(PackOrder);
    }
  }

  /** The pack slugs the seed creates. */
  lemma SeededSlugs()
    ensures SlugsOf(PackOrder) == {"starter-pack", "pro-coding-pack", "complete-writing-pack", "business-bundle"}
  {
    forall key
      ensures PackSlug(key) in SlugsOf(PackOrder)
    {
      InPackOrder(key);
    }
    assert PackSlug(StarterPack) == "starter-pack";
    assert PackSlug(ProCodingPack) == "pro-coding-pack";
    assert PackSlug(WritingPack) == "complete-writing-pack";
    assert PackSlug(BusinessBundle) == "business-bundle";
  }

  /** One object of `seed-prompts.json`. */
  datatype SeedEntry = SeedEntry(
    title: string,
    description: string,
    content: string,
    variables: Option<seq<string>>,
    category: string,
    subcategory: Option<string>,
    tags: seq<string>,
    platforms: seq<string>,
    tier: Tier,
    featured: bool)

  /** The `prisma.prompt.create` data for one entry (counters and rating are left out). */
  function SeededPrompt(entry: SeedEntry, packId: Option<string>): (p: Prompt)
    ensures p.packId == packId && p.published
    ensures p.title == entry.title && p.description == entry.description && p.content == entry.content
    ensures p.tier == entry.tier && p.category == entry.category && p.featured == entry.featured
    ensures p.tags == entry.tags && p.platforms == entry.platforms
    ensures entry.variables.Some? ==> p.variables == entry.variables.value
    ensures entry.variables.None? ==> p.variables == []
    ensures Truthy(entry.subcategory) ==> p.subcategory == entry.subcategory
    ensures !Truthy(entry.subcategory) ==> p.subcategory.None?
  {
    Prompt(entry.title, entry.description, entry.content, entry.variables.GetOr([]), entry.category,
           OrNull(entry.subcategory), entry.tags, entry.platforms, entry.tier, packId, entry.featured, true)
  }

  datatype CatalogDb = CatalogDb(packs: map<string, Pack>, prompts: seq<Prompt>)

  /** `packMap[...]`: the pack a seeded prompt of this tier and category is put in. */
  function SeedPackId(packs: map<string, Pack>, tier: Tier, category: string): (r: Option<string>)
    requires HasAllPacks(packs)
    ensures r.None? <==> AssignedPack(tier, category).None?
    ensures r.Some? ==> r.value == packs[PackSlug(AssignedPack(tier, category).value)].id
  {
    match AssignedPack(tier, category)
    case Some(key) => Some(packs[PackSlug(key)].id)
    case None => None
  }

  /** The loop of `main`: one created prompt per entry, in the entry's order. */
  function SeedPrompts(packs: map<string, Pack>, entries: seq<SeedEntry>): (prompts: seq<Prompt>)
    requires HasAllPacks(packs)
    ensures |prompts| == |entries|
    ensures forall i :: 0 <= i < |entries| ==> prompts[i].published && prompts[i].tier == entries[i].tier
    ensures forall i :: 0 <= i < |entries| ==>
              && prompts[i].title == entries[i].title
              && prompts[i].content == entries[i].content
              && prompts[i].category == entries[i].category
              && prompts[i].packId == SeedPackId(packs, entries[i].tier, entries[i].category)
    ensures forall i :: 0 <= i < |entries| ==>
              && prompts[i].description == entries[i].description
              && prompts[i].tags == entries[i].tags
              && prompts[i].platforms == entries[i].platforms
              && prompts[i].featured == entries[i].featured
              && prompts[i].variables == entries[i].variables.GetOr([])
              && prompts[i].subcategory == OrNull(entries[i].subcategory)
  {
    seq(|entries|, i requires 0 <= i < |entries| =>
      SeededPrompt(entries[i], SeedPackId(packs, entries[i].tier, entries[i].category)))
  }

  /**
   * `main()` of prisma/seed.ts. `newIds` supplies the identifier the database gives
   * a pack it creates. Every existing prompt is deleted before the entries are inserted.
   */
  function RunSeed(db: CatalogDb, entries: seq<SeedEntry>, newIds: PackKey -> string): (seeded: CatalogDb)
    ensures |seeded.prompts| == |entries|
    ensures seeded.packs.Keys == db.packs.Keys + SlugsOf(PackOrder)
    ensures forall slug :: slug in db.packs ==> seeded.packs[slug] == db.packs[slug]
    ensures HasAllPacks(seeded.packs) && CreatedMissingPacks(db.packs, seeded.packs, newIds)
    ensures forall i :: 0 <= i < |entries| ==> seeded.prompts[i].published && seeded.prompts[i].tier == entries[i].tier
    ensures seeded.prompts == SeedPrompts(seeded.packs, entries)
  {
    var packs := UpsertPacks(db.packs, PackOrder, newIds);
    AllPacksUpserted(db.packs, newIds);
    CatalogDb(packs, SeedPrompts(packs, entries))
  }

  /** Each seeded prompt is in the pack its tier and category select, under that pack's stored id. */
  lemma SeededPromptPack(db: CatalogDb, entries: seq<SeedEntry>, newIds: PackKey -> string, i: nat)
    requires i < |entries|
    ensures var seeded := RunSeed(db, entries, newIds);
            && (seeded.prompts[i].packId.None? <==> AssignedPack(entries[i].tier, entries[i].category).None?)
            && (seeded.prompts[i].packId.Some? ==>
                  seeded.prompts[i].packId.value == seeded.packs[PackSlug(AssignedPack(entries[i].tier, entries[i].category).value)].id)
  {
  }

  /** Upserting packs that all exist leaves the table as it was (`update: {}`). */
  lemma UpsertExistingIsIdentity(packs: map<string, Pack>, keys: seq<PackKey>, newIds: PackKey -> string)
    requires HasAllPacks(packs)
    ensures UpsertPacks(packs, keys, newIds) == packs
  {
    var r := UpsertPacks(packs, keys, newIds);
    assert SlugsOf(keys) <= packs.Keys;
    assert r.Keys == packs.Keys;
  }

  /** Seeding again changes nothing: the packs exist, and the prompt table is rebuilt the same way. */
  lemma ReseedIsStable(db: CatalogDb, entries: seq<SeedEntry>, ids1: PackKey -> string, ids2: PackKey -> string)
    ensures RunSeed(RunSeed(db, entries, ids1), entries, ids2) == RunSeed(db, entries, ids1)
  {
    var once := RunSeed(db, entries, ids1);
    UpsertExistingIsIdentity(once.packs, PackOrder, ids2);
    assert once == CatalogDb(once.packs, SeedPrompts(once.packs, entries));
  }
}
