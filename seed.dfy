/**
 * First-run seeding (src/lib/db/seed.ts): when the template table is
 * empty, three starter templates and the default settings are written.
 * The starter templates are those of src/lib/templates/seed.ts. The ids
 * the source draws from `crypto.randomUUID()` and the time it reads from
 * `Date.now()` are parameters here.
 */
module Seed {
  import opened Wrappers
  import opened Schema
  import opened Db

  /** A starter template, before it gets an id and timestamps. */
  datatype SeedTemplate = SeedTemplate(name: string, category: Category, content: string)

  const SEED_TEMPLATES: seq<SeedTemplate> := [
    SeedTemplate(
      "Receipt - Simple",
      Receipt,
      "Thanks {guest} \U{2728}\nOrder: {items}\nTotal: {total} gil\nPay to: {pay_to}"),
    SeedTemplate(
      "Event - PF Listing",
      Event,
      "{venue} | {time} | {world}\nVibe: {vibe}\nCome chill \U{2728}"),
    SeedTemplate(
      "RP - Greeting",
      Rp,
      "*smiles softly* Welcome to {venue}, {guest}. Make yourself comfortable \U{2728}")
  ]

  /** The stored record made from a starter template: not a favourite, created and updated now. */
  function FromSeed(s: SeedTemplate, id: string, now: int): Template {
    Template(id, s.name, s.category, s.content, false, now, now)
  }

  predicate Distinct(ids: seq<string>) {
    forall i, j :: 0 <= i < j < |ids| ==> ids[i] != ids[j]
  }

  /** The table after the first `|ids|` starter templates are added, under those ids, to an empty table. */
  function Seeded(ids: seq<string>, now: int): map<string, Template>
    requires |ids| <= |SEED_TEMPLATES|
  {
    if ids == [] then map[]
    else
      var n := |ids| - 1;
      Seeded(ids[..n], now)[ids[n] := FromSeed(SEED_TEMPLATES[n], ids[n], now)]
  }

  /** The table holds exactly the given ids as keys. */
  lemma {:induction false} SeededKeys(ids: seq<string>, now: int)
    requires |ids| <= |SEED_TEMPLATES|
    ensures forall k :: k in Seeded(ids, now) <==> k in ids
    decreases |ids|
  {
    if ids != [] {
      var n := |ids| - 1;
      var init := ids[..n];
      SeededKeys(init, now);
      forall k | k in ids ensures k in init || k == ids[n] {
        var i :| 0 <= i < |ids| && ids[i] == k;
        if i < n {
          assert init[i] == k;
        }
      }
      forall k | k in init ensures k in ids {
        var i :| 0 <= i < n && init[i] == k;
        assert ids[i] == k;
      }
    }
  }

  /** With distinct ids, each starter template is stored under its own id. */
  lemma {:induction false} SeededValues(ids: seq<string>, now: int)
    requires |ids| <= |SEED_TEMPLATES| && Distinct(ids)
    ensures forall i :: 0 <= i < |ids| ==> ids[i] in Seeded(ids, now) && Seeded(ids, now)[ids[i]] == FromSeed(SEED_TEMPLATES[i], ids[i], now)
    decreases |ids|
  {
    if ids != [] {
      var n := |ids| - 1;
      var init := ids[..n];
      assert Distinct(init) by {
        forall i, j | 0 <= i < j < n ensures init[i] != init[j] {
          assert init[i] == ids[i] && init[j] == ids[j];
        }
      }
      SeededValues(init, now);
      forall i | 0 <= i < n
        ensures ids[i] in Seeded(ids, now) && Seeded(ids, now)[ids[i]] == FromSeed(SEED_TEMPLATES[i], ids[i], now)
      {
        assert ids[i] == init[i] && ids[i] != ids[n];
      }
    }
  }

  /** With distinct ids, the table holds as many templates as there are ids. */
  lemma {:induction false} SeededSize(ids: seq<string>, now: int)
    requires |ids| <= |SEED_TEMPLATES| && Distinct(ids)
    ensures |Seeded(ids, now)| == |ids|
    decreases |ids|
  {
    if ids != [] {
      var n := |ids| - 1;
      var init := ids[..n];
      assert Distinct(init) by {
        forall i, j | 0 <= i < j < n ensures init[i] != init[j] {
          assert init[i] == ids[i] && init[j] == ids[j];
        }
      }
      SeededSize(init, now);
      SeededKeys(init, now);
      assert ids[n] !in init by {
        forall i | 0 <= i < n ensures init[i] != ids[n] {
          assert init[i] == ids[i];
        }
      }
    }
  }

  /** With distinct ids, each starter template is stored under its own id, and nothing else is stored. */
  lemma SeededHoldsEachSeed(ids: seq<string>, now: int)
    requires |ids| <= |SEED_TEMPLATES| && Distinct(ids)
    ensures forall k :: k in Seeded(ids, now) <==> k in ids
    ensures forall i :: 0 <= i < |ids| ==> Seeded(ids, now)[ids[i]] == FromSeed(SEED_TEMPLATES[i], ids[i], now)
    ensures |Seeded(ids, now)| == |ids|
    ensures KeyedById(Seeded(ids, now))
  {
    SeededKeys(ids, now);
    SeededValues(ids, now);
    SeededSize(ids, now);
    forall k | k in Seeded(ids, now) ensures Seeded(ids, now)[k].id == k {
      var i :| 0 <= i < |ids| && ids[i] == k;
    }
  }

  /** Every starter template satisfies the template schema. */
  lemma SeedsAreValid(id: string, now: int)
    ensures forall i :: 0 <= i < |SEED_TEMPLATES| ==> ValidTemplate(FromSeed(SEED_TEMPLATES[i], id, now))
  {
    assert |SEED_TEMPLATES[0].name| == 16 && |SEED_TEMPLATES[0].content| == 67;
    assert |SEED_TEMPLATES[1].name| == 18 && |SEED_TEMPLATES[1].content| == 52;
    assert |SEED_TEMPLATES[2].name| == 13 && |SEED_TEMPLATES[2].content| == 72;
  }

  /**
   * Seeds an empty database: the three starter templates under the fresh
   * ids `ids`, and the default settings, which replace any stored settings.
   * A database that holds any template is left alone, so seeding twice is
   * seeding once.
   */
  method EnsureSeeded(db: TemplateDb, ids: seq<string>, now: int)
    requires db.Valid()
    requires |ids| == |SEED_TEMPLATES| && Distinct(ids)
    modifies db
    ensures db.Valid()
    ensures old(db.templates) != map[] ==> db.templates == old(db.templates) && db.settings == old(db.settings)
    ensures old(db.templates) == map[] ==> db.templates == Seeded(ids, now) && db.settings == Some(DEFAULT_SETTINGS)
    ensures |db.templates| > 0
    ensures forall k :: k in db.templates && k !in old(db.templates) ==> ValidTemplate(db.templates[k])
  {
    if |db.templates| > 0 {
      return;
    }
    SeededHoldsEachSeed(ids, now);
    SeedsAreValid("", now);
    forall k | k in Seeded(ids, now)
      ensures ValidTemplate(Seeded(ids, now)[k])
    {
      var i :| 0 <= i < |ids| && ids[i] == k;
      SeedsAreValid(k, now);
    }
    db.templates := Seeded(ids, now);
    db.settings := Some(DEFAULT_SETTINGS);
  }
}
