/**
 * Importing an exported template collection into the database
 * (src/lib/db/import_export.ts): a last-write-wins merge keyed by template
 * id.
 *
 * The payload comes from a parsed JSON file and is untyped. The envelope's
 * four fields and, in each incoming record, the `id` and the two timestamps
 * are therefore JavaScript values of any type; the other fields of an
 * incoming record have the types of a template.
 */
module ImportExport {
  import opened Wrappers
  import opened Schema
  import opened Db

  const EXPORT_SCHEMA := "aetherkit.templates.export"
  const INVALID_IMPORT := "Invalid import file (expected AetherKit export v1)."

  /** An entry of the payload's `templates` array. An entry that is not an object has no `id`. */
  datatype Incoming = Incoming(
    id: Value,
    name: string,
    category: Category,
    content: string,
    favorite: bool,
    createdAt: Value,
    updatedAt: Value)

  /** The parsed payload: not an object at all, or an object with these four properties (`templates` is `None` when it is not an array). */
  datatype Envelope =
    | NotAnObject
    | Envelope(schema: Value, version: Value, exportedAt: Value, templates: Option<seq<Incoming>>)

  /** The shape of an export, version 1. */
  predicate IsExportV1(x: Envelope) {
    && x.Envelope?
    && x.schema == Str(EXPORT_SCHEMA)
    && x.version == Num(1)
    && x.exportedAt.Str?
    && x.templates.Some?
  }

  datatype ImportResult = ImportResult(inserted: nat, updated: nat, keptLocal: nat, skipped: nat) {
    function Total(): nat { inserted + updated + keptLocal + skipped }
  }

  const NOTHING_IMPORTED := ImportResult(0, 0, 0, 0)

  /** What happened to one incoming record. */
  datatype Outcome = Inserted | Updated | KeptLocal | Skipped

  /** The counts after one more record: the counter of its outcome goes up by one, and the other three stay. */
  function Tally(c: ImportResult, o: Outcome): (r: ImportResult)
    ensures r.inserted == c.inserted + (if o == Inserted then 1 else 0)
    ensures r.updated == c.updated + (if o == Updated then 1 else 0)
    ensures r.keptLocal == c.keptLocal + (if o == KeptLocal then 1 else 0)
    ensures r.skipped == c.skipped + (if o == Skipped then 1 else 0)
    ensures r.Total() == c.Total() + 1
  {
    match o
    case Inserted => c.(inserted := c.inserted + 1)
    case Updated => c.(updated := c.updated + 1)
    case KeptLocal => c.(keptLocal := c.keptLocal + 1)
    case Skipped => c.(skipped := c.skipped + 1)
  }

  // ------------------------------------------------------------- timestamps

  /** A timestamp as the comparison sees it: a number, and 0 for anything else. */
  function NumberOr0(v: Value): int {
    if v.Num? then v.n else 0
  }

  /** The timestamps of a possibly partial record; absent is `Missing`. */
  datatype Stamps = Stamps(createdAt: Value, updatedAt: Value)

  function StampsOf(e: Incoming): Stamps {
    Stamps(e.createdAt, e.updatedAt)
  }

  function StoredStamps(t: Template): Stamps {
    Stamps(Num(t.createdAt), Num(t.updatedAt))
  }

  /**
   * The timestamp a record is compared by: its update time if that is a
   * non-zero number, else its creation time if that is a non-zero number,
   * else 0, which is also the timestamp of no record at all. It is a fallback
   * chain, not a maximum.
   */
  function TsOf(t: Option<Stamps>): (ts: int)
    ensures t.None? ==> ts == 0
    ensures t.Some? && t.value.updatedAt.Num? && t.value.updatedAt.n != 0 ==> ts == t.value.updatedAt.n
    ensures t.Some? && !(t.value.updatedAt.Num? && t.value.updatedAt.n != 0) ==> ts == NumberOr0(t.value.createdAt)
  {
    if t.None? then 0
    else
      var u := NumberOr0(t.value.updatedAt);
      var c := NumberOr0(t.value.createdAt);
      if u != 0 then u else if c != 0 then c else 0
  }

  /** An older non-zero update time wins over a newer creation time. */
  lemma TsOfIsNotAMaximum(c: int, u: int)
    requires u != 0 && u < c
    ensures TsOf(Some(Stamps(Num(c), Num(u)))) == u
  {
  }

  // ------------------------------------------------------------ one record

  /** An incoming record is imported only with a non-empty string id. */
  predicate HasUsableId(e: Incoming) {
    e.id.Str? && e.id.s != ""
  }

  /** A timestamp the typed table can hold after `?? now`: a number, null or absent. */
  predicate Storable(v: Value) {
    v.Num? || v.Null? || v == Missing
  }

  /** Every record that may be written carries storable timestamps. */
  predicate StorableEntries(es: seq<Incoming>) {
    forall i :: 0 <= i < |es| && HasUsableId(es[i]) ==> Storable(es[i].createdAt) && Storable(es[i].updatedAt)
  }

  /** `v ?? now` for a storable timestamp. */
  function OrNow(v: Value, now: int): int
    requires Storable(v)
  {
    if v.Num? then v.n else now
  }

  /** The record inserted for an id not yet in the table: the incoming record, with its missing or null timestamps set to now. */
  function NewRecord(e: Incoming, now: int): (t: Template)
    requires HasUsableId(e) && Storable(e.createdAt) && Storable(e.updatedAt)
    ensures t.id == e.id.s
    ensures e.createdAt.Num? ==> t.createdAt == e.createdAt.n
    ensures e.updatedAt.Num? ==> t.updatedAt == e.updatedAt.n
  {
    Template(e.id.s, e.name, e.category, e.content, e.favorite, OrNow(e.createdAt, now), OrNow(e.updatedAt, now))
  }

  /**
   * The record that replaces an older stored one: the incoming fields over
   * the stored ones, keeping the stored creation time; the update time is the
   * incoming one, or now.
   */
  function Overwrite(existing: Template, e: Incoming, now: int): (t: Template)
    requires HasUsableId(e) && Storable(e.updatedAt)
    ensures t.createdAt == existing.createdAt
  {
    Template(e.id.s, e.name, e.category, e.content, e.favorite, existing.createdAt, OrNow(e.updatedAt, now))
  }

  /** The effect of one incoming record on the table, and its outcome. */
  function Step(store: map<string, Template>, e: Incoming, now: int): (map<string, Template>, Outcome)
    requires HasUsableId(e) ==> Storable(e.createdAt) && Storable(e.updatedAt)
  {
    if !HasUsableId(e) then (store, Skipped)
    else if e.id.s !in store then (store[e.id.s := NewRecord(e, now)], Inserted)
    else
      var existing := store[e.id.s];
      var localTs := TsOf(Some(StoredStamps(existing)));
      var incomingTs := TsOf(Some(StampsOf(e)));
      if incomingTs > localTs then (store[e.id.s := Overwrite(existing, e, now)], Updated)
      else if localTs > incomingTs then (store, KeptLocal)
      else (store, Skipped)
  }

  /** One record either is skipped untouched, inserted, or compared by timestamp against the stored one. */
  lemma {:induction false} StepCases(store: map<string, Template>, e: Incoming, now: int)
    requires HasUsableId(e) ==> Storable(e.createdAt) && Storable(e.updatedAt)
    ensures var (after, o) := Step(store, e, now);
      && (!HasUsableId(e) ==> o == Skipped && after == store)
      && (HasUsableId(e) && e.id.s !in store ==> o == Inserted && after == store[e.id.s := NewRecord(e, now)])
      && (HasUsableId(e) && e.id.s in store ==>
            var local, incoming := TsOf(Some(StoredStamps(store[e.id.s]))), TsOf(Some(StampsOf(e)));
            && (incoming > local <==> o == Updated)
            && (o == Updated ==> after == store[e.id.s := Overwrite(store[e.id.s], e, now)])
            && (local > incoming <==> o == KeptLocal)
            && (local == incoming <==> o == Skipped)
            && (o != Updated ==> after == store))
  {
  }

  /** One record changes at most the entry under its own id, and deletes nothing. */
  lemma StepFrame(store: map<string, Template>, e: Incoming, now: int, k: string)
    requires HasUsableId(e) ==> Storable(e.createdAt) && Storable(e.updatedAt)
    ensures k in store ==> k in Step(store, e, now).0
    ensures !(HasUsableId(e) && e.id.s == k) ==>
      && (k in Step(store, e, now).0 <==> k in store)
      && (k in store ==> Step(store, e, now).0[k] == store[k])
  {
  }

  // ------------------------------------------------------------- the merge

  /** The table and the counts after importing the records `es` in order. */
  function MergeAll(store: map<string, Template>, es: seq<Incoming>, now: int): (r: (map<string, Template>, ImportResult))
    requires StorableEntries(es)
    decreases |es|
  {
    if es == [] then (store, NOTHING_IMPORTED)
    else
      var before := MergeAll(store, es[..|es| - 1], now);
      var step := Step(before.0, es[|es| - 1], now);
      (step.0, Tally(before.1, step.1))
  }

  /** Exactly one counter goes up per record: the counts add up to the number of records. */
  lemma {:induction false} MergeCountsEveryRecord(store: map<string, Template>, es: seq<Incoming>, now: int)
    requires StorableEntries(es)
    ensures MergeAll(store, es, now).1.Total() == |es|
    decreases |es|
  {
    if es != [] {
      MergeCountsEveryRecord(store, es[..|es| - 1], now);
    }
  }

  /** The import never deletes a record. */
  lemma {:induction false} MergeNeverDeletes(store: map<string, Template>, es: seq<Incoming>, now: int)
    requires StorableEntries(es)
    ensures store.Keys <= MergeAll(store, es, now).0.Keys
    decreases |es|
  {
    if es != [] {
      var before := MergeAll(store, es[..|es| - 1], now).0;
      MergeNeverDeletes(store, es[..|es| - 1], now);
      forall k | k in before
        ensures k in Step(before, es[|es| - 1], now).0
      {
        StepFrame(before, es[|es| - 1], now, k);
      }
    }
  }

  /** Importing one more record is one more step after the records before it. */
  lemma {:induction false} MergeOneMore(store: map<string, Template>, es: seq<Incoming>, i: nat, now: int)
    requires StorableEntries(es) && i < |es|
    ensures StorableEntries(es[..i]) && StorableEntries(es[..i + 1])
    ensures
      var before := MergeAll(store, es[..i], now);
      var step := Step(before.0, es[i], now);
      MergeAll(store, es[..i + 1], now) == (step.0, Tally(before.1, step.1))
  {
    assert es[..i + 1][..i] == es[..i];
    assert es[..i + 1][i] == es[i];
  }

  /** The ids the records carry. */
  function IdsOf(es: seq<Incoming>): set<string> {
    set i | 0 <= i < |es| && HasUsableId(es[i]) :: es[i].id.s
  }

  /** The import adds and changes only records whose id the payload carries. */
  lemma {:induction false} MergeTouchesOnlyImportedIds(store: map<string, Template>, es: seq<Incoming>, now: int, k: string)
    requires StorableEntries(es) && k !in IdsOf(es)
    ensures k in MergeAll(store, es, now).0 <==> k in store
    ensures k in store ==> MergeAll(store, es, now).0[k] == store[k]
    decreases |es|
  {
    if es != [] {
      var n := |es| - 1;
      var init, last := es[..n], es[n];
      assert IdsOf(init) <= IdsOf(es) by {
        forall i | 0 <= i < |init| && HasUsableId(init[i])
          ensures init[i].id.s in IdsOf(es)
        {
          assert es[i] == init[i];
        }
      }
      assert !(HasUsableId(last) && last.id.s == k) by {
        if HasUsableId(last) {
          assert last.id.s in IdsOf(es);
        }
      }
      MergeTouchesOnlyImportedIds(store, init, now, k);
      var before := MergeAll(store, init, now).0;
      StepFrame(before, last, now, k);
      assert MergeAll(store, es, now).0 == Step(before, last, now).0;
    }
  }

  /** Every record stays under its own id. */
  lemma {:induction false} MergeKeepsKeyedById(store: map<string, Template>, es: seq<Incoming>, now: int)
    requires StorableEntries(es) && KeyedById(store)
    ensures KeyedById(MergeAll(store, es, now).0)
    decreases |es|
  {
    if es != [] {
      MergeKeepsKeyedById(store, es[..|es| - 1], now);
    }
  }

  // ------------------------------------------------------------- re-import

  /** Every record that may be written carries a non-zero numeric update time, as an export does. */
  predicate StampedEntries(es: seq<Incoming>) {
    forall i :: 0 <= i < |es| && HasUsableId(es[i]) ==> es[i].updatedAt.Num? && es[i].updatedAt.n != 0
  }

  /** The table holds every record's id, and under it a record at least as recent. */
  ghost predicate Dominates(store: map<string, Template>, es: seq<Incoming>) {
    forall i :: 0 <= i < |es| && HasUsableId(es[i]) ==>
      es[i].id.s in store && TsOf(Some(StampsOf(es[i]))) <= TsOf(Some(StoredStamps(store[es[i].id.s])))
  }

  /** A stamped record never makes a stored record older. */
  lemma StepNeverAges(store: map<string, Template>, e: Incoming, now: int, k: string)
    requires HasUsableId(e) ==> Storable(e.createdAt) && e.updatedAt.Num? && e.updatedAt.n != 0
    requires k in store
    ensures k in Step(store, e, now).0
    ensures TsOf(Some(StoredStamps(store[k]))) <= TsOf(Some(StoredStamps(Step(store, e, now).0[k])))
  {
  }

  /** After a stamped record, the table holds a record at least as recent under its id. */
  lemma StepCoversItself(store: map<string, Template>, e: Incoming, now: int)
    requires HasUsableId(e) && Storable(e.createdAt) && e.updatedAt.Num? && e.updatedAt.n != 0
    ensures e.id.s in Step(store, e, now).0
    ensures TsOf(Some(StampsOf(e))) <= TsOf(Some(StoredStamps(Step(store, e, now).0[e.id.s])))
  {
  }

  /** After an import of stamped records, the table dominates them. */
  lemma {:induction false} MergeDominates(store: map<string, Template>, es: seq<Incoming>, now: int)
    requires StorableEntries(es) && StampedEntries(es)
    ensures Dominates(MergeAll(store, es, now).0, es)
    decreases |es|
  {
    if es != [] {
      var n := |es| - 1;
      var init, last := es[..n], es[n];
      assert StampedEntries(init) by {
        forall i | 0 <= i < n ensures init[i] == es[i] {}
      }
      MergeDominates(store, init, now);
      var before := MergeAll(store, init, now).0;
      var after := Step(before, last, now).0;
      assert MergeAll(store, es, now).0 == after;
      forall i | 0 <= i < |es| && HasUsableId(es[i])
        ensures es[i].id.s in after && TsOf(Some(StampsOf(es[i]))) <= TsOf(Some(StoredStamps(after[es[i].id.s])))
      {
        if i == n {
          StepCoversItself(before, last, now);
        } else {
          assert es[i] == init[i];
          StepNeverAges(before, last, now, es[i].id.s);
        }
      }
    }
  }

  /** Importing records the table dominates changes nothing. */
  lemma {:induction false} MergeDominatedIsIdentity(store: map<string, Template>, es: seq<Incoming>, now: int)
    requires StorableEntries(es) && Dominates(store, es)
    ensures MergeAll(store, es, now).0 == store
    decreases |es|
  {
    if es != [] {
      var n := |es| - 1;
      assert Dominates(store, es[..n]) by {
        forall i | 0 <= i < n ensures es[..n][i] == es[i] {}
      }
      MergeDominatedIsIdentity(store, es[..n], now);
      assert MergeAll(store, es, now).0 == Step(store, es[n], now).0;
    }
  }

  /** Importing the same export a second time leaves the table as the first import left it. */
  lemma ReimportChangesNothing(store: map<string, Template>, es: seq<Incoming>, now: int, later: int)
    requires StorableEntries(es) && StampedEntries(es)
    ensures MergeAll(MergeAll(store, es, now).0, es, later).0 == MergeAll(store, es, now).0
  {
    MergeDominates(store, es, now);
    MergeDominatedIsIdentity(MergeAll(store, es, now).0, es, later);
  }

  // ---------------------------------------------------------------- import

  /**
   * Imports an export into the database. A payload without the shape of an
   * export, version 1, is rejected before the table is read or written.
   * Otherwise each record is processed in order (a repeated id meets what an
   * earlier record wrote), exactly one counter goes up for it, and the
   * settings are left alone whatever `importSettings` says.
   */
  method ImportTemplatesKeepNewestById(db: TemplateDb, payload: Envelope, importSettings: bool, now: int)
    returns (r: Result<ImportResult, string>)
    requires db.Valid()
    requires IsExportV1(payload) ==> StorableEntries(payload.templates.value)
    modifies db
    ensures db.Valid()
    ensures db.settings == old(db.settings)
    ensures !IsExportV1(payload) ==> r == Failure(INVALID_IMPORT) && db.templates == old(db.templates)
    ensures IsExportV1(payload) ==> r.Success? && (db.templates, r.value) == MergeAll(old(db.templates), payload.templates.value, now)
    ensures IsExportV1(payload) ==> r.Success? && r.value.Total() == |payload.templates.value|
  {
    if !IsExportV1(payload) {
      return Failure(INVALID_IMPORT);
    }
    var es := payload.templates.value;
    var inserted, updated, keptLocal, skipped := 0, 0, 0, 0;
    for i := 0 to |es|
      invariant StorableEntries(es[..i])
      invariant db.templates == MergeAll(old(db.templates), es[..i], now).0
      invariant ImportResult(inserted, updated, keptLocal, skipped) == MergeAll(old(db.templates), es[..i], now).1
      invariant db.settings == old(db.settings)
    {
      MergeOneMore(old(db.templates), es, i, now);
      var incoming := es[i];
      ghost var step := Step(db.templates, incoming, now);
      if !HasUsableId(incoming) {
        assert step == (db.templates, Skipped);
        skipped := skipped + 1;
        continue;
      }
      var id := incoming.id.s;
      if id !in db.templates {
        assert step == (db.templates[id := NewRecord(incoming, now)], Inserted);
        db.templates := db.templates[id := NewRecord(incoming, now)];
        inserted := inserted + 1;
        continue;
      }
      var existing := db.templates[id];
      var localTs := TsOf(Some(StoredStamps(existing)));
      var incomingTs := TsOf(Some(StampsOf(incoming)));
      if incomingTs > localTs {
        assert step == (db.templates[id := Overwrite(existing, incoming, now)], Updated);
        db.templates := db.templates[id := Overwrite(existing, incoming, now)];
        updated := updated + 1;
      } else if localTs > incomingTs {
        assert step == (db.templates, KeptLocal);
        keptLocal := keptLocal + 1;
      } else {
        assert step == (db.templates, Skipped);
        skipped := skipped + 1;
      }
    }
    assert es[..|es|] == es;
    MergeKeepsKeyedById(old(db.templates), es, now);
    MergeCountsEveryRecord(old(db.templates), es, now);
    if importSettings {
      // Importing settings is reserved for later: nothing happens.
    }
    r := Success(ImportResult(inserted, updated, keptLocal, skipped));
  }
}
