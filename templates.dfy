/**
 * The template operations of the application (src/lib/db/templates.ts):
 * listing, creating, updating, deleting, marking as favourite and
 * duplicating templates in the database. The clock and the id generator are
 * parameters: `now` is the current time and `freshId` the id the generator
 * returns, which is not yet in use.
 */
module Templates {
  import opened Wrappers
  import opened Schema
  import opened Db
  import Sorting

  // ---------------------------------------------------------------- listing

  /** The number a favourite flag converts to: 1 for true, 0 for false. */
  function FavoriteRank(t: Template): int {
    if t.favorite then 1 else 0
  }

  /**
   * The listing's comparator: negative when `a` must come before `b` (a
   * favourite before a non-favourite, else the later update first), zero
   * when the two tie.
   */
  function Compare(a: Template, b: Template): (r: int)
    ensures r < 0 <==> (a.favorite && !b.favorite) || (a.favorite == b.favorite && a.updatedAt > b.updatedAt)
    ensures r == 0 <==> a.favorite == b.favorite && a.updatedAt == b.updatedAt
  {
    var fav := FavoriteRank(b) - FavoriteRank(a);
    if fav != 0 then fav else b.updatedAt - a.updatedAt
  }

  predicate ListedBefore(a: Template, b: Template) {
    Compare(a, b) <= 0
  }

  /** The comparator is consistent: it orders every pair, transitively. */
  lemma ListedBeforeIsTotalPreorder()
    ensures Sorting.IsTotalPreorder(ListedBefore)
  {
  }

  /**
   * All templates, favourites first and, among templates of equal favourite
   * status, the most recently updated first. Templates that compare equal
   * come in no particular order.
   */
  method ListTemplates(db: TemplateDb) returns (list: seq<Template>)
    requires db.Valid()
    ensures multiset(list) == multiset(db.templates.Values)
    ensures forall i, j :: 0 <= i < j < |list| ==> list[i].favorite || !list[j].favorite
    ensures forall i, j :: 0 <= i < j < |list| && list[i].favorite == list[j].favorite ==> list[i].updatedAt >= list[j].updatedAt
  {
    var all := db.ToArray();
    var a := new Template[|all|](k requires 0 <= k < |all| => all[k]);
    assert a[..] == all;
    ListedBeforeIsTotalPreorder();
    Sorting.InsertionSort(a, ListedBefore);
    list := a[..];
    assert forall i, j :: 0 <= i < j < |list| ==> ListedBefore(list[i], list[j]);
  }

  // --------------------------------------------------------------- creation

  /** The fields of a partial template that a caller supplies; `None` where the field is absent. */
  datatype Patch = Patch(
    name: Option<string>,
    category: Option<Category>,
    content: Option<string>,
    favorite: Option<bool>,
    createdAt: Option<int>,
    updatedAt: Option<int>)

  const NO_FIELDS := Patch(None, None, None, None, None, None)

  const DEFAULT_NAME := "New Template"
  const DEFAULT_CONTENT := "Hello {guest}"

  /** The record `createTemplate` adds: the supplied fields or the defaults, created and updated now. */
  function NewTemplate(id: string, partial: Patch, now: int): Template {
    Template(
      id,
      partial.name.GetOr(DEFAULT_NAME),
      partial.category.GetOr(Custom),
      partial.content.GetOr(DEFAULT_CONTENT),
      partial.favorite.GetOr(false),
      now,
      now)
  }

  /** A template created from nothing is a valid custom template, not a favourite. */
  lemma DefaultTemplateIsValid(id: string, now: int)
    ensures NewTemplate(id, NO_FIELDS, now) == Template(id, DEFAULT_NAME, Custom, DEFAULT_CONTENT, false, now, now)
    ensures ValidTemplate(NewTemplate(id, NO_FIELDS, now))
  {
  }

  /** Adds one template under the fresh id and returns that id. */
  method CreateTemplate(db: TemplateDb, partial: Patch, freshId: string, now: int) returns (id: string)
    requires db.Valid() && freshId !in db.templates
    modifies db
    ensures db.Valid()
    ensures id == freshId
    ensures db.templates == old(db.templates)[id := NewTemplate(id, partial, now)]
    ensures db.settings == old(db.settings)
  {
    id := freshId;
    db.templates := db.templates[id := NewTemplate(id, partial, now)];
  }

  // ----------------------------------------------------------------- update

  /** A record with the patch's fields written over it and its update time set to now. */
  function Patched(t: Template, patch: Patch, now: int): Template {
    Template(
      t.id,
      patch.name.GetOr(t.name),
      patch.category.GetOr(t.category),
      patch.content.GetOr(t.content),
      patch.favorite.GetOr(t.favorite),
      patch.createdAt.GetOr(t.createdAt),
      now)
  }

  /**
   * An update bumps the update time even when the patch brings its own, and
   * a patch without fields changes nothing else.
   */
  lemma PatchOverridesUpdatedAt(t: Template, patch: Patch, now: int)
    ensures Patched(t, patch, now).updatedAt == now
    ensures Patched(t, patch, now).id == t.id
    ensures Patched(t, NO_FIELDS, now) == t.(updatedAt := now)
  {
  }

  /** Writes the patch over the template with that id, if there is one; no other record changes. */
  method UpdateTemplate(db: TemplateDb, id: string, patch: Patch, now: int)
    requires db.Valid()
    modifies db
    ensures db.Valid()
    ensures id in old(db.templates) ==> db.templates == old(db.templates)[id := Patched(old(db.templates)[id], patch, now)]
    ensures id !in old(db.templates) ==> db.templates == old(db.templates)
    ensures db.settings == old(db.settings)
  {
    if id in db.templates {
      db.templates := db.templates[id := Patched(db.templates[id], patch, now)];
    }
  }

  // --------------------------------------------------------------- deletion

  /** Removes the template with that id, if any; no other record changes. */
  method DeleteTemplate(db: TemplateDb, id: string)
    requires db.Valid()
    modifies db
    ensures db.Valid()
    ensures db.templates == old(db.templates) - {id}
    ensures db.settings == old(db.settings)
  {
    db.templates := db.templates - {id};
  }

  /** Deleting a template just created restores the table as it was. */
  lemma {:induction false} DeleteUndoesCreate(m: map<string, Template>, id: string, partial: Patch, now: int)
    requires id !in m
    ensures m[id := NewTemplate(id, partial, now)] - {id} == m
  {
    var m' := m[id := NewTemplate(id, partial, now)] - {id};
    assert m'.Keys == m.Keys;
    forall k | k in m ensures m'[k] == m[k] {
      assert k != id;
    }
  }

  // --------------------------------------------------------------- favourite

  function FavoritePatch(favorite: bool): Patch {
    NO_FIELDS.(favorite := Some(favorite))
  }

  /** Flips the favourite flag of the template with that id, if there is one, and bumps its update time. */
  method ToggleFavorite(db: TemplateDb, id: string, now: int)
    requires db.Valid()
    modifies db
    ensures db.Valid()
    ensures id in old(db.templates) ==>
      db.templates == old(db.templates)[id := Patched(old(db.templates)[id], FavoritePatch(!old(db.templates)[id].favorite), now)]
    ensures id !in old(db.templates) ==> db.templates == old(db.templates)
    ensures db.settings == old(db.settings)
  {
    if id !in db.templates {
      return;
    }
    var t := db.templates[id];
    UpdateTemplate(db, id, FavoritePatch(!t.favorite), now);
  }

  /** Toggling twice restores the favourite flag and every other field but the update time. */
  lemma ToggleTwiceRestores(t: Template, now1: int, now2: int)
    ensures
      var once := Patched(t, FavoritePatch(!t.favorite), now1);
      Patched(once, FavoritePatch(!once.favorite), now2) == t.(updatedAt := now2)
  {
  }

  // ------------------------------------------------------------- duplication

  const NOT_FOUND := "Template not found"

  /** The copy `duplicateTemplate` adds: same category and content, " (copy)" appended to the name, not a favourite, created now. */
  function Copy(t: Template, newId: string, now: int): Template {
    t.(id := newId, name := t.name + " (copy)", favorite := false, createdAt := now, updatedAt := now)
  }

  /** A copy of a valid template is valid unless the longer name passes the 64-character limit. */
  lemma CopyValidity(t: Template, newId: string, now: int)
    requires ValidTemplate(t)
    ensures ValidTemplate(Copy(t, newId, now)) <==> |t.name| + 7 <= MAX_NAME_LENGTH
  {
  }

  /**
   * Adds a copy of the template with that id under the fresh id and returns
   * the fresh id; fails with "Template not found", writing nothing, when there
   * is no such template.
   */
  method DuplicateTemplate(db: TemplateDb, id: string, freshId: string, now: int) returns (r: Result<string, string>)
    requires db.Valid() && freshId !in db.templates
    modifies db
    ensures db.Valid()
    ensures id !in old(db.templates) ==> r == Failure(NOT_FOUND) && db.templates == old(db.templates)
    ensures id in old(db.templates) ==>
      && r == Success(freshId)
      && db.templates == old(db.templates)[freshId := Copy(old(db.templates)[id], freshId, now)]
    ensures db.settings == old(db.settings)
  {
    if id !in db.templates {
      return Failure(NOT_FOUND);
    }
    var t := db.templates[id];
    db.templates := db.templates[freshId := Copy(t, freshId, now)];
    r := Success(freshId);
  }
}
