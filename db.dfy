/**
 * The application's database, reduced to what the core reads and writes:
 * the template table, keyed by template id, and the settings record. The
 * table keeps each record under its own `id` (the id is the record's inbound
 * primary key), which `Valid` states.
 */
module Db {
  import opened Wrappers
  import opened Schema

  /** Every record is stored under its own id. */
  ghost predicate KeyedById(m: map<string, Template>) {
    forall k :: k in m ==> m[k].id == k
  }

  /** The set of records stored under the keys `ks`. */
  ghost function Image(m: map<string, Template>, ks: set<string>): set<Template>
    requires ks <= m.Keys
  {
    set k | k in ks :: m[k]
  }

  /** Adding a key to the keys taken adds its record, which was not yet among those taken. */
  lemma ImageGrows(m: map<string, Template>, done: set<string>, k: string)
    requires KeyedById(m) && done <= m.Keys && k in m && k !in done
    ensures m[k] !in Image(m, done)
    ensures Image(m, done + {k}) == Image(m, done) + {m[k]}
  {
  }

  class TemplateDb {
    var templates: map<string, Template>
    var settings: Option<Settings>

    ghost predicate Valid()
      reads this
    {
      KeyedById(templates)
    }

    /** A new, empty database. */
    constructor ()
      ensures Valid()
      ensures templates == map[] && settings == None
    {
      templates := map[];
      settings := None;
    }

    /** Every stored template, each exactly once, in some order (the table's `toArray`). */
    method ToArray() returns (all: seq<Template>)
      requires Valid()
      ensures multiset(all) == multiset(templates.Values)
    {
      all := [];
      var rest := templates.Keys;
      while rest != {}
        invariant rest <= templates.Keys
        invariant multiset(all) == multiset(Image(templates, templates.Keys - rest))
        decreases |rest|
      {
        var k :| k in rest;
        var done := templates.Keys - rest;
        ImageGrows(templates, done, k);
        all := all + [templates[k]];
        rest := rest - {k};
        assert templates.Keys - rest == done + {k};
      }
      assert Image(templates, templates.Keys) == templates.Values;
    }
  }
}
