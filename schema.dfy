/**
 * The record shapes of the template store and the validators that the
 * application's schema declares for them (src/lib/db/schema.ts).
 *
 * A validator takes an untyped object, a map from property names to
 * JavaScript values, and either rejects it or returns the typed record with
 * its defaults filled in. String lengths are sequence lengths.
 */
module Schema {
  import opened Wrappers

  /** A JavaScript value held by a property of an untyped object. */
  datatype Value =
    | Missing            // the property is absent (`undefined`)
    | Null
    | Bool(b: bool)
    | Num(n: int)
    | Str(s: string)
    | Compound           // an object or an array

  /** An untyped object, as parsed from JSON. */
  type Fields = map<string, Value>

  function Field(o: Fields, key: string): Value {
    if key in o then o[key] else Missing
  }

  // ---------------------------------------------------------------- category

  datatype Category = Receipt | Event | Rp | Custom

  function CategoryName(c: Category): string {
    match c
    case Receipt => "receipt"
    case Event => "event"
    case Rp => "rp"
    case Custom => "custom"
  }

  /** Every category's name parses back to that category. */
  lemma CategoryRoundTrip(c: Category)
    ensures ParseCategory(CategoryName(c)) == Some(c)
  {
  }

  /** The category enumeration: exactly four names are accepted. */
  function ParseCategory(s: string): (r: Option<Category>)
    ensures r.Some? <==> s == "receipt" || s == "event" || s == "rp" || s == "custom"
    ensures r.Some? ==> CategoryName(r.value) == s
  {
    if s == "receipt" then Some(Receipt)
    else if s == "event" then Some(Event)
    else if s == "rp" then Some(Rp)
    else if s == "custom" then Some(Custom)
    else None
  }

  // ---------------------------------------------------------------- template

  datatype Template = Template(
    id: string,
    name: string,
    category: Category,
    content: string,
    favorite: bool,
    createdAt: int,
    updatedAt: int)

  const MAX_NAME_LENGTH := 64
  const MAX_CONTENT_LENGTH := 10000

  /**
   * The constraints the template schema puts on a typed record: a name of 1 to
   * 64 characters and a content of 1 to 10000. The id may be any string, even
   * empty, and the two timestamps are not ordered.
   */
  predicate ValidTemplate(t: Template) {
    && 1 <= |t.name| <= MAX_NAME_LENGTH
    && 1 <= |t.content| <= MAX_CONTENT_LENGTH
  }

  /** The untyped object a typed template is stored as. */
  function TemplateFields(t: Template): Fields {
    map[
      "id" := Str(t.id),
      "name" := Str(t.name),
      "category" := Str(CategoryName(t.category)),
      "content" := Str(t.content),
      "favorite" := Bool(t.favorite),
      "createdAt" := Num(t.createdAt),
      "updatedAt" := Num(t.updatedAt)]
  }

  function ParseBoundedString(v: Value, max: nat): Option<string> {
    if v.Str? && 1 <= |v.s| <= max then Some(v.s) else None
  }

  function ParseCategoryValue(v: Value): Option<Category> {
    if v.Str? then ParseCategory(v.s) else None
  }

  /** `favorite` is a boolean that defaults to false when the property is absent. */
  function ParseFavorite(v: Value): Option<bool> {
    match v
    case Missing => Some(false)
    case Bool(b) => Some(b)
    case _ => None
  }

  /** The template schema: every accepted object yields a valid template. */
  function ParseTemplate(o: Fields): (r: Option<Template>)
    ensures r.Some? ==> ValidTemplate(r.value)
    ensures r.Some? ==> Field(o, "id") == Str(r.value.id)
    ensures r.Some? ==> Field(o, "createdAt") == Num(r.value.createdAt)
    ensures r.Some? ==> Field(o, "updatedAt") == Num(r.value.updatedAt)
    ensures r.Some? ==> Field(o, "category") == Str(CategoryName(r.value.category))
    ensures r.Some? && Field(o, "favorite") == Missing ==> !r.value.favorite
  {
    var id, name, category := Field(o, "id"), ParseBoundedString(Field(o, "name"), MAX_NAME_LENGTH),
      ParseCategoryValue(Field(o, "category"));
    var content, favorite := ParseBoundedString(Field(o, "content"), MAX_CONTENT_LENGTH),
      ParseFavorite(Field(o, "favorite"));
    var createdAt, updatedAt := Field(o, "createdAt"), Field(o, "updatedAt");
    if id.Str? && name.Some? && category.Some? && content.Some? && favorite.Some?
       && createdAt.Num? && updatedAt.Num?
    then Some(Template(id.s, name.value, category.value, content.value, favorite.value, createdAt.n, updatedAt.n))
    else None
  }

  /** Storing a template and validating it again gives it back exactly when it is valid. */
  lemma TemplateRoundTrip(t: Template)
    ensures ParseTemplate(TemplateFields(t)) == (if ValidTemplate(t) then Some(t) else None)
  {
    match t.category
    case Receipt =>
    case Event =>
    case Rp =>
    case Custom =>
  }

  /** An object without `favorite` is accepted exactly when the same object with `favorite: false` is, with the same record. */
  lemma {:induction false} FavoriteDefaultsToFalse(o: Fields)
    requires "favorite" !in o
    ensures ParseTemplate(o) == ParseTemplate(o["favorite" := Bool(false)])
  {
    assert Field(o["favorite" := Bool(false)], "favorite") == Bool(false);
    forall k | k != "favorite" ensures Field(o["favorite" := Bool(false)], k) == Field(o, k) { }
  }

  // ---------------------------------------------------------------- settings

  datatype Language = En | FrCa

  datatype Settings = Settings(
    id: string,
    defaultVenue: string,
    defaultPayTo: string,
    language: Language,
    lastTemplateId: Option<string>)

  const SETTINGS_ID := "default"

  /** The settings written when the store is first seeded. */
  const DEFAULT_SETTINGS := Settings(SETTINGS_ID, "", "", En, None)

  /** An optional string property: absent gives the default, a string itself. */
  function ParseOptionalString(v: Value, default: string): Option<string> {
    match v
    case Missing => Some(default)
    case Str(s) => Some(s)
    case _ => None
  }

  function ParseLanguage(v: Value): Option<Language> {
    match v
    case Missing => Some(En)
    case Str(s) => if s == "en" then Some(En) else if s == "fr-ca" then Some(FrCa) else None
    case _ => None
  }

  function ParseLastTemplateId(v: Value): Option<Option<string>> {
    match v
    case Missing => Some(None)
    case Str(s) => Some(Some(s))
    case _ => None
  }

  /**
   * The settings schema: the id must be the literal "default"; venue and
   * pay-to default to "", the language to English, and the last template id
   * stays absent when absent.
   */
  function ParseSettings(o: Fields): (r: Option<Settings>)
    ensures Field(o, "id") != Str(SETTINGS_ID) ==> r.None?
    ensures r.Some? ==> r.value.id == SETTINGS_ID
    ensures r.Some? ==> (Field(o, "language") == Missing ==> r.value.language == En)
    ensures r.Some? ==> (Field(o, "defaultVenue") == Missing ==> r.value.defaultVenue == "")
    ensures r.Some? ==> (Field(o, "defaultPayTo") == Missing ==> r.value.defaultPayTo == "")
    ensures r.Some? ==> (r.value.lastTemplateId.None? <==> Field(o, "lastTemplateId") == Missing)
  {
    var venue := ParseOptionalString(Field(o, "defaultVenue"), "");
    var payTo := ParseOptionalString(Field(o, "defaultPayTo"), "");
    var language := ParseLanguage(Field(o, "language"));
    var last := ParseLastTemplateId(Field(o, "lastTemplateId"));
    if Field(o, "id") == Str(SETTINGS_ID) && venue.Some? && payTo.Some? && language.Some? && last.Some?
    then Some(Settings(SETTINGS_ID, venue.value, payTo.value, language.value, last.value))
    else None
  }

  function LanguageName(l: Language): string {
    match l
    case En => "en"
    case FrCa => "fr-ca"
  }

  /** The untyped object a typed settings record is stored as. */
  function SettingsFields(s: Settings): Fields {
    var o := map[
      "id" := Str(s.id),
      "defaultVenue" := Str(s.defaultVenue),
      "defaultPayTo" := Str(s.defaultPayTo),
      "language" := Str(LanguageName(s.language))];
    if s.lastTemplateId.Some? then o["lastTemplateId" := Str(s.lastTemplateId.value)] else o
  }

  /** Storing settings and validating them again gives them back exactly when their id is "default". */
  lemma SettingsRoundTrip(s: Settings)
    ensures ParseSettings(SettingsFields(s)) == (if s.id == SETTINGS_ID then Some(s) else None)
  {
    match s.language
    case En =>
    case FrCa =>
  }

  /** The object holding only the id validates to the settings the seeding writes. */
  lemma BareSettingsAreDefaults()
    ensures ParseSettings(map["id" := Str(SETTINGS_ID)]) == Some(DEFAULT_SETTINGS)
  {
  }

  /** Only English and Canadian French are accepted languages. */
  lemma {:induction false} LanguageIsEnOrFrCa(o: Fields)
    requires ParseSettings(o).Some?
    ensures Field(o, "language") in {Missing, Str("en"), Str("fr-ca")}
  {
    var v := Field(o, "language");
    assert ParseLanguage(v).Some?;
    if v.Str? {
      assert v.s == "en" || v.s == "fr-ca";
    }
  }

  // ------------------------------------------------------------------ usage

  datatype Usage = Usage(templateId: string, lastUsedAt: int)

  /** The usage schema: a string template id and a numeric last-use time. */
  function ParseUsage(o: Fields): (r: Option<Usage>)
    ensures r.Some? <==> Field(o, "templateId").Str? && Field(o, "lastUsedAt").Num?
    ensures r.Some? ==> Field(o, "templateId") == Str(r.value.templateId) && Field(o, "lastUsedAt") == Num(r.value.lastUsedAt)
  {
    var id, at := Field(o, "templateId"), Field(o, "lastUsedAt");
    if id.Str? && at.Num? then Some(Usage(id.s, at.n)) else None
  }

  /** A usage record written as an untyped object. */
  function UsageFields(u: Usage): Fields {
    map["templateId" := Str(u.templateId), "lastUsedAt" := Num(u.lastUsedAt)]
  }

  /** Every usage record survives being written as an object and parsed back. */
  lemma UsageRoundTrip(u: Usage)
    ensures ParseUsage(UsageFields(u)) == Some(u)
  {
  }
}
