/** `AnotherModel`, the example document with an embedded `Settings`
    document, and its `another_model` collection. The document object is
    changed in place by `clean`, `save`, `add_tag` and `activate`; the
    collection holds the values that `save()` wrote. Mongoengine's built-in
    e-mail and URL checks are parameters (`isEmail`, `isUrl`). */
module AnotherModels {
  import opened Common
  import opened Calendar
  import opened Sorting

  datatype ItemStatus = Draft | Active | Archived

  const THEMES: seq<string> := ["light", "dark"]
  const NAME_MAX: nat := 150
  const DESCRIPTION_MAX: nat := 500
  const TAG_MAX: nat := 30
  const PRIORITY_MIN: int := 1
  const PRIORITY_MAX: int := 10
  const DEFAULT_PRIORITY: int := 5
  const DARK_THEME_MSG: string := "Dark theme requires notifications"
  const NEGATIVE_PRICE_MSG: string := "Price cannot be negative"
  /** The key mongoengine files an error raised by `clean` under. */
  const NON_FIELD_ERRORS: string := "__all__"

  // ------------------------------------------------------------ Settings

  datatype Settings = Settings(notificationsEnabled: bool, theme: string)

  const DEFAULT_SETTINGS: Settings := Settings(true, "light")

  /** `Settings.clean`: the dark theme is refused with notifications off. */
  function SettingsClean(s: Settings): (e: Option<Exception>)
    ensures e.Some? ==> e.value == ValidationError(DARK_THEME_MSG)
  {
    if !s.notificationsEnabled && s.theme == "dark" then Some(ValidationError(DARK_THEME_MSG)) else None
  }

  /** The embedded document passes validation: `clean`, then the theme choices. */
  predicate SettingsValid(s: Settings) {
    SettingsClean(s).None? && s.theme in THEMES
  }

  /** The accepted settings: the light theme with or without notifications,
      the dark theme only with them. The defaults are accepted. */
  lemma SettingsValidExactly(s: Settings)
    ensures SettingsValid(s) <==> s.theme == "light" || (s.theme == "dark" && s.notificationsEnabled)
    ensures SettingsValid(DEFAULT_SETTINGS)
  {
    assert THEMES[0] == "light" && THEMES[1] == "dark";
  }

  // ------------------------------------------------------------ documents

  /** The stored fields of a document. `price` counts hundredths, the
      precision of the decimal field. */
  datatype ItemDoc = ItemDoc(
    id: string,
    name: Option<string>,
    description: Option<string>,
    status: ItemStatus,
    isActive: bool,
    priority: Option<int>,
    price: Option<int>,
    createdAt: Option<Instant>,
    updatedAt: Option<Instant>,
    publishedAt: Option<Instant>,
    tags: seq<string>,
    settings: Settings,
    creator: Option<string>,
    email: Option<string>,
    website: Option<string>)

  /** A document as constructed, with the field defaults. */
  function NewItem(id: string, name: Option<string>, description: Option<string>, now: Instant): (d: ItemDoc)
    ensures d.id == id && d.name == name && d.description == description
    ensures d.status == Draft && d.isActive && d.priority == Some(DEFAULT_PRIORITY) && d.price == Some(0)
    ensures d.createdAt == Some(now) && d.updatedAt == Some(now) && d.publishedAt.None?
    ensures d.tags == [] && d.settings == DEFAULT_SETTINGS
  {
    ItemDoc(id, name, description, Draft, true, Some(DEFAULT_PRIORITY), Some(0),
            Some(now), Some(now), None, [], DEFAULT_SETTINGS, None, None, None)
  }

  /** `AnotherModel.clean` on the document: an active document without a
      publication time gets one. */
  function Cleaned(d: ItemDoc, now: Instant): ItemDoc {
    if d.status == Active && d.publishedAt.None? then d.(publishedAt := Some(now)) else d
  }

  /** The error `clean` raises: a negative price (zero is falsy and passes). */
  function CleanError(d: ItemDoc): (e: Option<Exception>)
    ensures e.Some? <==> d.price.Some? && d.price.value < 0
  {
    if d.price.Some? && d.price.value != 0 && d.price.value < 0 then Some(ValidationError(NEGATIVE_PRICE_MSG)) else None
  }

  function Over(s: Option<string>, max: nat): bool {
    s.Some? && |s.value| > max
  }

  /** The keys of mongoengine's error dictionary, in order: the `clean` error,
      then the failing fields in declaration order. Values that are `None` are
      not validated, except for required fields. */
  function Errors(d: ItemDoc, isEmail: string -> bool, isUrl: string -> bool): seq<string> {
    (if CleanError(d).Some? then [NON_FIELD_ERRORS] else [])
    + (if d.name.None? || Over(d.name, NAME_MAX) then ["name"] else [])
    + (if Over(d.description, DESCRIPTION_MAX) then ["description"] else [])
    + (if d.priority.Some? && !(PRIORITY_MIN <= d.priority.value <= PRIORITY_MAX) then ["priority"] else [])
    + (if d.price.Some? && d.price.value < 0 then ["price"] else [])
    + (if d.createdAt.None? then ["created_at"] else [])
    + (if exists i :: 0 <= i < |d.tags| && |d.tags[i]| > TAG_MAX then ["tags"] else [])
    + (if !SettingsValid(d.settings) then ["settings"] else [])
    + (if d.email.Some? && !isEmail(d.email.value) then ["email"] else [])
    + (if d.website.Some? && !isUrl(d.website.value) then ["website"] else [])
  }

  /** What a document that passes validation is. */
  predicate WellFormed(d: ItemDoc, isEmail: string -> bool, isUrl: string -> bool) {
    && d.name.Some? && |d.name.value| <= NAME_MAX
    && (d.description.Some? ==> |d.description.value| <= DESCRIPTION_MAX)
    && (d.priority.Some? ==> PRIORITY_MIN <= d.priority.value <= PRIORITY_MAX)
    && (d.price.Some? ==> d.price.value >= 0)
    && d.createdAt.Some?
    && (forall i :: 0 <= i < |d.tags| ==> |d.tags[i]| <= TAG_MAX)
    && (d.settings.theme == "light" || (d.settings.theme == "dark" && d.settings.notificationsEnabled))
    && (d.email.Some? ==> isEmail(d.email.value))
    && (d.website.Some? ==> isUrl(d.website.value))
  }

  /** `validate()` within `save()`: the first entry of the error dictionary. */
  function SaveError(d: ItemDoc, isEmail: string -> bool, isUrl: string -> bool): (e: Option<Exception>)
    ensures e.None? <==> WellFormed(d, isEmail, isUrl)
    ensures CleanError(d).Some? ==> e == Some(ValidationError(NON_FIELD_ERRORS))
  {
    SettingsValidExactly(d.settings);
    var errors := Errors(d, isEmail, isUrl);
    if errors == [] then None else Some(ValidationError(errors[0]))
  }

  /** A new document with a name of at most 150 characters and a short enough
      description passes validation: the defaults are within their bounds. */
  lemma DefaultsAreValid(id: string, name: string, description: Option<string>, now: Instant,
                         isEmail: string -> bool, isUrl: string -> bool)
    requires |name| <= NAME_MAX
    requires description.Some? ==> |description.value| <= DESCRIPTION_MAX
    ensures SaveError(NewItem(id, Some(name), description, now), isEmail, isUrl).None?
    ensures PRIORITY_MIN <= DEFAULT_PRIORITY <= PRIORITY_MAX
  {
    SettingsValidExactly(DEFAULT_SETTINGS);
  }

  /** `save()` before the write: `created_at` if it is missing, `updated_at`
      always, then `clean`. */
  function Prepared(d: ItemDoc, now: Instant): ItemDoc {
    Cleaned(d.(createdAt := if d.createdAt.None? then Some(now) else d.createdAt, updatedAt := Some(now)), now)
  }

  /** Two saves: the creation and publication times are those of the first,
      the update time that of the second. */
  lemma SavedTwice(d: ItemDoc, first: Instant, second: Instant)
    ensures var twice := Prepared(Prepared(d, first), second);
      && twice.createdAt == (if d.createdAt.Some? then d.createdAt else Some(first))
      && twice.updatedAt == Some(second)
      && twice.publishedAt == Prepared(d, first).publishedAt
      && twice.status == d.status && twice.tags == d.tags
  {
  }

  // ------------------------------------------------------------ the collection

  predicate DistinctIds(docs: seq<ItemDoc>) {
    forall i, j :: 0 <= i < j < |docs| ==> docs[i].id != docs[j].id
  }

  /** The write of `save()`: the document replaces the one with its id, or is
      appended. */
  function Upsert(docs: seq<ItemDoc>, d: ItemDoc): (r: seq<ItemDoc>)
    requires DistinctIds(docs)
    ensures d in r
    ensures forall e :: e in docs && e.id != d.id ==> e in r
    ensures forall e :: e in r ==> e == d || (e in docs && e.id != d.id)
    ensures DistinctIds(r)
  {
    if docs == [] then [d]
    else if docs[0].id == d.id then [d] + docs[1..]
    else
      var rest := Upsert(docs[1..], d);
      assert forall e :: e in docs && e != docs[0] ==> e in docs[1..];
      [docs[0]] + rest
  }

  /** The `another_model` collection in natural order. */
  class ItemStore {
    var docs: seq<ItemDoc>

    ghost predicate Valid()
      reads this
    {
      DistinctIds(docs)
    }

    constructor ()
      ensures Valid() && docs == []
    {
      docs := [];
    }

    method Write(d: ItemDoc)
      requires Valid()
      modifies this
      ensures Valid()
      ensures docs == Upsert(old(docs), d)
    {
      docs := Upsert(docs, d);
    }
  }

  /** The documents that pass `p`, in natural order. */
  function Where(docs: seq<ItemDoc>, p: ItemDoc -> bool): (r: seq<ItemDoc>)
    ensures forall e :: e in r <==> e in docs && p(e)
  {
    if docs == [] then []
    else
      assert forall e :: e in docs <==> e == docs[0] || e in docs[1..];
      (if p(docs[0]) then [docs[0]] else []) + Where(docs[1..], p)
  }

  /** The default `ordering: ['-created_at']`; a missing time sorts last. */
  function CreatedKey(d: ItemDoc): int {
    if d.createdAt.Some? then d.createdAt.value else -1
  }

  function Newest(docs: seq<ItemDoc>): (r: seq<ItemDoc>)
    ensures Descending(r, CreatedKey)
    ensures forall e :: e in r <==> e in docs
  {
    SortPermutes(docs, CreatedKey);
    assert forall e :: e in docs <==> e in multiset(docs);
    SortDescending(docs, CreatedKey)
  }

  predicate Listed(d: ItemDoc) {
    d.isActive && d.status != Archived
  }

  /** `active_objects`: active, non-archived documents, newest first. */
  function ActiveObjects(docs: seq<ItemDoc>): (r: seq<ItemDoc>)
    ensures forall e :: e in r <==> e in docs && e.isActive && e.status != Archived
    ensures Descending(r, CreatedKey)
  {
    Newest(Where(docs, Listed))
  }

  /** `search_by_tags`: active documents (archived ones included) with a tag in
      `tags`, newest first; no tags find nothing. */
  function SearchByTags(docs: seq<ItemDoc>, tags: seq<string>): (r: seq<ItemDoc>)
    ensures forall e :: e in r <==> e in docs && e.isActive && exists t :: t in e.tags && t in tags
    ensures tags == [] ==> r == []
    ensures Descending(r, CreatedKey)
  {
    Newest(Where(docs, (e: ItemDoc) => e.isActive && exists t :: t in e.tags && t in tags))
  }

  // ------------------------------------------------------------ add_tag

  /** The tags after `add_tag(tag)`: appended when non-empty and new. */
  function TagsAfter(tags: seq<string>, tag: string): seq<string> {
    if tag == "" || tag in tags then tags else tags + [tag]
  }

  predicate NoDuplicates(tags: seq<string>) {
    forall i, j :: 0 <= i < j < |tags| ==> tags[i] != tags[j]
  }

  /** `add_tag` is idempotent, keeps the existing tags in front, holds the new
      tag when it is non-empty, and never adds a duplicate. */
  lemma TagsAfterProperties(tags: seq<string>, tag: string)
    ensures TagsAfter(TagsAfter(tags, tag), tag) == TagsAfter(tags, tag)
    ensures tags <= TagsAfter(tags, tag)
    ensures tag != "" ==> tag in TagsAfter(tags, tag)
    ensures forall t :: t in TagsAfter(tags, tag) ==> t in tags || t == tag
    ensures NoDuplicates(tags) ==> NoDuplicates(TagsAfter(tags, tag))
  {
    var after := TagsAfter(tags, tag);
    if tag != "" && tag !in tags {
      assert after[|tags|] == tag;
      assert tag in after;
    }
  }

  // ------------------------------------------------------------ the document object

  /** An `AnotherModel` instance. */
  class AnotherModel {
    var id: string
    var name: Option<string>
    var description: Option<string>
    var status: ItemStatus
    var isActive: bool
    var priority: Option<int>
    var price: Option<int>
    var createdAt: Option<Instant>
    var updatedAt: Option<Instant>
    var publishedAt: Option<Instant>
    var tags: seq<string>
    var settings: Settings
    var creator: Option<string>
    var email: Option<string>
    var website: Option<string>

    /** The values `save()` writes. */
    function Doc(): ItemDoc
      reads this
    {
      ItemDoc(id, name, description, status, isActive, priority, price, createdAt, updatedAt,
              publishedAt, tags, settings, creator, email, website)
    }

    /** Construction with the field defaults; `id` is the one
        `BaseDocument.__init__` assigns. */
    constructor (id: string, name: Option<string>, description: Option<string>, now: Instant)
      ensures Doc() == NewItem(id, name, description, now)
    {
      this.id := id;
      this.name := name;
      this.description := description;
      status := Draft;
      isActive := true;
      priority := Some(DEFAULT_PRIORITY);
      price := Some(0);
      createdAt := Some(now);
      updatedAt := Some(now);
      publishedAt := None;
      tags := [];
      settings := DEFAULT_SETTINGS;
      creator := None;
      email := None;
      website := None;
    }

    /** `clean()`: sets the publication time of an active document that has
        none, then refuses a negative price. The time stays set when it does. */
    method Clean(now: Instant) returns (err: Option<Exception>)
      modifies this
      ensures Doc() == Cleaned(old(Doc()), now)
      ensures err == CleanError(old(Doc()))
    {
      if status == Active && publishedAt.None? {
        publishedAt := Some(now);
      }
      if price.Some? && price.value != 0 && price.value < 0 {
        return Some(ValidationError(NEGATIVE_PRICE_MSG));
      }
      return None;
    }

    /** `save()`: the two time stamps, validation with `clean`, and the write.
        A refused document is not written, but keeps the stamps. */
    method Save(store: ItemStore, now: Instant, isEmail: string -> bool, isUrl: string -> bool)
      returns (err: Option<Exception>)
      requires store.Valid()
      modifies this, store
      ensures store.Valid()
      ensures Doc() == Prepared(old(Doc()), now)
      ensures err == SaveError(Doc(), isEmail, isUrl)
      ensures err.None? ==> store.docs == Upsert(old(store.docs), Doc())
      ensures err.Some? ==> store.docs == old(store.docs)
    {
      if createdAt.None? {
        createdAt := Some(now);
      }
      updatedAt := Some(now);
      var _ := Clean(now);
      err := SaveError(Doc(), isEmail, isUrl);
      if err.None? {
        store.Write(Doc());
      }
    }

    /** `add_tag(tag)`: an empty or present tag changes nothing and saves
        nothing; a new one is appended and the document saved. */
    method AddTag(store: ItemStore, tag: string, now: Instant, isEmail: string -> bool, isUrl: string -> bool)
      returns (err: Option<Exception>)
      requires store.Valid()
      modifies this, store
      ensures store.Valid()
      ensures (tag == "" || tag in old(tags)) ==>
        err.None? && Doc() == old(Doc()) && store.docs == old(store.docs)
      ensures !(tag == "" || tag in old(tags)) ==>
        && Doc() == Prepared(old(Doc()).(tags := TagsAfter(old(tags), tag)), now)
        && err == SaveError(Doc(), isEmail, isUrl)
        && store.docs == (if err.None? then Upsert(old(store.docs), Doc()) else old(store.docs))
    {
      if tag == "" || tag in tags {
        return None;
      }
      tags := tags + [tag];
      err := Save(store, now, isEmail, isUrl);
    }

    /** `activate()`: a publication time if there is none, the active status
        and flag, then `save()`. A saved activated document is listed by
        `active_objects`. */
    method Activate(store: ItemStore, now: Instant, isEmail: string -> bool, isUrl: string -> bool)
      returns (err: Option<Exception>)
      requires store.Valid()
      modifies this, store
      ensures store.Valid()
      ensures status == Active && isActive
      ensures publishedAt == if old(publishedAt).Some? then old(publishedAt) else Some(now)
      ensures Doc() == Prepared(old(Doc()).(publishedAt := publishedAt, status := Active, isActive := true), now)
      ensures err == SaveError(Doc(), isEmail, isUrl)
      ensures err.None? ==> store.docs == Upsert(old(store.docs), Doc()) && Doc() in ActiveObjects(store.docs)
      ensures err.Some? ==> store.docs == old(store.docs)
    {
      if publishedAt.None? {
        publishedAt := Some(now);
      }
      status := Active;
      isActive := true;
      err := Save(store, now, isEmail, isUrl);
    }
  }
}
