/** The shortcode that shows the cached publications: attribute
    normalisation, the cache fallback, the merge of every author's
    publications, the sort and the window of cards that gets rendered. */
module Display {
  import opened Wrappers
  import opened Scholar
  import PhpStrings
  import PhpNumbers
  import Decoder
  import Ordering

  /** The plugin's display constants: default number of papers, default sort
      field and direction, and the scalar fields of a publication that may be
      sorted on. */
  datatype Config = Config(defaultCount: int, defaultField: string, defaultDirection: string,
                           sortableFields: set<string>)

  const CountAttribute := "number_papers_to_show"
  const FieldAttribute := "sort_by_field"
  const DirectionAttribute := "sort_by_direction"

  /** The message shown when neither cache file can be read. */
  const PlaceholderHtml := "<p>Unfortunately, our researchers are currently on vacation...<br/>Please try again later.</p>"

  const ListOpen := "<div class='scholar-scraper-publications'>"
  const ListClose := "</div>"

  /** An attribute as the shortcode receives it, or its default. */
  function Attribute(atts: map<string, string>, name: string, default: string): string {
    if name in atts then atts[name] else default
  }

  /** The number of papers to show: the attribute when it is numeric once
      trimmed, read with PHP's (int) cast on the untrimmed text, and the
      default otherwise. A missing attribute takes the default, which reaches
      the check as its decimal text. */
  function Count(cfg: Config, atts: map<string, string>): int {
    var raw := Attribute(atts, CountAttribute, PhpNumbers.IntToString(cfg.defaultCount));
    if PhpNumbers.IsNumeric(PhpStrings.Trim(raw)) then PhpNumbers.IntCast(raw) else cfg.defaultCount
  }

  /** The sort field: the attribute exactly as given when its lower-cased,
      trimmed form names a sortable field, and the default otherwise. */
  function Field(cfg: Config, atts: map<string, string>): (f: string)
    ensures f == Attribute(atts, FieldAttribute, cfg.defaultField) || f == cfg.defaultField
  {
    var raw := Attribute(atts, FieldAttribute, cfg.defaultField);
    if PhpStrings.ToLower(PhpStrings.Trim(raw)) in cfg.sortableFields then raw else cfg.defaultField
  }

  /** The sort direction: the attribute exactly as given when its lower-cased,
      trimmed form is "asc" or "desc", and the default otherwise. */
  function Direction(cfg: Config, atts: map<string, string>): (d: string)
    ensures d == Attribute(atts, DirectionAttribute, "desc") || d == cfg.defaultDirection
  {
    var raw := Attribute(atts, DirectionAttribute, "desc");
    if PhpStrings.ToLower(PhpStrings.Trim(raw)) in {"asc", "desc"} then raw else cfg.defaultDirection
  }

  /** The normalised attributes: the index of the last position the window
      visits, and the comparator's key. Only the exact string "desc" sorts
      in descending order. */
  datatype Settings = Settings(lastIndex: int, key: Ordering.SortKey)

  function Normalize(cfg: Config, atts: map<string, string>): Settings {
    Settings(Count(cfg, atts) - 1, Ordering.SortKey(Field(cfg, atts), Direction(cfg, atts) == "desc"))
  }

  /** The number of sorted positions the rendering loop visits: positions
      0 through lastIndex, as far as the list goes. */
  function Visited(lastIndex: int, total: nat): (n: nat)
    ensures n <= total
  {
    if lastIndex < 0 then 0 else if lastIndex + 1 < total then lastIndex + 1 else total
  }

  predicate HasTitle(p: Publication) {
    p.title.Some?
  }

  /** The publications of `s` that have a title, in order. */
  function Titled(s: seq<Publication>): (r: seq<Publication>)
    ensures |r| <= |s|
    ensures forall p :: p in r ==> p in s && HasTitle(p)
  {
    if s == [] then []
    else (if HasTitle(s[0]) then [s[0]] else []) + Titled(s[1..])
  }

  lemma {:induction false} TitledAppend(a: seq<Publication>, b: seq<Publication>)
    ensures Titled(a + b) == Titled(a) + Titled(b)
  {
    if a == [] {
      assert a + b == b;
    } else {
      assert (a + b)[0] == a[0];
      assert (a + b)[1..] == a[1..] + b;
      TitledAppend(a[1..], b);
    }
  }

  /** The cards rendered from a sorted list: the titled publications among
      the visited positions. Untitled publications in the window are
      skipped and nothing beyond the window replaces them. */
  function Window(sorted: seq<Publication>, lastIndex: int): seq<Publication> {
    Titled(sorted[..Visited(lastIndex, |sorted|)])
  }

  /** The rendering loop: visit positions 0 through lastIndex while they
      exist, skipping publications without a title. */
  method RenderWindow(sorted: seq<Publication>, lastIndex: int) returns (shown: seq<Publication>)
    ensures shown == Titled(sorted[..Visited(lastIndex, |sorted|)])
    ensures |shown| <= Visited(lastIndex, |sorted|)
    ensures forall k :: 0 <= k < |shown| ==> HasTitle(shown[k])
  {
    shown := [];
    var i := 0;
    while i <= lastIndex && i < |sorted|
      invariant 0 <= i <= Visited(lastIndex, |sorted|)
      invariant shown == Titled(sorted[..i])
    {
      var publication := sorted[i];
      assert sorted[..i + 1] == sorted[..i] + [publication];
      TitledAppend(sorted[..i], [publication]);
      assert [publication][1..] == [];
      if publication.title.Some? {
        shown := shown + [publication];
      }
      i := i + 1;
    }
  }

  /** What the shortcode shows: the placeholder, or the list of cards. */
  datatype Page = Placeholder | Cards(items: seq<Publication>)

  /** One call of the shortcode: the page and the cache files after it. */
  datatype Shown = Shown(page: Page, store: Store)

  /** The cache the shortcode reads: the serialized file when readable,
      otherwise one regenerated from the raw file and written back. */
  function Regenerate(parse: string -> Option<seq<Option<Author>>>, store: Store): (r: Store)
    requires store.serialized.Some? || store.raw.Some?
    ensures r.raw == store.raw && r.serialized.Some?
    ensures store.serialized.Some? ==> r == store
    ensures store.serialized.None? ==> r.serialized == Some(Decoder.Decode(parse(store.raw.value)))
  {
    if store.serialized.Some? then store
    else store.(serialized := Some(Decoder.Decode(parse(store.raw.value))))
  }

  /** The shortcode. `parse` stands for JSON decoding and the cast of each
      element onto the author class, as in the scheduled scrape. */
  function DisplayResult(cfg: Config, atts: map<string, string>,
                         parse: string -> Option<seq<Option<Author>>>, store: Store): Shown
  {
    var settings := Normalize(cfg, atts);
    if store.serialized.None? && store.raw.None? then Shown(Placeholder, store)
    else
      var current := Regenerate(parse, store);
      var sorted := Ordering.Sort(settings.key, Merge(current.serialized.value));
      Shown(Cards(Window(sorted, settings.lastIndex)), current)
  }

  /** The HTML of a page, given the card template's output for one
      publication. */
  function Render(page: Page, card: Publication -> string): (html: string)
    ensures page.Placeholder? ==> html == PlaceholderHtml
    ensures page.Cards? ==> |html| >= |ListOpen| + |ListClose|
                            && html[..|ListOpen|] == ListOpen
                            && html[|html| - |ListClose|..] == ListClose
  {
    match page
    case Placeholder => PlaceholderHtml
    case Cards(items) => ListOpen + CardsHtml(items, card) + ListClose
  }

  function CardsHtml(items: seq<Publication>, card: Publication -> string): string {
    if items == [] then "" else card(items[0]) + CardsHtml(items[1..], card)
  }

  /** The count attribute: a missing or non-numeric attribute yields the
      default, and the decimal text of any integer yields that integer. */
  lemma CountNormalisation(cfg: Config, atts: map<string, string>, k: int)
    ensures CountAttribute !in atts ==> Count(cfg, atts) == cfg.defaultCount
    ensures CountAttribute in atts && !PhpNumbers.IsNumeric(PhpStrings.Trim(atts[CountAttribute])) ==>
              Count(cfg, atts) == cfg.defaultCount
    ensures CountAttribute in atts && atts[CountAttribute] == PhpNumbers.IntToString(k) ==>
              Count(cfg, atts) == k
  {
    PhpNumbers.TrimOfDecimal(cfg.defaultCount);
    PhpNumbers.DecimalRoundTrip(cfg.defaultCount);
    PhpNumbers.TrimOfDecimal(k);
    PhpNumbers.DecimalRoundTrip(k);
  }

  /** The sort order is descending exactly when the direction attribute is
      literally "desc", or when it is invalid and the default is "desc".
      A valid attribute in another case, such as "DESC", sorts ascending. */
  lemma DirectionSemantics(cfg: Config, atts: map<string, string>)
    ensures var raw := Attribute(atts, DirectionAttribute, "desc");
      var valid := PhpStrings.ToLower(PhpStrings.Trim(raw)) in {"asc", "desc"};
      Direction(cfg, atts) == "desc" <==>
        (raw == "desc" || (!valid && cfg.defaultDirection == "desc"))
  {
    DescIsValid();
  }

  lemma DescIsValid()
    ensures PhpStrings.ToLower(PhpStrings.Trim("desc")) == "desc"
  {
    PhpStrings.TrimOfTrimmed("desc");
  }

  /** "DESC" passes the case-insensitive check but sorts ascending. */
  lemma UpperCaseDescIsAscending(cfg: Config)
    ensures Direction(cfg, map[DirectionAttribute := "DESC"]) == "DESC"
  {
    UpperDescLowers();
  }

  lemma UpperDescLowers()
    ensures PhpStrings.ToLower(PhpStrings.Trim("DESC")) == "desc"
  {
    PhpStrings.TrimOfTrimmed("DESC");
  }

  /** A field attribute accepted after trimming and lower-casing is used
      verbatim, surrounding spaces and capitals included. When that verbatim
      name is not itself a field of a publication, the lookup finds nothing
      and the publication counts as missing the field. */
  lemma AcceptedFieldIsVerbatim(cfg: Config, raw: string, p: Publication)
    requires PhpStrings.ToLower(PhpStrings.Trim(raw)) in cfg.sortableFields
    ensures Field(cfg, map[FieldAttribute := raw]) == raw
    ensures raw !in p.fields ==> FieldValue(p, Field(cfg, map[FieldAttribute := raw])).None?
  {
  }

  /** A field whose lower-cased, trimmed form is not sortable falls back to
      the default field. */
  lemma UnknownFieldFallsBack(cfg: Config, atts: map<string, string>)
    requires FieldAttribute in atts
    requires PhpStrings.ToLower(PhpStrings.Trim(atts[FieldAttribute])) !in cfg.sortableFields
    ensures Normalize(cfg, atts).key.field == cfg.defaultField
  {
  }

  /** The placeholder is shown exactly when neither cache file is readable,
      and then no file is written. */
  lemma PlaceholderWhenNoCache(cfg: Config, atts: map<string, string>,
                               parse: string -> Option<seq<Option<Author>>>, store: Store, card: Publication -> string)
    ensures var r := DisplayResult(cfg, atts, parse, store);
      && (r.page == Placeholder <==> store.serialized.None? && store.raw.None?)
      && (r.page == Placeholder ==> r.store == store && Render(r.page, card) == PlaceholderHtml)
  {
  }

  /** Cache fallback: with the serialized file unreadable, the shortcode
      shows the page it would have shown had the file regenerated from the
      raw one already been there, and it leaves that file behind. */
  lemma CacheFallback(cfg: Config, atts: map<string, string>,
                      parse: string -> Option<seq<Option<Author>>>, raw: string)
    ensures var regenerated := Store(Some(raw), Some(Decoder.Decode(parse(raw))));
      DisplayResult(cfg, atts, parse, Store(Some(raw), None))
        == Shown(DisplayResult(cfg, atts, parse, regenerated).page, regenerated)
  {
  }

  /** A readable serialized file is used as it is: whatever the raw file
      holds, or whether it is there at all, the page is the same and no file
      is written. */
  lemma SerializedFileUsedAsIs(cfg: Config, atts: map<string, string>,
                               parse: string -> Option<seq<Option<Author>>>,
                               raw: Option<string>, other: Option<string>, authors: seq<Author>)
    ensures DisplayResult(cfg, atts, parse, Store(raw, Some(authors)))
         == Shown(DisplayResult(cfg, atts, parse, Store(other, Some(authors))).page, Store(raw, Some(authors)))
  {
  }

  /** Regeneration happens at most once: a second call, with any attributes,
      finds the regenerated file, writes nothing and, with the same
      attributes, shows the same page. */
  lemma RegenerationIdempotent(cfg: Config, atts: map<string, string>, later: map<string, string>,
                               parse: string -> Option<seq<Option<Author>>>, store: Store)
    ensures var first := DisplayResult(cfg, atts, parse, store);
      && DisplayResult(cfg, later, parse, first.store).store == first.store
      && DisplayResult(cfg, atts, parse, first.store) == first
  {
  }

  /** A subsequence of a sorted list keeps only what it finds, in order, so it
      stays sorted. */
  lemma {:induction false} TitledSorted(key: Ordering.SortKey, s: seq<Publication>)
    requires Ordering.Sorted(key, s)
    ensures Ordering.Sorted(key, Titled(s))
  {
    if s != [] {
      TitledSorted(key, s[1..]);
      var rest := Titled(s[1..]);
      forall j | 0 <= j < |rest|
        ensures Ordering.Le(key, s[0], rest[j])
      {
        assert rest[j] in s[1..];
        var k :| 0 <= k < |s[1..]| && s[1..][k] == rest[j];
        assert s[k + 1] == rest[j];
      }
    }
  }

  /** The window over a sorted list: no more cards than visited positions,
      none when the last index is negative, each titled, and in comparator
      order, so every card with a value for the sort field precedes every
      card without one. */
  lemma WindowProperties(key: Ordering.SortKey, merged: seq<Publication>, lastIndex: int)
    ensures var items := Window(Ordering.Sort(key, merged), lastIndex);
      && |items| <= Visited(lastIndex, |merged|)
      && (lastIndex < 0 ==> items == [])
      && (forall k :: 0 <= k < |items| ==> HasTitle(items[k]))
      && Ordering.Sorted(key, items)
      && (forall i, j :: 0 <= i < j < |items| && FieldValue(items[j], key.field).Some? ==>
            FieldValue(items[i], key.field).Some?)
  {
    var sorted := Ordering.Sort(key, merged);
    Ordering.SortSorted(key, merged);
    var prefix := sorted[..Visited(lastIndex, |sorted|)];
    assert Ordering.Sorted(key, prefix);
    TitledSorted(key, prefix);
    var items := Titled(prefix);
    forall k | 0 <= k < |items|
      ensures HasTitle(items[k])
    {
      assert items[k] in items;
    }
  }

  /** The cards the shortcode shows when a cache file is readable: the window
      over the sorted merge of the cached authors' publications, at most the
      requested count of them and none when the count is below 1, each
      titled, in comparator order, with every card that has a value for the
      sort field before every card without one. */
  lemma CardsWindow(cfg: Config, atts: map<string, string>,
                    parse: string -> Option<seq<Option<Author>>>, store: Store)
    requires store.serialized.Some? || store.raw.Some?
    ensures var r := DisplayResult(cfg, atts, parse, store);
      var settings := Normalize(cfg, atts);
      var items := r.page.items;
      && r.page.Cards?
      && |items| <= Visited(settings.lastIndex, |Merge(r.store.serialized.value)|)
      && (settings.lastIndex < 0 ==> items == [])
      && (settings.lastIndex >= 0 ==> |items| <= settings.lastIndex + 1)
      && (forall k :: 0 <= k < |items| ==> HasTitle(items[k]))
      && Ordering.Sorted(settings.key, items)
      && (forall i, j :: 0 <= i < j < |items| && FieldValue(items[j], settings.key.field).Some? ==>
            FieldValue(items[i], settings.key.field).Some?)
  {
    var settings := Normalize(cfg, atts);
    var current := Regenerate(parse, store);
    WindowProperties(settings.key, Merge(current.serialized.value), settings.lastIndex);
  }
}
