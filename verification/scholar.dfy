/** The records the plugin manipulates: scraped publications and authors,
    and the two cache files the orchestrator writes and the shortcode reads. */
module Scholar {
  import opened Wrappers

  /** One scraped paper. The title may be null; every other scalar field the
      scraper emits (year, citation count, ...) is an entry of `fields`, whose
      value is None when the scraper sent null. A field name absent from the
      map and a field mapped to None are both "not set" for PHP's isset. */
  datatype Publication = Publication(title: Option<string>, fields: map<string, Option<int>>)

  /** One Google Scholar profile and the publications scraped for it. */
  datatype Author = Author(id: string, publications: seq<Publication>)

  /** The two cache files. `raw` is the scraper's output as text and
      `serialized` the decoded author collection; None means the file is
      missing or unreadable. PHP's serialize/unserialize pair is taken to be an
      exact round trip, so the serialized file holds the collection itself. */
  datatype Store = Store(raw: Option<string>, serialized: Option<seq<Author>>)

  /** The value of field `f` of `p` as PHP's `isset($p->$f)` sees it: None
      when the field is absent or null. */
  function FieldValue(p: Publication, f: string): (v: Option<int>)
    ensures v.Some? <==> f in p.fields && p.fields[f].Some?
  {
    if f in p.fields then p.fields[f] else None
  }

  /** All publications of all authors, in author order and, within one
      author, in the order the author holds them. */
  function Merge(authors: seq<Author>): seq<Publication>
  {
    if authors == [] then [] else authors[0].publications + Merge(authors[1..])
  }

  /** Merging is compositional: the publications of a concatenation of author
      lists are those of the first list followed by those of the second. */
  lemma {:induction false} MergeAppend(a: seq<Author>, b: seq<Author>)
    ensures Merge(a + b) == Merge(a) + Merge(b)
  {
    if a == [] {
      assert a + b == b;
    } else {
      assert (a + b)[1..] == a[1..] + b;
      MergeAppend(a[1..], b);
    }
  }

  /** A publication is in the merged list exactly when some author holds it. */
  lemma {:induction false} MergeMembership(authors: seq<Author>, p: Publication)
    ensures p in Merge(authors) <==> exists i :: 0 <= i < |authors| && p in authors[i].publications
  {
    if authors != [] {
      MergeMembership(authors[1..], p);
      if p in Merge(authors[1..]) {
        var i :| 0 <= i < |authors[1..]| && p in authors[1..][i].publications;
        assert p in authors[i + 1].publications;
      }
      if exists i :: 0 <= i < |authors| && p in authors[i].publications {
        var i :| 0 <= i < |authors| && p in authors[i].publications;
        if i > 0 {
          assert p in authors[1..][i - 1].publications;
        }
      }
    }
  }

  /** The merged list holds exactly as many entries as the authors hold in all. */
  lemma {:induction false} MergeLength(authors: seq<Author>)
    ensures |Merge(authors)| == TotalPublications(authors)
  {
    if authors != [] {
      MergeLength(authors[1..]);
    }
  }

  /** The number of publications the authors hold in all. */
  function TotalPublications(authors: seq<Author>): nat
  {
    if authors == [] then 0 else |authors[0].publications| + TotalPublications(authors[1..])
  }
}
