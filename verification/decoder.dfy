/** Decoding the scraper's output into the author collection that is cached
    and displayed. JSON parsing and the cast of each element onto the author
    class are done by code outside this model; they reach the decoder as the
    values of the decoded PHP array in iteration order, each already cast
    (None when the cast failed), or as None when the decoded value is not a
    PHP array (malformed text, `null`, a scalar). A JSON object decodes to an
    associative array, and its values are iterated like a list's elements. */
module Decoder {
  import opened Wrappers
  import opened Scholar

  /** Whether one cast result survives decoding. */
  predicate Kept(item: Option<Author>) {
    item.Some? && |item.value.publications| > 0
  }

  /** The authors kept from a sequence of cast results: those that cast and
      hold at least one publication, in input order. */
  function Keep(items: seq<Option<Author>>): (r: seq<Author>)
    ensures |r| <= |items|
    ensures forall i :: 0 <= i < |r| ==> |r[i].publications| > 0
    ensures forall a :: a in r ==> Some(a) in items
  {
    if items == [] then []
    else
      var head := if Kept(items[0]) then [items[0].value] else [];
      var rest := Keep(items[1..]);
      assert forall a :: a in rest ==> Some(a) in items[1..];
      head + rest
  }

  /** The collection decoded from one scraper output. When the decoded value
      is not a PHP array the loop iterates nothing and the collection is
      empty. */
  function Decode(parsed: Option<seq<Option<Author>>>): (r: seq<Author>)
    ensures parsed.None? ==> r == []
    ensures forall a :: a in r ==> |a.publications| > 0
    ensures forall a :: a in r ==> parsed.Some? && Some(a) in parsed.value
  {
    match parsed
    case None => []
    case Some(items) => Keep(items)
  }

  /** Decoding works element by element: the authors kept from a
      concatenation are those kept from each part, in order. */
  lemma {:induction false} KeepAppend(a: seq<Option<Author>>, b: seq<Option<Author>>)
    ensures Keep(a + b) == Keep(a) + Keep(b)
  {
    if a == [] {
      assert a + b == b;
    } else {
      assert (a + b)[1..] == a[1..] + b;
      KeepAppend(a[1..], b);
    }
  }

  /** On one element, decoding keeps it exactly when it cast and has
      publications. */
  lemma KeepSingle(item: Option<Author>)
    ensures Keep([item]) == if Kept(item) then [item.value] else []
  {
    assert [item][1..] == [];
  }

  /** An author is in the decoded collection exactly when it cast
      successfully and holds at least one publication. */
  lemma {:induction false} KeepMembership(items: seq<Option<Author>>, a: Author)
    ensures a in Keep(items) <==> Some(a) in items && |a.publications| > 0
  {
    if items != [] {
      KeepMembership(items[1..], a);
      assert items == [items[0]] + items[1..];
    }
  }

  /** Wraps each author as a successful cast, as decoding a collection that
      was already decoded would see it. */
  function Recast(authors: seq<Author>): (r: seq<Option<Author>>)
    ensures |r| == |authors|
    ensures forall i :: 0 <= i < |r| ==> r[i] == Some(authors[i])
  {
    if authors == [] then [] else [Some(authors[0])] + Recast(authors[1..])
  }

  /** Decoding is idempotent: decoding an already decoded collection again
      yields it unchanged, since every author in it has publications. */
  lemma {:induction false} DecodeIdempotent(parsed: Option<seq<Option<Author>>>)
    ensures Keep(Recast(Decode(parsed))) == Decode(parsed)
  {
    KeepOfRecast(Decode(parsed));
  }

  lemma {:induction false} KeepOfRecast(authors: seq<Author>)
    requires forall a :: a in authors ==> |a.publications| > 0
    ensures Keep(Recast(authors)) == authors
  {
    if authors != [] {
      assert Recast(authors)[1..] == Recast(authors[1..]);
      KeepOfRecast(authors[1..]);
    }
  }
}
