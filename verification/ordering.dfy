/** The order the shortcode sorts publications in: a three-way comparator on
    one field with a title tie-break, and the stable sort that applies it. */
module Ordering {
  import opened Wrappers
  import opened Scholar
  import PhpStrings

  /** The sort field and whether the order is descending. */
  datatype SortKey = SortKey(field: string, descending: bool)

  /** The title strcmp sees; a null title compares as the empty string. */
  function TitleText(p: Publication): string {
    p.title.GetOr("")
  }

  /** strcmp on the titles, reversed for a descending order. */
  function CompareTitles(key: SortKey, a: Publication, b: Publication): (r: int)
    ensures -1 <= r <= 1
  {
    if key.descending then PhpStrings.StrCmp(TitleText(b), TitleText(a))
    else PhpStrings.StrCmp(TitleText(a), TitleText(b))
  }

  /** PHP's <=> on integers. */
  function Spaceship(x: int, y: int): (r: int)
    ensures r == 0 <==> x == y
    ensures r < 0 <==> x < y
  {
    if x < y then -1 else if x > y then 1 else 0
  }

  /** The comparator handed to usort: a publication without a value for the
      field sorts after one with a value; two with no value, or with equal
      values, are ordered by title; otherwise the values decide. Titles and
      values are both compared in the requested direction. */
  function Compare(key: SortKey, a: Publication, b: Publication): (r: int)
    ensures -1 <= r <= 1
  {
    var va := FieldValue(a, key.field);
    var vb := FieldValue(b, key.field);
    if va.None? && vb.None? then CompareTitles(key, a, b)
    else if va.None? then 1
    else if vb.None? then -1
    else if va.value == vb.value then CompareTitles(key, a, b)
    else if key.descending then Spaceship(vb.value, va.value)
    else Spaceship(va.value, vb.value)
  }

  /** `a` may stand before `b`. */
  predicate Le(key: SortKey, a: Publication, b: Publication) {
    Compare(key, a, b) <= 0
  }

  /** Swapping the arguments of the comparator negates it. */
  lemma CompareAntisymmetric(key: SortKey, a: Publication, b: Publication)
    ensures Compare(key, a, b) == -Compare(key, b, a)
  {
    PhpStrings.StrCmpAntisymmetric(TitleText(a), TitleText(b));
  }

  /** Any two publications are ordered one way or the other. */
  lemma CompareTotal(key: SortKey, a: Publication, b: Publication)
    ensures Le(key, a, b) || Le(key, b, a)
  {
    CompareAntisymmetric(key, a, b);
  }

  /** The comparator is transitive, so with totality it is a total preorder:
      the result of a stable sort does not depend on the sorting algorithm. */
  lemma CompareTransitive(key: SortKey, a: Publication, b: Publication, c: Publication)
    requires Le(key, a, b) && Le(key, b, c)
    ensures Le(key, a, c)
  {
    var ta, tb, tc := TitleText(a), TitleText(b), TitleText(c);
    if key.descending {
      if PhpStrings.StrCmp(tc, tb) <= 0 && PhpStrings.StrCmp(tb, ta) <= 0 {
        PhpStrings.StrCmpTransitive(tc, tb, ta);
      }
    } else {
      if PhpStrings.StrCmp(ta, tb) <= 0 && PhpStrings.StrCmp(tb, tc) <= 0 {
        PhpStrings.StrCmpTransitive(ta, tb, tc);
      }
    }
  }

  /** Two publications the comparator cannot tell apart. */
  predicate Tied(key: SortKey, a: Publication, b: Publication) {
    Compare(key, a, b) == 0
  }

  /** Being tied is transitive. */
  lemma TiedTransitive(key: SortKey, a: Publication, b: Publication, c: Publication)
    requires Tied(key, a, b) && Tied(key, b, c)
    ensures Tied(key, a, c)
  {
    CompareTransitive(key, a, b, c);
    CompareAntisymmetric(key, a, b);
    CompareAntisymmetric(key, b, c);
    CompareTransitive(key, c, b, a);
    CompareAntisymmetric(key, a, c);
  }

  /** Every publication is placed no later than any publication after it. */
  predicate Sorted(key: SortKey, s: seq<Publication>) {
    forall i, j :: 0 <= i < j < |s| ==> Le(key, s[i], s[j])
  }

  /** Places `x` before the first element it may precede. */
  function Insert(key: SortKey, x: Publication, ys: seq<Publication>): (r: seq<Publication>)
    ensures multiset(r) == multiset(ys) + multiset{x}
    ensures |r| == |ys| + 1
  {
    if ys == [] then [x]
    else if Le(key, x, ys[0]) then [x] + ys
    else
      assert ys == [ys[0]] + ys[1..];
      [ys[0]] + Insert(key, x, ys[1..])
  }

  /** The stable sort usort performs (PHP 8's sort is stable): an insertion
      sort that inserts each element into the sorted remainder ahead of the
      elements it is tied with. */
  function Sort(key: SortKey, xs: seq<Publication>): (r: seq<Publication>)
    ensures multiset(r) == multiset(xs)
    ensures |r| == |xs|
  {
    if xs == [] then []
    else
      assert xs == [xs[0]] + xs[1..];
      Insert(key, xs[0], Sort(key, xs[1..]))
  }

  lemma {:induction false} InsertSorted(key: SortKey, x: Publication, ys: seq<Publication>)
    requires Sorted(key, ys)
    ensures Sorted(key, Insert(key, x, ys))
  {
    if ys != [] {
      if Le(key, x, ys[0]) {
        forall j | 0 <= j < |ys|
          ensures Le(key, x, ys[j])
        {
          if j > 0 {
            CompareTransitive(key, x, ys[0], ys[j]);
          }
        }
        ConsSorted(key, x, ys);
      } else {
        CompareTotal(key, x, ys[0]);
        InsertSorted(key, x, ys[1..]);
        HeadPrecedesInsert(key, x, ys);
        ConsSorted(key, ys[0], Insert(key, x, ys[1..]));
      }
    }
  }

  /** Placing in front of a sorted list an element that may precede all of it
      keeps the list sorted. */
  lemma ConsSorted(key: SortKey, a: Publication, rest: seq<Publication>)
    requires Sorted(key, rest)
    requires forall j :: 0 <= j < |rest| ==> Le(key, a, rest[j])
    ensures Sorted(key, [a] + rest)
  {
    var r := [a] + rest;
    forall i, j | 0 <= i < j < |r|
      ensures Le(key, r[i], r[j])
    {
      assert r[j] == rest[j - 1];
      if i > 0 {
        assert r[i] == rest[i - 1];
      }
    }
  }

  /** The head of a sorted list may precede everything that inserting an
      element it may precede into the tail produces. */
  lemma HeadPrecedesInsert(key: SortKey, x: Publication, ys: seq<Publication>)
    requires ys != [] && Sorted(key, ys) && Le(key, ys[0], x)
    ensures forall j :: 0 <= j < |Insert(key, x, ys[1..])| ==> Le(key, ys[0], Insert(key, x, ys[1..])[j])
  {
    var rest := Insert(key, x, ys[1..]);
    forall j | 0 <= j < |rest|
      ensures Le(key, ys[0], rest[j])
    {
      assert rest[j] in multiset(rest);
      assert rest[j] == x || rest[j] in multiset(ys[1..]);
      if rest[j] != x {
        var k :| 0 <= k < |ys[1..]| && ys[1..][k] == rest[j];
        assert ys[k + 1] == rest[j];
      }
    }
  }

  /** The sort's output is ordered by the comparator. */
  lemma {:induction false} SortSorted(key: SortKey, xs: seq<Publication>)
    ensures Sorted(key, Sort(key, xs))
  {
    if xs != [] {
      SortSorted(key, xs[1..]);
      InsertSorted(key, xs[0], Sort(key, xs[1..]));
    }
  }

  /** The publications tied with `p`, in the order they occur. */
  function TiedWith(key: SortKey, p: Publication, s: seq<Publication>): seq<Publication> {
    if s == [] then []
    else (if Tied(key, p, s[0]) then [s[0]] else []) + TiedWith(key, p, s[1..])
  }

  lemma {:induction false} InsertTiedWith(key: SortKey, p: Publication, x: Publication, ys: seq<Publication>)
    ensures TiedWith(key, p, Insert(key, x, ys)) ==
      if Tied(key, p, x) then [x] + TiedWith(key, p, ys) else TiedWith(key, p, ys)
  {
    if ys == [] {
      assert [x][1..] == [];
    } else if Le(key, x, ys[0]) {
      assert ([x] + ys)[1..] == ys;
    } else {
      InsertTiedWith(key, p, x, ys[1..]);
      assert ([ys[0]] + Insert(key, x, ys[1..]))[1..] == Insert(key, x, ys[1..]);
      if Tied(key, p, x) && Tied(key, p, ys[0]) {
        CompareAntisymmetric(key, p, x);
        TiedTransitive(key, x, p, ys[0]);
      }
    }
  }

  /** The sort is stable: publications the comparator ties keep their
      original relative order. */
  lemma {:induction false} SortStable(key: SortKey, p: Publication, xs: seq<Publication>)
    ensures TiedWith(key, p, Sort(key, xs)) == TiedWith(key, p, xs)
  {
    if xs != [] {
      SortStable(key, p, xs[1..]);
      InsertTiedWith(key, p, xs[0], Sort(key, xs[1..]));
    }
  }

  /** After sorting, every publication that has a value for the sort field
      stands before every publication that has none. */
  lemma SortPutsMissingLast(key: SortKey, xs: seq<Publication>, i: int, j: int)
    requires 0 <= i < j < |xs|
    requires FieldValue(Sort(key, xs)[j], key.field).Some?
    ensures FieldValue(Sort(key, xs)[i], key.field).Some?
  {
    SortSorted(key, xs);
  }

  /** The example ordering: by citations descending, "B" and "A" tie on 5 and
      are ordered by title descending, and "C", without a count, comes last. */
  lemma SortExample()
    ensures var b := Publication(Some("B"), map["cites" := Some(5)]);
      var a := Publication(Some("A"), map["cites" := Some(5)]);
      var c := Publication(Some("C"), map["cites" := None]);
      Sort(SortKey("cites", true), [b, a, c]) == [b, a, c]
  {
    var b := Publication(Some("B"), map["cites" := Some(5)]);
    var a := Publication(Some("A"), map["cites" := Some(5)]);
    var c := Publication(Some("C"), map["cites" := None]);
    var key := SortKey("cites", true);
    assert [b, a, c][1..] == [a, c];
    assert [a, c][1..] == [c];
    assert [c][1..] == [];
    assert PhpStrings.StrCmp("A", "B") == -1;
    assert Compare(key, a, c) == -1;
    assert Insert(key, a, [c]) == [a, c];
    assert Compare(key, b, a) == -1;
    assert Insert(key, b, [a, c]) == [b, a, c];
  }
}
