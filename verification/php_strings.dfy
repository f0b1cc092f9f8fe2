/** The PHP string primitives the shortcode relies on: trim() with its default
    character list, strtolower() and strcmp(). */
module PhpStrings {

  /** The characters trim() strips by default: space, tab, line feed,
      carriage return, NUL and vertical tab. */
  const TrimSet: set<char> := {' ', '\t', '\n', '\r', '\0', '\U{000B}'}

  /** `s` without its leading trim characters. */
  function TrimLeft(s: string): (r: string)
    ensures |r| <= |s| && r == s[|s| - |r|..]
    ensures r == [] || r[0] !in TrimSet
  {
    if |s| > 0 && s[0] in TrimSet then TrimLeft(s[1..]) else s
  }

  /** `s` without its trailing trim characters. */
  function TrimRight(s: string): (r: string)
    ensures |r| <= |s| && r == s[..|r|]
    ensures r == [] || r[|r| - 1] !in TrimSet
  {
    if |s| > 0 && s[|s| - 1] in TrimSet then TrimRight(s[..|s| - 1]) else s
  }

  /** Everything TrimLeft drops is a trim character. */
  lemma {:induction false} TrimLeftDrops(s: string)
    ensures forall i :: 0 <= i < |s| - |TrimLeft(s)| ==> s[i] in TrimSet
  {
    if |s| > 0 && s[0] in TrimSet {
      TrimLeftDrops(s[1..]);
      forall i | 1 <= i < |s| - |TrimLeft(s)|
        ensures s[i] in TrimSet
      {
        assert s[i] == s[1..][i - 1];
      }
    }
  }

  /** Everything TrimRight drops is a trim character. */
  lemma {:induction false} TrimRightDrops(s: string)
    ensures forall i :: |TrimRight(s)| <= i < |s| ==> s[i] in TrimSet
  {
    if |s| > 0 && s[|s| - 1] in TrimSet {
      TrimRightDrops(s[..|s| - 1]);
      forall i | |TrimRight(s)| <= i < |s| - 1
        ensures s[i] in TrimSet
      {
        assert s[i] == s[..|s| - 1][i];
      }
    }
  }

  /** PHP's trim($s). */
  function Trim(s: string): (r: string)
    ensures |r| <= |s|
    ensures r == [] || (r[0] !in TrimSet && r[|r| - 1] !in TrimSet)
  {
    TrimRight(TrimLeft(s))
  }

  /** `t` sits in `s` at offset `k`, and everything around it is a trim
      character. */
  predicate InfixAmidTrim(s: string, k: nat, t: string) {
    && k + |t| <= |s| && t == s[k..k + |t|]
    && (forall i :: 0 <= i < k ==> s[i] in TrimSet)
    && (forall i :: k + |t| <= i < |s| ==> s[i] in TrimSet)
  }

  /** trim() keeps an infix of `s`, and everything it drops around that infix
      is a trim character. */
  lemma TrimIsInfix(s: string)
    ensures InfixAmidTrim(s, |s| - |TrimLeft(s)|, Trim(s))
  {
    TrimLeftThenRight(s);
    assert Trim(s) == TrimRight(TrimLeft(s));
  }

  /** TrimIsInfix, stated on the composition that Trim is. */
  lemma TrimLeftThenRight(s: string)
    ensures InfixAmidTrim(s, |s| - |TrimLeft(s)|, TrimRight(TrimLeft(s)))
  {
    var k := |s| - |TrimLeft(s)|;
    assert TrimLeft(s) == s[k..];
    TrimLeftDrops(s);
    SuffixTrimmedRight(s, k);
  }

  /** Trimming the right of the suffix of `s` from `k` keeps a slice of `s`,
      and drops only trim characters after it. */
  lemma SuffixTrimmedRight(s: string, k: nat)
    requires k <= |s|
    ensures var r := TrimRight(s[k..]);
      && k + |r| <= |s| && r == s[k..k + |r|]
      && (forall i :: k + |r| <= i < |s| ==> s[i] in TrimSet)
  {
    var l := s[k..];
    var r := TrimRight(l);
    TrimRightDrops(l);
    assert r == l[..|r|];
    assert l[..|r|] == s[k..k + |r|];
    forall i | k + |r| <= i < |s|
      ensures s[i] in TrimSet
    {
      assert s[i] == l[i - k];
    }
  }

  /** A string that already has no surrounding trim characters is its own trim. */
  lemma TrimOfTrimmed(s: string)
    requires s == [] || (s[0] !in TrimSet && s[|s| - 1] !in TrimSet)
    ensures Trim(s) == s
  {
  }

  /** strtolower() on one character: only the ASCII capitals change. */
  function LowerChar(c: char): (d: char)
    ensures 'A' <= c <= 'Z' ==> 'a' <= d <= 'z'
    ensures !('A' <= c <= 'Z') ==> d == c
  {
    if 'A' <= c <= 'Z' then (c as int - 'A' as int + 'a' as int) as char else c
  }

  /** PHP's strtolower($s), character by character. */
  function ToLower(s: string): (r: string)
    ensures |r| == |s|
    ensures forall i :: 0 <= i < |s| ==> r[i] == LowerChar(s[i])
  {
    if s == [] then [] else [LowerChar(s[0])] + ToLower(s[1..])
  }

  /** The sign of PHP's strcmp($a, $b): lexicographic order on characters,
      a proper prefix ordering before the longer string. */
  function StrCmp(a: string, b: string): (r: int)
    ensures -1 <= r <= 1
  {
    if a == [] then (if b == [] then 0 else -1)
    else if b == [] then 1
    else if a[0] < b[0] then -1
    else if a[0] > b[0] then 1
    else StrCmp(a[1..], b[1..])
  }

  /** strcmp reports equality exactly for equal strings. */
  lemma {:induction false} StrCmpZeroIffEqual(a: string, b: string)
    ensures StrCmp(a, b) == 0 <==> a == b
  {
    if a != [] && b != [] && a[0] == b[0] {
      StrCmpZeroIffEqual(a[1..], b[1..]);
      assert a == [a[0]] + a[1..] && b == [b[0]] + b[1..];
    }
  }

  /** Swapping the arguments of strcmp negates its sign. */
  lemma {:induction false} StrCmpAntisymmetric(a: string, b: string)
    ensures StrCmp(a, b) == -StrCmp(b, a)
  {
    if a != [] && b != [] && a[0] == b[0] {
      StrCmpAntisymmetric(a[1..], b[1..]);
    }
  }

  /** "Not after" under strcmp is transitive. */
  lemma {:induction false} StrCmpTransitive(a: string, b: string, c: string)
    requires StrCmp(a, b) <= 0 && StrCmp(b, c) <= 0
    ensures StrCmp(a, c) <= 0
  {
    if a != [] && b != [] && c != [] && a[0] == b[0] == c[0] {
      StrCmpTransitive(a[1..], b[1..], c[1..]);
    }
  }
}
