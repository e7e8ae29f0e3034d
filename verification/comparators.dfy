/**
 * Ordering of tag strings: tags with a colon first, then tags starting with
 * an upper-case letter, then the host's locale-aware string order.
 */
module Comparators {

  /**
   * What the comparator takes from the host: the Unicode property `Lu`
   * (upper-case letter) of a code point, and `localeCompare`.
   */
  datatype Collation = Collation(isLu: char -> bool, localeCompare: (string, string) -> int)

  /** The word's first code point is an upper-case letter; the empty word is not upper-case. */
  function IsUppercase(c: Collation, word: string): (r: bool)
    ensures r <==> exists ch, rest :: word == [ch] + rest && c.isLu(ch)
  {
    if |word| == 0 then false
    else
      assert word == [word[0]] + word[1..];
      c.isLu(word[0])
  }

  /** The tag contains a colon somewhere. */
  predicate HasColon(tag: string) {
    ':' in tag
  }

  /** Unary `+` on a boolean. */
  function Flag(b: bool): int {
    if b then 1 else 0
  }

  function Sign(n: int): int {
    if n < 0 then -1 else if n > 0 then 1 else 0
  }

  /**
   * `tagComparator(a, b)`: each `||` falls through to the next key only when
   * the previous difference is 0.
   */
  function TagComparator(c: Collation, a: string, b: string): (r: int)
    ensures HasColon(a) && !HasColon(b) ==> r < 0
    ensures !HasColon(a) && HasColon(b) ==> r > 0
    ensures HasColon(a) == HasColon(b) && IsUppercase(c, a) && !IsUppercase(c, b) ==> r < 0
    ensures HasColon(a) == HasColon(b) && !IsUppercase(c, a) && IsUppercase(c, b) ==> r > 0
    ensures HasColon(a) == HasColon(b) && IsUppercase(c, a) == IsUppercase(c, b) ==> r == c.localeCompare(a, b)
  {
    var byColon := Flag(HasColon(b)) - Flag(HasColon(a));
    if byColon != 0 then byColon
    else
      var byCase := Flag(IsUppercase(c, b)) - Flag(IsUppercase(c, a));
      if byCase != 0 then byCase
      else c.localeCompare(a, b)
  }

  /**
   * Reference order: the rank of a tag among the four key classes
   * (colon and upper-case = 0, colon only = 1, upper-case only = 2, neither = 3).
   */
  function Rank(c: Collation, tag: string): (r: int)
    ensures 0 <= r < 4
  {
    2 * Flag(!HasColon(tag)) + Flag(!IsUppercase(c, tag))
  }

  /** The comparator is the lexicographic order on (rank, locale order). */
  lemma ComparatorIsLexicographic(c: Collation, a: string, b: string)
    ensures Sign(TagComparator(c, a, b))
            == if Rank(c, a) != Rank(c, b) then Sign(Rank(c, a) - Rank(c, b)) else Sign(c.localeCompare(a, b))
  {
  }

  /** Antisymmetry, given a locale order that is antisymmetric on the two tags. */
  lemma ComparatorAntisymmetric(c: Collation, a: string, b: string)
    requires Sign(c.localeCompare(a, b)) == -Sign(c.localeCompare(b, a))
    ensures Sign(TagComparator(c, a, b)) == -Sign(TagComparator(c, b, a))
  {
  }

  /** A tag compares equal to itself, given that the locale order does. */
  lemma ComparatorReflexive(c: Collation, a: string)
    requires c.localeCompare(a, a) == 0
    ensures TagComparator(c, a, a) == 0
  {
  }

  /** Transitivity of "sorts no later than", given that the locale order has it on these three tags. */
  lemma ComparatorTransitive(c: Collation, a: string, b: string, d: string)
    requires c.localeCompare(a, b) <= 0 && c.localeCompare(b, d) <= 0 ==> c.localeCompare(a, d) <= 0
    requires TagComparator(c, a, b) <= 0 && TagComparator(c, b, d) <= 0
    ensures TagComparator(c, a, d) <= 0
  {
    ComparatorIsLexicographic(c, a, b);
    ComparatorIsLexicographic(c, b, d);
    ComparatorIsLexicographic(c, a, d);
  }

  /** Whether a tag counts as upper-case depends on its first code point only. */
  lemma UppercaseByFirstCodePoint(c: Collation, first: char, rest1: string, rest2: string)
    ensures IsUppercase(c, [first] + rest1) == IsUppercase(c, [first] + rest2) == c.isLu(first)
    ensures !IsUppercase(c, "")
  {
  }
}
