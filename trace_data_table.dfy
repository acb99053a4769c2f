/**
 * The ordering rule of the trace table's sorter and the stringToLong helper
 * it relies on: the "--" placeholder comes first, and any other two cells
 * compare by the numbers their text parses to, 0 for text that does not
 * parse.
 */
module TraceDataTable {
  import opened Wrappers
  import opened DecimalFormatting

  /** What the count column shows when the query returned nothing. */
  const Placeholder := "--"

  /** stringToLong: the number a "#,###" cell parses to, 0 when it does not
      parse. */
  function StringToLong(s: string): int
  {
    var parsed := ParseNumber(s);
    if parsed.None? then 0 else parsed.value
  }

  /** Long.compare. */
  function LongCompare(x: int, y: int): (r: int)
    ensures r == -1 || r == 0 || r == 1
    ensures r < 0 <==> x < y
    ensures r == 0 <==> x == y
  {
    if x < y then -1 else if x == y then 0 else 1
  }

  /** The comparator the sorter installs. */
  function Compare(s1: string, s2: string): (r: int)
    ensures r == -1 || r == 0 || r == 1
  {
    if s1 != Placeholder && s2 != Placeholder then LongCompare(StringToLong(s1), StringToLong(s2))
    else if s1 == Placeholder && s2 != Placeholder then -1
    else if s1 != Placeholder && s2 == Placeholder then 1
    else 0
  }

  // ---------------------------------------------------------------------------
  // A reference order: the placeholder ranks below every number, numbers
  // rank by value.

  datatype Rank = Missing | Count(value: int)

  function RankOf(s: string): Rank {
    if s == Placeholder then Missing else Count(StringToLong(s))
  }

  predicate RankBelow(a: Rank, b: Rank) {
    match a
    case Missing => b.Count?
    case Count(x) => b.Count? && x < b.value
  }

  /** The comparator is the lexicographic order on ranks. */
  lemma CompareIsRankOrder(s1: string, s2: string)
    ensures Compare(s1, s2) < 0 <==> RankBelow(RankOf(s1), RankOf(s2))
    ensures Compare(s1, s2) == 0 <==> RankOf(s1) == RankOf(s2)
    ensures Compare(s1, s2) > 0 <==> RankBelow(RankOf(s2), RankOf(s1))
  {
  }

  /** Swapping the arguments flips the sign. */
  lemma CompareAntisymmetric(s1: string, s2: string)
    ensures Compare(s1, s2) == -Compare(s2, s1)
  {
  }

  /** The order is transitive, both strictly and not. */
  lemma CompareTransitive(s1: string, s2: string, s3: string)
    ensures Compare(s1, s2) <= 0 && Compare(s2, s3) <= 0 ==> Compare(s1, s3) <= 0
    ensures Compare(s1, s2) < 0 && Compare(s2, s3) < 0 ==> Compare(s1, s3) < 0
  {
    CompareIsRankOrder(s1, s2);
    CompareIsRankOrder(s2, s3);
    CompareIsRankOrder(s1, s3);
  }

  /** The placeholder sorts before every other cell and ties with itself. */
  lemma PlaceholderFirst(s: string)
    ensures Compare(Placeholder, Placeholder) == 0
    ensures s != Placeholder ==> Compare(Placeholder, s) == -1 && Compare(s, Placeholder) == 1
  {
  }

  /** stringToLong reads back every count the table writes, and the
      placeholder and text without digits read as 0. */
  lemma StringToLongFormatted(n: int)
    ensures StringToLong(FormatGrouped(n)) == n
    ensures StringToLong(Placeholder) == 0
    ensures StringToLong("") == 0
  {
    ParseFormatGrouped(n);
    ParseNumberNoDigits();
  }

  /** Two formatted counts compare as the counts do. */
  lemma FormattedCountsCompareNumerically(m: int, n: int)
    ensures Compare(FormatGrouped(m), FormatGrouped(n)) == LongCompare(m, n)
  {
    FormatGroupedNotPlaceholder(m);
    FormatGroupedNotPlaceholder(n);
    StringToLongFormatted(m);
    StringToLongFormatted(n);
  }

  /** Cells that are not the placeholder and do not parse, such as most
      trace names, all tie. */
  lemma UnparsedCellsTie(s1: string, s2: string)
    requires s1 != Placeholder && s2 != Placeholder
    requires ParseNumber(s1).None? && ParseNumber(s2).None?
    ensures Compare(s1, s2) == 0
  {
  }
}
