/**
 * The browser deep link for a trace: the Insights query page of the
 * account, with an NRQL query over the trace's custom web transaction
 * appended in application/x-www-form-urlencoded form over US-ASCII.
 * The account id, application name and day count come from the
 * preferences and are parameters here.
 */
module Utils {
  import opened Wrappers
  import opened JavaText
  import opened FormEncoding
  import opened NewRelicClient

  const BrowserHead := "SELECT * from Transaction where appName = '"
  const BrowserMiddle := "' and name = 'WebTransaction/Custom/"

  /** The texts around the day count in the part after the search term. */
  const SinceText := "' since "
  const DaysAgoText := " days ago"

  /** The part of the browser query after the search term. */
  function SinceClause(numDays: int): string {
    SinceText + IntToString(numDays) + DaysAgoText
  }

  /** The browser query before the search term. */
  function BrowserPrefix(appName: string): string {
    BrowserHead + appName + BrowserMiddle
  }

  /** The String.format call of getNewRelicUrl. */
  function BrowserQuery(appName: string, searchTerm: string, numDays: int): string {
    BrowserPrefix(appName) + searchTerm + SinceClause(numDays)
  }

  /** getNewRelicUrl, as the text handed to the URI constructor. */
  function GetNewRelicUrl(accountId: string, appName: string, numDays: int, searchTerm: string): string {
    GetInsightsUrl(accountId) + FormEncode(UsAscii, BrowserQuery(appName, searchTerm, numDays))
  }

  lemma {:induction false} DigitsUnreserved(s: string)
    requires AllDigits(s)
    ensures AllUnreserved(s)
  {
  }

  /** Integer.toString writes digits and at most a '-', all unreserved. */
  lemma IntToStringUnreserved(n: int)
    ensures AllUnreserved(IntToString(n))
  {
    NatToStringDigits(if n < 0 then -n else n);
    DigitsUnreserved(NatToString(if n < 0 then -n else n));
  }

  /** Encoding works piece by piece on a text made of three pieces. */
  lemma EncodeThree(cs: Charset, a: string, b: string, c: string)
    ensures FormEncode(cs, a + b + c) == FormEncode(cs, a) + FormEncode(cs, b) + FormEncode(cs, c)
  {
    FormEncodeAppend(cs, a + b, c);
    FormEncodeAppend(cs, a, b);
  }

  lemma Regroup(base: string, x: string, y: string, z: string)
    ensures base + (x + y + z) == base + x + y + z
  {
  }

  /** The encoded query splits at the search term: the encoded prefix, the
      encoded term, the encoded since clause. */
  lemma NewRelicUrlParts(accountId: string, appName: string, numDays: int, searchTerm: string)
    ensures GetNewRelicUrl(accountId, appName, numDays, searchTerm) ==
              GetInsightsUrl(accountId) + FormEncode(UsAscii, BrowserPrefix(appName))
              + FormEncode(UsAscii, searchTerm) + FormEncode(UsAscii, SinceClause(numDays))
  {
    EncodeThree(UsAscii, BrowserPrefix(appName), searchTerm, SinceClause(numDays));
    Regroup(GetInsightsUrl(accountId), FormEncode(UsAscii, BrowserPrefix(appName)),
            FormEncode(UsAscii, searchTerm), FormEncode(UsAscii, SinceClause(numDays)));
  }

  /** The link opens the account's Insights query page. */
  lemma NewRelicUrlPrefix(accountId: string, appName: string, numDays: int, searchTerm: string)
    ensures var url := GetNewRelicUrl(accountId, appName, numDays, searchTerm);
            && |url| >= |InsightsUrlPrefix| + |accountId| + |InsightsUrlSuffix|
            && url[..|InsightsUrlPrefix|] == InsightsUrlPrefix
            && url[|InsightsUrlPrefix|..|InsightsUrlPrefix| + |accountId|] == accountId
  {
    var base := GetInsightsUrl(accountId);
    var url := GetNewRelicUrl(accountId, appName, numDays, searchTerm);
    assert url[..|base|] == base;
  }

  // The words of the since clause, kept apart so that proofs can encode
  // them one at a time.
  const Quote := "'"
  const Since := "since"
  const Days := "days"
  const Ago := "ago"

  /** A space before an unreserved word is encoded as '+'. */
  lemma EncodeSpaced(cs: Charset, w: string)
    requires AllUnreserved(w)
    ensures FormEncode(cs, " " + w) == "+" + w
  {
    FormEncodeAppend(cs, " ", w);
    FormEncodeUnreserved(cs, w);
  }

  /** The two fixed texts as their words. */
  lemma FixedTextWords()
    ensures SinceText == Quote + (" " + Since) + " "
    ensures DaysAgoText == (" " + Days) + (" " + Ago)
    ensures "%27" + ("+" + Since) + "+" == "%27+since+"
    ensures ("+" + Days) + ("+" + Ago) == "+days+ago"
  {
  }

  /** The quote is not unreserved: it is escaped as its US-ASCII byte. */
  lemma EncodeQuote()
    ensures FormEncode(UsAscii, Quote) == "%27"
  {
    assert Quote == ['\''] && Quote[1..] == [];
    assert CharBytes(UsAscii, '\'') == [39];
    assert HexDigit(39 / 16) == '2' && HexDigit(39 % 16) == '7';
  }

  /** The quote is escaped and the spaces become '+'. */
  lemma EncodeSinceText()
    ensures FormEncode(UsAscii, SinceText) == "%27+since+"
  {
    FixedTextWords();
    EncodeQuote();
    EncodeSpaced(UsAscii, Since);
    FormEncodeAppend(UsAscii, Quote + (" " + Since), " ");
    FormEncodeAppend(UsAscii, Quote, " " + Since);
    assert FormEncode(UsAscii, " ") == "+";
  }

  /** The spaces become '+'. */
  lemma EncodeDaysAgoText()
    ensures FormEncode(UsAscii, DaysAgoText) == "+days+ago"
  {
    FixedTextWords();
    EncodeSpaced(UsAscii, Days);
    EncodeSpaced(UsAscii, Ago);
    FormEncodeAppend(UsAscii, " " + Days, " " + Ago);
  }

  /** Spaces become '+', so the link ends "%27+since+N+days+ago" with the
      configured day count N written out. */
  lemma NewRelicUrlSinceClause(accountId: string, appName: string, numDays: int, searchTerm: string)
    ensures var tail := "%27+since+" + IntToString(numDays) + "+days+ago";
            var url := GetNewRelicUrl(accountId, appName, numDays, searchTerm);
            |url| >= |tail| && url[|url| - |tail|..] == tail
  {
    var n := IntToString(numDays);
    IntToStringUnreserved(numDays);
    FormEncodeUnreserved(UsAscii, n);
    EncodeSinceText();
    EncodeDaysAgoText();
    var head := GetInsightsUrl(accountId) + FormEncode(UsAscii, BrowserPrefix(appName)) + FormEncode(UsAscii, searchTerm);
    EncodeThree(UsAscii, SinceText, n, DaysAgoText);
    NewRelicUrlParts(accountId, appName, numDays, searchTerm);
    var tail := "%27+since+" + n + "+days+ago";
    assert FormEncode(UsAscii, SinceClause(numDays)) == tail;
    SuffixOf(head, tail);
  }

  lemma SuffixOf(head: string, tail: string)
    ensures |head + tail| >= |tail| && (head + tail)[|head + tail| - |tail|..] == tail
  {
  }

  /** A search term made of unreserved characters appears in the link as it
      is, right after the encoded start of the query. */
  lemma NewRelicUrlShowsSearchTerm(accountId: string, appName: string, numDays: int, searchTerm: string)
    requires AllUnreserved(searchTerm)
    ensures var url := GetNewRelicUrl(accountId, appName, numDays, searchTerm);
            var at := |GetInsightsUrl(accountId) + FormEncode(UsAscii, BrowserPrefix(appName))|;
            at + |searchTerm| <= |url| && url[at..at + |searchTerm|] == searchTerm
  {
    NewRelicUrlParts(accountId, appName, numDays, searchTerm);
    FormEncodeUnreserved(UsAscii, searchTerm);
  }

  /** The query part of the link decodes to the US-ASCII bytes of the
      browser query; for an ASCII query those decode back to the query. */
  lemma NewRelicUrlDecodes(accountId: string, appName: string, numDays: int, searchTerm: string)
    ensures var url := GetNewRelicUrl(accountId, appName, numDays, searchTerm);
            var q := BrowserQuery(appName, searchTerm, numDays);
            var at := |GetInsightsUrl(accountId)|;
            && url[..at] == GetInsightsUrl(accountId)
            && FormDecode(url[at..]) == Some(Bytes(UsAscii, q))
            && ((forall i :: 0 <= i < |q| ==> IsAscii(q[i])) ==> Utf8Decode(Bytes(UsAscii, q)) == Some(q))
  {
    var q := BrowserQuery(appName, searchTerm, numDays);
    var url := GetNewRelicUrl(accountId, appName, numDays, searchTerm);
    assert url[|GetInsightsUrl(accountId)|..] == FormEncode(UsAscii, q);
    FormDecodeEncode(UsAscii, q);
    if forall i :: 0 <= i < |q| ==> IsAscii(q[i]) {
      AsciiBytesAgree(q);
      Utf8RoundTrip(q);
    }
  }

  /** After the account's page address the link holds only unreserved
      characters, '+' and '%', whatever the application name and the search
      term: nothing in the query part can break URI syntax. */
  lemma NewRelicUrlQueryAlphabet(accountId: string, appName: string, numDays: int, searchTerm: string)
    ensures var url := GetNewRelicUrl(accountId, appName, numDays, searchTerm);
            var at := |GetInsightsUrl(accountId)|;
            forall i :: at <= i < |url| ==> IsUnreserved(url[i]) || url[i] in "+%"
  {
    var q := BrowserQuery(appName, searchTerm, numDays);
    var url := GetNewRelicUrl(accountId, appName, numDays, searchTerm);
    var at := |GetInsightsUrl(accountId)|;
    FormEncodeAlphabet(UsAscii, q);
    forall i | at <= i < |url|
      ensures IsUnreserved(url[i]) || url[i] in "+%"
    {
      assert url[i] == FormEncode(UsAscii, q)[i - at];
    }
  }
}
