# trace-metrics: a Dafny model of the plugin's core

trace-metrics is an IntelliJ plugin. It finds the New Relic `@Trace(metricName = …)`
annotations in a project, asks New Relic Insights how often each custom web
transaction ran, and shows one row per trace point with its hit count. This
project models the plugin's core and proves what each part promises:

- **`NewRelicClient`** (`new_relic_client.dfy`) covers the following.
  - The API and Insights URLs.
  - The NRQL query list that `query` builds. Blank `untilDate` gives one "last N days" query. An until date gives one one-day window per day, walking back with `LocalDate.minusDays`.
  - The two-attempt retry loop of `queryAndCount`.
  - The merge of the `facets` array into the counts map with `Map.merge(…, Long::sum)`.
  - The HTTP client is a `Transport` object. It plays back a script of outcomes (an `IOException`, or a status with a parsed body) and logs every request sent. `Client` is a class whose `Query`, `RunAll`, `QueryAndCount`, `BuildTraceQueries` and `BuildWindows` methods carry the source's loops. Each is proved against a specification function (`TraceQueries`, `RunQueries`, `QueryAndCountEffect`, `AbsorbFacets`), and the properties are proved about those functions.
- **`RefreshAction`** (`refresh_action.dfy`): `getClient`, the gate that builds a client only for complete settings and a positive day count. `callNewRelic` reads the preferences and either queries or returns an empty map without sending anything.
- **`ProjectPreferences`** and **`ApplicationPreferences`**: the persisted `State` records and the components that own them. These are classes whose setters trim or validate in place, plus `getState`/`loadState`.
- **`TraceTableModel`**: the table rows, filled in place by the constructor's loop and by `addTraceCounts`. Counts are formatted with `DecimalFormat("#,###")`, and `"--"` is shown when the query returned nothing.
- **`TraceDataTable`**: `stringToLong` and the sorter's comparator, proved to be a total preorder that puts `"--"` first and orders formatted counts numerically.
- **`Traces`**: `Trace.getMetricName` and `Trace.fromPsiAnnotation` over a PSI annotation reduced to its attributes.
- **`Utils`**: `getNewRelicUrl`, the browser deep link. It is proved to start with the account's Insights page. Its query part decodes to the US-ASCII bytes of the browser query, which are the query itself when it is ASCII (`URLEncoder` writes '?' for any other character). It ends with the encoded "since N days ago" clause.
- Support modules model the parts of the Java library the core relies on:
  - `JavaText`: `String.trim`, `StringUtils.isBlank`, `Integer.parseInt`/`toString`, `String.replace`. `parseInt` reads digits of any script through `Character.digit`.
  - `FormEncoding`: `URLEncoder.encode` over US-ASCII and UTF-8, with a decoder and a strict UTF-8 decoder as its reference inverses.
  - `IsoDate`: `LocalDate.parse`, `toString` and `minusDays` on the ISO calendar.
  - `DecimalFormatting`: `DecimalFormat("#,###")` `format` and `parse`.
  - `Wrappers`: `Option` and `Result`.

The JVM's default locale is taken to be English throughout. The JDK is Java 8: character classes follow Unicode 6.2.

Java exceptions that the source lets escape appear as `Err(…)` of the `JavaException` datatype. A query run that throws yields `Err`, not a partial map.

## Model

All Java paths are under `src/main/java/com/disney/idea/` or `src/test/java/com/disney/idea/`.

| member | source | states |
|---|---|---|
| NewRelicClient.GetApiUrl | src/main/java/com/disney/idea/client/NewRelicClient.java:152-154 | the API URL is the fixed insights-api prefix followed by exactly the account id |
| NewRelicClient.GetInsightsUrl | src/main/java/com/disney/idea/client/NewRelicClient.java:165-167 | the Insights URL is the fixed prefix, the account id, then "/query?query=" |
| NewRelicClient.ApiUrlInjective | src/main/java/com/disney/idea/client/NewRelicClient.java:40 | distinct account ids give distinct API URLs |
| NewRelicClient.DefaultTraceQueryShape | src/main/java/com/disney/idea/client/NewRelicClient.java:43 | the default query selects the application's custom web transactions, faceted by name, and carries numDays verbatim in its SINCE clause |
| NewRelicClient.DateRangeTraceQueryShape | src/main/java/com/disney/idea/client/NewRelicClient.java:44 | the date-range query selects the same transactions and carries the since and until dates verbatim |
| NewRelicClient.TraceQueriesErrors | src/main/java/com/disney/idea/client/NewRelicClient.java:74-82 | a blank until date never throws. Otherwise an unparsable numDays throws NumberFormatException. A numDays that is not positive gives no query and throws nothing, since the until date is parsed only inside the loop. When numDays parses to a positive count, an unparsable until date throws DateTimeParseException. With both parsed, the list is built iff the earliest day is within LocalDate's range, and no other exception can occur |
| NewRelicClient.TraceQueriesShape | src/main/java/com/disney/idea/client/NewRelicClient.java:73-83 | every query built selects the configured application's custom web transactions |
| NewRelicClient.BlankUntilDateOneQuery | src/main/java/com/disney/idea/client/NewRelicClient.java:74-75 | a blank until date gives exactly the one default query |
| NewRelicClient.UntilDateQueryCount | src/main/java/com/disney/idea/client/NewRelicClient.java:78 | with an until date there are exactly parseInt(numDays) queries, and none when that is not positive |
| NewRelicClient.WalkWindows | src/main/java/com/disney/idea/client/NewRelicClient.java:77-82 | window i runs from the (i+1)-th day before the end date to the i-th. Both texts parse back to those days, and the next window ends where this one starts |
| NewRelicClient.UntilDateWindows | src/main/java/com/disney/idea/client/NewRelicClient.java:76-83 | the same for the query list of a client with an until date: query i is a one-day window ending i days before the until date |
| NewRelicClient.UntilDateWindowsDisjoint | src/main/java/com/disney/idea/client/NewRelicClient.java:79-81 | a later window ends no later than an earlier one starts, so windows never overlap |
| NewRelicClient.Merge | src/main/java/com/disney/idea/client/NewRelicClient.java:131 | Map.merge with Long::sum adds the count to the key's entry (absent counts as 0), adds the key, and leaves every other entry unchanged |
| NewRelicClient.AbsorbFacetsClosedForm | src/main/java/com/disney/idea/client/NewRelicClient.java:125-132 | merging a facets array fails with NullPointerException exactly when some element lacks a name or count. Otherwise the keys are the old keys plus the stripped metric names, and each entry gains the sum of that name's counts |
| NewRelicClient.AbsorbFacetsOrderIrrelevant | src/main/java/com/disney/idea/client/NewRelicClient.java:126-131 | the order of the facets does not change the merged map |
| NewRelicClient.AbsorbErrorPersists | src/main/java/com/disney/idea/client/NewRelicClient.java:126-131 | once a prefix of the array fails, merging the whole array fails with the same exception |
| NewRelicClient.MergeFacets | src/main/java/com/disney/idea/client/NewRelicClient.java:126-132 | the loop over the facets array computes the specification merge AbsorbFacets |
| NewRelicClient.RetryRule | src/main/java/com/disney/idea/client/NewRelicClient.java:112-137 | there are one or two attempts, and exactly one iff the first answer is 200. The counts change by the first 200 answer among the two attempts, and by nothing if neither is a 200 |
| NewRelicClient.RequestCarriesQuery | src/main/java/com/disney/idea/client/NewRelicClient.java:103-110 | the request URI is nrUrl + "/query?nrql=" + the encoded query, and its tail decodes back to the query. The X-Query-Key header is the API key |
| NewRelicClient.RunQueriesClosedForm | src/main/java/com/disney/idea/client/NewRelicClient.java:85-94 | a run over all queries succeeds iff every 200 answer whose JSON parses has a facets array whose elements all have a name and a count. The final map is then the sum of all the facets read |
| NewRelicClient.Transport.Execute | src/main/java/com/disney/idea/client/NewRelicClient.java:117 | the HTTP client answers with the next scripted outcome and logs the request |
| NewRelicClient.Client.constructor | src/main/java/com/disney/idea/client/NewRelicClient.java:52-64 | the client stores its six arguments unchanged |
| NewRelicClient.Client.BuildTraceQueries | src/main/java/com/disney/idea/client/NewRelicClient.java:73-83 | the query-building code returns exactly the specified list TraceQueries, or its exception |
| NewRelicClient.Client.BuildWindows | src/main/java/com/disney/idea/client/NewRelicClient.java:77-82 | the walk-back loop yields DateTimeParseException for an unparsable until date, and otherwise the specified walk |
| NewRelicClient.Client.QueryAndCount | src/main/java/com/disney/idea/client/NewRelicClient.java:99-141 | one query consumes Tries outcomes and sends that many identical requests for the query, and its result is QueryAndCountEffect |
| NewRelicClient.Client.RunAll | src/main/java/com/disney/idea/client/NewRelicClient.java:85-94 | the loop over the queries gives the counts, the remaining script and the requests of the specification RunQueries |
| NewRelicClient.Client.Query | src/main/java/com/disney/idea/client/NewRelicClient.java:71-97 | query() gives the counts, consumed script and sent requests of QueryExchange |
| NewRelicClient.DefaultRunsOnce | src/main/java/com/disney/idea/client/NewRelicClient.java:74-75 | without an until date, query() sends the default query's request Tries times and returns the effect of one queryAndCount on an empty map |
| NewRelicClient.RetryOnceAfterIoFailure | src/test/java/com/disney/idea/client/NewRelicClientTest.java:37-45 | two IOExceptions give an empty map and exactly two requests |
| NewRelicClient.RetryOnceAfterNon200 | src/test/java/com/disney/idea/client/NewRelicClientTest.java:47-58 | two non-200 answers give an empty map and exactly two requests |
| NewRelicClient.NoRetryAfterSuccess | src/test/java/com/disney/idea/client/NewRelicClientTest.java:60-74 | a first 200 answer with facet "this" counting 5 gives {"this": 5} after exactly one request |
| RefreshAction.GetClient | src/main/java/com/disney/idea/actions/RefreshAction.java:85-91 | a client exists iff all three texts are non-blank and numDays parses to a positive int. It then carries getApiUrl(accountId) and the other arguments. NumberFormatException is thrown exactly when the texts are set and numDays does not parse |
| RefreshAction.GetClientExamples | src/test/java/com/disney/idea/actions/RefreshActionTest.java:14-23 | full settings give a client; an empty account id, API key or application name, or 0 days, gives none |
| RefreshAction.GetClientFromStoredDays | src/main/java/com/disney/idea/actions/RefreshAction.java:68-71 | a stored day count printed by Integer.toString never makes getClient throw, and gives a client iff the texts are set and the count is positive |
| RefreshAction.CallNewRelic | src/main/java/com/disney/idea/actions/RefreshAction.java:62-73 | with complete settings the result and traffic are those of query() on the configured client. Otherwise the result is an empty map and the HTTP client is untouched |
| ProjectPreferences.AcceptNumDaysValid | src/main/java/com/disney/idea/components/ProjectPreferencesState.java:43-47 | the stored count stays a non-negative Java int |
| ProjectPreferences.AcceptNumDaysToString | src/main/java/com/disney/idea/components/ProjectPreferencesState.java:41-51 | setting the printed form of a valid count stores that count |
| ProjectPreferences.AcceptNumDaysIdempotent | src/main/java/com/disney/idea/components/ProjectPreferencesState.java:41-51 | setting the same text twice is setting it once |
| ProjectPreferences.AcceptNumDaysExamples | src/test/java/com/disney/idea/components/ProjectPreferencesStateTest.java:24-47 | "99" is stored; "-88", "1.5" and "not a number" keep 99; "0" is stored |
| ProjectPreferences.State.constructor | src/main/java/com/disney/idea/components/ProjectPreferencesState.java:23-27 | a new record has neither field set |
| ProjectPreferences.State.GetNewRelicAppName | src/main/java/com/disney/idea/components/ProjectPreferencesState.java:29-31 | the name is "" when never set and otherwise the stored, trimmed name |
| ProjectPreferences.State.SetNewRelicAppName | src/main/java/com/disney/idea/components/ProjectPreferencesState.java:33-35 | stores the trimmed name and leaves the day count alone |
| ProjectPreferences.State.GetNumDaysToQuery | src/main/java/com/disney/idea/components/ProjectPreferencesState.java:37-39 | the count is 1 when never set and otherwise the stored count, always a non-negative int |
| ProjectPreferences.State.SetNumDaysToQuery | src/main/java/com/disney/idea/components/ProjectPreferencesState.java:41-51 | stores AcceptNumDays of the text and the old count, and leaves the name alone |
| ProjectPreferences.ProjectPreferencesState.constructor | src/main/java/com/disney/idea/components/ProjectPreferencesState.java:54 | the component starts with a fresh, empty record |
| ProjectPreferences.ProjectPreferencesState.GetState | src/main/java/com/disney/idea/components/ProjectPreferencesState.java:56-59 | returns the record the component holds |
| ProjectPreferences.ProjectPreferencesState.LoadState | src/main/java/com/disney/idea/components/ProjectPreferencesState.java:61-64 | replaces the record with the given one |
| ProjectPreferences.ProjectPreferencesState.GetNewRelicAppName | src/main/java/com/disney/idea/components/ProjectPreferencesState.java:66-68 | delegates to the record, giving a trimmed name |
| ProjectPreferences.ProjectPreferencesState.SetNewRelicAppName | src/main/java/com/disney/idea/components/ProjectPreferencesState.java:70-72 | afterwards the getter returns the trimmed name, and the day count is unchanged |
| ProjectPreferences.ProjectPreferencesState.GetNumDaysToQuery | src/main/java/com/disney/idea/components/ProjectPreferencesState.java:74-76 | delegates to the record, giving a non-negative int |
| ProjectPreferences.ProjectPreferencesState.SetNumDaysToQuery | src/main/java/com/disney/idea/components/ProjectPreferencesState.java:78-80 | the record's count becomes AcceptNumDays of the text, and the name is unchanged |
| ApplicationPreferences.State.constructor | src/main/java/com/disney/idea/components/ApplicationPreferencesState.java:30-31 | a new record has no account id |
| ApplicationPreferences.State.GetNewRelicAccountId | src/main/java/com/disney/idea/components/ApplicationPreferencesState.java:33-35 | the id is "" when never set and otherwise the stored, trimmed id |
| ApplicationPreferences.State.SetNewRelicAccountId | src/main/java/com/disney/idea/components/ApplicationPreferencesState.java:37-39 | stores the trimmed id |
| ApplicationPreferences.ApplicationPreferencesState.constructor | src/main/java/com/disney/idea/components/ApplicationPreferencesState.java:43 | the component starts with a fresh, empty record |
| ApplicationPreferences.ApplicationPreferencesState.GetState | src/main/java/com/disney/idea/components/ApplicationPreferencesState.java:45-48 | returns the record the component holds |
| ApplicationPreferences.ApplicationPreferencesState.LoadState | src/main/java/com/disney/idea/components/ApplicationPreferencesState.java:50-53 | replaces the record with the given one |
| ApplicationPreferences.ApplicationPreferencesState.GetNewRelicAccountId | src/main/java/com/disney/idea/components/ApplicationPreferencesState.java:60-62 | delegates to the record, giving a trimmed id |
| ApplicationPreferences.ApplicationPreferencesState.SetNewRelicAccountId | src/main/java/com/disney/idea/components/ApplicationPreferencesState.java:68-70 | trimming twice is trimming once, so the getter then returns the input trimmed once |
| TraceTableModel.FormattedTraceCount | src/main/java/com/disney/idea/components/TraceTableModel.java:57-64 | the text parses back to the trace's count (0 when the map lacks it), is "0" for an unknown trace, and is never "--" |
| TraceTableModel.CountCellMeaning | src/main/java/com/disney/idea/components/TraceTableModel.java:43-53 | a count cell is "--" iff the query result is empty, and otherwise reads back as the trace's count |
| TraceTableModel.TraceTableModel.SetValueAt | src/main/java/com/disney/idea/components/TraceTableModel.java:53 | exactly one cell changes |
| TraceTableModel.TraceTableModel.constructor | src/main/java/com/disney/idea/components/TraceTableModel.java:18-27 | one row per trace holding its file name, metric name, no count yet, and line number |
| TraceTableModel.TraceTableModel.IsCellEditable | src/main/java/com/disney/idea/components/TraceTableModel.java:29-32 | no cell is editable |
| TraceTableModel.TraceTableModel.GetTrace | src/main/java/com/disney/idea/components/TraceTableModel.java:34-36 | returns the row's trace, whose metric name is the row's trace-name cell |
| TraceTableModel.TraceTableModel.AddTraceCounts | src/main/java/com/disney/idea/components/TraceTableModel.java:42-55 | every row's count cell becomes its CountCell, and every other cell is unchanged |
| DecimalFormatting.ParseFormatGrouped | src/main/java/com/disney/idea/components/TraceTableModel.java:62-63 | DecimalFormat("#,###").parse reads back every number format writes |
| DecimalFormatting.FormatGroupedInjective | src/main/java/com/disney/idea/components/TraceTableModel.java:62-63 | distinct counts are written differently |
| DecimalFormatting.FormatGroupedNotPlaceholder | src/main/java/com/disney/idea/components/TraceTableModel.java:62-63 | a formatted count is never "--" |
| DecimalFormatting.GroupingExamples | src/main/java/com/disney/idea/components/TraceTableModel.java:62-63 | 1234567 is written "1,234,567" and 0 is written "0" |
| DecimalFormatting.FormatGroupedLayout | src/main/java/com/disney/idea/components/TraceTableModel.java:62-63 | for every count: '-' first exactly when it is negative, then a digit, then only digits and ','; a ',' stands exactly before each block of three digits counted from the right; the digits spell the magnitude with no leading zero |
| DecimalFormatting.GroupDigitsDigits | src/main/java/com/disney/idea/components/TraceTableModel.java:62-63 | removing the separators from a formatted magnitude leaves Integer.toString of it |
| DecimalFormatting.GroupDigitsCommas | src/main/java/com/disney/idea/components/TraceTableModel.java:62-63 | in a formatted magnitude, a ',' sits at position i > 0 exactly when |r| - i is a multiple of 4 |
| DecimalFormatting.ParseNumberNoDigits | src/main/java/com/disney/idea/components/TraceDataTable.java:150-156 | "--", "" and a word throw ParseException |
| DecimalFormatting.ParseFormattedPrefix | src/main/java/com/disney/idea/components/TraceDataTable.java:153 | a formatted count followed by text that starts with neither a digit nor ',' reads as that count, of either sign |
| DecimalFormatting.ParseMinus | src/main/java/com/disney/idea/components/TraceDataTable.java:153 | a leading '-' negates what the rest of the text reads as, and a rest that does not parse still does not |
| DecimalFormatting.ParseDropsFraction | src/main/java/com/disney/idea/components/TraceDataTable.java:153 | longValue drops the fraction: any formatted count followed by '.' and fraction digits reads as the count |
| TraceDataTable.StringToLongFormatted | src/main/java/com/disney/idea/components/TraceDataTable.java:149-158 | stringToLong reads back every formatted count; "--" and "" read as 0 |
| TraceDataTable.LongCompare | src/main/java/com/disney/idea/components/TraceDataTable.java:186 | Long.compare returns -1, 0 or 1, negative iff x < y, and zero iff x == y |
| TraceDataTable.CompareIsRankOrder | src/main/java/com/disney/idea/components/TraceDataTable.java:182-197 | the comparator is the lexicographic order on (not "--", stringToLong), in all three outcomes |
| TraceDataTable.CompareAntisymmetric | src/main/java/com/disney/idea/components/TraceDataTable.java:182-197 | swapping the arguments flips the sign |
| TraceDataTable.CompareTransitive | src/main/java/com/disney/idea/components/TraceDataTable.java:182-197 | the comparator is transitive, both strictly and non-strictly |
| TraceDataTable.PlaceholderFirst | src/main/java/com/disney/idea/components/TraceDataTable.java:188-194 | "--" sorts before every other cell and ties with itself |
| TraceDataTable.FormattedCountsCompareNumerically | src/main/java/com/disney/idea/components/TraceDataTable.java:185-186 | two formatted counts compare as the counts do |
| TraceDataTable.UnparsedCellsTie | src/main/java/com/disney/idea/components/TraceDataTable.java:185-186 | cells that are not "--" and do not parse all compare equal |
| Traces.GetMetricNameFirstMatch | src/main/java/com/disney/idea/utils/Trace.java:41-49 | the first attribute named metricName decides the result, whatever follows it |
| Traces.GetMetricNameAbsent | src/main/java/com/disney/idea/utils/Trace.java:41-49 | with no attribute named metricName the result is null |
| Traces.GetMetricNameFound | src/main/java/com/disney/idea/utils/Trace.java:41-49 | a name found is the literal value of some attribute named metricName |
| Traces.FromPsiAnnotation | src/main/java/com/disney/idea/utils/Trace.java:31-39 | a trace exists iff the annotation names its metric. It then carries that name, the annotation's file and range, and the 1-based line number |
| Utils.NewRelicUrlParts | src/main/java/com/disney/idea/utils/Utils.java:94-95 | the link is the Insights URL followed by the separately encoded query prefix, search term and since clause |
| Utils.NewRelicUrlPrefix | src/main/java/com/disney/idea/utils/Utils.java:89-95 | the link starts with the Insights prefix followed by the account id |
| Utils.NewRelicUrlSinceClause | src/test/java/com/disney/idea/utils/UtilsTest.java:43-56 | the link ends with "%27+since+" + the day count + "+days+ago" |
| Utils.NewRelicUrlShowsSearchTerm | src/test/java/com/disney/idea/utils/UtilsTest.java:39-40 | a search term of unreserved characters appears verbatim right after the encoded query prefix |
| Utils.NewRelicUrlDecodes | src/main/java/com/disney/idea/utils/Utils.java:94-95 | after the Insights URL the link decodes to the US-ASCII bytes of the browser query, which are the query itself when it is ASCII |
| Utils.NewRelicUrlQueryAlphabet | src/main/java/com/disney/idea/utils/Utils.java:95-96 | after the Insights URL the link holds only unreserved characters, '+' and '%' |
| FormEncoding.FormEncodeAppend | src/main/java/com/disney/idea/client/NewRelicClient.java:103 | URLEncoder.encode works character by character, so it distributes over concatenation |
| FormEncoding.FormEncodeUnreserved | src/main/java/com/disney/idea/client/NewRelicClient.java:103 | text of unreserved characters is left unchanged |
| FormEncoding.FormEncodeAlphabet | src/main/java/com/disney/idea/client/NewRelicClient.java:103 | the encoding holds only unreserved characters, '+' and '%' |
| FormEncoding.FormDecodeEncode | src/main/java/com/disney/idea/client/NewRelicClient.java:103 | decoding the encoding gives back the charset's bytes of the text |
| FormEncoding.Utf8RoundTrip | src/main/java/com/disney/idea/client/NewRelicClient.java:103 | UTF-8 decoding inverts UTF-8 encoding |
| FormEncoding.FormEncodeUtf8RoundTrip | src/main/java/com/disney/idea/client/NewRelicClient.java:103 | the UTF-8 form encoding of a query loses nothing |
| JavaText.IsBlankExamples | src/main/java/com/disney/idea/actions/RefreshAction.java:86 | StringUtils.isBlank under Java 8: U+180E and U+3000 text is blank, a no-break space is not |
| JavaText.Trim | src/main/java/com/disney/idea/components/ProjectPreferencesState.java:34 | String.trim's result has no character <= U+0020 at either end and is s with only such characters removed from its two ends |
| JavaText.TrimIdempotent | src/main/java/com/disney/idea/components/ApplicationPreferencesState.java:69 | trimming twice is trimming once |
| JavaText.ParseInt | src/main/java/com/disney/idea/components/ProjectPreferencesState.java:43 | Integer.parseInt yields only values in the int range, and never for empty text |
| JavaText.DecimalDigit | src/main/java/com/disney/idea/components/ProjectPreferencesState.java:43 | Character.digit(c, 10) gives a value below 10, and the usual value for '0'..'9' |
| JavaText.DecimalDigitRuns | src/main/java/com/disney/idea/components/ProjectPreferencesState.java:43 | a character is a digit to parseInt exactly when one of the Unicode Nd runs holds it, and its value is its offset in that run |
| JavaText.ParseIntAscii | src/main/java/com/disney/idea/components/ProjectPreferencesState.java:43 | a run of ASCII digits within the int range parses to the value it spells |
| JavaText.ParseIntPlusSign | src/main/java/com/disney/idea/components/ProjectPreferencesState.java:43 | an explicit '+' before the digits means the same as no sign |
| JavaText.ParseIntFullwidth | src/main/java/com/disney/idea/components/ProjectPreferencesState.java:43 | the fullwidth digit five parses to 5 |
| JavaText.ParseIntArabicIndic | src/main/java/com/disney/idea/components/ProjectPreferencesState.java:43 | twelve in Arabic-Indic digits parses to 12 |
| JavaText.ParseIntDevanagari | src/main/java/com/disney/idea/components/ProjectPreferencesState.java:43 | '-' and the Devanagari digit one parse to -1 |
| JavaText.ParseIntToString | src/main/java/com/disney/idea/components/ProjectPreferencesState.java:43 | Integer.parseInt reads back what Integer.toString prints |
| JavaText.NatToStringDigits | src/main/java/com/disney/idea/utils/Utils.java:94 | %d prints decimal digits with no leading zero whose value is the number |
| JavaText.RemoveAllChangesIffOccurs | src/main/java/com/disney/idea/client/NewRelicClient.java:128 | replace(target, "") changes the text iff the target occurs in it |
| JavaText.RemoveAllLeading | src/main/java/com/disney/idea/client/NewRelicClient.java:128 | a leading "WebTransaction/Custom/" is deleted and the scan resumes after it |
| IsoDate.ParseFormatIsoDate | src/main/java/com/disney/idea/client/NewRelicClient.java:79 | LocalDate.parse reads back what LocalDate.toString prints, for every date in range |
| IsoDate.FormatIsoDateInjective | src/main/java/com/disney/idea/client/NewRelicClient.java:79 | distinct dates print differently |
| IsoDate.PrevNextInverse | src/main/java/com/disney/idea/client/NewRelicClient.java:79 | minusDays(1) and plusDays(1) are inverse |
| IsoDate.PrevDayAdjacent | src/main/java/com/disney/idea/client/NewRelicClient.java:79 | no day lies strictly between a day and the day before it |
| IsoDate.DaysBeforeStrictlyEarlier | src/main/java/com/disney/idea/client/NewRelicClient.java:78-81 | walking further back gives strictly earlier days |

## Left out

- The HTTP transport is an oracle: a script of outcomes per attempt, either an IOException or a status code with a body. Connection handling and `try`-with-resources closing are not modelled.
- The 5-argument `NewRelicClient` constructor, which builds a default HTTP client (`NewRelicClient.java:47-49`), is not modelled; the model always passes the transport in.
- JSON parsing is not modelled. A 200 body is given already parsed: either unreadable (the IOException the reader throws, caught at line 134) or an object with an optional `facets` array.
  - Each facet element has an optional name and an optional count. A missing `results` array or first result counts as a missing count.
  - A missing field throws NullPointerException, which escapes `query`. It is modelled as `Err(NullPointerException)` rather than excluded by a precondition.
  - A null entity, and `asText`/`asLong` conversions of non-text or non-number nodes, are not modelled.
- The `ProgressIndicator` and the `whereClause` substring (`NewRelicClient.java:87-90`) only feed the progress text and are not modelled.
- `Utils.refreshCounts` (line 140) updates the UI and is not modelled.
- NewRelicClient.Client.Query, NewRelicClient.Client.QueryAndCount, RefreshAction.CallNewRelic and Utils.GetNewRelicUrl do not model the URI syntax checks. `getApiUrl` and `getInsightsUrl` put the trimmed account id into the URL without encoding it. `URI.create` (`NewRelicClient.java:103`) then throws IllegalArgumentException, and `new URI` (`Utils.java:96`) throws URISyntaxException, for an id holding a space, '{' or a '%' not followed by two hex digits. The model sends the request and returns the link regardless. The encoded parts cannot cause such a failure: `Utils.NewRelicUrlQueryAlphabet` and `FormEncoding.FormEncodeAlphabet` show they hold only safe characters.
- The JVM's default locale is taken to be English throughout. The JDK is Java 8: character classes follow Unicode 6.2. `String.format("%d")` in `Utils.java:94` then prints ASCII digits, and `DecimalFormat("#,###")` uses ',' and '.'. Under another default locale these may differ.
- JavaText.IsBlank: the whitespace set is that of Unicode 6.2, which Java 8 follows, so U+180E counts as blank. From Java 9 on, U+180E is no longer whitespace, and the model does not follow that JDK.
- JavaText.ParseInt: the digit table (`JavaText.DigitZeros`) is that of Unicode 6.2, which Java 8 follows. Later JDKs add digit runs, such as U+0DE6 and U+A9F0, that the model rejects.
- NewRelicClient.Merge: counts are unbounded integers, so the model does not capture `Long::sum` wrapping past 2^63-1.
- DecimalFormatting.ParseNumber: values beyond the long range are not modelled. Exponent notation, non-ASCII digits, the infinity and NaN symbols, and locale-specific separators are not modelled either. The separators are fixed to an English locale's ',' and '.'.
- The preferences' XML persistence writes fields directly. The getters' `Valid()` requirement (a trimmed name, a non-negative count) assumes state produced by the setters.
- A null argument to the setters, which makes `trim` throw, is not modelled: the setters take a string.
- `ApplicationPreferencesState`'s PasswordSafe API-key storage (lines 76-89) is not modelled; the API key is a parameter of `CallNewRelic`.
- The `getInstance` service lookups and `getProject` are not modelled; the components are passed in.
- The table's JTable, TableRowSorter and UI threading are not modelled. The sorter's comparator is modelled as a function.
- The PSI tree is not modelled. An annotation is its attribute list, file, text range and 0-based line; `StringUtil.offsetToLineNumber` is not modelled, and the line is an input.
- `Trace`'s constructor and getters (`Trace.java:24-29`, 51-65) are the `Traces.Trace` datatype's constructor and fields.
- `LinkedHashMap` iteration order is not modelled; counts are a `map`.
- Where the source does not compile, the model follows its evident intent:
  - `RefreshAction.callNewRelic` assigns the `Integer` day count to a `String` (`RefreshAction.java:68`). The model passes `Integer.toString` of it.
  - `callNewRelic` calls `getUntilDateToQuery` (line 69), which `ProjectPreferencesState` does not define. The until date is a parameter of `RefreshAction.CallNewRelic`.
  - `Utils.getNewRelicUrl` passes `getProject()` to `ApplicationPreferencesState.getInstance` (`Utils.java:88`), which takes none. The account id is a parameter.
  - `TraceDataTable.java:73` calls `callNewRelic` with one argument.
  - The sorter's comparator is installed on column 1, the trace names, not on column 2, the counts. `TraceDataTable.UnparsedCellsTie` states what that does to trace names that do not parse.
- `query`'s loop re-parses `numDays` on every pass. The model parses it once; the text does not change, so the result is the same.
