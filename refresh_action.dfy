/**
 * The refresh action's gate in front of the client: a client is built only
 * when the API key, the account id and the application name are all set and
 * the day count is positive; without one, the action's result is an empty
 * map and nothing is sent.
 */
module RefreshAction {
  import opened Wrappers
  import opened JavaText
  import opened NewRelicClient
  import opened ProjectPreferences
  import opened ApplicationPreferences

  /** The arguments a NewRelicClient is built with. */
  datatype ClientSettings = ClientSettings(apiKey: string, nrUrl: string, appName: string, numDays: string, untilDate: Option<string>)

  /** The three texts are set and the day count parses to a positive int. */
  predicate Configured(accountId: Option<string>, apiKey: Option<string>, appName: Option<string>, numDays: string) {
    && !IsBlank(apiKey) && !IsBlank(accountId) && !IsBlank(appName)
    && ParseInt(numDays).Some? && ParseInt(numDays).value > 0
  }

  /** getClient. The checks run left to right and stop at the first that
      fails, so numDays is parsed only once the three texts are set; a day
      count that is not an int then throws. */
  function GetClient(accountId: Option<string>, apiKey: Option<string>, appName: Option<string>, numDays: string, untilDate: Option<string>)
    : (r: Result<Option<ClientSettings>, JavaException>)
    ensures r.Err? <==> !IsBlank(apiKey) && !IsBlank(accountId) && !IsBlank(appName) && ParseInt(numDays).None?
    ensures r.Err? ==> r.error == NumberFormatException
    ensures r.Ok? && r.value.Some? <==> Configured(accountId, apiKey, appName, numDays)
    ensures r.Ok? && r.value.Some? ==>
              && r.value.value.nrUrl == GetApiUrl(accountId.value)
              && r.value.value.apiKey == apiKey.value && r.value.value.appName == appName.value
              && r.value.value.numDays == numDays && r.value.value.untilDate == untilDate
  {
    if IsBlank(apiKey) || IsBlank(accountId) || IsBlank(appName) then Ok(None)
    else
      var days := ParseInt(numDays);
      if days.None? then Err(NumberFormatException)
      else if days.value > 0 then Ok(Some(ClientSettings(apiKey.value, GetApiUrl(accountId.value), appName.value, numDays, untilDate)))
      else Ok(None)
  }

  /** The cases the action's unit test checks: a full configuration gives a
      client; an empty account id, API key or application name, or zero
      days, gives none. */
  lemma GetClientExamples()
    ensures GetClient(Some("account-id"), Some("api-key"), Some("app-name"), "10", None).Ok?
    ensures GetClient(Some("account-id"), Some("api-key"), Some("app-name"), "10", None).value.Some?
    ensures GetClient(Some(""), Some("api-key"), Some("app-name"), "10", None) == Ok(None)
    ensures GetClient(Some("account-id"), Some(""), Some("app-name"), "10", None) == Ok(None)
    ensures GetClient(Some("account-id"), Some("api-key"), Some(""), "10", None) == Ok(None)
    ensures GetClient(Some("account-id"), Some("api-key"), Some("app-name"), "0", None) == Ok(None)
  {
    assert !IsJavaWhitespace("account-id"[0]) && !IsJavaWhitespace("api-key"[0]) && !IsJavaWhitespace("app-name"[0]);
    assert "10"[..1] == "1";
    ParseIntAscii("10");
    ParseIntAscii("0");
  }

  /** A day count read from the project preferences is printed by
      Integer.toString, so getClient never throws on it. */
  lemma GetClientFromStoredDays(accountId: Option<string>, apiKey: Option<string>, appName: Option<string>, days: int, untilDate: Option<string>)
    requires 0 <= days <= MaxInt
    ensures GetClient(accountId, apiKey, appName, IntToString(days), untilDate).Ok?
    ensures GetClient(accountId, apiKey, appName, IntToString(days), untilDate).value.Some?
            <==> !IsBlank(apiKey) && !IsBlank(accountId) && !IsBlank(appName) && days > 0
  {
    ParseIntToString(days);
  }

  /** callNewRelic: reads the preferences, asks getClient for a client, and
      runs its query; without a client the result is an empty map and the
      HTTP client is never called. The day count is passed to getClient as
      the text Integer.toString prints. */
  method CallNewRelic(application: ApplicationPreferencesState, project: ProjectPreferencesState,
                      apiKey: Option<string>, untilDate: Option<string>, httpClient: Transport)
    returns (r: Result<map<string, int>, JavaException>)
    requires application.Valid() && project.Valid()
    modifies httpClient
    ensures var accountId := application.GetNewRelicAccountId();
            var appName := project.GetNewRelicAppName();
            var numDays := IntToString(project.GetNumDaysToQuery());
            if Configured(Some(accountId), apiKey, Some(appName), numDays) then
              var e := QueryExchange(apiKey.value, GetApiUrl(accountId), appName, numDays, untilDate, old(httpClient.script));
              && r == e.counts
              && httpClient.script == e.script
              && httpClient.sent == old(httpClient.sent) + e.sent
            else
              && r == Ok(map[])
              && httpClient.script == old(httpClient.script)
              && httpClient.sent == old(httpClient.sent)
  {
    var accountId := application.GetNewRelicAccountId();
    var appName := project.GetNewRelicAppName();
    var numDays := IntToString(project.GetNumDaysToQuery());
    GetClientFromStoredDays(Some(accountId), apiKey, Some(appName), project.GetNumDaysToQuery(), untilDate);
    var settings := GetClient(Some(accountId), apiKey, Some(appName), numDays, untilDate);
    if settings.value.None? {
      return Ok(map[]);
    }
    var s := settings.value.value;
    var client := new Client(s.apiKey, s.nrUrl, s.appName, s.numDays, s.untilDate, httpClient);
    r := client.Query();
  }
}
