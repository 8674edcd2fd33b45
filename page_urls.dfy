/** The URL choice of the Selenese commands `sfdcOpenPage` and
    `sfdcOpenRecordById`: which address the browser is sent to, given the
    org's instance URL. */
module PageUrls {
  import opened Wrappers
  import opened RecordIds
  import opened Seqs

  const LOGIN_URL := "https://login.salesforce.com"
  const HOME_PATH := "home/home.jsp"
  const SETUP_PATH := "setup/forcecomHomepage.apexp"
  const NOT_SUPPORTED := "Page is not supported with this function"
  const USER_PREFIX := "005"
  const NO_REDIRECT := "?noredirect=1"

  /** `doSfdcOpenRecordById(recordId)`: the record's page under the instance,
      a user's detail page rather than their profile for ids with the user
      key prefix; an invalid id makes `isValidId` throw before anything is
      opened. */
  function OpenRecordByIdUrl(instanceUrl: string, recordId: string): Result<string>
  {
    match IsValidId(recordId)
    case Throw(e) => Throw(e)
    case Return(valid) =>
      var url := instanceUrl + "/";
      if !valid then Return(url)
      else if StartsWith(recordId, USER_PREFIX) then Return(url + recordId + NO_REDIRECT)
      else Return(url + recordId)
  }

  /** A valid id opens `instance/id`, with `?noredirect=1` exactly for user
      ids; an invalid one throws the id error and opens nothing. */
  lemma OpenRecordByIdCases(instanceUrl: string, recordId: string)
    ensures OpenRecordByIdUrl(instanceUrl, recordId).Return? <==> ContainsMatch(recordId)
    ensures ContainsMatch(recordId) && StartsWith(recordId, "005") ==>
      OpenRecordByIdUrl(instanceUrl, recordId) == Return(instanceUrl + "/" + recordId + "?noredirect=1")
    ensures ContainsMatch(recordId) && !StartsWith(recordId, "005") ==>
      OpenRecordByIdUrl(instanceUrl, recordId) == Return(instanceUrl + "/" + recordId)
    ensures !ContainsMatch(recordId) ==>
      OpenRecordByIdUrl(instanceUrl, recordId) == Throw(Error("Invalid Salesforce Record Id"))
  {
    IsValidIdIff(recordId);
  }

  /** `doSfdcOpenPage(param)` as written: the three page names, then an id;
      since `isValidId` throws rather than returning `false`, anything else
      throws the id error and the final `else` is never reached. */
  function OpenPageUrlAsWritten(instanceUrl: string, param: string): Result<string>
  {
    var url := instanceUrl + "/";
    if param == "Login" then Return(LOGIN_URL)
    else if param == "Home" then Return(url + HOME_PATH)
    else if param == "Setup" then Return(url + SETUP_PATH)
    else match IsValidId(param)
      case Throw(e) => Throw(e)
      case Return(valid) =>
        if valid then OpenRecordByIdUrl(instanceUrl, param)
        else Throw(Error(NOT_SUPPORTED))
  }

  /** `doSfdcOpenPage` with the id test answering `false` instead of
      throwing, so that unsupported names reach their own error. */
  function OpenPageUrl(instanceUrl: string, param: string): Result<string>
  {
    var url := instanceUrl + "/";
    if param == "Login" then Return(LOGIN_URL)
    else if param == "Home" then Return(url + HOME_PATH)
    else if param == "Setup" then Return(url + SETUP_PATH)
    else if IsValidId(param) == Return(true) then OpenRecordByIdUrl(instanceUrl, param)
    else Throw(Error(NOT_SUPPORTED))
  }

  /** As written, no parameter ever produces the "not supported" error. */
  lemma NotSupportedUnreachable(instanceUrl: string, param: string)
    ensures OpenPageUrlAsWritten(instanceUrl, param) != Throw(Error(NOT_SUPPORTED))
  {
    IsValidIdIff(param);
  }

  /** The two versions agree on every page name and every id and differ only
      in the message of the error for anything else. */
  lemma OpenPageUrlAgrees(instanceUrl: string, param: string)
    ensures OpenPageUrl(instanceUrl, param).Return? <==> OpenPageUrlAsWritten(instanceUrl, param).Return?
    ensures OpenPageUrl(instanceUrl, param).Return? ==>
      OpenPageUrl(instanceUrl, param) == OpenPageUrlAsWritten(instanceUrl, param)
    ensures OpenPageUrl(instanceUrl, param).Throw? ==>
      OpenPageUrl(instanceUrl, param) == Throw(Error(NOT_SUPPORTED))
      && OpenPageUrlAsWritten(instanceUrl, param) == Throw(Error(INVALID_ID))
  {
    IsValidIdIff(param);
  }

  /** Every outcome of the corrected `doSfdcOpenPage`: the login page, the
      home and setup pages under the instance, a record page, or the error. */
  lemma OpenPageUrlCases(instanceUrl: string, param: string)
    ensures param == "Login" ==> OpenPageUrl(instanceUrl, param) == Return("https://login.salesforce.com")
    ensures param == "Home" ==> OpenPageUrl(instanceUrl, param) == Return(instanceUrl + "/" + "home/home.jsp")
    ensures param == "Setup" ==>
      OpenPageUrl(instanceUrl, param) == Return(instanceUrl + "/" + "setup/forcecomHomepage.apexp")
    ensures param != "Login" && param != "Home" && param != "Setup" && ContainsMatch(param) ==>
      OpenPageUrl(instanceUrl, param) == OpenRecordByIdUrl(instanceUrl, param)
    ensures param != "Login" && param != "Home" && param != "Setup" && !ContainsMatch(param) ==>
      OpenPageUrl(instanceUrl, param) == Throw(Error("Page is not supported with this function"))
  {
    IsValidIdIff(param);
  }
}
