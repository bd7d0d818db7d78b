/**
 * The gcal configuration (internal/gcal/config.go): the authentication
 * type, the two credential file paths and the calendar IDs to query,
 * with the OAuth default applied after decoding and the validation rules.
 */
module GcalConfig {
  import opened Results

  const OAuth := "oauth"
  const ServiceAccount := "service_account"

  const UnmarshalMessage := "error unmarshaling config: "
  const MissingApplicationCredentials := "application_credentials is required"
  const MissingUserCredentials := "user_credentials is required for OAuth authentication"
  const MissingCalendarIds := "calendar_id_list is required"

  /** The four settings as the configuration decoder produced them. */
  datatype Decoded = Decoded(
    authType: string,
    applicationCredentials: string,
    userCredentials: string,
    calendarIdList: seq<string>)

  class Config {
    var authType: string
    var googleApplicationCredentials: string
    var googleUserCredentials: string
    var calendarIdList: seq<string>

    /** A Config with the decoded fields, before any defaulting. */
    constructor (d: Decoded)
      ensures authType == d.authType
      ensures googleApplicationCredentials == d.applicationCredentials
      ensures googleUserCredentials == d.userCredentials
      ensures calendarIdList == d.calendarIdList
    {
      authType := d.authType;
      googleApplicationCredentials := d.applicationCredentials;
      googleUserCredentials := d.userCredentials;
      calendarIdList := d.calendarIdList;
    }

    /**
     * Validate: the checks run in source order and the first failure is
     * reported. User credentials are required only for the "oauth" type,
     * and an unknown type is never rejected. Nothing is modified.
     */
    function Validate(): (r: Option<string>)
      reads this
      ensures r.None? <==>
        googleApplicationCredentials != ""
        && (authType == OAuth ==> googleUserCredentials != "")
        && |calendarIdList| > 0
      ensures googleApplicationCredentials == "" ==> r == Some(MissingApplicationCredentials)
      ensures r == Some(MissingUserCredentials) <==>
        googleApplicationCredentials != "" && authType == OAuth && googleUserCredentials == ""
      ensures r == Some(MissingCalendarIds) <==>
        googleApplicationCredentials != ""
        && (authType == OAuth ==> googleUserCredentials != "")
        && |calendarIdList| == 0
    {
      if googleApplicationCredentials == "" then Some(MissingApplicationCredentials)
      else if authType == OAuth && googleUserCredentials == "" then Some(MissingUserCredentials)
      else if |calendarIdList| == 0 then Some(MissingCalendarIds)
      else None
    }
  }

  /**
   * LoadConfig: a decoding failure is wrapped and returned; otherwise a new
   * Config holds the decoded fields, and its empty AuthType is changed in
   * place to "oauth".
   */
  method LoadConfig(decoded: Result<Decoded, string>) returns (r: Result<Config, string>)
    ensures decoded.Err? ==> r == Err(UnmarshalMessage + decoded.error)
    ensures decoded.Ok? ==> r.Ok? && fresh(r.value)
    ensures decoded.Ok? ==>
      r.value.authType == (if decoded.value.authType == "" then OAuth else decoded.value.authType)
      && r.value.authType != ""
      && r.value.googleApplicationCredentials == decoded.value.applicationCredentials
      && r.value.googleUserCredentials == decoded.value.userCredentials
      && r.value.calendarIdList == decoded.value.calendarIdList
  {
    if decoded.Err? {
      return Err(UnmarshalMessage + decoded.error);
    }
    var config := new Config(decoded.value);
    if config.authType == "" {
      config.authType := OAuth;
    }
    r := Ok(config);
  }

  /** After loading, a service-account configuration needs no user credentials. */
  lemma ServiceAccountNeedsNoUserCredentials(c: Config)
    requires c.authType == ServiceAccount
    requires c.googleApplicationCredentials != "" && |c.calendarIdList| > 0
    ensures c.Validate().None?
  {
  }
}
