/**
 * Construction of the gcal service (internal/gcal/service.go): the
 * authenticator chosen by the authentication type, and the service that
 * pairs the calendar client with the configured calendar IDs.
 */
module GcalService {
  import opened Results
  import opened GcalConfig

  /** The two authenticator variants and the files each one is given. */
  datatype Authenticator =
    | OAuthAuthenticator(credentialsFile: string, tokenFile: string)
    | ServiceAccountAuthenticator(credentialsFile: string)

  /** The service: a calendar client of type C and the calendar IDs to query. */
  datatype Service<C> = Service(calendar: C, calendarIdList: seq<string>)

  /**
   * newAuthenticator: "service_account" selects the service-account
   * authenticator; "oauth" and every other value select OAuth, given the
   * application credentials and then the user credentials.
   */
  function NewAuthenticator(config: Config): (a: Authenticator)
    reads config
    ensures a.ServiceAccountAuthenticator? <==> config.authType == ServiceAccount
    ensures a.credentialsFile == config.googleApplicationCredentials
    ensures a.OAuthAuthenticator? ==> a.tokenFile == config.googleUserCredentials
  {
    if config.authType == ServiceAccount then
      ServiceAccountAuthenticator(config.googleApplicationCredentials)
    else
      OAuthAuthenticator(config.googleApplicationCredentials, config.googleUserCredentials)
  }

  /**
   * NewService: the calendar client is created from the chosen
   * authenticator by `newCalendarService`; its error is returned unchanged,
   * and on success the service carries the configuration's calendar IDs.
   */
  function NewService<C>(config: Config, newCalendarService: Authenticator -> Result<C, string>): (r: Result<Service<C>, string>)
    reads config
    ensures r.Ok? <==> newCalendarService(NewAuthenticator(config)).Ok?
    ensures r.Err? ==> r.error == newCalendarService(NewAuthenticator(config)).error
    ensures r.Ok? ==>
      r.value.calendar == newCalendarService(NewAuthenticator(config)).value
      && r.value.calendarIdList == config.calendarIdList
  {
    match newCalendarService(NewAuthenticator(config))
    case Err(e) => Err(e)
    case Ok(calendar) => Ok(Service(calendar, config.calendarIdList))
  }
}
