/** `TwitchOptionsValidation.Validate` (ScorebiniTwitchApi/TwitchOptionsValidation.cs):
    the side-service refuses to start with missing or placeholder Twitch
    application credentials. */
module OptionsValidation {
  import opened Base
  import opened Text

  /** `TwitchOptions`, as far as validation reads it. */
  datatype TwitchOptions = TwitchOptions(appClientId: Option<string>, appClientSecret: Option<string>)

  /** `ValidateOptionsResult`: success, or failure with a message. */
  datatype ValidateOptionsResult = ValidationSuccess | ValidationFailure(message: string)

  const ClientIdPlaceholder: string := "<insert_client_id>"
  const ClientSecretPlaceholder: string := "<insert_client_secret>"

  /** The options are usable: both values present and not placeholders. */
  predicate Usable(options: TwitchOptions) {
    && !IsNullOrWhiteSpace(options.appClientId)
    && !IsNullOrWhiteSpace(options.appClientSecret)
    && options.appClientId != Some(ClientIdPlaceholder)
    && options.appClientSecret != Some(ClientSecretPlaceholder)
  }

  /** `Validate`: the four checks in order, the first failing one giving
      the message. */
  function Validate(name: Option<string>, options: TwitchOptions): (r: ValidateOptionsResult)
    ensures r == ValidationSuccess <==> Usable(options)
    ensures IsNullOrWhiteSpace(options.appClientId) ==> r == ValidationFailure("Empty AppClientId")
    ensures !IsNullOrWhiteSpace(options.appClientId) && IsNullOrWhiteSpace(options.appClientSecret) ==>
              r == ValidationFailure("Empty AppClientSecret")
    ensures r == ValidationFailure("Configure the AppClientId") <==>
              !IsNullOrWhiteSpace(options.appClientId) && !IsNullOrWhiteSpace(options.appClientSecret)
              && options.appClientId == Some(ClientIdPlaceholder)
    ensures r == ValidationFailure("Configure the AppClientSecret") <==>
              !IsNullOrWhiteSpace(options.appClientId) && !IsNullOrWhiteSpace(options.appClientSecret)
              && options.appClientId != Some(ClientIdPlaceholder)
              && options.appClientSecret == Some(ClientSecretPlaceholder)
  {
    if IsNullOrWhiteSpace(options.appClientId) then ValidationFailure("Empty AppClientId")
    else if IsNullOrWhiteSpace(options.appClientSecret) then ValidationFailure("Empty AppClientSecret")
    else if options.appClientId == Some(ClientIdPlaceholder) then ValidationFailure("Configure the AppClientId")
    else if options.appClientSecret == Some(ClientSecretPlaceholder) then ValidationFailure("Configure the AppClientSecret")
    else ValidationSuccess
  }

  /** The options' name plays no part in the verdict. */
  lemma ValidateIgnoresName(a: Option<string>, b: Option<string>, options: TwitchOptions)
    ensures Validate(a, options) == Validate(b, options)
  {
  }

  /** The defaults, both empty, fail on the client id first. */
  lemma DefaultsRejected()
    ensures Validate(None, TwitchOptions(Some(""), Some(""))) == ValidationFailure("Empty AppClientId")
  {
  }
}
