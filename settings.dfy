/** The plugin's stored settings record and its defaults. Optional fields
    are `Option`s; a string option is "set" in the JavaScript sense when it
    is present and not empty. */
module Settings {
  import opened Wrappers

  datatype TickTickSettings = TickTickSettings(
    accessToken: string,
    refreshToken: Option<string>,
    tokenExpiry: Option<int>,       // milliseconds since the epoch
    clientId: string,
    clientSecret: string,
    redirectUri: Option<string>,
    tempCodeVerifier: Option<string>,
    tempState: Option<string>)

  const DefaultRedirectUri: string :=
    "https://ticktick-quick-add-obsidian-6yawfmvnj-mooshs-projects-0635287d.vercel.app"

  const DefaultSettings: TickTickSettings :=
    TickTickSettings("", None, None, "", "", Some(DefaultRedirectUri), None, None)

  /** JavaScript truthiness of an optional string. */
  predicate IsSet(o: Option<string>) {
    o.Some? && o.value != ""
  }

  /** The fields only the settings tab writes: the plugin's token logic
      reads them and leaves them alone. */
  predicate SameConfiguration(a: TickTickSettings, b: TickTickSettings) {
    a.clientId == b.clientId && a.clientSecret == b.clientSecret && a.redirectUri == b.redirectUri
  }
}
