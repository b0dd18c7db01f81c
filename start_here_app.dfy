/** `startHereApp(config)`: where to reach the Start Here application and how
    to log in. */
module StartHereApp {
  import opened Wrappers
  import opened Resources
  import opened DetailsLib
  import opened DetailsLaws

  const RouteSelector := ByName("integration")
  const SecretSelector := ByName("jb-start-here-app-credentials")

  /** The Start Here application details: the URL of the route `integration`
      in namespace `jam-in-a-box` and the user name and password of the secret
      `jb-start-here-app-credentials` in namespace `jam-in-a-box`. */
  function StartHereApp(config: Option<seq<Resource>>): (r: Details)
    ensures r.Keys == {"startHereApp"}
    ensures r["startHereApp"].Keys == {"url", "username", "password"}
  {
    var route := SearchDetail(config, Some("Route"), Some("jam-in-a-box"), RouteSelector);
    var secret := SearchDetail(config, Some("Secret"), Some("jam-in-a-box"), SecretSelector);
    map["startHereApp" := map[
      "url" := HttpsUrl(route),
      "username" := DataValue(secret, "username"),
      "password" := DataValue(secret, "password")]]
  }

  /** The URL comes from the first matching route in configuration order,
      whatever the secrets are. */
  lemma StartHereAppUrlFromFirstRoute(config: seq<Resource>, i: int)
    requires 0 <= i < |config| && Selected(config[i], Some("route"), Some("jam-in-a-box"), RouteSelector)
    requires forall k :: 0 <= k < i ==> !Selected(config[k], Some("route"), Some("jam-in-a-box"), RouteSelector)
    ensures StartHereApp(Some(config))["startHereApp"]["url"] == HttpsUrl(Some(config[i]))
  {
    RouteExample();
    SearchDetailAt(config, Some("Route"), Some("jam-in-a-box"), RouteSelector, i);
  }

  /** The credentials come from the first matching secret in configuration
      order, whatever the routes are. */
  lemma StartHereAppCredentialsFromFirstSecret(config: seq<Resource>, j: int)
    requires 0 <= j < |config| && Selected(config[j], Some("secret"), Some("jam-in-a-box"), SecretSelector)
    requires forall k :: 0 <= k < j ==> !Selected(config[k], Some("secret"), Some("jam-in-a-box"), SecretSelector)
    ensures StartHereApp(Some(config))["startHereApp"]["username"] == DataValue(Some(config[j]), "username")
    ensures StartHereApp(Some(config))["startHereApp"]["password"] == DataValue(Some(config[j]), "password")
  {
    SecretExample();
    SearchDetailAt(config, Some("Secret"), Some("jam-in-a-box"), SecretSelector, j);
  }

  /** Without a matching route the URL is null; without a matching secret the
      credentials are null. */
  lemma StartHereAppWhenMissing(config: Option<seq<Resource>>)
    ensures NoneSelected(config, Some("route"), Some("jam-in-a-box"), RouteSelector) ==>
      StartHereApp(config)["startHereApp"]["url"] == None
    ensures NoneSelected(config, Some("secret"), Some("jam-in-a-box"), SecretSelector) ==>
      StartHereApp(config)["startHereApp"]["username"] == None && StartHereApp(config)["startHereApp"]["password"] == None
  {
    RouteExample();
    SecretExample();
    SearchDetailNone(config, Some("Route"), Some("jam-in-a-box"), RouteSelector);
    SearchDetailNone(config, Some("Secret"), Some("jam-in-a-box"), SecretSelector);
  }
}
