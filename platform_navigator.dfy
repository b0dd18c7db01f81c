/** `platformNavigator(config)`: where to reach the Platform Navigator and how
    to log in. */
module PlatformNavigator {
  import opened Wrappers
  import opened Resources
  import opened DetailsLib
  import opened DetailsLaws

  const RouteSelector := ByName("cp4i-navigator-pn")
  const SecretSelector := ByName("integration-admin-initial-temporary-credentials")

  /** The Platform Navigator details: the URL of the route `cp4i-navigator-pn`
      in namespace `tools` and the user name and password of the secret
      `integration-admin-initial-temporary-credentials` in namespace
      `ibm-common-services`. */
  function PlatformNavigator(config: Option<seq<Resource>>): (r: Details)
    ensures r.Keys == {"platformNavigator"}
    ensures r["platformNavigator"].Keys == {"url", "username", "password"}
  {
    var route := SearchDetail(config, Some("Route"), Some("tools"), RouteSelector);
    var secret := SearchDetail(config, Some("Secret"), Some("ibm-common-services"), SecretSelector);
    map["platformNavigator" := map[
      "url" := HttpsUrl(route),
      "username" := DataValue(secret, "username"),
      "password" := DataValue(secret, "password")]]
  }

  /** The URL comes from the first matching route in configuration order,
      whatever the secrets are. */
  lemma PlatformNavigatorUrlFromFirstRoute(config: seq<Resource>, i: int)
    requires 0 <= i < |config| && Selected(config[i], Some("route"), Some("tools"), RouteSelector)
    requires forall k :: 0 <= k < i ==> !Selected(config[k], Some("route"), Some("tools"), RouteSelector)
    ensures PlatformNavigator(Some(config))["platformNavigator"]["url"] == HttpsUrl(Some(config[i]))
  {
    RouteExample();
    SearchDetailAt(config, Some("Route"), Some("tools"), RouteSelector, i);
  }

  /** The credentials come from the first matching secret in configuration
      order, whatever the routes are. */
  lemma PlatformNavigatorCredentialsFromFirstSecret(config: seq<Resource>, j: int)
    requires 0 <= j < |config| && Selected(config[j], Some("secret"), Some("ibm-common-services"), SecretSelector)
    requires forall k :: 0 <= k < j ==> !Selected(config[k], Some("secret"), Some("ibm-common-services"), SecretSelector)
    ensures PlatformNavigator(Some(config))["platformNavigator"]["username"] == DataValue(Some(config[j]), "username")
    ensures PlatformNavigator(Some(config))["platformNavigator"]["password"] == DataValue(Some(config[j]), "password")
  {
    SecretExample();
    SearchDetailAt(config, Some("Secret"), Some("ibm-common-services"), SecretSelector, j);
  }

  /** Without a matching route the URL is null; without a matching secret the
      credentials are null. */
  lemma PlatformNavigatorWhenMissing(config: Option<seq<Resource>>)
    ensures NoneSelected(config, Some("route"), Some("tools"), RouteSelector) ==>
      PlatformNavigator(config)["platformNavigator"]["url"] == None
    ensures NoneSelected(config, Some("secret"), Some("ibm-common-services"), SecretSelector) ==>
      PlatformNavigator(config)["platformNavigator"]["username"] == None && PlatformNavigator(config)["platformNavigator"]["password"] == None
  {
    RouteExample();
    SecretExample();
    SearchDetailNone(config, Some("Route"), Some("tools"), RouteSelector);
    SearchDetailNone(config, Some("Secret"), Some("ibm-common-services"), SecretSelector);
  }
}
