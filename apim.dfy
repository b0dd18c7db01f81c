/** `apim(config)`: where to reach the API Manager and how to log in. The
    result is filed under the key `platformNavigator`. */
module Apim {
  import opened Wrappers
  import opened Resources
  import opened DetailsLib
  import opened DetailsLaws

  const RouteSelector := ByName("apim-demo-mgmt-api-manager")
  const SecretSelector := ByName("apim-demo-mgmt-admin-pass")

  /** The API Manager details: the URL of the route `apim-demo-mgmt-api-
      manager` in namespace `tools` and the `email` as user name and the
      password of the secret `apim-demo-mgmt-admin-pass` in namespace `tools`.
      */
  function Apim(config: Option<seq<Resource>>): (r: Details)
    ensures r.Keys == {"platformNavigator"}
    ensures r["platformNavigator"].Keys == {"url", "username", "password"}
  {
    var route := SearchDetail(config, Some("Route"), Some("tools"), RouteSelector);
    var secret := SearchDetail(config, Some("Secret"), Some("tools"), SecretSelector);
    map["platformNavigator" := map[
      "url" := HttpsUrl(route),
      "username" := DataValue(secret, "email"),
      "password" := DataValue(secret, "password")]]
  }

  /** The URL comes from the first matching route in configuration order,
      whatever the secrets are. */
  lemma ApimUrlFromFirstRoute(config: seq<Resource>, i: int)
    requires 0 <= i < |config| && Selected(config[i], Some("route"), Some("tools"), RouteSelector)
    requires forall k :: 0 <= k < i ==> !Selected(config[k], Some("route"), Some("tools"), RouteSelector)
    ensures Apim(Some(config))["platformNavigator"]["url"] == HttpsUrl(Some(config[i]))
  {
    RouteExample();
    SearchDetailAt(config, Some("Route"), Some("tools"), RouteSelector, i);
  }

  /** The credentials come from the first matching secret in configuration
      order, whatever the routes are. */
  lemma ApimCredentialsFromFirstSecret(config: seq<Resource>, j: int)
    requires 0 <= j < |config| && Selected(config[j], Some("secret"), Some("tools"), SecretSelector)
    requires forall k :: 0 <= k < j ==> !Selected(config[k], Some("secret"), Some("tools"), SecretSelector)
    ensures Apim(Some(config))["platformNavigator"]["username"] == DataValue(Some(config[j]), "email")
    ensures Apim(Some(config))["platformNavigator"]["password"] == DataValue(Some(config[j]), "password")
  {
    SecretExample();
    SearchDetailAt(config, Some("Secret"), Some("tools"), SecretSelector, j);
  }

  /** Without a matching route the URL is null; without a matching secret the
      credentials are null. */
  lemma ApimWhenMissing(config: Option<seq<Resource>>)
    ensures NoneSelected(config, Some("route"), Some("tools"), RouteSelector) ==>
      Apim(config)["platformNavigator"]["url"] == None
    ensures NoneSelected(config, Some("secret"), Some("tools"), SecretSelector) ==>
      Apim(config)["platformNavigator"]["username"] == None && Apim(config)["platformNavigator"]["password"] == None
  {
    RouteExample();
    SecretExample();
    SearchDetailNone(config, Some("Route"), Some("tools"), RouteSelector);
    SearchDetailNone(config, Some("Secret"), Some("tools"), SecretSelector);
  }
}
