/** `gateway(config)`: where to reach the DataPower console and its admin
    password; the route is found by label, not by name. */
module Gateway {
  import opened Wrappers
  import opened Resources
  import opened DetailsLib
  import opened DetailsLaws

  const RouteSelector := ByLabels(map["jb-purpose" := "datapower-console"])
  const SecretSelector := ByName("apim-demo-gw-admin")

  /** The DataPower details: the URL of the route labelled `jb-purpose:
      datapower-console` in namespace `tools` and the password of the secret
      `apim-demo-gw-admin` in namespace `tools`. */
  function Gateway(config: Option<seq<Resource>>): (r: Details)
    ensures r.Keys == {"datapower"}
    ensures r["datapower"].Keys == {"url", "username", "password"}
    ensures r["datapower"]["username"] == Some("admin")
  {
    var route := SearchDetail(config, Some("Route"), Some("tools"), RouteSelector);
    var secret := SearchDetail(config, Some("Secret"), Some("tools"), SecretSelector);
    map["datapower" := map[
      "url" := HttpsUrl(route),
      "username" := Some("admin"),
      "password" := DataValue(secret, "password")]]
  }

  /** The URL comes from the first matching route in configuration order,
      whatever the secrets are. */
  lemma GatewayUrlFromFirstRoute(config: seq<Resource>, i: int)
    requires 0 <= i < |config| && Selected(config[i], Some("route"), Some("tools"), RouteSelector)
    requires forall k :: 0 <= k < i ==> !Selected(config[k], Some("route"), Some("tools"), RouteSelector)
    ensures Gateway(Some(config))["datapower"]["url"] == HttpsUrl(Some(config[i]))
  {
    RouteFound(config, i);
  }

  lemma RouteFound(config: seq<Resource>, i: int)
    requires 0 <= i < |config| && Selected(config[i], Some("route"), Some("tools"), RouteSelector)
    requires forall k :: 0 <= k < i ==> !Selected(config[k], Some("route"), Some("tools"), RouteSelector)
    ensures SearchDetail(Some(config), Some("Route"), Some("tools"), RouteSelector) == Some(config[i])
  {
    RouteExample();
    SearchDetailAt(config, Some("Route"), Some("tools"), RouteSelector, i);
  }

  /** The password comes from the first matching secret in configuration
      order, whatever the routes are. */
  lemma GatewayPasswordFromFirstSecret(config: seq<Resource>, j: int)
    requires 0 <= j < |config| && Selected(config[j], Some("secret"), Some("tools"), SecretSelector)
    requires forall k :: 0 <= k < j ==> !Selected(config[k], Some("secret"), Some("tools"), SecretSelector)
    ensures Gateway(Some(config))["datapower"]["password"] == DataValue(Some(config[j]), "password")
  {
    SecretExample();
    SearchDetailAt(config, Some("Secret"), Some("tools"), SecretSelector, j);
  }

  /** Without a matching route the URL is null; without a matching secret the
      password is null. */
  lemma GatewayWhenMissing(config: Option<seq<Resource>>)
    ensures NoneSelected(config, Some("route"), Some("tools"), RouteSelector) ==>
      Gateway(config)["datapower"]["url"] == None
    ensures NoneSelected(config, Some("secret"), Some("tools"), SecretSelector) ==>
      Gateway(config)["datapower"]["password"] == None
  {
    RouteExample();
    SecretExample();
    SearchDetailNone(config, Some("Route"), Some("tools"), RouteSelector);
    SearchDetailNone(config, Some("Secret"), Some("tools"), SecretSelector);
  }
}
