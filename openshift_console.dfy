/** `OpenShiftConsole(config)`: where to reach the OpenShift web console. */
module OpenShiftConsole {
  import opened Wrappers
  import opened Resources
  import opened DetailsLib
  import opened DetailsLaws

  const RouteSelector := ByName("console")

  /** The URL of the route `console` in namespace `openshift-console`; there
      are no credential fields. */
  function OpenShiftConsole(config: Option<seq<Resource>>): (r: Details)
    ensures r.Keys == {"openShiftConsole"}
    ensures r["openShiftConsole"].Keys == {"url"}
  {
    var route := SearchDetail(config, Some("Route"), Some("openshift-console"), RouteSelector);
    map["openShiftConsole" := map["url" := HttpsUrl(route)]]
  }

  /** The URL comes from the first matching route in configuration order. */
  lemma OpenShiftConsoleFromFirstMatch(config: seq<Resource>, i: int)
    requires 0 <= i < |config| && Selected(config[i], Some("route"), Some("openshift-console"), RouteSelector)
    requires forall k :: 0 <= k < i ==> !Selected(config[k], Some("route"), Some("openshift-console"), RouteSelector)
    ensures OpenShiftConsole(Some(config))["openShiftConsole"]["url"] == HttpsUrl(Some(config[i]))
  {
    RouteExample();
    SearchDetailAt(config, Some("Route"), Some("openshift-console"), RouteSelector, i);
  }

  /** Without a matching route the URL is null. */
  lemma OpenShiftConsoleWhenMissing(config: Option<seq<Resource>>)
    ensures NoneSelected(config, Some("route"), Some("openshift-console"), RouteSelector) ==>
      OpenShiftConsole(config)["openShiftConsole"]["url"] == None
  {
    RouteExample();
    SearchDetailNone(config, Some("Route"), Some("openshift-console"), RouteSelector);
  }
}
