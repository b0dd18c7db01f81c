/** What the lab-route part of `generateConfigObj` promises about the host
    entries it derives from annotated Routes. */
module ConfigLaws {
  import opened Wrappers
  import opened JsText
  import opened Resources
  import opened ConfigGenerator

  /** The route carries `<prefix>key` with a non-empty value, so the derived
      value for `key` is not computed. */
  predicate Annotated(route: Resource, key: string) {
    EndpointPrefix + key in Annotations(route) && Annotations(route)[EndpointPrefix + key] != ""
  }

  /** The entry after the annotations have been copied: `baseUrl` plus one
      key per endpoint annotation, the annotation winning over `baseUrl`. */
  lemma EndpointsCopied(route: Resource, k: string)
    requires route.spec.Some?
    ensures var info := WithEndpoints(BaseInfo(route), Annotations(route), Annotations(route).Keys);
      && (k in info <==> k == "baseUrl" || EndpointPrefix + k in Annotations(route))
      && (EndpointPrefix + k in Annotations(route) ==> info[k] == Str(Annotations(route)[EndpointPrefix + k]))
      && (k == "baseUrl" && EndpointPrefix + k !in Annotations(route) ==>
            info[k] == Str("https://" + Shown(route.spec.value.host) + "/"))
  {
    EndpointKey(Annotations(route).Keys, k);
  }

  /** Deriving the service touches no other key, and leaves `service`
      set. */
  lemma ServiceStepKeeps(info: HostInfo, route: Resource, k: string)
    requires route.spec.Some? && route.metadata.Some? && WithService(info, route).Success?
    ensures "service" in WithService(info, route).value
    ensures k != "service" ==>
      && (k in WithService(info, route).value <==> k in info)
      && (k in info ==> WithService(info, route).value[k] == info[k])
  {
  }

  /** The derived service, when `info` holds none. */
  lemma ServiceStepValue(info: HostInfo, route: Resource)
    requires route.spec.Some? && route.metadata.Some? && Falsy(info, "service")
    ensures WithService(info, route).Success? <==> route.spec.value.to.Some?
    ensures WithService(info, route).Success? ==>
      var to := route.spec.value.to.value;
      var suffix := "/" + Shown(route.metadata.value.namespace) + ".svc.cluster.local";
      WithService(info, route).value["service"] ==
        if to.kind == Some("Service") then
          if to.name.Some? && to.name.value != "" then Str(to.name.value + suffix) else Null
        else if "service" in info && info["service"] == Null then Null
        else if "service" in info then Str(suffix)
        else Str("undefined" + suffix)
  {
  }

  /** A host entry fails exactly when the route has no `spec`, or when the
      service must be derived and `spec.to` is missing. */
  lemma HostEntryFails(route: Resource)
    requires IsLabRoute(route)
    ensures HostEntry(route).Failure? <==>
      route.spec.None? || (!Annotated(route, "service") && route.spec.value.to.None?)
    ensures HostEntry(route).Failure? ==> HostEntry(route).error == TypeError
  {
    if route.spec.Some? {
      EndpointsCopied(route, "service");
      var info := WithEndpoints(BaseInfo(route), Annotations(route), Annotations(route).Keys);
      if Falsy(info, "service") {
        ServiceStepValue(info, route);
      }
    }
  }

  /** A host entry holds `baseUrl`, `service`, `serviceProtocol` and one key
      per endpoint annotation, and nothing else. */
  lemma HostEntryKeys(route: Resource)
    requires IsLabRoute(route) && HostEntry(route).Success?
    ensures HostEntry(route).value.Keys ==
      {"baseUrl", "service", "serviceProtocol"} + EndpointKeys(Annotations(route).Keys)
  {
    var ann := Annotations(route);
    var info := WithEndpoints(BaseInfo(route), ann, ann.Keys);
    var serviced := WithService(info, route).value;
    forall k ensures k in HostEntry(route).value <==> k in {"baseUrl", "service", "serviceProtocol"} + EndpointKeys(ann.Keys) {
      EndpointsCopied(route, k);
      EndpointKey(ann.Keys, k);
      ServiceStepKeeps(info, route, k);
    }
  }

  /** Endpoint annotations are copied as they are; `service` and
      `serviceProtocol` only when non-empty. */
  lemma HostEntryCopies(route: Resource, k: string)
    requires IsLabRoute(route) && HostEntry(route).Success?
    requires EndpointPrefix + k in Annotations(route)
    requires k !in {"service", "serviceProtocol"} || Annotated(route, k)
    ensures HostEntry(route).value[k] == Str(Annotations(route)[EndpointPrefix + k])
  {
    var info := WithEndpoints(BaseInfo(route), Annotations(route), Annotations(route).Keys);
    EndpointsCopied(route, k);
    ServiceStepKeeps(info, route, k);
  }

  /** `baseUrl` is the route's host unless an annotation overrides it. */
  lemma HostEntryBaseUrl(route: Resource)
    requires IsLabRoute(route) && HostEntry(route).Success?
    requires EndpointPrefix + "baseUrl" !in Annotations(route)
    ensures HostEntry(route).value["baseUrl"] == Str("https://" + Shown(route.spec.value.host) + "/")
  {
    var info := WithEndpoints(BaseInfo(route), Annotations(route), Annotations(route).Keys);
    EndpointsCopied(route, "baseUrl");
    ServiceStepKeeps(info, route, "baseUrl");
  }

  /** Without a non-empty `service` annotation, the service is
      `<name>/<namespace>` under `svc.cluster.local` when the route forwards
      to a named Service, null for a Service without a name, and for any
      other target what the annotation left there (an empty string, or
      `undefined` when there is none) with the same suffix. */
  lemma HostEntryService(route: Resource)
    requires IsLabRoute(route) && HostEntry(route).Success?
    requires !Annotated(route, "service")
    ensures route.spec.Some? && route.spec.value.to.Some?
    ensures var to := route.spec.value.to.value;
      var suffix := "/" + Shown(route.metadata.value.namespace) + ".svc.cluster.local";
      HostEntry(route).value["service"] ==
        if to.kind == Some("Service") then
          if to.name.Some? && to.name.value != "" then Str(to.name.value + suffix) else Null
        else if EndpointPrefix + "service" in Annotations(route) then Str(suffix)
        else Str("undefined" + suffix)
  {
    var info := WithEndpoints(BaseInfo(route), Annotations(route), Annotations(route).Keys);
    EndpointsCopied(route, "service");
    ServiceStepValue(info, route);
  }

  /** Without a non-empty `serviceProtocol` annotation, the protocol is
      `https` for a route with edge or passthrough TLS termination and `http`
      otherwise. */
  lemma HostEntryProtocol(route: Resource)
    requires IsLabRoute(route) && HostEntry(route).Success?
    requires !Annotated(route, "serviceProtocol")
    ensures HostEntry(route).value["serviceProtocol"] ==
      Str(if Termination(route) == Some("edge") || Termination(route) == Some("passthrough") then "https" else "http")
  {
    var info := WithEndpoints(BaseInfo(route), Annotations(route), Annotations(route).Keys);
    EndpointsCopied(route, "serviceProtocol");
    ServiceStepKeeps(info, route, "serviceProtocol");
  }

  /** The route loop succeeds exactly when every entry does, and then
      pushes one host per entry, in order. */
  lemma {:induction false} CollectSpec(results: seq<Result<HostInfo, GenError>>)
    ensures Collect(results).Success? <==> forall i :: 0 <= i < |results| ==> results[i].Success?
    ensures Collect(results).Success? ==>
      && |Collect(results).value| == |results|
      && forall i :: 0 <= i < |results| ==> results[i] == Success(Collect(results).value[i])
  {
    if results != [] {
      var n := |results| - 1;
      var prefix := results[..n];
      assert forall i :: 0 <= i < |prefix| ==> prefix[i] == results[i];
      CollectSpec(prefix);
      if Collect(prefix).Failure? {
        var i :| 0 <= i < n && !prefix[i].Success?;
        assert !results[i].Success?;
      } else if results[n].Success? {
        var hosts := Collect(prefix).value + [results[n].value];
        assert Collect(results) == Success(hosts);
        forall i | 0 <= i < |results| ensures results[i] == Success(hosts[i]) {
          if i < n {
            assert results[i] == prefix[i] && hosts[i] == Collect(prefix).value[i];
          }
        }
      }
    }
  }

  /** `out.hosts` stays empty exactly when the input has no lab route and no
      Route without metadata. */
  lemma HostsEmpty(entries: seq<Resource>)
    ensures Hosts(entries) == Success([]) <==>
      forall i :: 0 <= i < |entries| ==> !Throws(entries[i], "Route") && !IsLabRoute(entries[i])
  {
    LabRoutesSpec(entries);
    if LabRoutes(entries).Success? {
      var routes := LabRoutes(entries).value;
      CollectSpec(HostEntries(routes));
      if routes != [] {
        assert routes[0] in routes;
      }
      if exists i :: 0 <= i < |entries| && IsLabRoute(entries[i]) {
        var i :| 0 <= i < |entries| && IsLabRoute(entries[i]);
        assert entries[i] in routes;
      }
    }
  }

  /** Generating the hosts throws exactly when a Route has no metadata or a
      lab route's entry throws; otherwise the list holds each lab route's
      entry in input order. */
  lemma HostsSpec(entries: seq<Resource>)
    ensures Hosts(entries).Failure? <==>
      || (exists i :: 0 <= i < |entries| && Throws(entries[i], "Route"))
      || (exists i :: 0 <= i < |entries| && IsLabRoute(entries[i]) && HostEntry(entries[i]).Failure?)
    ensures Hosts(entries).Success? ==>
      var routes := LabRoutes(entries).value;
      && |Hosts(entries).value| == |routes|
      && (forall i :: 0 <= i < |routes| ==>
            IsLabRoute(routes[i]) && HostEntry(routes[i]) == Success(Hosts(entries).value[i]))
  {
    LabRoutesSpec(entries);
    if LabRoutes(entries).Success? {
      var routes := LabRoutes(entries).value;
      CollectSpec(HostEntries(routes));
      if exists i :: 0 <= i < |entries| && IsLabRoute(entries[i]) && HostEntry(entries[i]).Failure? {
        var i :| 0 <= i < |entries| && IsLabRoute(entries[i]) && HostEntry(entries[i]).Failure?;
        assert entries[i] in routes;
      }
      if !Collect(HostEntries(routes)).Success? {
        var j :| 0 <= j < |routes| && !HostEntries(routes)[j].Success?;
        assert routes[j] in routes;
      }
    }
  }
}
