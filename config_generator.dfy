/** The pure parts of the configuration generator: looking a resource up by
    exact kind and name, the two `moreInfo` item builders, and the `hosts`
    list derived from the Routes annotated as lab endpoints. */
module ConfigGenerator {
  import opened Wrappers
  import opened JsText
  import opened Resources

  /** What the generator throws. `TypeError` is reading a property of
      `undefined`: an entry without `metadata`, a Route without `spec`, or
      without `spec.to` when it is needed. */
  datatype GenError =
    | ResourceNotFound(kind: string, name: string)
    | DataNotFound(kind: string, name: string, key: string)
    | TypeError

  /** What `getResource` returns: the whole resource, or one of its data
      values. */
  datatype Lookup = WholeResource(resource: Resource) | DataItem(value: string)

  /** `entry.kind === kind && entry.metadata.name === name` holds. */
  predicate Names(e: Resource, kind: string, name: string) {
    e.kind == Some(kind) && e.metadata.Some? && e.metadata.value.name == Some(name)
  }

  /** Evaluating the test above throws: the kind matches and there is no
      `metadata`. */
  predicate Throws(e: Resource, kind: string) {
    e.kind == Some(kind) && e.metadata.None?
  }

  /** `configEntries.find(...)` with the exact kind and name. */
  function FindEntry(entries: seq<Resource>, kind: string, name: string): (r: Result<Option<Resource>, GenError>)
    ensures r.Failure? ==> r.error == TypeError
  {
    if entries == [] then Success(None)
    else if Throws(entries[0], kind) then Failure(TypeError)
    else if Names(entries[0], kind, name) then Success(Some(entries[0]))
    else FindEntry(entries[1..], kind, name)
  }

  /** `getResource(kind, name, data)`; `key` is the optional `data`
      argument, and an empty key counts as none. */
  function GetResource(entries: seq<Resource>, kind: string, name: string, key: Option<string>)
    : (r: Result<Lookup, GenError>)
    ensures r.Success? && r.value.DataItem? ==> key.Some? && r.value.value != ""
    ensures r.Failure? && r.error.DataNotFound? ==> key.Some? && r.error == DataNotFound(kind, name, key.value)
  {
    match FindEntry(entries, kind, name)
    case Failure(e) => Failure(e)
    case Success(None) => Failure(ResourceNotFound(kind, name))
    case Success(Some(res)) =>
      if key.None? || key.value == "" then Success(WholeResource(res))
      else if res.data.None? then Success(WholeResource(res))
      else if key.value in res.data.value && res.data.value[key.value] != "" then Success(DataItem(res.data.value[key.value]))
      else Failure(DataNotFound(kind, name, key.value))
  }

  /** `find` stops at the first entry that names the resource or throws. */
  lemma {:induction false} FindEntrySpec(entries: seq<Resource>, kind: string, name: string)
    ensures FindEntry(entries, kind, name) == Success(None) <==>
      forall i :: 0 <= i < |entries| ==> !Names(entries[i], kind, name) && !Throws(entries[i], kind)
    ensures FindEntry(entries, kind, name).Success? && FindEntry(entries, kind, name).value.Some? ==>
      exists i :: 0 <= i < |entries| && FindEntry(entries, kind, name).value.value == entries[i] &&
        Names(entries[i], kind, name) &&
        forall j :: 0 <= j < i ==> !Names(entries[j], kind, name) && !Throws(entries[j], kind)
    ensures FindEntry(entries, kind, name).Failure? ==>
      FindEntry(entries, kind, name).error == TypeError &&
      exists i :: 0 <= i < |entries| && Throws(entries[i], kind) &&
        forall j :: 0 <= j < i ==> !Names(entries[j], kind, name)
  {
    if entries != [] && !Throws(entries[0], kind) && !Names(entries[0], kind, name) {
      var rest := entries[1..];
      FindEntrySpec(rest, kind, name);
      assert forall i :: 0 <= i < |rest| ==> rest[i] == entries[i + 1];
      var r := FindEntry(rest, kind, name);
      if r.Success? && r.value.Some? {
        var i :| 0 <= i < |rest| && r.value.value == rest[i] && Names(rest[i], kind, name) &&
          forall j :: 0 <= j < i ==> !Names(rest[j], kind, name) && !Throws(rest[j], kind);
        assert forall j :: 0 <= j < i + 1 ==> !Names(entries[j], kind, name) && !Throws(entries[j], kind) by {
          forall j | 0 <= j < i + 1 ensures !Names(entries[j], kind, name) && !Throws(entries[j], kind) {
            if j > 0 {
              assert entries[j] == rest[j - 1];
            }
          }
        }
      }
      if r.Failure? {
        var i :| 0 <= i < |rest| && Throws(rest[i], kind) && forall j :: 0 <= j < i ==> !Names(rest[j], kind, name);
        assert forall j :: 0 <= j < i + 1 ==> !Names(entries[j], kind, name) by {
          forall j | 0 <= j < i + 1 ensures !Names(entries[j], kind, name) {
            if j > 0 {
              assert entries[j] == rest[j - 1];
            }
          }
        }
      }
    }
  }

  /** "Resource not found" is thrown exactly when no entry has that kind and
      name (compared exactly, with no normalisation) and no entry of that
      kind lacks its metadata. */
  lemma ResourceNotFoundExactly(entries: seq<Resource>, kind: string, name: string, key: Option<string>)
    ensures GetResource(entries, kind, name, key) == Failure(ResourceNotFound(kind, name)) <==>
      forall i :: 0 <= i < |entries| ==> !Names(entries[i], kind, name) && !Throws(entries[i], kind)
  {
    FindEntrySpec(entries, kind, name);
  }

  /** A successful lookup is about the first entry with that kind and name:
      the whole entry, or its non-empty data value under `key`; an entry
      without a `data` field is returned whole even when a key is asked
      for. */
  lemma GetResourceFirstMatch(entries: seq<Resource>, kind: string, name: string, key: Option<string>, i: int)
    requires 0 <= i < |entries| && Names(entries[i], kind, name)
    requires forall j :: 0 <= j < i ==> !Names(entries[j], kind, name) && !Throws(entries[j], kind)
    ensures var r := GetResource(entries, kind, name, key);
      var e := entries[i];
      && (key.None? || key.value == "" || e.data.None? ==> r == Success(WholeResource(e)))
      && (key.Some? && key.value != "" && e.data.Some? && key.value in e.data.value && e.data.value[key.value] != "" ==>
            r == Success(DataItem(e.data.value[key.value])))
      && (key.Some? && key.value != "" && e.data.Some? && (key.value !in e.data.value || e.data.value[key.value] == "") ==>
            r == Failure(DataNotFound(kind, name, key.value)))
  {
    FindEntryAt(entries, kind, name, i);
  }

  lemma {:induction false} FindEntryAt(entries: seq<Resource>, kind: string, name: string, i: int)
    requires 0 <= i < |entries| && Names(entries[i], kind, name)
    requires forall j :: 0 <= j < i ==> !Names(entries[j], kind, name) && !Throws(entries[j], kind)
    ensures FindEntry(entries, kind, name) == Success(Some(entries[i]))
  {
    if i > 0 {
      var rest := entries[1..];
      assert forall j :: 0 <= j < |rest| ==> rest[j] == entries[j + 1];
      FindEntryAt(rest, kind, name, i - 1);
    }
  }

  /** One property of a `moreInfo` item. */
  datatype Prop = Label(text: string) | Flag(on: bool)

  /** `monospace(name, value, isPassword)` */
  function Monospace(name: string, value: string, isPassword: bool): (r: map<string, Prop>)
    ensures r.Keys == {"name", "value", "monospace", "clipboard"} + (if isPassword then {"isPassword"} else {})
    ensures r["name"] == Label(name) && r["value"] == Label(value)
    ensures r["monospace"] == Flag(true) && r["clipboard"] == Flag(true)
    ensures isPassword ==> r["isPassword"] == Flag(true)
  {
    var result := map["name" := Label(name), "value" := Label(value), "monospace" := Flag(true), "clipboard" := Flag(true)];
    if isPassword then result["isPassword" := Flag(true)] else result
  }

  /** `text(value, isItalic)` */
  function Text(value: string, isItalic: bool): (r: map<string, Prop>)
    ensures r.Keys == {"value"} + (if isItalic then {"italic"} else {})
    ensures r["value"] == Label(value)
    ensures isItalic ==> r["italic"] == Flag(true)
  {
    var result := map["value" := Label(value)];
    if isItalic then result["italic" := Flag(true)] else result
  }

  /** The annotation marking a Route as a lab endpoint, and the prefix of
      the annotations copied into its host entry. */
  const LabAnnotation := "com.ibm.jam-in-a-box"
  const EndpointPrefix := "com.ibm.jam-in-a-box.endpoint."

  /** A property of a host entry: a string or null. */
  datatype Value = Null | Str(s: string)

  type HostInfo = map<string, Value>

  /** `entry.metadata.annotations`, or none. */
  function Annotations(e: Resource): map<string, string> {
    if e.metadata.Some? && e.metadata.value.annotations.Some? then e.metadata.value.annotations.value else map[]
  }

  /** The filter's test passes: a Route whose lab annotation is `lab`. */
  predicate IsLabRoute(e: Resource) {
    && e.kind == Some("Route")
    && e.metadata.Some? && e.metadata.value.annotations.Some?
    && LabAnnotation in Annotations(e) && Annotations(e)[LabAnnotation] == "lab"
  }

  /** `configEntries.filter(...)`: the lab Routes in input order. A Route
      without `metadata` makes the filter throw. */
  function LabRoutes(entries: seq<Resource>): Result<seq<Resource>, GenError> {
    if entries == [] then Success([])
    else if Throws(entries[0], "Route") then Failure(TypeError)
    else
      match LabRoutes(entries[1..])
      case Failure(e) => Failure(e)
      case Success(rest) => Success(if IsLabRoute(entries[0]) then [entries[0]] + rest else rest)
  }

  /** The keys copied from the endpoint annotations among `names`. */
  function EndpointKeys(names: set<string>): set<string> {
    set a | a in names && StartsWith(a, EndpointPrefix) :: a[|EndpointPrefix|..]
  }

  /** `routeInfo` after the annotations in `done` have been visited: every
      endpoint annotation among them sets its key, over the initial entry. */
  function WithEndpoints(base: HostInfo, ann: map<string, string>, done: set<string>): HostInfo
    requires forall a :: a in done ==> a in ann
  {
    map k | k in base.Keys + EndpointKeys(done) ::
      var a := EndpointPrefix + k;
      if a in done then Str(ann[a]) else EndpointKey(done, k); base[k]
  }

  /** `k` is copied exactly when the annotation `<prefix>k` is there. */
  lemma EndpointKey(names: set<string>, k: string)
    ensures k in EndpointKeys(names) <==> EndpointPrefix + k in names
  {
    var a := EndpointPrefix + k;
    assert StartsWith(a, EndpointPrefix) && a[|EndpointPrefix|..] == k;
    if k in EndpointKeys(names) {
      var a' :| a' in names && StartsWith(a', EndpointPrefix) && a'[|EndpointPrefix|..] == k;
      assert a' == a'[..|EndpointPrefix|] + a'[|EndpointPrefix|..];
    }
  }

  /** `!routeInfo[key]` */
  predicate Falsy(info: HostInfo, key: string) {
    key !in info || info[key] == Null || info[key] == Str("")
  }

  /** How `${routeInfo.service}` prints the current value. */
  function ShownValue(info: HostInfo, key: string): string {
    if key !in info then "undefined"
    else match info[key]
      case Null => "null"
      case Str(s) => s
  }

  /** The in-cluster service to proxy through, unless annotated: the name of
      the Service the route forwards to, or null for a Service without a
      name; for any other target the suffix is appended to what is there. */
  function WithService(info: HostInfo, route: Resource): Result<HostInfo, GenError>
    requires route.spec.Some? && route.metadata.Some?
  {
    if !Falsy(info, "service") then Success(info)
    else if route.spec.value.to.None? then Failure(TypeError)
    else
      var to := route.spec.value.to.value;
      var current :=
        if to.kind == Some("Service") then
          (if to.name.Some? && to.name.value != "" then info["service" := Str(to.name.value)] else info["service" := Null])
        else info;
      if "service" in current && current["service"] == Null then Success(current)
      else Success(current["service" := Str(ShownValue(current, "service") + "/" +
                                            Shown(route.metadata.value.namespace) + ".svc.cluster.local")])
  }

  /** The TLS termination of a route, or none. */
  function Termination(route: Resource): Option<string> {
    if route.spec.Some? && route.spec.value.tls.Some? then route.spec.value.tls.value.termination else None
  }

  /** The protocol to proxy with, unless annotated. */
  function WithProtocol(info: HostInfo, route: Resource): HostInfo {
    if !Falsy(info, "serviceProtocol") then info
    else info["serviceProtocol" := Str(if Termination(route) in {Some("edge"), Some("passthrough")} then "https" else "http")]
  }

  /** The initial `routeInfo` of a route with a `spec`. */
  function BaseInfo(route: Resource): HostInfo
    requires route.spec.Some?
  {
    map["baseUrl" := Str("https://" + Shown(route.spec.value.host) + "/")]
  }

  /** The host entry of one lab route. */
  function HostEntry(route: Resource): Result<HostInfo, GenError>
    requires IsLabRoute(route)
  {
    if route.spec.None? then Failure(TypeError)
    else
      var ann := Annotations(route);
      match WithService(WithEndpoints(BaseInfo(route), ann, ann.Keys), route)
      case Failure(e) => Failure(e)
      case Success(info) => Success(WithProtocol(info, route))
  }

  /** What the route loop pushes, given each route's entry: the entries in
      order, up to the first that throws. */
  function Collect(results: seq<Result<HostInfo, GenError>>): Result<seq<HostInfo>, GenError> {
    if results == [] then Success([])
    else
      match Collect(results[..|results| - 1])
      case Failure(e) => Failure(e)
      case Success(hosts) =>
        match results[|results| - 1]
        case Failure(e) => Failure(e)
        case Success(h) => Success(hosts + [h])
  }

  /** The entry of each route, in order. */
  function HostEntries(routes: seq<Resource>): (r: seq<Result<HostInfo, GenError>>)
    requires forall i :: 0 <= i < |routes| ==> IsLabRoute(routes[i])
    ensures |r| == |routes| && forall i :: 0 <= i < |routes| ==> r[i] == HostEntry(routes[i])
  {
    seq(|routes|, i requires 0 <= i < |routes| => HostEntry(routes[i]))
  }

  /** `out.hosts` of `generateConfigObj`: it starts as an empty list, and
      the lab routes' entries are pushed onto it in order. */
  function Hosts(entries: seq<Resource>): Result<seq<HostInfo>, GenError> {
    LabRoutesSpec(entries);
    match LabRoutes(entries)
    case Failure(e) => Failure(e)
    case Success(routes) => Collect(HostEntries(routes))
  }

  /** The filter keeps the lab routes of the input, all of them and nothing
      else, and throws only for a Route without metadata. Order and
      multiplicity are stated by `LabRoutesAppend` and `LabRoutesOne`. */
  lemma {:induction false} LabRoutesSpec(entries: seq<Resource>)
    ensures LabRoutes(entries).Success? <==> forall i :: 0 <= i < |entries| ==> !Throws(entries[i], "Route")
    ensures LabRoutes(entries).Success? ==>
      && (forall i :: 0 <= i < |LabRoutes(entries).value| ==> IsLabRoute(LabRoutes(entries).value[i]))
      && (forall e :: e in LabRoutes(entries).value <==> e in entries && IsLabRoute(e))
  {
    if entries != [] {
      LabRoutesSpec(entries[1..]);
      assert forall e :: e in entries <==> e == entries[0] || e in entries[1..];
      if !Throws(entries[0], "Route") {
        assert forall i :: 1 <= i < |entries| ==> entries[i] == entries[1..][i - 1];
      }
    }
  }

  /** Filtering a concatenation filters each part and concatenates the
      kept routes: the filter keeps input order, and each occurrence. */
  lemma {:induction false} LabRoutesAppend(a: seq<Resource>, b: seq<Resource>)
    ensures LabRoutes(a + b) ==
      match LabRoutes(a)
      case Failure(e) => Failure(e)
      case Success(x) =>
        match LabRoutes(b)
        case Failure(e) => Failure(e)
        case Success(y) => Success(x + y)
    decreases a
  {
    if a == [] {
      assert a + b == b;
      if LabRoutes(b).Success? {
        assert [] + LabRoutes(b).value == LabRoutes(b).value;
      }
    } else {
      assert (a + b)[0] == a[0] && (a + b)[1..] == a[1..] + b;
      LabRoutesAppend(a[1..], b);
      if LabRoutes(a).Success? && LabRoutes(b).Success? && IsLabRoute(a[0]) {
        var x := LabRoutes(a[1..]).value;
        var y := LabRoutes(b).value;
        assert [a[0]] + (x + y) == ([a[0]] + x) + y;
      }
    }
  }

  /** A single entry: it throws if it is a Route without metadata, is kept
      once if it is a lab route, and dropped otherwise. */
  lemma LabRoutesOne(e: Resource)
    ensures LabRoutes([e]) ==
      if Throws(e, "Route") then Failure(TypeError)
      else Success(if IsLabRoute(e) then [e] else [])
  {
    assert [e][1..] == [] && [e] + [] == [e];
    assert LabRoutes([e][1..]) == Success([]);
  }

  /** Visiting one more annotation sets at most one key. */
  lemma WithEndpointsStep(base: HostInfo, ann: map<string, string>, done: set<string>, a: string)
    requires forall x :: x in done ==> x in ann
    requires a in ann
    ensures WithEndpoints(base, ann, done + {a}) ==
      if StartsWith(a, EndpointPrefix) then WithEndpoints(base, ann, done)[a[|EndpointPrefix|..] := Str(ann[a])]
      else WithEndpoints(base, ann, done)
  {
    var before := WithEndpoints(base, ann, done);
    var after := WithEndpoints(base, ann, done + {a});
    if StartsWith(a, EndpointPrefix) {
      var key := a[|EndpointPrefix|..];
      assert a == EndpointPrefix + key by {
        assert a == a[..|EndpointPrefix|] + a[|EndpointPrefix|..];
      }
      forall k ensures k in after.Keys <==> k in before.Keys || k == key {
        EndpointKey(done, k);
        EndpointKey(done + {a}, k);
      }
      forall k | k in after.Keys ensures after[k] == before[key := Str(ann[a])][k] {
        EndpointKey(done, k);
        EndpointKey(done + {a}, k);
      }
      assert after == before[key := Str(ann[a])];
    } else {
      forall k ensures k in after.Keys <==> k in before.Keys {
        EndpointKey(done, k);
        EndpointKey(done + {a}, k);
      }
      forall k | k in after.Keys ensures after[k] == before[k] {
        EndpointKey(done, k);
        EndpointKey(done + {a}, k);
      }
      assert after == before;
    }
  }

  /** Once a route has thrown, the routes after it change nothing. */
  lemma {:induction false} CollectSticky(results: seq<Result<HostInfo, GenError>>, n: int)
    requires 0 <= n <= |results| && Collect(results[..n]).Failure?
    ensures Collect(results) == Collect(results[..n])
  {
    if n < |results| {
      var prefix := results[..|results| - 1];
      assert prefix[..n] == results[..n];
      CollectSticky(prefix, n);
    } else {
      assert results[..n] == results;
    }
  }

  /** The body of the `for (let route of routes)` loop: the host entry of
      one lab route, its annotations visited one at a time. */
  method RouteInfo(route: Resource) returns (result: Result<HostInfo, GenError>)
    requires IsLabRoute(route)
    ensures result == HostEntry(route)
  {
    if route.spec.None? {
      return Failure(TypeError);
    }
    var spec := route.spec.value;
    var ann := route.metadata.value.annotations.value;
    var routeInfo := map["baseUrl" := Str("https://" + Shown(spec.host) + "/")];
    var pending := ann.Keys;
    ghost var done: set<string> := {};
    while pending != {}
      invariant pending + done == ann.Keys && pending !! done
      invariant routeInfo == WithEndpoints(BaseInfo(route), ann, done)
      decreases |pending|
    {
      var annotation :| annotation in pending;
      WithEndpointsStep(BaseInfo(route), ann, done, annotation);
      if StartsWith(annotation, EndpointPrefix) {
        var key := annotation[|EndpointPrefix|..];
        routeInfo := routeInfo[key := Str(ann[annotation])];
      }
      pending := pending - {annotation};
      done := done + {annotation};
    }
    if Falsy(routeInfo, "service") {
      if spec.to.None? {
        return Failure(TypeError);
      }
      if spec.to.value.kind == Some("Service") {
        var name := spec.to.value.name;
        routeInfo := routeInfo["service" := if name.Some? && name.value != "" then Str(name.value) else Null];
      }
      if !("service" in routeInfo && routeInfo["service"] == Null) {
        routeInfo := routeInfo["service" := Str(ShownValue(routeInfo, "service") + "/" +
                                                Shown(route.metadata.value.namespace) + ".svc.cluster.local")];
      }
    }
    if Falsy(routeInfo, "serviceProtocol") {
      routeInfo := routeInfo["serviceProtocol" :=
        Str(if Termination(route) in {Some("edge"), Some("passthrough")} then "https" else "http")];
    }
    return Success(routeInfo);
  }

  /** The `hosts` list of `generateConfigObj`: one entry per lab route, in
      input order, or the first error thrown on the way. */
  method GenerateHosts(entries: seq<Resource>) returns (hosts: Result<seq<HostInfo>, GenError>)
    ensures hosts == Hosts(entries)
  {
    var routes := LabRoutes(entries);
    if routes.Failure? {
      return Failure(routes.error);
    }
    LabRoutesSpec(entries);
    ghost var results := HostEntries(routes.value);
    var out: seq<HostInfo> := [];
    for i := 0 to |routes.value|
      invariant Collect(results[..i]) == Success(out)
    {
      var route := routes.value[i];
      assert results[..i + 1][..i] == results[..i];
      var routeInfo := RouteInfo(route);
      if routeInfo.Failure? {
        CollectSticky(results, i + 1);
        return Failure(routeInfo.error);
      }
      out := out + [routeInfo.value];
    }
    assert results[..|results|] == results;
    hosts := Success(out);
  }
}
