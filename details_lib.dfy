/** `normalizeKind` and `searchDetail`: finding an object of a given kind,
    namespace and name (or labels) in the cluster configuration, where the
    kind may be spelt in any of the ways `kubectl` accepts. */
module DetailsLib {
  import opened Wrappers
  import opened JsText
  import opened Resources

  /** One row of the synonym table: a standard kind and its short names. */
  datatype KindEntry = KindEntry(standard: string, synonyms: seq<string>)

  /** The table, in the order its rows are enumerated. */
  const KindSynonyms: seq<KindEntry> := [
    KindEntry("pod", ["po"]),
    KindEntry("service", ["svc"]),
    KindEntry("configmap", ["cm"]),
    KindEntry("deployment", ["deploy"]),
    KindEntry("namespace", ["ns"]),
    KindEntry("persistentvolume", ["pv"]),
    KindEntry("persistentvolumeclaim", ["pvc"]),
    KindEntry("serviceaccount", ["sa"]),
    KindEntry("ingress", ["ing"]),
    KindEntry("node", ["no"]),
    KindEntry("replicaset", ["rs"]),
    KindEntry("daemonset", ["ds"]),
    KindEntry("statefulset", ["sts"]),
    KindEntry("cronjob", ["cj"]),
    KindEntry("horizontalpodautoscaler", ["hpa"]),
    KindEntry("networkpolicy", ["netpol"]),
    KindEntry("endpoints", ["ep"])
  ]

  /** A name of the table: a non-empty run of lower-case ASCII letters. */
  predicate Word(s: string) {
    s != [] && forall k :: 0 <= k < |s| ==> IsLowerAscii(s[k])
  }

  /** What the table must satisfy for `normalizeKind` to behave: every name
      is a lower-case word, no short name is also a standard kind, and no
      short name belongs to two rows. */
  predicate WellFormed(t: seq<KindEntry>) {
    && (forall i :: 0 <= i < |t| ==> Word(t[i].standard))
    && (forall i, j :: 0 <= i < |t| && 0 <= j < |t[i].synonyms| ==> Word(t[i].synonyms[j]))
    && (forall i, j, i' :: 0 <= i < |t| && 0 <= j < |t[i].synonyms| && 0 <= i' < |t| ==>
          t[i].synonyms[j] != t[i'].standard)
    && (forall i, j, i', j' :: 0 <= i < i' < |t| && 0 <= j < |t[i].synonyms| && 0 <= j' < |t[i'].synonyms| ==>
          t[i].synonyms[j] != t[i'].synonyms[j'])
  }

  /** `kindSynonyms.hasOwnProperty(s)` */
  predicate IsKey(t: seq<KindEntry>, s: string) {
    exists i | 0 <= i < |t| :: t[i].standard == s
  }

  /** The standard kind of the last row that lists `s` as a short name. */
  function Owner(t: seq<KindEntry>, s: string): Option<string> {
    if t == [] then None
    else if s in t[|t| - 1].synonyms then Some(t[|t| - 1].standard)
    else Owner(t[..|t| - 1], s)
  }

  /** `s.charAt(0).toUpperCase() + s.slice(1)` */
  function Capitalize(s: string): (r: string)
    ensures |r| == |s|
    ensures s != [] ==> r[0] == UpperChar(s[0]) && r[1..] == s[1..]
  {
    if s == [] then [] else [UpperChar(s[0])] + s[1..]
  }

  /** `s.split('.')[0]`: everything before the first dot. */
  function BeforeDot(s: string): string {
    if s == [] || s[0] == '.' then [] else [s[0]] + BeforeDot(s[1..])
  }

  /** The capitalised standard kind owning `alias`, or `otherwise` when no
      row lists it: one pass of a synonym loop. */
  function Resolve(t: seq<KindEntry>, alias: string, otherwise: string): string {
    match Owner(t, alias)
    case Some(k) => Capitalize(k)
    case None => otherwise
  }

  /** Steps 3 to 5 of `normalizeKind` on a lower-cased, dot-free kind. */
  function Canonical(s0: string): string {
    var s1 := if IsKey(KindSynonyms, s0) then Capitalize(s0) else s0;
    var s2 := Resolve(KindSynonyms, s1, s1);
    if EndsWith(s2, "s") && |s2| > 1 then
      var w := s2[..|s2| - 1];
      Resolve(KindSynonyms, w, if IsKey(KindSynonyms, w) then Capitalize(w) else s2)
    else s2
  }

  /** `normalizeKind(kind)`: null for an absent or empty kind. */
  function NormalizedKind(kind: Option<string>): (r: Option<string>)
    ensures r.None? <==> kind.None? || kind.value == ""
  {
    match kind
    case None => None
    case Some(k) => if k == "" then None else Some(Canonical(BeforeDot(Lower(k))))
  }

  /** The owner of a short name, looked for one row at a time. */
  lemma OwnerStep(t: seq<KindEntry>, i: int, s: string)
    requires 0 <= i < |t|
    ensures Owner(t[..i + 1], s) == if s in t[i].synonyms then Some(t[i].standard) else Owner(t[..i], s)
  {
    assert t[..i + 1][..i] == t[..i];
  }

  /** `Owner` finds a row listing the name, and only the last such row; it
      finds nothing exactly when no row lists the name. */
  lemma {:induction false} OwnerSpec(t: seq<KindEntry>, s: string)
    ensures Owner(t, s).None? <==> forall i :: 0 <= i < |t| ==> s !in t[i].synonyms
    ensures Owner(t, s).Some? ==>
      exists i :: 0 <= i < |t| && s in t[i].synonyms && Owner(t, s).value == t[i].standard &&
        forall k :: i < k < |t| ==> s !in t[k].synonyms
  {
    if t != [] && s !in t[|t| - 1].synonyms {
      var p := t[..|t| - 1];
      OwnerSpec(p, s);
      assert forall i :: 0 <= i < |p| ==> p[i] == t[i];
    }
  }

  /** The owner is the row listing the name when no later row lists it. */
  lemma {:induction false} OwnerLast(t: seq<KindEntry>, s: string, i: int)
    requires 0 <= i < |t| && s in t[i].synonyms
    requires forall k :: i < k < |t| ==> s !in t[k].synonyms
    ensures Owner(t, s) == Some(t[i].standard)
  {
    if i < |t| - 1 {
      var p := t[..|t| - 1];
      assert forall k :: 0 <= k < |p| ==> p[k] == t[k];
      OwnerLast(p, s, i);
    }
  }

  /** In a well-formed table the owner is the one row listing the name. */
  lemma OwnerUnique(t: seq<KindEntry>, s: string, i: int, j: int)
    requires WellFormed(t)
    requires 0 <= i < |t| && 0 <= j < |t[i].synonyms| && s == t[i].synonyms[j]
    ensures Owner(t, s) == Some(t[i].standard)
  {
    forall k, j' | i < k < |t| && 0 <= j' < |t[k].synonyms|
      ensures t[k].synonyms[j'] != s
    {
    }
    OwnerLast(t, s, i);
  }

  /** A capitalised word is no short name of a well-formed table: short
      names start with a lower-case letter. */
  lemma CapitalizedNotSynonym(t: seq<KindEntry>, k: string, i: int)
    requires WellFormed(t) && Word(k) && 0 <= i < |t|
    ensures Capitalize(k) !in t[i].synonyms
  {
    forall j | 0 <= j < |t[i].synonyms|
      ensures t[i].synonyms[j] != Capitalize(k)
    {
      assert IsLowerAscii(t[i].synonyms[j][0]);
    }
  }

  /** A word starting with an upper-case letter is neither a standard kind
      nor a short name of a well-formed table. */
  lemma UpperInitialUnknown(t: seq<KindEntry>, w: string)
    requires WellFormed(t) && w != [] && IsUpperAscii(w[0])
    ensures !IsKey(t, w) && Owner(t, w).None?
  {
    OwnerSpec(t, w);
    forall i, j | 0 <= i < |t| && 0 <= j < |t[i].synonyms|
      ensures t[i].synonyms[j] != w
    {
      assert IsLowerAscii(t[i].synonyms[j][0]);
    }
  }

  /** Once the first synonym loop has replaced the name, no later row
      matches it or the original name. */
  lemma SettledStaysSettled(t: seq<KindEntry>, i: int, s: string)
    requires WellFormed(t) && 0 <= i < |t|
    requires Owner(t[..i], s).Some?
    ensures Resolve(t[..i], s, s) !in t[i].synonyms
    ensures s !in t[i].synonyms
  {
    OwnerSpec(t[..i], s);
    var i0 :| 0 <= i0 < i && s in t[i0].synonyms && Owner(t[..i], s).value == t[i0].standard;
    CapitalizedNotSynonym(t, t[i0].standard, i);
    var j0 :| 0 <= j0 < |t[i0].synonyms| && t[i0].synonyms[j0] == s;
    forall j | 0 <= j < |t[i].synonyms|
      ensures t[i].synonyms[j] != s
    {
    }
  }

  /** `normalizeKind(kind)`: lower-case, cut at the first dot, then walk
      the table for the name and, for a plural, for the name without its
      final `s`. */
  method NormalizeKind(kind: Option<string>) returns (normalized: Option<string>)
    ensures normalized == NormalizedKind(kind)
  {
    if kind.None? || kind.value == "" {
      return None;
    }
    var nk := Lower(kind.value);
    if '.' in nk {
      nk := BeforeDot(nk);
    } else {
      NoDotBeforeDot(nk);
    }
    if IsKey(KindSynonyms, nk) {
      nk := Capitalize(nk);
    }
    KindSynonymsWellFormed();
    nk := ReplaceSynonym(KindSynonyms, nk);
    if EndsWith(nk, "s") && |nk| > 1 {
      var withoutS := nk[..|nk| - 1];
      if IsKey(KindSynonyms, withoutS) {
        nk := Capitalize(withoutS);
      }
      nk := ReplaceShortened(KindSynonyms, withoutS, nk);
    }
    normalized := Some(nk);
  }

  /** The first synonym loop of `normalizeKind`: each row is compared with
      the name as it stands, so once a short name has been replaced by its
      capitalised standard kind no later row matches. */
  method ReplaceSynonym(t: seq<KindEntry>, name: string) returns (nk: string)
    requires WellFormed(t)
    ensures nk == Resolve(t, name, name)
  {
    nk := name;
    for i := 0 to |t|
      invariant nk == Resolve(t[..i], name, name)
    {
      OwnerStep(t, i, name);
      if Owner(t[..i], name).Some? {
        SettledStaysSettled(t, i, name);
      }
      if nk in t[i].synonyms {
        nk := Capitalize(t[i].standard);
      }
    }
    assert t[..|t|] == t;
  }

  /** The second synonym loop of `normalizeKind`: every row listing
      `withoutS` overwrites the name, so the last one wins. */
  method ReplaceShortened(t: seq<KindEntry>, withoutS: string, current: string) returns (nk: string)
    ensures nk == Resolve(t, withoutS, current)
  {
    nk := current;
    for i := 0 to |t|
      invariant nk == Resolve(t[..i], withoutS, current)
    {
      OwnerStep(t, i, withoutS);
      if withoutS in t[i].synonyms {
        nk := Capitalize(t[i].standard);
      }
    }
    assert t[..|t|] == t;
  }

  lemma {:induction false} NoDotBeforeDot(s: string)
    requires '.' !in s
    ensures BeforeDot(s) == s
  {
    if s != [] {
      assert '.' !in s[1..] by {
        forall c | c in s[1..] ensures c in s {
          var k :| 0 <= k < |s[1..]| && s[1..][k] == c;
          assert s[k + 1] == c;
        }
      }
      NoDotBeforeDot(s[1..]);
    }
  }

  /** The third argument of `searchDetail`: an object name (a string), a
      set of labels (an object), or anything else, which matches nothing. */
  datatype Selector = ByName(name: string) | ByLabels(labels: map<string, string>) | Unsupported

  /** `item.metadata?.name` */
  function NameOf(item: Resource): Option<string> {
    if item.metadata.Some? then item.metadata.value.name else None
  }

  /** `item.metadata?.namespace` */
  function NamespaceOf(item: Resource): Option<string> {
    if item.metadata.Some? then item.metadata.value.namespace else None
  }

  /** `item.metadata?.labels || {}` */
  function LabelsOf(item: Resource): map<string, string> {
    if item.metadata.Some? && item.metadata.value.labels.Some? then item.metadata.value.labels.value
    else map[]
  }

  /** The callback given to `find`, with the wanted kind already normalised:
      the item's normalised kind must equal it, a non-empty namespace must
      be the item's, and a non-empty name must be the item's name, or every
      wanted label must carry the wanted value. */
  predicate Selected(item: Resource, kind: Option<string>, namespace: Option<string>, selector: Selector) {
    && !selector.Unsupported?
    && NormalizedKind(item.kind) == kind
    && (namespace.None? || namespace.value == "" || NamespaceOf(item) == namespace)
    && match selector
       case ByName(name) => name == "" || NameOf(item) == Some(name)
       case ByLabels(wanted) => forall key :: key in wanted ==> key in LabelsOf(item) && LabelsOf(item)[key] == wanted[key]
       case Unsupported => false
  }

  /** `items.find(...)`: the first selected item. */
  function Find(items: seq<Resource>, kind: Option<string>, namespace: Option<string>, selector: Selector): Option<Resource> {
    if items == [] then None
    else if Selected(items[0], kind, namespace, selector) then Some(items[0])
    else Find(items[1..], kind, namespace, selector)
  }

  /** `searchDetail(config, kind, namespace, selector)`; `config` is `None`
      when it is missing or not an array. */
  function SearchDetail(config: Option<seq<Resource>>, kind: Option<string>, namespace: Option<string>, selector: Selector)
    : Option<Resource>
  {
    if config.None? then None else Find(config.value, NormalizedKind(kind), namespace, selector)
  }

  /** `find` returns the first selected item, and nothing exactly when no
      item is selected. */
  lemma {:induction false} FindSpec(items: seq<Resource>, kind: Option<string>, namespace: Option<string>, selector: Selector)
    ensures Find(items, kind, namespace, selector).None? <==>
      forall i :: 0 <= i < |items| ==> !Selected(items[i], kind, namespace, selector)
    ensures Find(items, kind, namespace, selector).Some? ==>
      exists i :: 0 <= i < |items| && Find(items, kind, namespace, selector).value == items[i] &&
        Selected(items[i], kind, namespace, selector) &&
        forall j :: 0 <= j < i ==> !Selected(items[j], kind, namespace, selector)
  {
    if items != [] && !Selected(items[0], kind, namespace, selector) {
      var rest := items[1..];
      FindSpec(rest, kind, namespace, selector);
      assert forall i :: 0 <= i < |rest| ==> rest[i] == items[i + 1];
      if Find(rest, kind, namespace, selector).Some? {
        var i :| 0 <= i < |rest| && Find(rest, kind, namespace, selector).value == rest[i] &&
          Selected(rest[i], kind, namespace, selector) &&
          forall j :: 0 <= j < i ==> !Selected(rest[j], kind, namespace, selector);
        assert forall j :: 0 <= j < i + 1 ==> !Selected(items[j], kind, namespace, selector) by {
          forall j | 0 <= j < i + 1 ensures !Selected(items[j], kind, namespace, selector) {
            if j > 0 {
              assert items[j] == rest[j - 1];
            }
          }
        }
      }
    }
  }

  /** The item at `i` is the answer when it is the first one selected. */
  lemma SearchDetailAt(config: seq<Resource>, kind: Option<string>, namespace: Option<string>, selector: Selector, i: int)
    requires 0 <= i < |config| && Selected(config[i], NormalizedKind(kind), namespace, selector)
    requires forall j :: 0 <= j < i ==> !Selected(config[j], NormalizedKind(kind), namespace, selector)
    ensures SearchDetail(Some(config), kind, namespace, selector) == Some(config[i])
  {
    FindSpec(config, NormalizedKind(kind), namespace, selector);
  }

  /** There is no answer when no item is selected, or when the
      configuration is not an array. */
  lemma SearchDetailNone(config: Option<seq<Resource>>, kind: Option<string>, namespace: Option<string>, selector: Selector)
    ensures SearchDetail(config, kind, namespace, selector).None? <==>
      NoneSelected(config, NormalizedKind(kind), namespace, selector)
  {
    if config.Some? {
      FindSpec(config.value, NormalizedKind(kind), namespace, selector);
    }
  }

  /** No item of `config` is selected, or `config` is not an array. */
  predicate NoneSelected(config: Option<seq<Resource>>, kind: Option<string>, namespace: Option<string>, selector: Selector) {
    config.None? || forall i :: 0 <= i < |config.value| ==> !Selected(config.value[i], kind, namespace, selector)
  }

  /** What the extractors return: one top-level key holding fields that are
      strings or null. */
  type Details = map<string, map<string, Option<string>>>

  /** `route?.spec?.host ? `https://${route.spec.host}` : null` */
  function HttpsUrl(route: Option<Resource>): (r: Option<string>)
    ensures r.Some? <==>
      route.Some? && route.value.spec.Some? && route.value.spec.value.host.Some? && route.value.spec.value.host.value != ""
    ensures r.Some? ==> r.value == "https://" + route.value.spec.value.host.value
  {
    if route.Some? && route.value.spec.Some? && route.value.spec.value.host.Some? && route.value.spec.value.host.value != ""
    then Some("https://" + route.value.spec.value.host.value)
    else None
  }

  /** `secret?.data?.[key] || null`: an empty value is null too. */
  function DataValue(secret: Option<Resource>, key: string): (r: Option<string>)
    ensures r.Some? <==>
      secret.Some? && secret.value.data.Some? && key in secret.value.data.value && secret.value.data.value[key] != ""
    ensures r.Some? ==> r.value == secret.value.data.value[key]
  {
    if secret.Some? && secret.value.data.Some? && key in secret.value.data.value && secret.value.data.value[key] != ""
    then Some(secret.value.data.value[key])
    else None
  }

  /** The table is well formed. The facts are checked a few rows at a time. */
  lemma KindSynonymsWellFormed()
    ensures WellFormed(KindSynonyms)
  {
    StandardWords();
    SynonymWords();
    SingleSynonyms();
    SynonymsDistinct();
    SynonymsNotStandard();
    WellFormedSingles(KindSynonyms);
  }

  /** A table of seventeen rows with one short name each is well formed when
      its names are words and its short names are pairwise distinct and
      distinct from every standard kind. */
  lemma WellFormedSingles(t: seq<KindEntry>)
    requires |t| == 17
    requires forall i :: 0 <= i < |t| ==> Word(t[i].standard)
    requires forall i :: 0 <= i < |t| ==> |t[i].synonyms| == 1
    requires forall i :: 0 <= i < |t| ==> Word(t[i].synonyms[0])
    requires forall i, i' :: 0 <= i < i' < |t| ==> t[i].synonyms[0] != t[i'].synonyms[0]
    requires forall i, i' :: 0 <= i < |t| && 0 <= i' < |t| ==> t[i].synonyms[0] != t[i'].standard
    ensures WellFormed(t)
  {
  }

  lemma SingleSynonyms()
    ensures forall i :: 0 <= i < |KindSynonyms| ==> |KindSynonyms[i].synonyms| == 1
  {
  }

  lemma SynonymWords()
    ensures forall i :: 0 <= i < |KindSynonyms| ==> Word(KindSynonyms[i].synonyms[0])
  {
  }

  lemma SynonymsDistinct()
    ensures forall i, i' :: 0 <= i < i' < |KindSynonyms| ==>
      KindSynonyms[i].synonyms[0] != KindSynonyms[i'].synonyms[0]
  {
  }

  lemma SynonymsNotStandard()
    ensures forall i, i' :: 0 <= i < |KindSynonyms| && 0 <= i' < |KindSynonyms| ==>
      KindSynonyms[i].synonyms[0] != KindSynonyms[i'].standard
  {
  }

  /** Every standard kind of the table is a word. */
  lemma StandardWords()
    ensures forall i :: 0 <= i < |KindSynonyms| ==> Word(KindSynonyms[i].standard)
  {
    StandardNames0();
    StandardNames1();
    StandardNames2();
    forall i | 0 <= i < |KindSynonyms|
      ensures Word(KindSynonyms[i].standard)
    {
      if i == 0 { assert KindSynonyms[i].standard == "pod"; }
      else if i == 1 { assert KindSynonyms[i].standard == "service"; }
      else if i == 2 { assert KindSynonyms[i].standard == "configmap"; }
      else if i == 3 { assert KindSynonyms[i].standard == "deployment"; }
      else if i == 4 { assert KindSynonyms[i].standard == "namespace"; }
      else if i == 5 { assert KindSynonyms[i].standard == "persistentvolume"; }
      else if i == 6 { assert KindSynonyms[i].standard == "persistentvolumeclaim"; }
      else if i == 7 { assert KindSynonyms[i].standard == "serviceaccount"; }
      else if i == 8 { assert KindSynonyms[i].standard == "ingress"; }
      else if i == 9 { assert KindSynonyms[i].standard == "node"; }
      else if i == 10 { assert KindSynonyms[i].standard == "replicaset"; }
      else if i == 11 { assert KindSynonyms[i].standard == "daemonset"; }
      else if i == 12 { assert KindSynonyms[i].standard == "statefulset"; }
      else if i == 13 { assert KindSynonyms[i].standard == "cronjob"; }
      else if i == 14 { assert KindSynonyms[i].standard == "horizontalpodautoscaler"; }
      else if i == 15 { assert KindSynonyms[i].standard == "networkpolicy"; }
      else { assert KindSynonyms[i].standard == "endpoints"; }
    }
  }

  lemma StandardNames0()
    ensures Word("pod") && Word("service") && Word("configmap")
      && Word("deployment") && Word("namespace") && Word("persistentvolume")
  {
  }

  lemma StandardNames1()
    ensures Word("persistentvolumeclaim") && Word("serviceaccount") && Word("ingress")
      && Word("node") && Word("replicaset") && Word("daemonset")
  {
  }

  lemma StandardNames2()
    ensures Word("statefulset") && Word("cronjob")
      && Word("horizontalpodautoscaler") && Word("networkpolicy") && Word("endpoints")
  {
  }
}
