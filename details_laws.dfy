/** What `normalizeKind` promises: which spellings of a kind meet, which are
    left alone, and that normalising twice changes nothing more. */
module DetailsLaws {
  import opened Wrappers
  import opened JsText
  import opened DetailsLib

  /** `s` is a standard kind of the table with its first letter capitalised. */
  predicate IsCapitalizedKind(s: string) {
    exists i :: 0 <= i < |KindSynonyms| && s == Capitalize(KindSynonyms[i].standard)
  }

  lemma WordHasNoDot(w: string)
    requires Word(w)
    ensures '.' !in w
  {
    forall k | 0 <= k < |w|
      ensures w[k] != '.'
    {
      assert IsLowerAscii(w[k]);
    }
  }

  /** Lower-casing a capitalised word gives the word back. */
  lemma LowerCapitalized(w: string)
    requires Word(w)
    ensures Lower(w) == w
    ensures Lower(Capitalize(w)) == w
    ensures IsUpperAscii(Capitalize(w)[0])
  {
    LowerSpec(w);
    assert IsLowerAscii(w[0]);
    forall k | 0 <= k < |w|
      ensures Lower(Capitalize(w))[k] == w[k]
    {
      if k > 0 {
        assert Capitalize(w)[k] == w[k];
      }
    }
  }

  lemma LowerIdempotent(s: string)
    ensures Lower(Lower(s)) == Lower(s)
  {
    LowerSpec(s);
    LowerSpec(Lower(s));
  }

  lemma LowerConcat(a: string, b: string)
    ensures Lower(a + b) == Lower(a) + Lower(b)
  {
    assert forall k :: 0 <= k < |a| ==> (a + b)[k] == a[k];
    assert forall k :: |a| <= k < |a| + |b| ==> (a + b)[k] == b[k - |a|];
  }

  lemma LowerKeepsNoDot(s: string)
    requires '.' !in s
    ensures '.' !in Lower(s)
  {
    forall k | 0 <= k < |s|
      ensures Lower(s)[k] != '.'
    {
      assert s[k] != '.';
    }
  }

  /** `split('.')[0]` keeps a prefix that holds no dot. */
  lemma {:induction false} BeforeDotSpec(s: string)
    ensures |BeforeDot(s)| <= |s|
    ensures BeforeDot(s) == s[..|BeforeDot(s)|]
    ensures '.' !in BeforeDot(s)
  {
    if s != [] && s[0] != '.' {
      var r := BeforeDot(s[1..]);
      BeforeDotSpec(s[1..]);
      assert s[..|r| + 1] == [s[0]] + s[1..][..|r|];
    }
  }

  lemma {:induction false} BeforeDotDotted(a: string, b: string)
    requires '.' !in a
    ensures BeforeDot(a + "." + b) == a
  {
    if a != [] {
      assert (a + "." + b)[1..] == a[1..] + "." + b;
      assert '.' !in a[1..] by {
        forall k | 0 <= k < |a[1..]| ensures a[1..][k] != '.' {
          assert a[1..][k] == a[k + 1];
        }
      }
      BeforeDotDotted(a[1..], b);
    }
  }

  /** A row's standard kind normalises to itself capitalised. */
  lemma CanonicalOfStandard(i: int)
    requires 0 <= i < |KindSynonyms|
    ensures Canonical(KindSynonyms[i].standard) == Capitalize(KindSynonyms[i].standard)
  {
    KindSynonymsWellFormed();
    var x := KindSynonyms[i].standard;
    LowerCapitalized(x);
    var s1 := Capitalize(x);
    UpperInitialUnknown(KindSynonyms, s1);
    if EndsWith(s1, "s") && |s1| > 1 {
      UpperInitialUnknown(KindSynonyms, s1[..|s1| - 1]);
    }
  }

  /** A short name normalises to the capitalised standard kind of its row. */
  lemma CanonicalOfShortName(i: int, j: int)
    requires 0 <= i < |KindSynonyms| && 0 <= j < |KindSynonyms[i].synonyms|
    ensures Canonical(KindSynonyms[i].synonyms[j]) == Capitalize(KindSynonyms[i].standard)
  {
    KindSynonymsWellFormed();
    var s0 := KindSynonyms[i].synonyms[j];
    assert !IsKey(KindSynonyms, s0);
    OwnerUnique(KindSynonyms, s0, i, j);
    var s2 := Capitalize(KindSynonyms[i].standard);
    LowerCapitalized(KindSynonyms[i].standard);
    if EndsWith(s2, "s") && |s2| > 1 {
      UpperInitialUnknown(KindSynonyms, s2[..|s2| - 1]);
    }
  }

  /** Normalisation ignores letter case. */
  lemma KindCaseInsensitive(k: string)
    ensures NormalizedKind(Some(k)) == NormalizedKind(Some(Lower(k)))
  {
    LowerIdempotent(k);
  }

  /** Normalisation ignores the API group after the first dot:
      `Route.route.openshift.io` is the same kind as `Route`. */
  lemma KindIgnoresGroup(a: string, b: string)
    requires a != "" && '.' !in a
    ensures NormalizedKind(Some(a + "." + b)) == NormalizedKind(Some(a))
  {
    LowerConcat(a, "." + b);
    assert a + "." + b == a + ("." + b);
    LowerConcat(".", b);
    assert Lower(".") == ".";
    LowerKeepsNoDot(a);
    BeforeDotDotted(Lower(a), Lower(b));
    assert Lower(a) + ("." + Lower(b)) == Lower(a) + "." + Lower(b);
    NoDotBeforeDot(Lower(a));
  }

  /** A standard kind, in any letter case, normalises to itself with only
      its first letter capitalised. */
  lemma StandardKind(k: string, i: int)
    requires 0 <= i < |KindSynonyms| && Lower(k) == KindSynonyms[i].standard
    ensures NormalizedKind(Some(k)) == Some(Capitalize(KindSynonyms[i].standard))
  {
    KindSynonymsWellFormed();
    WordHasNoDot(Lower(k));
    NoDotBeforeDot(Lower(k));
    CanonicalOfStandard(i);
  }

  /** A short name, in any letter case, normalises to its capitalised
      standard kind. */
  lemma ShortNameKind(k: string, i: int, j: int)
    requires 0 <= i < |KindSynonyms| && 0 <= j < |KindSynonyms[i].synonyms|
    requires Lower(k) == KindSynonyms[i].synonyms[j]
    ensures NormalizedKind(Some(k)) == Some(Capitalize(KindSynonyms[i].standard))
  {
    KindSynonymsWellFormed();
    WordHasNoDot(Lower(k));
    NoDotBeforeDot(Lower(k));
    CanonicalOfShortName(i, j);
  }

  /** A plural of a standard kind that is not itself in the table loses its
      final `s`. */
  lemma PluralOfStandard(k: string, i: int)
    requires 0 <= i < |KindSynonyms| && Lower(k) == KindSynonyms[i].standard + "s"
    requires !IsKey(KindSynonyms, Lower(k)) && Owner(KindSynonyms, Lower(k)).None?
    ensures NormalizedKind(Some(k)) == Some(Capitalize(KindSynonyms[i].standard))
  {
    KindSynonymsWellFormed();
    var x := KindSynonyms[i].standard;
    var p := Lower(k);
    WordHasNoDot(x);
    assert '.' !in p;
    NoDotBeforeDot(p);
    assert p[..|p| - 1] == x;
    assert !IsKey(KindSynonyms, p) && IsKey(KindSynonyms, x);
    OwnerSpec(KindSynonyms, x);
  }

  /** A plural of a short name that is not itself in the table loses its
      final `s` and normalises to the row's capitalised standard kind. */
  lemma PluralOfShortName(k: string, i: int, j: int)
    requires 0 <= i < |KindSynonyms| && 0 <= j < |KindSynonyms[i].synonyms|
    requires Lower(k) == KindSynonyms[i].synonyms[j] + "s"
    requires !IsKey(KindSynonyms, Lower(k)) && Owner(KindSynonyms, Lower(k)).None?
    ensures NormalizedKind(Some(k)) == Some(Capitalize(KindSynonyms[i].standard))
  {
    KindSynonymsWellFormed();
    var w := KindSynonyms[i].synonyms[j];
    var p := Lower(k);
    WordHasNoDot(w);
    assert '.' !in p;
    NoDotBeforeDot(p);
    assert p[..|p| - 1] == w;
    assert !IsKey(KindSynonyms, w);
    OwnerUnique(KindSynonyms, w, i, j);
  }

  lemma ResolveShape(alias: string, otherwise: string)
    ensures var r := Resolve(KindSynonyms, alias, otherwise); r == otherwise || IsCapitalizedKind(r)
  {
    OwnerSpec(KindSynonyms, alias);
  }

  /** Every name `normalizeKind` produces is the lower-cased input cut at
      its first dot, or a capitalised standard kind. */
  lemma NormalizedKindShape(k: string)
    requires k != ""
    ensures var r := NormalizedKind(Some(k)).value;
      r == BeforeDot(Lower(k)) || IsCapitalizedKind(r)
  {
    var s0 := BeforeDot(Lower(k));
    var s1 := if IsKey(KindSynonyms, s0) then Capitalize(s0) else s0;
    assert s1 == s0 || IsCapitalizedKind(s1);
    ResolveShape(s1, s1);
    var s2 := Resolve(KindSynonyms, s1, s1);
    if EndsWith(s2, "s") && |s2| > 1 {
      var w := s2[..|s2| - 1];
      var a := if IsKey(KindSynonyms, w) then Capitalize(w) else s2;
      assert a == s2 || IsCapitalizedKind(a);
      ResolveShape(w, a);
    }
  }

  /** Normalising a non-empty result again changes nothing. */
  lemma NormalizeKindIdempotent(k: string)
    requires k != "" && NormalizedKind(Some(k)).value != ""
    ensures NormalizedKind(NormalizedKind(Some(k))) == NormalizedKind(Some(k))
  {
    var r := NormalizedKind(Some(k)).value;
    NormalizedKindShape(k);
    if IsCapitalizedKind(r) {
      var i :| 0 <= i < |KindSynonyms| && r == Capitalize(KindSynonyms[i].standard);
      KindSynonymsWellFormed();
      LowerCapitalized(KindSynonyms[i].standard);
      StandardKind(r, i);
    } else {
      var p := BeforeDot(Lower(k));
      assert r == p && Canonical(p) == p;
      BeforeDotSpec(Lower(k));
      LowerSpec(k);
      assert forall i :: 0 <= i < |p| ==> p[i] == Lower(k)[i];
      LowerSpec(p);
      assert Lower(p) == p;
      NoDotBeforeDot(p);
    }
  }

  /** A name that is neither a standard kind nor the short name of any
      row is not in the table. */
  lemma NotInTable(s: string)
    requires forall i :: 0 <= i < |KindSynonyms| ==>
      KindSynonyms[i].standard != s && KindSynonyms[i].synonyms[0] != s
    ensures !IsKey(KindSynonyms, s) && Owner(KindSynonyms, s).None?
  {
    SingleSynonyms();
    OwnerSpec(KindSynonyms, s);
  }

  lemma PodRow()
    ensures KindSynonyms[0].standard == "pod" && KindSynonyms[0].synonyms == ["po"]
    ensures Capitalize("pod") == "Pod"
  {
  }

  lemma ServiceRow()
    ensures KindSynonyms[1].standard == "service" && KindSynonyms[1].synonyms == ["svc"]
    ensures Capitalize("service") == "Service"
  {
  }

  /** A dot-free lower-case name outside the table, whose plural-stripped
      form is outside it too, is the normal form of each of its spellings. */
  lemma OutsideTable(k: string, p: string)
    requires Lower(k) == p && p != "" && '.' !in p
    requires forall i :: 0 <= i < |KindSynonyms| ==>
      KindSynonyms[i].standard != p && KindSynonyms[i].synonyms[0] != p
    requires EndsWith(p, "s") && |p| > 1 ==> forall i :: 0 <= i < |KindSynonyms| ==>
      KindSynonyms[i].standard != p[..|p| - 1] && KindSynonyms[i].synonyms[0] != p[..|p| - 1]
    ensures NormalizedKind(Some(k)) == Some(p)
  {
    NoDotBeforeDot(p);
    NotInTable(p);
    if EndsWith(p, "s") && |p| > 1 {
      NotInTable(p[..|p| - 1]);
    }
  }

  /** `Route` is not in the table and comes back lower-cased. */
  lemma RouteExample()
    ensures NormalizedKind(Some("Route")) == Some("route")
  {
    assert Lower("Route") == "route";
    assert !EndsWith("route", "s");
    OutsideTable("Route", "route");
  }

  /** `Routes` is not reduced: `route` is not in the table. */
  lemma RoutesExample()
    ensures NormalizedKind(Some("Routes")) == Some("routes")
  {
    assert Lower("Routes") == "routes";
    assert "routes"[..5] == "route";
    OutsideTable("Routes", "routes");
  }

  /** `Secret` is not in the table and comes back lower-cased. */
  lemma SecretExample()
    ensures NormalizedKind(Some("Secret")) == Some("secret")
  {
    assert Lower("Secret") == "secret";
    assert !EndsWith("secret", "s");
    OutsideTable("Secret", "secret");
  }

  lemma SvcExample()
    ensures NormalizedKind(Some("svc")) == Some("Service")
  {
    assert Lower("svc") == "svc";
    ServiceRow();
    ShortNameKind("svc", 1, 0);
  }

  lemma ServiceExample()
    ensures NormalizedKind(Some("SERVICE")) == Some("Service")
  {
    assert Lower("SERVICE") == "service";
    ServiceRow();
    StandardKind("SERVICE", 1);
  }

  lemma PodsExample()
    ensures NormalizedKind(Some("pods")) == Some("Pod")
  {
    assert Lower("pods") == "pods";
    PodRow();
    assert "pod" + "s" == "pods";
    NotInTable("pods");
    PluralOfStandard("pods", 0);
  }
}
