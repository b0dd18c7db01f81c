/** `generateSlug`: the heading-anchor normaliser of the file handler, a
    pipeline of six string rewrites. */
module Slug {
  import opened JsText

  /** `\w` without the `u` flag: ASCII letters, digits and underscore. */
  predicate IsWordChar(c: char) {
    ('a' <= c <= 'z') || ('A' <= c <= 'Z') || ('0' <= c <= '9') || c == '_'
  }

  /** The characters `[\w\s-]` keeps. */
  predicate Kept(c: char) {
    IsWordChar(c) || IsSpace(c) || c == '-'
  }

  /** The characters a slug is made of. */
  predicate IsSlugChar(c: char) {
    ('a' <= c <= 'z') || ('0' <= c <= '9') || c == '_' || c == '-'
  }

  predicate HasDoubleHyphen(s: string) {
    !NoDoubleHyphen(s)
  }

  predicate NoDoubleHyphen(s: string) {
    forall i :: 0 <= i < |s| - 1 ==> s[i] != '-' || s[i + 1] != '-'
  }

  /** A well-formed slug: slug characters only, no `-` at either end, no `--`. */
  predicate IsSlug(s: string) {
    && (forall i :: 0 <= i < |s| ==> IsSlugChar(s[i]))
    && (s == [] || (s[0] != '-' && s[|s| - 1] != '-'))
    && !HasDoubleHyphen(s)
  }

  /** `.replace(/[^\w\s-]/g, '')` */
  function RemoveSpecial(s: string): (r: string)
    ensures forall i :: 0 <= i < |r| ==> Kept(r[i]) && r[i] in s
    ensures (forall i :: 0 <= i < |s| ==> Kept(s[i])) ==> r == s
  {
    if s == [] then []
    else (if Kept(s[0]) then [s[0]] else []) + RemoveSpecial(s[1..])
  }

  /** `.replace(/\s+/g, '-')`: every maximal whitespace run becomes one `-`. */
  function SpacesToHyphen(s: string): (r: string)
    ensures forall i :: 0 <= i < |r| ==> !IsSpace(r[i]) && (r[i] == '-' || r[i] in s)
    ensures (forall i :: 0 <= i < |s| ==> !IsSpace(s[i])) ==> r == s
    decreases |s|
  {
    if s == [] then []
    else if IsSpace(s[0]) then
      TrimStartSpec(s[1..]);
      "-" + SpacesToHyphen(TrimStart(s[1..]))
    else [s[0]] + SpacesToHyphen(s[1..])
  }

  /** Drops the leading run of `-`. */
  function DropLeadingHyphens(s: string): (r: string)
    ensures |r| <= |s| && r == s[|s| - |r|..]
    ensures r == [] || r[0] != '-'
    ensures s == [] || s[0] != '-' ==> r == s
  {
    if s != [] && s[0] == '-' then DropLeadingHyphens(s[1..]) else s
  }

  /** Drops the trailing run of `-`. */
  function DropTrailingHyphens(s: string): (r: string)
    ensures |r| <= |s| && r == s[..|r|]
    ensures r == [] || r[|r| - 1] != '-'
    ensures s == [] || s[|s| - 1] != '-' ==> r == s
  {
    if s != [] && s[|s| - 1] == '-' then DropTrailingHyphens(s[..|s| - 1]) else s
  }

  /** `.replace(/-+/g, '-')`: every maximal run of `-` becomes one `-`. */
  function CollapseHyphens(s: string): (r: string)
    ensures !HasDoubleHyphen(r)
    ensures forall i :: 0 <= i < |r| ==> r[i] in s
    ensures s != [] ==> r != [] && r[0] == s[0]
    decreases |s|
  {
    if s == [] then []
    else if s[0] == '-' then
      var t := DropLeadingHyphens(s[1..]);
      var c := CollapseHyphens(t);
      assert forall i :: 0 <= i < |c| ==> c[i] in s[1..];
      ConsNoDoubleHyphen('-', c);
      "-" + c
    else
      var c := CollapseHyphens(s[1..]);
      ConsNoDoubleHyphen(s[0], c);
      [s[0]] + c
  }

  /** Putting a character in front of a string without `--` makes none,
      unless both it and the string's first character are `-`. */
  lemma ConsNoDoubleHyphen(x: char, c: string)
    requires NoDoubleHyphen(c) && (x != '-' || c == [] || c[0] != '-')
    ensures NoDoubleHyphen([x] + c)
  {
    var r := [x] + c;
    forall i | 0 <= i < |r| - 1 ensures r[i] != '-' || r[i + 1] != '-' {
      if i > 0 {
        assert r[i] == c[i - 1] && r[i + 1] == c[i];
      }
    }
  }

  /** Collapsing changes nothing in a string without `--`. */
  lemma {:induction false} CollapseHyphensKeeps(s: string)
    requires NoDoubleHyphen(s)
    ensures CollapseHyphens(s) == s
    decreases |s|
  {
    if s != [] {
      assert NoDoubleHyphen(s[1..]);
      CollapseHyphensKeeps(s[1..]);
      if s[0] == '-' {
        assert DropLeadingHyphens(s[1..]) == s[1..];
      }
    }
  }

  /** `.replace(/^-+|-+$/g, '')` */
  function StripHyphens(s: string): (r: string)
    ensures r == [] || (r[0] != '-' && r[|r| - 1] != '-')
    ensures forall i :: 0 <= i < |r| ==> r[i] in s
    ensures !HasDoubleHyphen(s) ==> !HasDoubleHyphen(r)
    ensures s == [] || (s[0] != '-' && s[|s| - 1] != '-') ==> r == s
  {
    var t := DropLeadingHyphens(s);
    var r := DropTrailingHyphens(t);
    assert forall i :: 0 <= i < |r| ==> r[i] == s[|s| - |t| + i];
    r
  }

  /** `generateSlug(text)`: lower-case, trim, drop everything but word
      characters, whitespace and `-`, turn whitespace runs into `-`, collapse
      `-` runs, strip `-` at both ends. The result is always a well-formed
      slug. */
  function GenerateSlug(text: string): (r: string)
    ensures IsSlug(r)
  {
    var lowered := Lower(text);
    LowerSpec(text);
    var trimmed := Trim(lowered);
    TrimSpec(lowered);
    var kept := RemoveSpecial(trimmed);
    assert forall i :: 0 <= i < |kept| ==> !IsUpperAscii(kept[i]);
    var hyphenated := SpacesToHyphen(kept);
    assert forall i :: 0 <= i < |hyphenated| ==> IsSlugChar(hyphenated[i]);
    var collapsed := CollapseHyphens(hyphenated);
    StripHyphens(collapsed)
  }

  /** Slug characters are lower-case, are not whitespace and survive the
      special-character filter. */
  lemma SlugCharsArePlain(t: string)
    requires forall i :: 0 <= i < |t| ==> IsSlugChar(t[i])
    ensures forall i :: 0 <= i < |t| ==> !IsUpperAscii(t[i])
    ensures forall i :: 0 <= i < |t| ==> !IsSpace(t[i])
    ensures forall i :: 0 <= i < |t| ==> Kept(t[i])
  {
  }

  /** A well-formed slug is its own slug: every stage leaves it alone. */
  lemma SlugOfSlug(t: string)
    requires IsSlug(t)
    ensures GenerateSlug(t) == t
  {
    CaseAndSpaceKeepSlug(t);
    FiltersKeepSlug(t);
    CollapseHyphensKeeps(t);
  }

  /** Lower-casing and trimming leave a well-formed slug alone. */
  lemma CaseAndSpaceKeepSlug(t: string)
    requires IsSlug(t)
    ensures Lower(t) == t && Trim(t) == t
  {
    SlugCharsArePlain(t);
    LowerSpec(t);
    TrimSpec(t);
  }

  /** The character filter, the whitespace rewrite and the edge strip leave
      a well-formed slug alone. */
  lemma FiltersKeepSlug(t: string)
    requires IsSlug(t)
    ensures RemoveSpecial(t) == t && SpacesToHyphen(t) == t && StripHyphens(t) == t
  {
    SlugCharsArePlain(t);
  }

  /** Slug generation is idempotent: slug(slug(t)) == slug(t). */
  lemma SlugIdempotent(text: string)
    ensures GenerateSlug(GenerateSlug(text)) == GenerateSlug(text)
  {
    SlugOfSlug(GenerateSlug(text));
  }
}
