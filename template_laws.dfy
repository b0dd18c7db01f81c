/** Laws of template expansion: what a document built from escaped text,
    references and stray braces expands to. */
module TemplateLaws {
  import opened Wrappers
  import opened JsText
  import opened TemplateParser

  /** The three characters the expander treats specially outside a name. */
  predicate Special(c: char) {
    c == '{' || c == '}' || c == '\\'
  }

  /** Writes `v` so that it expands to itself: a backslash before every
      special character. */
  function Escape(v: string): (r: string)
    ensures |v| <= |r|
  {
    if v == [] then [] else EscapeChar(v[0]) + Escape(v[1..])
  }

  function EscapeChar(c: char): string {
    if Special(c) then ['\\', c] else [c]
  }

  /** The expansion from position `i` depends only on the text from `i` on. */
  lemma {:induction false} OutsideLocal(vars: map<string, string>, s: string, i: nat, t: string, j: nat, held: Held)
    requires i <= |s| && j <= |t| && s[i..] == t[j..]
    ensures Outside(vars, s, i, held) == Outside(vars, t, j, held)
    decreases |s| - i
  {
    if i < |s| {
      assert s[i] == s[i..][0] == t[j..][0] == t[j];
      assert s[i + 1..] == s[i..][1..] == t[j..][1..] == t[j + 1..];
      var d := DeEscape(held, s[i]);
      OutsideLocal(vars, s, i + 1, t, j + 1, d.held);
      InNameLocal(vars, s, i + 1, t, j + 1, "");
    }
  }

  lemma {:induction false} InNameLocal(vars: map<string, string>, s: string, i: nat, t: string, j: nat, name: string)
    requires i <= |s| && j <= |t| && s[i..] == t[j..]
    ensures InName(vars, s, i, name) == InName(vars, t, j, name)
    decreases |s| - i
  {
    if i < |s| {
      assert s[i] == s[i..][0] == t[j..][0] == t[j];
      assert s[i + 1..] == s[i..][1..] == t[j..][1..] == t[j + 1..];
      if s[i] == '|' {
        InDefaultLocal(vars, s, i + 1, t, j + 1, Trim(name), "", Nothing);
      } else if i + 1 < |s| {
        assert s[i + 1] == s[i + 1..][0] == t[j + 1..][0] == t[j + 1];
        assert s[i + 2..] == s[i + 1..][1..] == t[j + 1..][1..] == t[j + 2..];
        OutsideLocal(vars, s, i + 2, t, j + 2, Nothing);
        InNameLocal(vars, s, i + 1, t, j + 1, name + [s[i]]);
      } else {
        InNameLocal(vars, s, i + 1, t, j + 1, name + [s[i]]);
      }
    }
  }

  lemma {:induction false} InDefaultLocal(vars: map<string, string>, s: string, i: nat, t: string, j: nat,
                                          name: string, default: string, held: Held)
    requires i <= |s| && j <= |t| && s[i..] == t[j..]
    ensures InDefault(vars, s, i, name, default, held) == InDefault(vars, t, j, name, default, held)
    decreases |s| - i
  {
    if i < |s| {
      assert s[i] == s[i..][0] == t[j..][0] == t[j];
      assert s[i + 1..] == s[i..][1..] == t[j..][1..] == t[j + 1..];
      var d := DeEscape(held, s[i]);
      OutsideLocal(vars, s, i + 1, t, j + 1, Nothing);
      InDefaultLocal(vars, s, i + 1, t, j + 1, name, default + d.text, d.held);
    }
  }

  /** Expanding the text after a prefix `p` is expanding that text alone;
      likewise in the name and default phases. */
  lemma AfterPrefix(vars: map<string, string>, p: string, rest: string)
    ensures Outside(vars, p + rest, |p|, Nothing) == Expand(vars, rest)
  {
    assert (p + rest)[|p|..] == rest[0..];
    OutsideLocal(vars, p + rest, |p|, rest, 0, Nothing);
  }

  lemma NameAfterPrefix(vars: map<string, string>, p: string, rest: string, name: string)
    ensures InName(vars, p + rest, |p|, name) == InName(vars, rest, 0, name)
  {
    assert (p + rest)[|p|..] == rest[0..];
    InNameLocal(vars, p + rest, |p|, rest, 0, name);
  }

  lemma DefaultAfterPrefix(vars: map<string, string>, p: string, rest: string, name: string, default: string, held: Held)
    ensures InDefault(vars, p + rest, |p|, name, default, held) == InDefault(vars, rest, 0, name, default, held)
  {
    assert (p + rest)[|p|..] == rest[0..];
    InDefaultLocal(vars, p + rest, |p|, rest, 0, name, default, held);
  }

  /** One escaped character outside a reference expands to itself. */
  lemma EscapedCharOutside(vars: map<string, string>, c: char, rest: string)
    ensures Expand(vars, EscapeChar(c) + rest) == [c] + Expand(vars, rest)
  {
    var s := EscapeChar(c) + rest;
    if Special(c) {
      assert s[0] == '\\' && s[1] == c;
      assert Outside(vars, s, 0, Nothing) == Outside(vars, s, 1, Backslash);
    } else {
      assert s[0] == c;
    }
    AfterPrefix(vars, EscapeChar(c), rest);
  }

  /** One escaped character in a default segment is appended to it. */
  lemma EscapedCharDefault(vars: map<string, string>, c: char, rest: string, name: string, default: string)
    ensures InDefault(vars, EscapeChar(c) + rest, 0, name, default, Nothing)
         == InDefault(vars, rest, 0, name, default + [c], Nothing)
  {
    var s := EscapeChar(c) + rest;
    if Special(c) {
      assert s[0] == '\\' && s[1] == c;
      assert default + "" == default;
      assert InDefault(vars, s, 0, name, default, Nothing) == InDefault(vars, s, 1, name, default, Backslash);
      assert InDefault(vars, s, 1, name, default, Backslash) == InDefault(vars, s, 2, name, default + [c], Nothing);
    } else {
      assert s[0] == c;
      assert HeldText(Nothing) + [c] == [c];
      assert InDefault(vars, s, 0, name, default, Nothing) == InDefault(vars, s, 1, name, default + [c], Nothing);
    }
    DefaultAfterPrefix(vars, EscapeChar(c), rest, name, default + [c], Nothing);
  }

  /** Escaped text outside a reference expands to the text itself. */
  lemma {:induction false} EscapedOutside(vars: map<string, string>, v: string, rest: string)
    ensures Expand(vars, Escape(v) + rest) == v + Expand(vars, rest)
    decreases v
  {
    if v == [] {
      assert Escape(v) + rest == rest;
    } else {
      var t := Escape(v[1..]) + rest;
      assert Escape(v) + rest == EscapeChar(v[0]) + t;
      EscapedCharOutside(vars, v[0], t);
      EscapedOutside(vars, v[1..], rest);
      ConcatAssociative([v[0]], v[1..], Expand(vars, rest));
      assert [v[0]] + v[1..] == v;
    }
  }

  /** Escaped text in a default segment is appended to the default as it is. */
  lemma {:induction false} EscapedDefault(vars: map<string, string>, v: string, rest: string,
                                          name: string, default: string)
    ensures InDefault(vars, Escape(v) + rest, 0, name, default, Nothing)
         == InDefault(vars, rest, 0, name, default + v, Nothing)
    decreases v
  {
    if v == [] {
      assert Escape(v) + rest == rest;
      assert default + v == default;
    } else {
      var t := Escape(v[1..]) + rest;
      assert Escape(v) + rest == EscapeChar(v[0]) + t;
      EscapedCharDefault(vars, v[0], t, name, default);
      EscapedDefault(vars, v[1..], rest, name, default + [v[0]]);
      ConcatAssociative(default, [v[0]], v[1..]);
      assert [v[0]] + v[1..] == v;
    }
  }

  /** Every document whose special characters are escaped expands to the
      unescaped document: escaping is a right inverse of expansion. */
  lemma EscapeRoundTrip(vars: map<string, string>, v: string)
    ensures Expand(vars, Escape(v)) == v
  {
    EscapedOutside(vars, v, "");
    assert Escape(v) + "" == Escape(v);
    assert v + "" == v;
  }

  lemma {:induction false} EscapeNoSpecial(v: string)
    requires forall k :: 0 <= k < |v| ==> !Special(v[k])
    ensures Escape(v) == v
    decreases v
  {
    if v != [] {
      EscapeNoSpecial(v[1..]);
    }
  }

  /** Text without `{`, `}` or `\` is returned unchanged. */
  lemma PlainTextUnchanged(vars: map<string, string>, v: string)
    requires forall k :: 0 <= k < |v| ==> !Special(v[k])
    ensures Expand(vars, v) == v
  {
    EscapeNoSpecial(v);
    EscapeRoundTrip(vars, v);
  }

  /** An unescaped `}}` outside a reference is copied verbatim. */
  lemma ClosingBracesCopied(vars: map<string, string>, rest: string)
    ensures Expand(vars, "}}" + rest) == "}}" + Expand(vars, rest)
  {
    var s := "}}" + rest;
    assert s[0] == '}' && s[1] == '}';
    assert Outside(vars, s, 0, Nothing) == Outside(vars, s, 1, CloseBrace);
    assert Outside(vars, s, 1, CloseBrace) == "}}" + Outside(vars, s, 2, Nothing);
    AfterPrefix(vars, "}}", rest);
  }

  /** One character read outside a reference, when it does not open one. */
  lemma OutsideStep(vars: map<string, string>, s: string, i: nat, held: Held)
    requires i < |s| && !(DeEscape(held, s[i]).doubled && DeEscape(held, s[i]).text == "{{")
    ensures Outside(vars, s, i, held) ==
      DeEscape(held, s[i]).text + Outside(vars, s, i + 1, DeEscape(held, s[i]).held)
  {
  }

  /** A brace held back and then followed by a backslash is lost: the
      backslash escapes the next character and the brace is never emitted. */
  lemma BraceBeforeBackslashLost(vars: map<string, string>, b: char, c: char, rest: string)
    requires b == '{' || b == '}'
    ensures Expand(vars, [b, '\\', c] + rest) == [c] + Expand(vars, rest)
  {
    var s := [b, '\\', c] + rest;
    var held := if b == '{' then OpenBrace else CloseBrace;
    assert s[0] == b && s[1] == '\\' && s[2] == c;
    assert DeEscape(Nothing, b) == Step("", false, held);
    OutsideStep(vars, s, 0, Nothing);
    assert DeEscape(held, '\\') == Step("", false, Backslash);
    OutsideStep(vars, s, 1, held);
    OutsideStep(vars, s, 2, Backslash);
    AfterPrefix(vars, [b, '\\', c], rest);
  }

  /** A single `{`, `}` or `\` still held back at the end of the input
      contributes nothing. */
  lemma PendingAtEndDropped(vars: map<string, string>, v: string, c: char)
    requires Special(c)
    ensures Expand(vars, Escape(v) + [c]) == v
  {
    EscapedOutside(vars, v, [c]);
    assert Outside(vars, [c], 0, Nothing) == Outside(vars, [c], 1, DeEscape(Nothing, c).held);
    assert v + "" == v;
  }

  /** Text a name can be made of without the name ending inside it: no `|`,
      and a `}` only when another character other than `}` follows. */
  predicate NameText(n: string) {
    forall k :: 0 <= k < |n| ==> NameCharAt(n, k)
  }

  predicate NameCharAt(n: string, k: nat)
    requires k < |n|
  {
    n[k] != '|' && (n[k] == '}' ==> k + 1 < |n| && n[k + 1] != '}')
  }

  /** Reading such text in the name phase only appends it to the name. */
  lemma {:induction false} ScanName(vars: map<string, string>, n: string, rest: string, name: string)
    requires NameText(n)
    ensures InName(vars, n + rest, 0, name) == InName(vars, rest, 0, name + n)
    decreases n
  {
    if n == [] {
      assert n + rest == rest;
      assert name + n == name;
    } else {
      var s := n + rest;
      assert s[0] == n[0];
      assert NameCharAt(n, 0);
      if n[0] == '}' {
        assert s[1] == n[1];
      }
      assert InName(vars, s, 0, name) == InName(vars, s, 1, name + [n[0]]);
      assert s == [n[0]] + (n[1..] + rest);
      NameAfterPrefix(vars, [n[0]], n[1..] + rest, name + [n[0]]);
      assert NameText(n[1..]) by {
        forall k | 0 <= k < |n[1..]|
          ensures NameCharAt(n[1..], k)
        {
          assert NameCharAt(n, k + 1);
        }
      }
      ScanName(vars, n[1..], rest, name + [n[0]]);
      ConcatAssociative(name, [n[0]], n[1..]);
      assert [n[0]] + n[1..] == n;
    }
  }

  /** `{{` outside a reference starts a name. */
  lemma OpenReference(vars: map<string, string>, rest: string)
    ensures Expand(vars, "{{" + rest) == InName(vars, rest, 0, "")
  {
    var s := "{{" + rest;
    assert s[0] == '{' && s[1] == '{';
    assert Outside(vars, s, 0, Nothing) == Outside(vars, s, 1, OpenBrace);
    NameAfterPrefix(vars, "{{", rest, "");
  }

  /** `{{ name }}` inserts the substitution for the trimmed name. */
  lemma ReferenceResolves(vars: map<string, string>, n: string, rest: string)
    requires NameText(n)
    ensures Expand(vars, "{{" + n + "}}" + rest) == Substitute(vars, Trim(n), None) + Expand(vars, rest)
  {
    var t1 := "}}" + rest;
    var t0 := n + t1;
    assert "{{" + n + "}}" + rest == "{{" + t0;
    OpenReference(vars, t0);
    ScanName(vars, n, t1, "");
    assert "" + n == n;
    assert t1[0] == '}' && t1[1] == '}';
    assert InName(vars, t1, 0, n) == Substitute(vars, Trim(n), None) + Outside(vars, t1, 2, Nothing);
    AfterPrefix(vars, "}}", rest);
  }

  /** `}}` in a default segment ends the reference. */
  lemma CloseDefault(vars: map<string, string>, rest: string, name: string, v: string)
    ensures InDefault(vars, "}}" + rest, 0, name, v, Nothing) == Substitute(vars, name, Some(v)) + Expand(vars, rest)
  {
    var s := "}}" + rest;
    assert s[0] == '}' && s[1] == '}';
    assert v + "" == v;
    assert InDefault(vars, s, 0, name, v, Nothing) == InDefault(vars, s, 1, name, v, CloseBrace);
    AfterPrefix(vars, "}}", rest);
  }

  /** `{{ name | default }}` with the default written escaped inserts the
      substitution for the trimmed name with that default. */
  lemma ReferenceWithDefault(vars: map<string, string>, n: string, v: string, rest: string)
    requires NameText(n)
    ensures Expand(vars, "{{" + n + "|" + Escape(v) + "}}" + rest)
         == Substitute(vars, Trim(n), Some(v)) + Expand(vars, rest)
  {
    var t3 := "}}" + rest;
    var t2 := Escape(v) + t3;
    assert "{{" + n + "|" + Escape(v) + "}}" + rest == "{{" + n + "|" + t2;
    OpenDefault(vars, n, t2);
    EscapedDefault(vars, v, t3, Trim(n), "");
    assert "" + v == v;
    CloseDefault(vars, rest, Trim(n), v);
  }

  /** `{{ name |` opens the default segment of the trimmed name. */
  lemma OpenDefault(vars: map<string, string>, n: string, rest: string)
    requires NameText(n)
    ensures Expand(vars, "{{" + n + "|" + rest) == InDefault(vars, rest, 0, Trim(n), "", Nothing)
  {
    var t1 := "|" + rest;
    var t0 := n + t1;
    assert "{{" + n + "|" + rest == "{{" + t0;
    OpenReference(vars, t0);
    ScanName(vars, n, t1, "");
    assert "" + n == n;
    BarEndsName(vars, rest, n);
    DefaultAfterPrefix(vars, "|", rest, Trim(n), "", Nothing);
  }

  /** A `|` read in the name phase starts the default segment. */
  lemma BarEndsName(vars: map<string, string>, rest: string, name: string)
    ensures InName(vars, "|" + rest, 0, name) == InDefault(vars, "|" + rest, 1, Trim(name), "", Nothing)
  {
    assert ("|" + rest)[0] == '|';
  }

  /** An empty default segment inserts nothing when the name is not
      configured: no marker appears. */
  lemma EmptyDefaultInsertsNothing(vars: map<string, string>, n: string, rest: string)
    requires NameText(n) && Trim(n) !in vars
    ensures Expand(vars, "{{" + n + "|}}" + rest) == Expand(vars, rest)
  {
    ReferenceWithDefault(vars, n, "", rest);
    assert "{{" + n + "|" + Escape("") + "}}" + rest == "{{" + n + "|}}" + rest;
    TrimSpec("");
  }

  /** In the name phase, text with no `|` and no `}}` up to the end of the
      input never closes the reference, and nothing is emitted. */
  lemma {:induction false} UnterminatedName(vars: map<string, string>, s: string, i: nat, name: string)
    requires i <= |s|
    requires forall k :: i <= k < |s| ==> s[k] != '|' && (s[k] == '}' && k + 1 < |s| ==> s[k + 1] != '}')
    ensures InName(vars, s, i, name) == ""
    decreases |s| - i
  {
    if i < |s| {
      UnterminatedName(vars, s, i + 1, name + [s[i]]);
    }
  }

  /** A reference whose name is never closed contributes nothing: only the
      text before it survives. */
  lemma UnterminatedReferenceDropped(vars: map<string, string>, v: string, n: string)
    requires forall k :: 0 <= k < |n| ==> n[k] != '|' && (n[k] == '}' && k + 1 < |n| ==> n[k + 1] != '}')
    ensures Expand(vars, Escape(v) + "{{" + n) == v
  {
    var t := "{{" + n;
    assert Escape(v) + "{{" + n == Escape(v) + t;
    EscapedOutside(vars, v, t);
    assert t[0] == '{' && t[1] == '{';
    assert Outside(vars, t, 0, Nothing) == Outside(vars, t, 1, OpenBrace);
    assert Outside(vars, t, 1, OpenBrace) == InName(vars, t, 2, "");
    assert forall k :: 2 <= k < |t| ==> t[k] == n[k - 2];
    UnterminatedName(vars, t, 2, "");
    assert v + "" == v;
  }

  /** A reference left open in its default segment contributes nothing
      either: the default is never inserted, and only the text before the
      reference survives. */
  lemma UnterminatedDefaultDropped(vars: map<string, string>, v: string, n: string, w: string)
    requires NameText(n)
    ensures Expand(vars, Escape(v) + "{{" + n + "|" + Escape(w)) == v
  {
    var t := "{{" + n + "|" + Escape(w);
    assert Escape(v) + "{{" + n + "|" + Escape(w) == Escape(v) + t;
    EscapedOutside(vars, v, t);
    assert "{{" + n + "|" + (Escape(w) + "") == t;
    OpenDefault(vars, n, Escape(w) + "");
    EscapedDefault(vars, w, "", Trim(n), "");
    assert v + "" == v;
  }

  /** A single brace followed by an ordinary character is emitted with it. */
  lemma LoneBraceEmitted(vars: map<string, string>, b: char, c: char, rest: string)
    requires (b == '{' || b == '}') && !Special(c)
    ensures Expand(vars, [b, c] + rest) == [b, c] + Expand(vars, rest)
  {
    var s := [b, c] + rest;
    var held := if b == '{' then OpenBrace else CloseBrace;
    assert s[0] == b && s[1] == c;
    assert DeEscape(Nothing, b) == Step("", false, held);
    OutsideStep(vars, s, 0, Nothing);
    assert DeEscape(held, c) == Step([b, c], false, Nothing);
    OutsideStep(vars, s, 1, held);
    AfterPrefix(vars, [b, c], rest);
  }

  /** An escaped brace pair around plain text, `\{{ x \}}`: the opening pair
      is emitted, and of the closing pair only the escaped brace, since the
      last `}` is still held back when the input ends. */
  lemma EscapedReferenceText(vars: map<string, string>, x: string)
    requires x != [] && forall k :: 0 <= k < |x| ==> !Special(x[k])
    ensures Expand(vars, "\\{{" + x + "\\}}") == "{{" + x + "}"
  {
    var xs := x[1..];
    EscapeNoSpecial(xs);
    var t3 := EscapeChar('}') + "}";
    var t2 := Escape(xs) + t3;
    var t1 := ['{', x[0]] + t2;
    assert "\\{{" + x + "\\}}" == EscapeChar('{') + t1;
    EscapedCharOutside(vars, '{', t1);
    LoneBraceEmitted(vars, '{', x[0], t2);
    EscapedOutside(vars, xs, t3);
    EscapedCharOutside(vars, '}', "}");
    PendingAtEndDropped(vars, "", '}');
    assert Escape("") + ['}'] == "}";
    var e3 := Expand(vars, t3);
    assert e3 == "}";
    var e2 := Expand(vars, t2);
    assert e2 == xs + "}";
    assert Expand(vars, t1) == ['{', x[0]] + (xs + "}");
    assert "{" + (['{', x[0]] + (xs + "}")) == "{{" + x + "}";
  }
}
