/** The POSIX path operations the file handler relies on: `normalize`,
    `join`, `extname` and `basename`, on a segment model of paths. */
module PosixPath {
  import opened JsText

  const Separator := '/'

  /** `p.split('/')`: the pieces between separators, empty ones included. */
  function Split(p: string): (r: seq<string>)
    ensures |r| >= 1
  {
    if p == [] then [""]
    else
      var rest := Split(p[1..]);
      if p[0] == Separator then [""] + rest
      else [[p[0]] + rest[0]] + rest[1..]
  }

  /** `segs.join('/')`. */
  function JoinSegments(segs: seq<string>): string {
    if segs == [] then ""
    else if |segs| == 1 then segs[0]
    else segs[0] + [Separator] + JoinSegments(segs[1..])
  }

  /** Splitting undoes joining, for segments free of separators. */
  lemma {:induction false} SplitJoin(segs: seq<string>)
    requires |segs| >= 1
    requires forall k :: 0 <= k < |segs| ==> Separator !in segs[k]
    ensures Split(JoinSegments(segs)) == segs
    decreases |segs|
  {
    if |segs| == 1 {
      SplitSegment(segs[0]);
    } else {
      SplitJoin(segs[1..]);
      SplitAfterSegment(segs[0], JoinSegments(segs[1..]));
    }
  }

  lemma {:induction false} SplitSegment(s: string)
    requires Separator !in s
    ensures Split(s) == [s]
    decreases |s|
  {
    if s != [] {
      assert s[0] in s && s == [s[0]] + s[1..];
      SplitSegment(s[1..]);
    }
  }

  /** Splitting `s + "/" + t`, where `s` holds no separator. */
  lemma {:induction false} SplitAfterSegment(s: string, t: string)
    requires Separator !in s
    ensures Split(s + [Separator] + t) == [s] + Split(t)
    decreases |s|
  {
    if s == [] {
      assert s + [Separator] + t == [Separator] + t;
      assert ([Separator] + t)[1..] == t;
    } else {
      var u := s + [Separator] + t;
      assert s[0] in s && u[0] == s[0];
      assert u[1..] == s[1..] + [Separator] + t;
      SplitAfterSegment(s[1..], t);
      assert [s[0]] + s[1..] == s;
    }
  }

  /** A segment that survives normalisation: not empty, not `.`. */
  predicate Proper(seg: string) {
    seg != "" && seg != "." && Separator !in seg
  }

  /** Node's `normalizeString`: segments are read left to right; empty and
      `.` segments vanish, `..` removes the segment before it unless that is
      itself `..`, and with nothing to remove is kept on a relative path and
      dropped on an absolute one. */
  function ResolveSegments(stack: seq<string>, segs: seq<string>, absolute: bool): seq<string>
    decreases |segs|
  {
    if segs == [] then stack
    else
      var seg := segs[0];
      if seg == "" || seg == "." then ResolveSegments(stack, segs[1..], absolute)
      else if seg == ".." then
        if stack != [] && stack[|stack| - 1] != ".." then ResolveSegments(stack[..|stack| - 1], segs[1..], absolute)
        else if absolute then ResolveSegments(stack, segs[1..], absolute)
        else ResolveSegments(stack + [seg], segs[1..], absolute)
      else ResolveSegments(stack + [seg], segs[1..], absolute)
  }

  /** `p.split('/')` yields no piece holding a separator. */
  lemma {:induction false} SplitNoSeparator(p: string)
    ensures forall k :: 0 <= k < |Split(p)| ==> Separator !in Split(p)[k]
    decreases |p|
  {
    if p != [] {
      SplitNoSeparator(p[1..]);
    }
  }

  /** Every segment is a proper name, and on an absolute path none is `..`. */
  predicate AllProper(segs: seq<string>, absolute: bool) {
    forall k :: 0 <= k < |segs| ==> Proper(segs[k]) && (absolute ==> segs[k] != "..")
  }

  /** What normalisation keeps: no empty and no `.` segment, and on an
      absolute path no `..` either, so it never climbs above the root. */
  lemma {:induction false} ResolveSegmentsProper(stack: seq<string>, segs: seq<string>, absolute: bool)
    requires AllProper(stack, absolute)
    requires forall k :: 0 <= k < |segs| ==> Separator !in segs[k]
    ensures AllProper(ResolveSegments(stack, segs, absolute), absolute)
    decreases |segs|
  {
    if segs != [] {
      var seg := segs[0];
      var rest := segs[1..];
      assert forall k :: 0 <= k < |rest| ==> Separator !in rest[k] by {
        forall k | 0 <= k < |rest| ensures Separator !in rest[k] {
          assert rest[k] == segs[k + 1];
        }
      }
      if seg == "" || seg == "." {
        ResolveSegmentsProper(stack, rest, absolute);
      } else if seg == ".." {
        if stack != [] && stack[|stack| - 1] != ".." {
          ResolveSegmentsProper(stack[..|stack| - 1], rest, absolute);
        } else if absolute {
          ResolveSegmentsProper(stack, rest, absolute);
        } else {
          ResolveSegmentsProper(stack + [seg], rest, absolute);
        }
      } else {
        ResolveSegmentsProper(stack + [seg], rest, absolute);
      }
    }
  }

  /** The segments of a normalised absolute path are all proper names. */
  lemma NormalizedAbsoluteSegments(p: string)
    requires p != [] && p[0] == Separator
    ensures AllProper(ResolveSegments([], Split(p), true), true)
  {
    SplitNoSeparator(p);
    ResolveSegmentsProper([], Split(p), true);
  }

  /** `path.normalize(p)`: an empty path is `.`; a leading `/` and a trailing
      `/` are kept; the segments in between are resolved. */
  function Normalize(p: string): (r: string)
    ensures r != ""
  {
    if p == [] then "."
    else
      var absolute := p[0] == Separator;
      var trailing := p[|p| - 1] == Separator;
      var body := JoinSegments(ResolveSegments([], Split(p), absolute));
      if body == [] then (if absolute then "/" else if trailing then "./" else ".")
      else (if absolute then "/" else "") + body + (if trailing then "/" else "")
  }

  /** Proper names other than `..` are all pushed, in order. */
  lemma {:induction false} ResolvePushesAll(stack: seq<string>, segs: seq<string>, absolute: bool)
    requires forall k :: 0 <= k < |segs| ==> Proper(segs[k]) && segs[k] != ".."
    ensures ResolveSegments(stack, segs, absolute) == stack + segs
    decreases |segs|
  {
    if segs != [] {
      var rest := segs[1..];
      assert forall k :: 0 <= k < |rest| ==> Proper(rest[k]) && rest[k] != ".." by {
        forall k | 0 <= k < |rest| ensures Proper(rest[k]) && rest[k] != ".." {
          assert rest[k] == segs[k + 1];
        }
      }
      assert Proper(segs[0]) && segs[0] != "..";
      ResolvePushesAll(stack + [segs[0]], rest, absolute);
      assert stack + [segs[0]] + rest == stack + segs;
    }
  }

  /** A joined path ends with the last character of its last segment. */
  lemma JoinSegmentsLast(segs: seq<string>)
    requires |segs| >= 1 && segs[|segs| - 1] != []
    ensures var j := JoinSegments(segs); var last := segs[|segs| - 1];
      j != [] && j[|j| - 1] == last[|last| - 1]
  {
    var last := segs[|segs| - 1];
    JoinSegmentsAppend(segs[..|segs| - 1], last);
    assert segs[..|segs| - 1] + [last] == segs;
  }

  /** The pieces of `"/" + segs.join("/")` are an empty one and `segs`. */
  lemma SplitAbsolute(segs: seq<string>)
    requires |segs| >= 1
    requires forall k :: 0 <= k < |segs| ==> Separator !in segs[k]
    ensures Split([Separator] + JoinSegments(segs)) == [""] + segs
  {
    var all := [""] + segs;
    assert all[1..] == segs;
    assert JoinSegments(all) == [Separator] + JoinSegments(segs);
    assert forall k :: 0 <= k < |all| ==> Separator !in all[k] by {
      forall k | 0 <= k < |all| ensures Separator !in all[k] {
        if k > 0 {
          assert all[k] == segs[k - 1];
        }
      }
    }
    SplitJoin(all);
  }

  lemma LastOfPrefixed(s: string)
    requires s != []
    ensures var p := [Separator] + s; p[0] == Separator && p[|p| - 1] == s[|s| - 1]
  {
  }

  /** The segments of such a path resolve to themselves. */
  lemma ResolveNormalSegments(segs: seq<string>)
    requires |segs| >= 1
    requires forall k :: 0 <= k < |segs| ==> Proper(segs[k]) && segs[k] != ".."
    ensures ResolveSegments([], Split([Separator] + JoinSegments(segs)), true) == segs
  {
    SplitAbsolute(segs);
    ResolvePushesAll([], segs, true);
    assert ResolveSegments([], [""] + segs, true) == ResolveSegments([], segs, true) by {
      assert ([""] + segs)[1..] == segs;
    }
    assert [] + segs == segs;
  }

  /** An absolute path made of proper names other than `..`, with no
      trailing separator, is already normal. */
  lemma NormalizeOfNormal(segs: seq<string>)
    requires |segs| >= 1
    requires forall k :: 0 <= k < |segs| ==> Proper(segs[k]) && segs[k] != ".."
    ensures Normalize([Separator] + JoinSegments(segs)) == [Separator] + JoinSegments(segs)
  {
    var body := JoinSegments(segs);
    var p := [Separator] + body;
    var last := segs[|segs| - 1];
    assert Proper(last) && last[|last| - 1] in last;
    JoinSegmentsLast(segs);
    LastOfPrefixed(body);
    ResolveNormalSegments(segs);
    assert Normalize(p) == "/" + body + "";
  }

  /** `path.join(a, b)`: the non-empty arguments joined with `/`, then
      normalised; `.` when both are empty. */
  function Join(a: string, b: string): (r: string)
    ensures r != ""
  {
    if a == [] && b == [] then "."
    else if a == [] then Normalize(b)
    else if b == [] then Normalize(a)
    else Normalize(a + [Separator] + b)
  }

  /** `p` with its trailing separators removed. */
  function TrimTrailingSeparators(p: string): string {
    if p != [] && p[|p| - 1] == Separator then TrimTrailingSeparators(p[..|p| - 1]) else p
  }

  /** The last segment of `p`, trailing separators ignored. */
  function LastSegment(p: string): string {
    var segs := Split(TrimTrailingSeparators(p));
    segs[|segs| - 1]
  }

  /** Index of the last `.` in `s`, or -1. */
  function LastDot(s: string): (r: int)
    ensures -1 <= r < |s|
  {
    if s == [] then -1
    else if s[|s| - 1] == '.' then |s| - 1
    else LastDot(s[..|s| - 1])
  }

  /** `LastDot` finds the last `.`, and -1 only when there is none. */
  lemma {:induction false} LastDotSpec(s: string)
    ensures var r := LastDot(s);
      && (r >= 0 ==> s[r] == '.')
      && (forall k :: r < k < |s| ==> s[k] != '.')
    decreases |s|
  {
    if s != [] && s[|s| - 1] != '.' {
      LastDotSpec(s[..|s| - 1]);
    }
  }

  /** `path.extname(p)`: from the last `.` of the last segment on, except
      that a segment without a dot, one whose only leading dot is its last
      dot (`.bashrc`), and `..` have none. */
  function Extname(p: string): string {
    var b := LastSegment(p);
    var d := LastDot(b);
    if d <= 0 || b == ".." then "" else b[d..]
  }

  /** An extension is empty or starts with the last dot of the last segment. */
  lemma ExtnameSpec(p: string)
    ensures var r := Extname(p);
      && (r == [] || r[0] == '.')
      && (forall k :: 1 <= k < |r| ==> r[k] != '.')
  {
    LastDotSpec(LastSegment(p));
  }

  /** Splitting `a + "/" + name`, where `name` holds no separator. */
  lemma {:induction false} SplitBeforeSegment(a: string, name: string)
    requires Separator !in name
    ensures Split(a + [Separator] + name) == Split(a) + [name]
    decreases |a|
  {
    var u := a + [Separator] + name;
    if a == [] {
      assert u == [Separator] + name && u[1..] == name;
      SplitSegment(name);
    } else {
      assert u[0] == a[0] && u[1..] == a[1..] + [Separator] + name;
      SplitBeforeSegment(a[1..], name);
    }
  }

  /** A proper segment other than `..` at the end is pushed last. */
  lemma {:induction false} ResolveAppend(stack: seq<string>, segs: seq<string>, seg: string, absolute: bool)
    requires seg != "" && seg != "." && seg != ".."
    ensures ResolveSegments(stack, segs + [seg], absolute) == ResolveSegments(stack, segs, absolute) + [seg]
    decreases |segs|
  {
    var all := segs + [seg];
    if segs == [] {
      assert all == [seg];
      assert ResolveSegments(stack, all, absolute) == ResolveSegments(stack + [seg], [], absolute);
    } else {
      assert all[0] == segs[0] && all[1..] == segs[1..] + [seg];
      var h := segs[0];
      if h == "" || h == "." {
        ResolveAppend(stack, segs[1..], seg, absolute);
      } else if h == ".." {
        if stack != [] && stack[|stack| - 1] != ".." {
          ResolveAppend(stack[..|stack| - 1], segs[1..], seg, absolute);
        } else if absolute {
          ResolveAppend(stack, segs[1..], seg, absolute);
        } else {
          ResolveAppend(stack + [h], segs[1..], seg, absolute);
        }
      } else {
        ResolveAppend(stack + [h], segs[1..], seg, absolute);
      }
    }
  }

  lemma {:induction false} JoinSegmentsAppend(xs: seq<string>, seg: string)
    ensures JoinSegments(xs + [seg]) == if xs == [] then seg else JoinSegments(xs) + [Separator] + seg
    decreases |xs|
  {
    if |xs| >= 2 {
      assert (xs + [seg])[1..] == xs[1..] + [seg];
      JoinSegmentsAppend(xs[1..], seg);
    } else if |xs| == 1 {
      assert (xs + [seg])[1..] == [seg];
    }
  }

  /** The last piece of `d + "/" + name` is `name`. */
  lemma SplitLastSegment(d: string, name: string)
    requires Separator !in name
    ensures var segs := Split(d + [Separator] + name); segs[|segs| - 1] == name
  {
    SplitBeforeSegment(d, name);
  }

  /** The normalised directory part of `path.join(a, name)`: empty, or
      ending with a separator. */
  function DirPart(a: string): (r: string)
    requires a != []
    ensures r == [] || r[|r| - 1] == Separator
  {
    var absolute := a[0] == Separator;
    var r0 := ResolveSegments([], Split(a), absolute);
    var lead := if absolute then "/" else "";
    if r0 == [] then lead else lead + JoinSegments(r0) + [Separator]
  }

  /** Joining a proper name appends it to the resolved segments of `a`. */
  lemma JoinBody(a: string, name: string)
    requires a != [] && Proper(name) && name != ".."
    ensures var absolute := a[0] == Separator;
      Join(a, name) == (if absolute then "/" else "")
        + JoinSegments(ResolveSegments([], Split(a), absolute) + [name])
  {
    var raw := a + [Separator] + name;
    assert raw[0] == a[0] && raw[|raw| - 1] == name[|name| - 1];
    assert name[|name| - 1] in name;
    var absolute := a[0] == Separator;
    SplitBeforeSegment(a, name);
    var r0 := ResolveSegments([], Split(a), absolute);
    ResolveAppend([], Split(a), name, absolute);
    JoinSegmentsAppend(r0, name);
  }

  lemma LeadJoin(lead: string, r0: seq<string>, name: string)
    ensures lead + JoinSegments(r0 + [name])
         == (if r0 == [] then lead else lead + JoinSegments(r0) + [Separator]) + name
  {
    JoinSegmentsAppend(r0, name);
  }

  lemma JoinShape(a: string, name: string)
    requires a != [] && Proper(name) && name != ".."
    ensures Join(a, name) == DirPart(a) + name
  {
    var absolute := a[0] == Separator;
    JoinBody(a, name);
    LeadJoin(if absolute then "/" else "", ResolveSegments([], Split(a), absolute), name);
  }

  lemma LastSegmentAfterDir(q: string, name: string)
    requires name != [] && Separator !in name
    requires q == [] || q[|q| - 1] == Separator
    ensures LastSegment(q + name) == name
  {
    var p := q + name;
    assert name[|name| - 1] in name;
    assert p[|p| - 1] == name[|name| - 1];
    assert TrimTrailingSeparators(p) == p;
    if q == [] {
      assert p == name;
      SplitSegment(name);
    } else {
      var d := q[..|q| - 1];
      assert p == d + [Separator] + name;
      SplitLastSegment(d, name);
    }
  }

  /** Joining a proper name onto a non-empty directory keeps that name as
      the last segment. */
  lemma LastSegmentOfJoin(a: string, name: string)
    requires a != [] && Proper(name) && name != ".."
    ensures LastSegment(Join(a, name)) == name
  {
    JoinShape(a, name);
    LastSegmentAfterDir(DirPart(a), name);
  }

  /** The extension of a path whose last segment is a stem and an
      extension with one dot. */
  lemma ExtnameOfLastSegment(p: string, stem: string, ext: string)
    requires LastSegment(p) == stem + ext && stem != []
    requires |ext| >= 1 && ext[0] == '.'
    requires forall k :: 1 <= k < |ext| ==> ext[k] != '.'
    requires ext != "." || stem != "."
    ensures Extname(p) == ext
  {
    var name := stem + ext;
    LastDotOfName(stem, ext);
    assert name != ".." by {
      if |name| == 2 {
        assert stem == name[..1] && ext == name[1..];
      }
    }
    assert name[|stem|..] == ext;
  }

  lemma LastDotOfName(stem: string, ext: string)
    requires stem != [] && |ext| >= 1 && ext[0] == '.'
    requires forall k :: 1 <= k < |ext| ==> ext[k] != '.'
    ensures LastDot(stem + ext) == |stem|
  {
    var s := stem + ext;
    LastDotSpec(s);
    assert s[|stem|] == '.';
    assert forall k :: |stem| < k < |s| ==> s[k] != '.' by {
      forall k | |stem| < k < |s| ensures s[k] != '.' {
        assert s[k] == ext[k - |stem|];
      }
    }
  }

  /** `path.basename(p, ext)`: the last segment, without `ext` when it ends
      with it and is longer than it. */
  function Basename(p: string, ext: string): string {
    var b := LastSegment(p);
    if ext != [] && |b| > |ext| && EndsWith(b, ext) then b[..|b| - |ext|] else b
  }
}
