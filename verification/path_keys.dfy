/** The OpenAPI generator writes route pathnames such as `/users/:id` as path
    templates `/users/{id}`: every `:` directly after a `/` starts a parameter
    that runs to the next `/`, and the parameter becomes `{name}`
    (`packages/openapi-generator/scripts/generate.ts`, the regular expression
    `(?<=\/):([^/]*)` replaced globally). The rewrite is modelled as the
    left-to-right scan the regular expression engine performs, and the lemmas
    describe it segment by segment. */
module PathKeys {
  import opened Text
  import opened Objects

  const Slash: string := "/"

  /** Index of the first `/` in `s`, or |s|. */
  function SegmentEnd(s: string): (n: nat)
    ensures n <= |s|
    ensures forall j | 0 <= j < n :: s[j] != '/'
    ensures n < |s| ==> s[n] == '/'
  {
    var n := IndexOf(s, Slash);
    assert forall j | 0 <= j < n :: s[j] != '/' by {
      forall j | 0 <= j < n ensures s[j] != '/' {
        OccursAtChar(s, '/', j);
      }
    }
    assert n < |s| ==> s[n] == '/' by {
      if n < |s| {
        OccursAtChar(s, '/', n);
      }
    }
    n
  }

  /** The global replacement, scanning `s`; `afterSlash` says whether the
      character before `s` is a `/` (the look-behind). A match `:` followed by
      everything up to the next `/` becomes `{` that text `}`; the scan goes on
      after the match. */
  function Scan(s: string, afterSlash: bool): string
    decreases |s|
  {
    if s == [] then ""
    else if afterSlash && s[0] == ':' then
      var n := SegmentEnd(s);
      "{" + s[1..n] + "}" + Scan(s[n..], false)
    else [s[0]] + Scan(s[1..], s[0] == '/')
  }

  /** `path.replaceAll(/(?<=\/):([^/]*)/gm, (_, group) => `{${group}}`)`. */
  function Rewrite(path: string): string {
    Scan(path, false)
  }

  /** One segment that follows a `/`: `:name` becomes `{name}`. */
  function Param(segment: string): string {
    if |segment| > 0 && segment[0] == ':' then "{" + segment[1..] + "}" else segment
  }

  /** Each segment rewritten, except the first when nothing precedes it. */
  function Params(segments: seq<string>, afterSlash: bool): (r: seq<string>)
    ensures |r| == |segments|
    ensures forall k | 0 <= k < |r| :: r[k] == if k == 0 && !afterSlash then segments[k] else Param(segments[k])
  {
    seq(|segments|, k requires 0 <= k < |segments| =>
      if k == 0 && !afterSlash then segments[k] else Param(segments[k]))
  }

  /** Prefixing the first part prefixes the join. */
  lemma JoinPrefix(p: string, parts: seq<string>, sep: string)
    requires |parts| >= 1
    ensures Join([p + parts[0]] + parts[1..], sep) == p + Join(parts, sep)
  {
    if |parts| > 1 {
      JoinCons(p + parts[0], parts[1..], sep);
      JoinCons(parts[0], parts[1..], sep);
      assert parts == [parts[0]] + parts[1..];
    }
  }

  /** A first character other than `/` only shifts the first `/`. */
  lemma IndexOfConsOther(c: char, t: string)
    requires c != '/'
    ensures IndexOf([c] + t, Slash) == 1 + IndexOf(t, Slash)
  {
    var s := [c] + t;
    assert s[..1] == [c];
    assert s[1..] == t;
  }

  /** Splitting a string that starts with a character other than `/`: that
      character joins the first segment. */
  lemma SplitConsChar(c: char, t: string)
    requires c != '/'
    ensures Split([c] + t, Slash) == [[c] + Split(t, Slash)[0]] + Split(t, Slash)[1..]
  {
    var s := [c] + t;
    var i := IndexOf(t, Slash);
    IndexOfConsOther(c, t);
    SplitStep(s, Slash);
    SplitStep(t, Slash);
    if i < |t| {
      assert s[..i + 1] == [c] + t[..i];
      assert s[i + 2..] == t[i + 1..];
    }
  }

  /** Splitting a string that starts with `/`: an empty first segment. */
  lemma SplitConsSlash(t: string)
    ensures Split(Slash + t, Slash) == [""] + Split(t, Slash)
  {
    IndexOfChar("", '/', t);
    assert (Slash + t)[1..] == t;
  }

  /** Splitting at the first `/` of a string that has one. */
  lemma SplitAt(s: string, n: nat)
    requires n < |s| && n == SegmentEnd(s)
    ensures Split(s, Slash) == [s[..n]] + Split(s[n + 1..], Slash)
  {
    SplitStep(s, Slash);
  }

  /** The scan of `s` agrees with its segments. */
  predicate ScanMatches(s: string, afterSlash: bool) {
    Scan(s, afterSlash) == Join(Params(Split(s, Slash), afterSlash), Slash)
  }

  /** Rewriting segments one at a time: the first, then the rest, which all
      follow a `/`. */
  lemma ParamsCons(segment: string, segments: seq<string>, afterSlash: bool)
    ensures Params([segment] + segments, afterSlash)
      == [if afterSlash then Param(segment) else segment] + Params(segments, true)
  {
    var l, r := Params([segment] + segments, afterSlash), [if afterSlash then Param(segment) else segment] + Params(segments, true);
    forall k | 0 <= k < |l| ensures l[k] == r[k] {
      if k > 0 {
        assert ([segment] + segments)[k] == segments[k - 1];
      }
    }
  }

  lemma ScanParam(s: string, n: nat)
    requires s != [] && s[0] == ':' && n == SegmentEnd(s) && n < |s|
    requires ScanMatches(s[n + 1..], true)
    ensures ScanMatches(s, true)
  {
    var head, rest := s[..n], s[n + 1..];
    var tail := Params(Split(rest, Slash), true);
    assert Scan(s, true) == "{" + s[1..n] + "}" + Scan(s[n..], false);
    assert s[n..][0] == '/' && s[n..][1..] == rest;
    assert Scan(s[n..], false) == Slash + Scan(rest, true);
    assert head[0] == ':' && head[1..] == s[1..n];
    assert Param(head) == "{" + s[1..n] + "}";
    SplitAt(s, n);
    ParamsCons(head, Split(rest, Slash), true);
    JoinCons(Param(head), tail, Slash);
  }

  lemma ScanLastParam(s: string)
    requires s != [] && s[0] == ':' && SegmentEnd(s) == |s|
    ensures ScanMatches(s, true)
  {
    IndexOfAbsentChar(s, '/');
    assert s[|s|..] == [];
  }

  lemma ScanSlash(s: string, afterSlash: bool)
    requires s != [] && s[0] == '/'
    requires ScanMatches(s[1..], true)
    ensures ScanMatches(s, afterSlash)
  {
    var t := s[1..];
    assert s == Slash + t;
    SplitConsSlash(t);
    var tail := Params(Split(t, Slash), true);
    assert Params(Split(s, Slash), afterSlash) == [""] + tail;
    JoinCons("", tail, Slash);
  }

  lemma ScanOther(s: string, afterSlash: bool)
    requires s != [] && s[0] != '/' && !(afterSlash && s[0] == ':')
    requires ScanMatches(s[1..], false)
    ensures ScanMatches(s, afterSlash)
  {
    var c, t := s[0], s[1..];
    assert s == [c] + t;
    SplitConsChar(c, t);
    var ps := Params(Split(t, Slash), false);
    assert Params(Split(s, Slash), afterSlash) == [[c] + ps[0]] + ps[1..];
    JoinPrefix([c], ps, Slash);
  }

  /** The scan rewrites the `/`-separated segments one by one: the result is
      the join of the rewritten segments. */
  lemma {:induction false} ScanSegments(s: string, afterSlash: bool)
    ensures Scan(s, afterSlash) == Join(Params(Split(s, Slash), afterSlash), Slash)
    decreases |s|
  {
    if s == [] {
      IndexOfAbsentChar(s, '/');
    } else if afterSlash && s[0] == ':' {
      var n := SegmentEnd(s);
      if n == |s| {
        ScanLastParam(s);
      } else {
        ScanSegments(s[n + 1..], true);
        ScanParam(s, n);
      }
    } else if s[0] == '/' {
      ScanSegments(s[1..], true);
      ScanSlash(s, afterSlash);
    } else {
      ScanSegments(s[1..], false);
      ScanOther(s, afterSlash);
    }
  }

  /** The rewrite keeps every `/` where it was and rewrites each segment on its
      own: the segments of the result are the segments of the path, every one
      after the first with `:name` turned into `{name}`. */
  lemma RewriteSegments(path: string)
    ensures Split(Rewrite(path), Slash) == Params(Split(path, Slash), false)
    ensures Rewrite(path) == Join(Params(Split(path, Slash), false), Slash)
  {
    ScanSegments(path, false);
    var segs := Split(path, Slash);
    var ps := Params(segs, false);
    SplitPiecesFree(path, Slash);
    forall k | 0 <= k < |ps| ensures '/' !in ps[k] {
      ContainsChar(segs[k], '/');
      assert '/' !in segs[k];
      assert forall j | 0 <= j < |segs[k]| :: segs[k][j] != '/';
      if k > 0 && |segs[k]| > 0 && segs[k][0] == ':' {
        assert forall j | 0 <= j < |segs[k][1..]| :: segs[k][1..][j] == segs[k][j + 1];
      }
    }
    JoinSplitChar(ps, '/');
  }

  /** The template of a pathname with a parameter. */
  lemma RewriteExample()
    ensures Rewrite("/:id") == "/{id}"
  {
    assert SegmentEnd(":id") == 3;
    assert Scan(":id", true) == "{id}";
  }

  /** The rewrite keeps the number of segments. */
  lemma RewriteKeepsSegmentCount(path: string)
    ensures |Split(Rewrite(path), Slash)| == |Split(path, Slash)|
  {
    RewriteSegments(path);
  }

  /** Rewriting twice is rewriting once: a rewritten segment starts with `{`. */
  lemma RewriteIdempotent(path: string)
    ensures Rewrite(Rewrite(path)) == Rewrite(path)
  {
    var once := Rewrite(path);
    RewriteSegments(path);
    RewriteSegments(once);
    var ps := Params(Split(path, Slash), false);
    assert Params(ps, false) == ps;
  }

  /** No segment after the first starts with `:`. */
  predicate NoParams(segments: seq<string>) {
    forall k | 0 < k < |segments| :: !StartsWith(segments[k], ":")
  }

  /** Rewriting the segments changes none of them exactly when none is a
      parameter. */
  lemma ParamsFixed(segments: seq<string>)
    ensures Params(segments, false) == segments <==> NoParams(segments)
  {
    var ps := Params(segments, false);
    if ps == segments {
      forall k | 0 < k < |segments| ensures !StartsWith(segments[k], ":") {
        assert ps[k] == segments[k];
      }
    }
    if NoParams(segments) {
      forall k | 0 <= k < |segments| ensures ps[k] == segments[k] {
        if k > 0 {
          assert !StartsWith(segments[k], ":");
        }
      }
    }
  }

  /** A path is left as it is exactly when no segment after the first starts
      with `:`, that is when `/:` does not occur in it. */
  lemma RewriteUnchanged(path: string)
    ensures Rewrite(path) == path <==> NoParams(Split(path, Slash))
  {
    var segs := Split(path, Slash);
    RewriteSegments(path);
    SplitJoin(path, Slash);
    ParamsFixed(segs);
  }

  /** `Object.fromEntries(Object.entries(paths).map(([path, value]) =>
      [rewrite(path), value]))`. */
  function RewriteKeys<V>(paths: Dict<V>): (r: Dict<V>)
    requires WellFormed(paths)
    ensures WellFormed(r)
  {
    FromEntries(Renamed(paths))
  }

  /** The entries `Object.fromEntries` receives. */
  function Renamed<V>(paths: Dict<V>): (es: seq<(string, V)>)
    requires WellFormed(paths)
    ensures |es| == |paths.keys|
    ensures forall i | 0 <= i < |es| :: es[i] == (Rewrite(paths.keys[i]), paths.entries[paths.keys[i]])
  {
    seq(|paths.keys|, i requires 0 <= i < |paths.keys| =>
      (Rewrite(paths.keys[i]), paths.entries[paths.keys[i]]))
  }

  /** The rewritten object has exactly the rewritten keys. */
  lemma RewriteKeysDomain<V>(paths: Dict<V>)
    requires WellFormed(paths)
    ensures forall t :: t in RewriteKeys(paths).entries <==>
      exists i | 0 <= i < |paths.keys| :: Rewrite(paths.keys[i]) == t
  {
    var es := Renamed(paths);
    assert RewriteKeys(paths) == FromEntries(es);
    FromEntriesKeys(es);
    forall i | 0 <= i < |paths.keys| ensures Rewrite(paths.keys[i]) in RewriteKeys(paths).entries {
      assert es[i].0 == Rewrite(paths.keys[i]);
    }
    forall t | t in RewriteKeys(paths).entries
      ensures exists i | 0 <= i < |paths.keys| :: Rewrite(paths.keys[i]) == t
    {
      var i :| 0 <= i < |es| && es[i].0 == t;
      assert Rewrite(paths.keys[i]) == t;
    }
  }

  /** A path keeps its value unless a later path rewrites to the same
      template, whose value then wins. */
  lemma RewriteKeysValue<V>(paths: Dict<V>, i: nat)
    requires WellFormed(paths) && i < |paths.keys|
    requires forall j | i < j < |paths.keys| :: Rewrite(paths.keys[j]) != Rewrite(paths.keys[i])
    ensures Rewrite(paths.keys[i]) in RewriteKeys(paths).entries
    ensures RewriteKeys(paths).entries[Rewrite(paths.keys[i])] == paths.entries[paths.keys[i]]
  {
    var es := Renamed(paths);
    assert RewriteKeys(paths) == FromEntries(es);
    FromEntriesLastWins(es, i);
  }
}
