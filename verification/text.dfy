/** The JavaScript string operations the core relies on: `split` with a string
    separator, `join`, `trim`, and ASCII case mapping. Strings are sequences of
    Unicode scalar values. */
module Text {

  /** `sep` occurs in `s` starting at index `i`. */
  predicate OccursAt(s: string, sep: string, i: nat) {
    i + |sep| <= |s| && s[i..i + |sep|] == sep
  }

  predicate Contains(s: string, sep: string) {
    exists i: nat | i <= |s| :: OccursAt(s, sep, i)
  }

  predicate StartsWith(s: string, prefix: string) {
    |prefix| <= |s| && s[..|prefix|] == prefix
  }

  lemma OccursAtTail(s: string, sep: string, j: nat)
    requires |s| > 0
    ensures OccursAt(s, sep, j + 1) <==> OccursAt(s[1..], sep, j)
  {
    if j + 1 + |sep| <= |s| {
      assert s[1..][j..j + |sep|] == s[j + 1..j + 1 + |sep|];
    }
  }

  lemma OccursAtChar(s: string, c: char, i: nat)
    ensures OccursAt(s, [c], i) <==> i < |s| && s[i] == c
  {
    if i < |s| {
      assert s[i..i + 1] == [s[i]];
    }
  }

  lemma ContainsChar(s: string, c: char)
    ensures Contains(s, [c]) <==> c in s
  {
    if c in s {
      var i :| 0 <= i < |s| && s[i] == c;
      OccursAtChar(s, c, i);
    }
    if Contains(s, [c]) {
      var i: nat :| OccursAt(s, [c], i);
      OccursAtChar(s, c, i);
    }
  }

  /** Index of the first occurrence of `sep` in `s`, or |s| when there is none. */
  function IndexOf(s: string, sep: string): (i: nat)
    requires |sep| > 0
    ensures i <= |s|
    ensures i < |s| ==> OccursAt(s, sep, i)
    ensures forall j: nat :: j < i ==> !OccursAt(s, sep, j)
    decreases |s|
  {
    if |s| < |sep| then
      |s|
    else if s[..|sep|] == sep then
      0
    else
      var k := IndexOf(s[1..], sep);
      assert !OccursAt(s, sep, 0) by { assert s[0..|sep|] == s[..|sep|]; }
      assert forall j: nat :: 0 < j < 1 + k ==> !OccursAt(s, sep, j) by {
        forall j: nat | 0 < j < 1 + k ensures !OccursAt(s, sep, j) { OccursAtTail(s, sep, j - 1); }
      }
      assert k < |s| - 1 ==> OccursAt(s, sep, k + 1) by {
        if k < |s| - 1 { OccursAtTail(s, sep, k); }
      }
      1 + k
  }

  /** IndexOf reports |s| exactly when the separator does not occur. */
  lemma IndexOfContains(s: string, sep: string)
    requires |sep| > 0
    ensures IndexOf(s, sep) == |s| <==> !Contains(s, sep)
  {
    var i := IndexOf(s, sep);
    if i < |s| {
      assert OccursAt(s, sep, i);
    } else {
      forall j: nat | j <= |s| ensures !OccursAt(s, sep, j) {
        if j < i { } else { assert j + |sep| > |s|; }
      }
    }
  }

  /** JavaScript `s.split(sep)` for a non-empty separator: the pieces between
      the non-overlapping occurrences of `sep`, scanning from the left. */
  function Split(s: string, sep: string): (parts: seq<string>)
    requires |sep| > 0
    ensures |parts| >= 1
    decreases |s|
  {
    var i := IndexOf(s, sep);
    if i == |s| then [s] else [s[..i]] + Split(s[i + |sep|..], sep)
  }

  /** JavaScript `parts.join(sep)`. */
  function Join(parts: seq<string>, sep: string): string {
    if |parts| == 0 then ""
    else if |parts| == 1 then parts[0]
    else parts[0] + sep + Join(parts[1..], sep)
  }

  lemma JoinCons(a: string, rest: seq<string>, sep: string)
    requires |rest| >= 1
    ensures Join([a] + rest, sep) == a + sep + Join(rest, sep)
  {
    assert ([a] + rest)[1..] == rest;
  }

  /** One step of Split: the piece before the first separator, then the rest. */
  lemma SplitStep(s: string, sep: string)
    requires |sep| > 0
    ensures var i := IndexOf(s, sep);
            if i < |s| then
              && Split(s, sep) == [s[..i]] + Split(s[i + |sep|..], sep)
              && s == s[..i] + sep + s[i + |sep|..]
            else Split(s, sep) == [s]
  {
    var i := IndexOf(s, sep);
    if i < |s| {
      assert s == s[..i] + s[i..i + |sep|] + s[i + |sep|..];
    }
  }

  /** Splitting and joining again gives back the original string. */
  lemma {:induction false} SplitJoin(s: string, sep: string)
    requires |sep| > 0
    ensures Join(Split(s, sep), sep) == s
    decreases |s|
  {
    var i := IndexOf(s, sep);
    SplitStep(s, sep);
    if i < |s| {
      var rest := s[i + |sep|..];
      JoinCons(s[..i], Split(rest, sep), sep);
      SplitJoin(rest, sep);
    }
  }

  /** The first piece is everything before the first separator. */
  lemma SplitHead(s: string, sep: string)
    requires |sep| > 0
    ensures Split(s, sep)[0] == s[..IndexOf(s, sep)]
  {
  }

  /** No piece contains the separator. */
  lemma {:induction false} SplitPiecesFree(s: string, sep: string)
    requires |sep| > 0
    ensures forall k :: 0 <= k < |Split(s, sep)| ==> !Contains(Split(s, sep)[k], sep)
    decreases |s|
  {
    var i := IndexOf(s, sep);
    SplitStep(s, sep);
    if i == |s| {
      IndexOfContains(s, sep);
    } else {
      var rest := s[i + |sep|..];
      SplitPiecesFree(rest, sep);
      BeforeFirstLacks(s, sep);
      var parts := Split(s, sep);
      assert parts[0] == s[..i] && parts[1..] == Split(rest, sep);
      forall k | 0 <= k < |parts| ensures !Contains(parts[k], sep) {
        if k > 0 {
          assert parts[k] == Split(rest, sep)[k - 1];
        }
      }
    }
  }

  /** The text before the first separator does not contain it. */
  lemma BeforeFirstLacks(s: string, sep: string)
    requires |sep| > 0
    ensures !Contains(s[..IndexOf(s, sep)], sep)
  {
    var i := IndexOf(s, sep);
    forall j: nat | j <= i ensures !OccursAt(s[..i], sep, j) {
      if j + |sep| <= i {
        assert s[..i][j..j + |sep|] == s[j..j + |sep|];
        assert !OccursAt(s, sep, j);
      }
    }
  }

  /** Position of the first `c`, for a one-character separator. */
  lemma IndexOfChar(x: string, c: char, y: string)
    requires c !in x
    ensures IndexOf(x + [c] + y, [c]) == |x|
  {
    var s := x + [c] + y;
    var i := IndexOf(s, [c]);
    OccursAtChar(s, c, |x|);
    forall j: nat | j < |x| ensures !OccursAt(s, [c], j) {
      OccursAtChar(s, c, j);
      assert s[j] == x[j];
    }
  }

  lemma IndexOfAbsentChar(x: string, c: char)
    requires c !in x
    ensures IndexOf(x, [c]) == |x|
  {
    ContainsChar(x, c);
  }

  /** Splitting a join on a one-character separator that occurs in no part
      gives back the parts. */
  lemma {:induction false} JoinSplitChar(parts: seq<string>, c: char)
    requires |parts| >= 1
    requires forall k :: 0 <= k < |parts| ==> c !in parts[k]
    ensures Split(Join(parts, [c]), [c]) == parts
    decreases |parts|
  {
    if |parts| == 1 {
      IndexOfAbsentChar(parts[0], c);
    } else {
      var rest := Join(parts[1..], [c]);
      var s := parts[0] + [c] + rest;
      assert Join(parts, [c]) == s;
      IndexOfChar(parts[0], c, rest);
      assert s[..|parts[0]|] == parts[0];
      assert s[|parts[0]| + 1..] == rest;
      JoinSplitChar(parts[1..], c);
      assert parts == [parts[0]] + parts[1..];
    }
  }

  /** Splitting on a character: the first piece, the separator, and the join of
      the remaining pieces reassemble the string. */
  lemma SplitCharHeadRest(s: string, c: char)
    requires c in s
    ensures |Split(s, [c])| >= 2
    ensures s == Split(s, [c])[0] + [c] + Join(Split(s, [c])[1..], [c])
    ensures c !in Split(s, [c])[0]
  {
    ContainsChar(s, c);
    IndexOfContains(s, [c]);
    var i := IndexOf(s, [c]);
    assert i < |s|;
    var rest := s[i + 1..];
    SplitStep(s, [c]);
    var parts := Split(s, [c]);
    assert parts[0] == s[..i] && parts[1..] == Split(rest, [c]);
    SplitJoin(rest, [c]);
    forall j | 0 <= j < i ensures s[..i][j] != c {
      OccursAtChar(s, c, j);
    }
  }

  // ---------- trim ----------

  /** ECMAScript WhiteSpace and LineTerminator code points, which `trim` removes. */
  predicate IsWhitespace(c: char) {
    || c == '\t' || c == '\n' || c == '\U{B}' || c == '\U{C}' || c == '\r' || c == ' '
    || c == '\U{A0}' || c == '\U{1680}' || ('\U{2000}' <= c <= '\U{200A}')
    || c == '\U{2028}' || c == '\U{2029}' || c == '\U{202F}' || c == '\U{205F}'
    || c == '\U{3000}' || c == '\U{FEFF}'
  }

  /** The end of the whitespace run of `s` that starts at `i`. */
  function SpaceEnd(s: string, i: nat): (n: nat)
    requires i <= |s|
    ensures i <= n <= |s|
    ensures forall k | i <= k < n :: IsWhitespace(s[k])
    ensures n < |s| ==> !IsWhitespace(s[n])
    decreases |s| - i
  {
    if i < |s| && IsWhitespace(s[i]) then SpaceEnd(s, i + 1) else i
  }

  /** The start of the whitespace run of `s` that ends at `j`, going no
      further back than `lo`. */
  function SpaceStart(s: string, lo: nat, j: nat): (n: nat)
    requires lo <= j <= |s|
    ensures lo <= n <= j
    ensures forall k | n <= k < j :: IsWhitespace(s[k])
    ensures lo < n ==> !IsWhitespace(s[n - 1])
    decreases j
  {
    if lo < j && IsWhitespace(s[j - 1]) then SpaceStart(s, lo, j - 1) else j
  }

  /** JavaScript `s.trim()`: the text between the leading and the trailing
      whitespace. The result is a slice of `s`, it neither starts nor ends
      with whitespace, and only whitespace lies outside it. */
  function Trim(s: string): (r: string)
    ensures r == [] || (!IsWhitespace(r[0]) && !IsWhitespace(r[|r| - 1]))
    ensures var a := SpaceEnd(s, 0);
            && a + |r| <= |s| && r == s[a..a + |r|]
            && (forall k | 0 <= k < a :: IsWhitespace(s[k]))
            && (forall k | a + |r| <= k < |s| :: IsWhitespace(s[k]))
  {
    var a := SpaceEnd(s, 0);
    var b := SpaceStart(s, a, |s|);
    assert b > a ==> b < |s| || !IsWhitespace(s[b - 1]);
    s[a..b]
  }

  lemma TrimIdempotent(s: string)
    ensures Trim(Trim(s)) == Trim(s)
  {
    var r := Trim(s);
    assert SpaceEnd(r, 0) == 0;
    assert SpaceStart(r, 0, |r|) == |r|;
  }

  // ---------- case mapping ----------

  function LowerChar(c: char): char {
    if 'A' <= c <= 'Z' then (c as int + 32) as char else c
  }

  function UpperChar(c: char): char {
    if 'a' <= c <= 'z' then (c as int - 32) as char else c
  }

  predicate IsLowerCase(s: string) {
    forall k :: 0 <= k < |s| ==> !('A' <= s[k] <= 'Z')
  }

  /** `toLowerCase`, restricted to ASCII letters. */
  function ToLower(s: string): (r: string)
    ensures |r| == |s| && IsLowerCase(r)
    ensures forall k | 0 <= k < |s| && !('A' <= s[k] <= 'Z') :: r[k] == s[k]
    ensures forall k | 0 <= k < |s| && 'A' <= s[k] <= 'Z' :: r[k] as int == s[k] as int + 32
  {
    seq(|s|, k requires 0 <= k < |s| => LowerChar(s[k]))
  }

  /** `toUpperCase`, restricted to ASCII letters. */
  function ToUpper(s: string): (r: string)
    ensures |r| == |s|
    ensures forall k :: 0 <= k < |r| ==> !('a' <= r[k] <= 'z')
    ensures forall k | 0 <= k < |s| && !('a' <= s[k] <= 'z') :: r[k] == s[k]
    ensures forall k | 0 <= k < |s| && 'a' <= s[k] <= 'z' :: r[k] as int == s[k] as int - 32
  {
    seq(|s|, k requires 0 <= k < |s| => UpperChar(s[k]))
  }
}
