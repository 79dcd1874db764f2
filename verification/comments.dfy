/** `parseComment` in `packages/openapi-generator/scripts/comments.ts`: the
    JSDoc tags of a route comment become a description, a summary and a list
    of tags. The text is cut at every `* @`, the text before the first cut is
    dropped, each piece loses its last two characters, and each piece's first
    word selects what its other words set. */
module Comments {
  import opened Wrappers
  import opened Text

  datatype JSDoc = JSDoc(description: string, summary: string, tags: seq<string>)

  /** Where a JSDoc tag starts. */
  const Marker: string := "* @"

  /** `s.slice(0, -2)`: the string without its last two characters, empty
      when it is shorter. */
  function DropLastTwo(s: string): (r: string)
    ensures |r| == if |s| < 2 then 0 else |s| - 2
    ensures r == s[..|r|]
  {
    if |s| < 2 then "" else s[..|s| - 2]
  }

  /** The pieces the loop visits. */
  function Pieces(comments: string): (pieces: seq<string>)
    ensures |pieces| == |Split(comments, Marker)| - 1
  {
    var parts := Split(comments, Marker)[1..];
    seq(|parts|, k requires 0 <= k < |parts| => DropLastTwo(parts[k]))
  }

  /** `const [head, ...rest] = piece.split(' ')`: the first word. */
  function Head(piece: string): string {
    Split(piece, " ")[0]
  }

  /** `rest.join(' ').trim()`: the other words, trimmed. */
  function Content(piece: string): string {
    Trim(Join(Split(piece, " ")[1..], " "))
  }

  /** The piece is a `head` tag. */
  predicate Sets(piece: string, head: string) {
    Head(piece) == head
  }

  /** The content of the last piece whose head is `head`. */
  function LastContent(pieces: seq<string>, head: string): (r: Option<string>)
  {
    if pieces == [] then None
    else
      var last := pieces[|pieces| - 1];
      var init := pieces[..|pieces| - 1];
      if Sets(last, head) then Some(Content(last)) else LastContent(init, head)
  }

  /** A field is left unset exactly when no piece sets it. */
  lemma {:induction false} LastContentNone(pieces: seq<string>, head: string)
    ensures LastContent(pieces, head).None? <==> forall k | 0 <= k < |pieces| :: !Sets(pieces[k], head)
  {
    if pieces != [] {
      var n := |pieces| - 1;
      LastContentNone(pieces[..n], head);
      assert forall k | 0 <= k < n :: pieces[..n][k] == pieces[k];
    }
  }

  /** A field that is set holds the content of the last piece that sets it. */
  lemma {:induction false} LastContentSome(pieces: seq<string>, head: string) returns (k: nat)
    requires LastContent(pieces, head).Some?
    ensures k < |pieces| && Sets(pieces[k], head)
    ensures LastContent(pieces, head).value == Content(pieces[k])
    ensures forall j | k < j < |pieces| :: !Sets(pieces[j], head)
  {
    var n := |pieces| - 1;
    if Sets(pieces[n], head) {
      k := n;
    } else {
      var init := pieces[..n];
      k := LastContentSome(init, head);
      assert forall j | k < j < n :: init[j] == pieces[j];
    }
  }

  /** The contents of the `tag` pieces, in order. */
  function Tags(pieces: seq<string>): seq<string> {
    if pieces == [] then []
    else
      var last := pieces[|pieces| - 1];
      Tags(pieces[..|pieces| - 1]) + (if Sets(last, "tag") then [Content(last)] else [])
  }

  /** Every tag is the content of a `tag` piece, and there are tags exactly
      when some piece sets `tag`. */
  lemma TagSources(pieces: seq<string>)
    ensures forall i | 0 <= i < |Tags(pieces)| ::
      exists k | 0 <= k < |pieces| :: Sets(pieces[k], "tag") && Tags(pieces)[i] == Content(pieces[k])
    ensures Tags(pieces) == [] <==> forall k | 0 <= k < |pieces| :: !Sets(pieces[k], "tag")
  {
    forall i | 0 <= i < |Tags(pieces)|
      ensures exists k | 0 <= k < |pieces| :: Sets(pieces[k], "tag") && Tags(pieces)[i] == Content(pieces[k])
    {
      var k := TagSource(pieces, i);
    }
    TagsEmpty(pieces);
  }

  /** The piece tag `i` comes from. */
  lemma {:induction false} TagSource(pieces: seq<string>, i: nat) returns (k: nat)
    requires i < |Tags(pieces)|
    ensures k < |pieces| && Sets(pieces[k], "tag") && Tags(pieces)[i] == Content(pieces[k])
  {
    var init, last := pieces[..|pieces| - 1], pieces[|pieces| - 1];
    assert Tags(pieces) == Tags(init) + if Sets(last, "tag") then [Content(last)] else [];
    if i < |Tags(init)| {
      k := TagSource(init, i);
      assert pieces[k] == init[k];
    } else {
      k := |pieces| - 1;
    }
  }

  /** There are no tags exactly when no piece sets `tag`. */
  lemma {:induction false} TagsEmpty(pieces: seq<string>)
    ensures Tags(pieces) == [] <==> forall k | 0 <= k < |pieces| :: !Sets(pieces[k], "tag")
  {
    if pieces != [] {
      var init, last := pieces[..|pieces| - 1], pieces[|pieces| - 1];
      TagsEmpty(init);
      assert forall k | 0 <= k < |init| :: init[k] == pieces[k];
    }
  }

  /** A description or summary field: empty when no piece sets it, otherwise
      the content with a line break. */
  function Field(content: Option<string>): string {
    if content.None? then "" else content.value + "\n"
  }

  /** `parseComment`: the description and summary come from the last piece
      that sets them, and the tags from every `tag` piece in order. */
  method ParseComment(comments: string) returns (doc: JSDoc)
    ensures doc.description == Field(LastContent(Pieces(comments), "description"))
    ensures doc.summary == Field(LastContent(Pieces(comments), "summary"))
    ensures doc.tags == Tags(Pieces(comments))
  {
    var pieces := Pieces(comments);
    doc := JSDoc("", "", []);
    var i := 0;
    while i < |pieces|
      invariant 0 <= i <= |pieces|
      invariant doc.description == Field(LastContent(pieces[..i], "description"))
      invariant doc.summary == Field(LastContent(pieces[..i], "summary"))
      invariant doc.tags == Tags(pieces[..i])
    {
      var piece := pieces[i];
      assert pieces[..i + 1] == pieces[..i] + [piece];
      PieceEffect(pieces[..i], piece);
      var head := Head(piece);
      var content := Content(piece);
      if head == "description" {
        doc := doc.(description := content + "\n");
      } else if head == "summary" {
        doc := doc.(summary := content + "\n");
      } else if head == "tag" {
        doc := doc.(tags := doc.tags + [content]);
      }
      i := i + 1;
    }
    assert pieces[..i] == pieces;
  }

  /** Without a marker there are no pieces: the description and summary are
      empty and there are no tags. */
  lemma NoMarker(comments: string)
    requires !Contains(comments, Marker)
    ensures Pieces(comments) == []
    ensures LastContent(Pieces(comments), "description").None? && LastContent(Pieces(comments), "summary").None?
    ensures Tags(Pieces(comments)) == []
  {
    IndexOfContains(comments, Marker);
  }

  /** A piece sets the field its head names, overwriting what earlier pieces
      set, adds a tag when its head is `tag`, and otherwise changes nothing. */
  lemma PieceEffect(pieces: seq<string>, piece: string)
    ensures LastContent(pieces + [piece], "description")
      == if Sets(piece, "description") then Some(Content(piece)) else LastContent(pieces, "description")
    ensures LastContent(pieces + [piece], "summary")
      == if Sets(piece, "summary") then Some(Content(piece)) else LastContent(pieces, "summary")
    ensures Tags(pieces + [piece])
      == Tags(pieces) + if Sets(piece, "tag") then [Content(piece)] else []
  {
    assert (pieces + [piece])[..|pieces|] == pieces;
  }

  /** The text before the first marker is cut off on its own. */
  lemma SplitAfterPrefix(pre: string, rest: string)
    requires !Contains(pre, Marker)
    ensures Split(pre + Marker + rest, Marker) == [pre] + Split(rest, Marker)
  {
    var s := pre + Marker + rest;
    assert OccursAt(s, Marker, |pre|) by {
      assert s[|pre|..|pre| + 3] == Marker;
    }
    forall j: nat | j < |pre| ensures !OccursAt(s, Marker, j) {
      if j + 3 <= |pre| {
        assert !OccursAt(pre, Marker, j);
        assert s[j..j + 3] == pre[j..j + 3];
      } else if j + 2 == |pre| {
        assert s[j + 2] == Marker[0];
        assert j + 3 <= |s| ==> s[j..j + 3][2] == '*';
      } else {
        assert s[j + 1] == Marker[0];
        assert j + 3 <= |s| ==> s[j..j + 3][1] == '*';
      }
    }
    var i := IndexOf(s, Marker);
    assert i == |pre|;
    assert s[..i] == pre;
    assert s[i + 3..] == rest;
  }

  /** Whatever precedes the first marker does not matter. */
  lemma PrefixDiscarded(pre: string, rest: string)
    requires !Contains(pre, Marker)
    ensures Pieces(pre + Marker + rest) == Pieces(Marker + rest)
  {
    SplitAfterPrefix(pre, rest);
    assert !Contains("", Marker) by {
      forall j: nat | j <= 0 ensures !OccursAt("", Marker, j) { }
    }
    SplitAfterPrefix("", rest);
    assert "" + Marker + rest == Marker + rest;
  }
}
