/** The request data an event carries (`Data.fromRequest`) and the decoding
    of the request body by media type (`Data.parseRequestBody`). */
module RequestData {
  import opened Wrappers
  import opened Text
  import Uri
  import Objects

  /** A request as the platform hands it over: the URL already parsed, the
      query already decoded into its entries, header names in lower case,
      and the outcome of the platform's own JSON and form-data parsers
      (an opaque value, or `None` where that parser throws). */
  datatype Request = Request(
    httpMethod: string,
    pathname: string,
    hostname: string,
    searchParams: seq<(string, string)>,
    headers: map<string, string>,
    text: string,
    json: Option<nat>,
    formData: Option<seq<(string, nat)>>)

  /** What `parseRequestBody` returns: `undefined`, a parsed JSON value, the
      form-data entries, or the url-encoded entries (a value is `undefined`
      when its pair has no `=`). */
  datatype RequestBody =
    | NoBody
    | JsonBody(value: nat)
    | FormBody(form: Objects.Dict<nat>)
    | UrlEncodedBody(entries: Objects.Dict<Option<string>>)

  /** The request data of an event. */
  datatype Data = Data(
    httpMethod: string,
    pathname: string,
    hostname: string,
    headers: map<string, string>,
    query: Objects.Dict<string>,
    body: RequestBody)

  const JsonType: string := "application/json"
  const MultipartType: string := "multipart/form-data"
  const UrlEncodedType: string := "application/x-www-form-urlencoded"

  /** The message of the URIError `decodeURIComponent` throws. */
  const MalformedUri: string := "URI malformed"
  /** The error of the platform's JSON or form-data parser. */
  const MalformedBody: string := "Malformed request body"

  /** `headers.get(name)`. */
  function Header(headers: map<string, string>, name: string): Option<string> {
    if name in headers then Some(headers[name]) else None
  }

  /** `contentType?.split(';')[0]`: everything before the first `;`, compared
      later without trimming or case folding. */
  function MediaType(contentType: Option<string>): (m: Option<string>)
    ensures m.None? <==> contentType.None?
    ensures m.Some? ==> ';' !in m.value && StartsWith(contentType.value, m.value)
    ensures m.Some? && |m.value| < |contentType.value| ==> contentType.value[|m.value|] == ';'
  {
    if contentType.None? then None
    else
      var s := contentType.value;
      var i := IndexOf(s, [';']);
      SplitHead(s, [';']);
      OccursAtChar(s, ';', i);
      forall j | 0 <= j < i ensures s[j] != ';' {
        OccursAtChar(s, ';', j);
      }
      Some(Split(s, [';'])[0])
  }

  /** `pieces.map(decodeURIComponent)`: `None` when any piece throws. */
  function DecodeAll(pieces: seq<string>): (r: Option<seq<string>>)
    ensures r.Some? <==> forall i | 0 <= i < |pieces| :: Uri.Decode(pieces[i]).Some?
    ensures r.Some? ==> |r.value| == |pieces| && forall i | 0 <= i < |pieces| :: Uri.Decode(pieces[i]) == Some(r.value[i])
  {
    if pieces == [] then Some([])
    else match (Uri.Decode(pieces[0]), DecodeAll(pieces[1..]))
      case (Some(d), Some(ds)) => Some([d] + ds)
      case _ => None
  }

  /** One pair of a url-encoded body: `x.split('=').map(decodeURIComponent)`,
      read by `Object.fromEntries` as key `[0]` and value `[1]`; further
      pieces are decoded and then ignored. */
  function PairEntry(pair: string): (r: Option<(string, Option<string>)>)
    ensures r.Some? <==> DecodeAll(Split(pair, ['='])).Some?
  {
    match DecodeAll(Split(pair, ['=']))
    case None => None
    case Some(ds) => Some((ds[0], if |ds| > 1 then Some(ds[1]) else None))
  }

  /** The entries of all pairs, or `None` when any piece of any pair is malformed. */
  function PairEntries(pairs: seq<string>): (r: Option<seq<(string, Option<string>)>>)
    ensures r.Some? <==> forall i | 0 <= i < |pairs| :: PairEntry(pairs[i]).Some?
    ensures r.Some? ==> |r.value| == |pairs| && forall i | 0 <= i < |pairs| :: PairEntry(pairs[i]) == Some(r.value[i])
  {
    if pairs == [] then Some([])
    else match (PairEntry(pairs[0]), PairEntries(pairs[1..]))
      case (Some(e), Some(es)) => Some([e] + es)
      case _ => None
  }

  /** The url-encoded branch: split on `&`, each pair on `=`, decode every
      piece, then `Object.fromEntries`; a malformed escape throws. */
  function ParseUrlEncoded(text: string): (r: Result<Objects.Dict<Option<string>>>)
    ensures r.Failure? <==> PairEntries(Split(text, ['&'])).None?
    ensures r.Failure? ==> r.message == MalformedUri
  {
    match PairEntries(Split(text, ['&']))
    case None => Failure(MalformedUri)
    case Some(es) => Success(Objects.FromEntries(es))
  }

  /** `Data.parseRequestBody`: dispatch on the media type of `content-type`. */
  function ParseRequestBody(req: Request): (r: Result<RequestBody>)
    ensures MediaType(Header(req.headers, "content-type")) !in {Some(JsonType), Some(MultipartType), Some(UrlEncodedType)}
            ==> r == Success(NoBody)
    ensures MediaType(Header(req.headers, "content-type")) == Some(UrlEncodedType)
            ==> (r.Success? <==> ParseUrlEncoded(req.text).Success?)
    ensures r.Success? && r.value.UrlEncodedBody? ==> ParseUrlEncoded(req.text) == Success(r.value.entries)
    ensures MediaType(Header(req.headers, "content-type")) == Some(UrlEncodedType) && r.Success?
            ==> r.value == UrlEncodedBody(ParseUrlEncoded(req.text).value)
    ensures MediaType(Header(req.headers, "content-type")) == Some(JsonType)
            ==> (r.Failure? <==> req.json.None?) && (r.Success? ==> r.value == JsonBody(req.json.value))
    ensures MediaType(Header(req.headers, "content-type")) == Some(MultipartType)
            ==> && (r.Failure? <==> req.formData.None?)
                && (r.Success? ==> r.value == FormBody(Objects.FromEntries(req.formData.value)))
  {
    match MediaType(Header(req.headers, "content-type"))
    case Some(t) =>
      if t == JsonType then
        (if req.json.Some? then Success(JsonBody(req.json.value)) else Failure(MalformedBody))
      else if t == MultipartType then
        (if req.formData.Some? then Success(FormBody(Objects.FromEntries(req.formData.value))) else Failure(MalformedBody))
      else if t == UrlEncodedType then
        (match ParseUrlEncoded(req.text)
         case Success(d) => Success(UrlEncodedBody(d))
         case Failure(e) => Failure(e))
      else Success(NoBody)
    case None => Success(NoBody)
  }

  /** `Data.fromRequest`: upper-case method, lower-case hostname, the query
      entries as an object, and the parsed body; throws when the body does. */
  function FromRequest(req: Request): (r: Result<Data>)
    ensures r.Success? <==> ParseRequestBody(req).Success?
    ensures r.Success? ==> r.value.httpMethod == ToUpper(req.httpMethod) && r.value.hostname == ToLower(req.hostname)
    ensures r.Success? ==> r.value.pathname == req.pathname && r.value.body == ParseRequestBody(req).value
    ensures r.Success? ==> r.value.query == Objects.FromEntries(req.searchParams) && r.value.headers == req.headers
  {
    match ParseRequestBody(req)
    case Failure(e) => Failure(e)
    case Success(body) =>
      Success(Data(ToUpper(req.httpMethod), req.pathname, ToLower(req.hostname), req.headers,
                   Objects.FromEntries(req.searchParams), body))
  }

  // ---------- the url-encoded branch, stated against its inverse ----------

  /** `encodeURIComponent(key) + '=' + encodeURIComponent(value)`. */
  function EncodePair(e: (string, string)): string {
    Uri.Encode(e.0) + "=" + Uri.Encode(e.1)
  }

  function EncodePairs(entries: seq<(string, string)>): (pairs: seq<string>)
    ensures |pairs| == |entries|
    ensures forall i | 0 <= i < |entries| :: pairs[i] == EncodePair(entries[i])
  {
    if entries == [] then [] else [EncodePair(entries[0])] + EncodePairs(entries[1..])
  }

  /** A url-encoded body as a form would send it. */
  function Serialize(entries: seq<(string, string)>): string {
    Join(EncodePairs(entries), "&")
  }

  /** The entries a serialized body should decode to: every value present. */
  function Present(entries: seq<(string, string)>): (r: seq<(string, Option<string>)>)
    ensures |r| == |entries|
    ensures forall i | 0 <= i < |entries| :: r[i] == (entries[i].0, Some(entries[i].1))
  {
    if entries == [] then [] else [(entries[0].0, Some(entries[0].1))] + Present(entries[1..])
  }

  /** Splitting on a character that the first part lacks. */
  lemma SplitCharCons(x: string, c: char, y: string)
    requires c !in x
    ensures Split(x + [c] + y, [c]) == [x] + Split(y, [c])
  {
    var s := x + [c] + y;
    IndexOfChar(x, c, y);
    assert s[..|x|] == x;
    assert s[|x| + 1..] == y;
  }

  /** Pieces without `%` decode to themselves. */
  lemma DecodeAllPlain(pieces: seq<string>)
    requires forall i | 0 <= i < |pieces| :: '%' !in pieces[i]
    ensures DecodeAll(pieces) == Some(pieces)
  {
    forall i | 0 <= i < |pieces| ensures Uri.Decode(pieces[i]) == Some(pieces[i]) {
      Uri.DecodePlain(pieces[i]);
    }
    var r := DecodeAll(pieces);
    assert r.Some? && |r.value| == |pieces|;
    assert r.value == pieces;
  }

  /** One encoded pair decodes to its key and value. */
  lemma PairEntryEncoded(e: (string, string))
    ensures '&' !in EncodePair(e)
    ensures PairEntry(EncodePair(e)) == Some((e.0, Some(e.1)))
  {
    var k, v := Uri.Encode(e.0), Uri.Encode(e.1);
    Uri.EncodeChars(e.0);
    Uri.EncodeChars(e.1);
    assert EncodePair(e) == k + ['='] + v;
    SplitCharCons(k, '=', v);
    IndexOfAbsentChar(v, '=');
    assert Split(EncodePair(e), ['=']) == [k, v];
    Uri.DecodeEncode(e.0);
    Uri.DecodeEncode(e.1);
    var r := DecodeAll([k, v]);
    assert r.Some? && |r.value| == 2;
    assert r.value == [e.0, e.1];
  }

  /** Splitting a serialized list on `&` gives its encoded pairs back. */
  lemma SplitSerialized(entries: seq<(string, string)>)
    requires |entries| >= 1
    ensures Split(Serialize(entries), ['&']) == EncodePairs(entries)
  {
    var pairs := EncodePairs(entries);
    forall i | 0 <= i < |pairs| ensures '&' !in pairs[i] {
      PairEntryEncoded(entries[i]);
    }
    JoinSplitChar(pairs, '&');
  }

  /** The encoded pairs decode to the entries, every value present. */
  lemma PairEntriesEncoded(entries: seq<(string, string)>)
    ensures PairEntries(EncodePairs(entries)) == Some(Present(entries))
  {
    var pairs := EncodePairs(entries);
    forall i | 0 <= i < |pairs| ensures PairEntry(pairs[i]) == Some(Present(entries)[i]) {
      PairEntryEncoded(entries[i]);
    }
    var r := PairEntries(pairs);
    assert r.Some? && |r.value| == |entries|;
    assert r.value == Present(entries);
  }

  /** Parsing a serialized non-empty list of entries gives the object
      `Object.fromEntries` builds from them. */
  lemma ParseSerialized(entries: seq<(string, string)>)
    requires |entries| >= 1
    ensures ParseUrlEncoded(Serialize(entries)) == Success(Objects.FromEntries(Present(entries)))
  {
    SplitSerialized(entries);
    PairEntriesEncoded(entries);
  }

  /** An empty body is one pair with an empty key and no value: `{"": undefined}`. */
  lemma ParseEmpty()
    ensures ParseUrlEncoded("") == Success(Objects.FromEntries([("", None)]))
  {
    IndexOfAbsentChar("", '&');
    IndexOfAbsentChar("", '=');
    assert Uri.Decode("") == Some("");
  }

  /** A pair without `=` has an undefined value. */
  lemma PairWithoutValue(k: string)
    requires '%' !in k && '=' !in k
    ensures PairEntry(k) == Some((k, None))
  {
    IndexOfAbsentChar(k, '=');
    DecodeAllPlain([k]);
  }

  lemma SplitTwoSeparators(k: string, v: string, extra: string)
    requires '=' !in k && '=' !in v
    ensures Split(k + "=" + v + "=" + extra, ['=']) == [k, v] + Split(extra, ['='])
  {
    var tail := v + ['='] + extra;
    assert k + "=" + v + "=" + extra == k + ['='] + tail;
    SplitCharCons(k, '=', tail);
    SplitCharCons(v, '=', extra);
  }

  /** With several `=`, the value ends at the second one and the rest is dropped. */
  lemma PairWithExtraPieces(k: string, v: string, extra: string)
    requires '%' !in k && '%' !in v && '%' !in extra
    requires '=' !in k && '=' !in v
    ensures PairEntry(k + "=" + v + "=" + extra) == Some((k, Some(v)))
  {
    SplitTwoSeparators(k, v, extra);
    PiecesLackChar(extra, '=', '%');
    DecodeAllPlain([k, v] + Split(extra, ['=']));
  }

  /** A character absent from a string is absent from every piece of its split. */
  lemma PiecesLackChar(s: string, sep: char, d: char)
    requires d !in s
    ensures forall i | 0 <= i < |Split(s, [sep])| :: d !in Split(s, [sep])[i]
  {
    var parts := Split(s, [sep]);
    SplitJoin(s, [sep]);
    forall i | 0 <= i < |parts| ensures d !in parts[i] {
      PieceOfJoin(parts, [sep], i);
    }
  }
  /** Every character of a part is a character of the join. */
  lemma {:induction false} PieceOfJoin(parts: seq<string>, sep: string, i: nat)
    requires i < |parts|
    ensures forall c | c in parts[i] :: c in Join(parts, sep)
  {
    if |parts| > 1 {
      JoinCons(parts[0], parts[1..], sep);
      if i > 0 {
        PieceOfJoin(parts[1..], sep, i - 1);
      }
    }
  }
}
