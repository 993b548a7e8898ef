/** The part renderer of the multipart/form-data encoder: turns one field
    element into its boundary-delimited part, and the encoder's list of
    elements into the whole body (RFC 7578, with the delimiter syntax of
    section 5.1.1 of RFC 2046). */
module MultipartParts {
  import opened Wrappers
  import opened Text
  import Decimal

  /** The `contents` of an element. Scalars are converted to text; a stream
      is its bytes, the `uri` entry of its metadata, and whether its size
      is known. */
  datatype Contents =
    | Str(s: string)
    | Int(i: int)
    | Bool(b: bool)
    | Stream(data: string, uri: Option<string>, sizeKnown: bool)

  /** A header as given by the caller or added by default: name and value. */
  type Header = (string, string)

  /** One entry of the encoder's element list. The `name` and `contents`
      keys may be missing from the caller's array; `headers` keeps the
      caller's order and casing. */
  datatype Element = Element(
    name: Option<string>,
    contents: Option<Contents>,
    filename: Option<string>,
    headers: seq<Header>)

  /** Construction rejects an element lacking a required key. */
  datatype ElementError = MissingKey(key: string)

  /** The bytes the contents contribute: PHP's string conversion of a
      scalar (false is empty, true is "1"), or the stream's bytes. */
  function Body(c: Contents): string {
    match c
    case Str(s) => s
    case Int(i) => Decimal.IntToString(i)
    case Bool(b) => if b then "1" else ""
    case Stream(data, _, _) => data
  }

  /** The size the contents report: known for scalars, and for a stream only
      when it can tell. */
  function Size(c: Contents): (n: Option<nat>)
    ensures n.Some? ==> n.value == |Body(c)|
    ensures n.None? <==> c.Stream? && !c.sizeKnown
  {
    if c.Stream? && !c.sizeKnown then None else Some(|Body(c)|)
  }

  /** The last segment of a path. */
  function Basename(path: string): string {
    AfterLast(path, '/')
  }

  /** The last segment has no '/', ends the path, and is preceded by the
      path's last '/' when there is one. */
  lemma BasenameSplits(path: string)
    ensures var b := Basename(path);
      && '/' !in b
      && |b| <= |path| && path == path[..|path| - |b|] + b
      && (|b| < |path| ==> path[|path| - |b| - 1] == '/')
  {
    var b := Basename(path);
    assert path == path[..|path| - |b|] + path[|path| - |b|..];
  }

  /** The basename of a path ending in `/file` is file. */
  lemma BasenameOf(dir: string, file: string)
    requires '/' !in file
    ensures Basename(dir + "/" + file) == file
  {
    var path := dir + "/" + file;
    var b := Basename(path);
    BasenameSplits(path);
    // A longer suffix would take in the '/' before file; a shorter one
    // would be preceded by a character of file, which is not '/'.
    assert path[|dir|] == '/';
    assert forall k :: |dir| < k < |path| ==> path[k] == file[k - |dir| - 1];
    assert |b| == |file|;
    assert b == path[|path| - |file|..] == file;
  }

  /** The filename written into the part: the one the element gives, else
      the last segment of the stream's path, else none. */
  function Filename(filename: Option<string>, c: Contents): (f: Option<string>)
    ensures filename.Some? ==> f == filename
    ensures filename.None? ==> (f.Some? <==> c.Stream? && c.uri.Some?)
    ensures filename.None? && f.Some? ==> f.value == Basename(c.uri.value)
  {
    if filename.Some? then filename
    else if c.Stream? && c.uri.Some? then Some(Basename(c.uri.value))
    else None
  }

  /** The extension of a filename: what follows its last dot. */
  function Extension(filename: string): Option<string> {
    match LastIndexOf(filename, '.')
    case None => None
    case Some(i) => Some(filename[i + 1..])
  }

  /** There is an extension exactly when the filename has a dot; it has no
      dot itself and, with the dot, ends the filename. */
  lemma ExtensionSplits(filename: string)
    ensures Extension(filename).None? <==> '.' !in filename
    ensures var e := Extension(filename);
      e.Some? ==> ('.' !in e.value && |e.value| < |filename|
        && filename == filename[..|filename| - |e.value| - 1] + "." + e.value)
  {
    match LastIndexOf(filename, '.')
    case None =>
    case Some(i) =>
      assert filename == filename[..i] + "." + filename[i + 1..];
  }

  /** The media type guessed from a filename's extension. */
  function MimeType(filename: string): string {
    match Extension(filename)
    case None => "application/octet-stream"
    case Some(e) =>
      if e == "txt" then "text/plain"
      else if e == "jpg" || e == "jpeg" then "image/jpeg"
      else if e == "gif" then "image/gif"
      else if e == "png" then "image/png"
      else "application/octet-stream"
  }

  /** The media type depends only on the text after the last dot. */
  lemma MimeTypeOfExtension(stem: string, ext: string)
    requires '.' !in ext
    ensures Extension(stem + "." + ext) == Some(ext)
    ensures ext == "txt" ==> MimeType(stem + "." + ext) == "text/plain"
    ensures ext == "jpg" || ext == "jpeg" ==> MimeType(stem + "." + ext) == "image/jpeg"
    ensures ext == "gif" ==> MimeType(stem + "." + ext) == "image/gif"
    ensures ext == "png" ==> MimeType(stem + "." + ext) == "image/png"
  {
    var f := stem + "." + ext;
    assert f[|stem|] == '.';
    assert f[|stem| + 1..] == ext;
  }

  /** True when the caller gave a header named like name, ignoring case. */
  predicate HasHeader(headers: seq<Header>, name: string) {
    headers != [] && (SameIgnoringCase(headers[0].0, name) || HasHeader(headers[1..], name))
  }

  /** True when the headers hold one named exactly name. */
  predicate Names(hs: seq<Header>, name: string) {
    exists i :: 0 <= i < |hs| && hs[i].0 == name
  }

  const ContentDisposition: string := "Content-Disposition"
  const ContentLength: string := "Content-Length"
  const ContentType: string := "Content-Type"

  /** Position of a default header in the fixed order of the defaults. */
  function DefaultRank(name: string): nat {
    if name == ContentDisposition then 0
    else if name == ContentLength then 1
    else 2
  }

  /** The Content-Disposition value of section 4.2 of RFC 7578. */
  function Disposition(name: string, filename: Option<string>): string {
    "form-data; name=\"" + name + "\""
      + (if filename.Some? then "; filename=\"" + filename.value + "\"" else "")
  }

  /** The headers added after the caller's: Content-Disposition, then
      Content-Length, then Content-Type, each only when no caller header has
      the same name ignoring case; Content-Length only for a known non-zero
      size, Content-Type only when there is a filename. */
  function DefaultHeaders(name: string, c: Contents, filename: Option<string>, headers: seq<Header>): (d: seq<Header>)
    ensures |d| <= 3
  {
    DispositionDefault(name, filename, headers) + LengthDefault(c, headers) + TypeDefault(filename, headers)
  }

  function DispositionDefault(name: string, filename: Option<string>, headers: seq<Header>): seq<Header> {
    if HasHeader(headers, ContentDisposition) then []
    else [(ContentDisposition, Disposition(name, filename))]
  }

  function LengthDefault(c: Contents, headers: seq<Header>): seq<Header> {
    if HasHeader(headers, ContentLength) then []
    else match Size(c)
      case Some(n) => if n > 0 then [(ContentLength, Decimal.IntToString(n))] else []
      case None => []
  }

  function TypeDefault(filename: Option<string>, headers: seq<Header>): seq<Header> {
    if HasHeader(headers, ContentType) || filename.None? then []
    else [(ContentType, MimeType(filename.value))]
  }

  lemma NamesAppend(a: seq<Header>, b: seq<Header>, name: string)
    ensures Names(a + b, name) <==> Names(a, name) || Names(b, name)
  {
    if Names(a + b, name) {
      var i :| 0 <= i < |a + b| && (a + b)[i].0 == name;
      if i >= |a| {
        assert b[i - |a|] == (a + b)[i];
      }
    }
    if Names(b, name) {
      var i :| 0 <= i < |b| && b[i].0 == name;
      assert (a + b)[|a| + i] == b[i];
    }
    if Names(a, name) {
      var i :| 0 <= i < |a| && a[i].0 == name;
      assert (a + b)[i] == a[i];
    }
  }

  /** The defaults come in the fixed order Content-Disposition,
      Content-Length, Content-Type, and none has the name of a caller
      header, ignoring case. */
  lemma DefaultHeadersOrder(name: string, c: Contents, filename: Option<string>, headers: seq<Header>)
    ensures var d := DefaultHeaders(name, c, filename, headers);
      && (forall i, j :: 0 <= i < j < |d| ==> DefaultRank(d[i].0) < DefaultRank(d[j].0))
      && (forall i :: 0 <= i < |d| ==> !HasHeader(headers, d[i].0))
  {
  }

  /** Each default is present exactly when no caller header suppresses it
      and its own condition holds. */
  lemma DefaultHeadersPresence(name: string, c: Contents, filename: Option<string>, headers: seq<Header>)
    ensures var d := DefaultHeaders(name, c, filename, headers);
      && (Names(d, ContentDisposition) <==> !HasHeader(headers, ContentDisposition))
      && (Names(d, ContentLength)
          <==> !HasHeader(headers, ContentLength) && Size(c).Some? && Size(c).value > 0)
      && (Names(d, ContentType) <==> !HasHeader(headers, ContentType) && filename.Some?)
  {
    var d1, d2, d3 := DispositionDefault(name, filename, headers), LengthDefault(c, headers), TypeDefault(filename, headers);
    assert |ContentDisposition| == 19 && |ContentLength| == 14 && |ContentType| == 12;
    if !HasHeader(headers, ContentDisposition) {
      assert d1[0].0 == ContentDisposition;
    }
    if !HasHeader(headers, ContentLength) && Size(c).Some? && Size(c).value > 0 {
      assert d2[0].0 == ContentLength;
    } else {
      assert d2 == [];
    }
    if !HasHeader(headers, ContentType) && filename.Some? {
      assert d3[0].0 == ContentType;
    }
    assert !Names(d1, ContentLength) && !Names(d1, ContentType);
    assert !Names(d2, ContentDisposition) && !Names(d2, ContentType);
    assert !Names(d3, ContentDisposition) && !Names(d3, ContentLength);
    forall n | n in {ContentDisposition, ContentLength, ContentType}
      ensures Names(d1 + d2 + d3, n) <==> Names(d1, n) || Names(d2, n) || Names(d3, n)
    {
      NamesAppend(d1 + d2, d3, n);
      NamesAppend(d1, d2, n);
    }
  }

  /** Each default carries its value; the Content-Length value reads back as
      the body's byte count. */
  lemma DefaultHeadersValues(name: string, c: Contents, filename: Option<string>, headers: seq<Header>)
    ensures var d := DefaultHeaders(name, c, filename, headers);
      && (forall i :: 0 <= i < |d| && d[i].0 == ContentDisposition ==> d[i].1 == Disposition(name, filename))
      && (forall i :: 0 <= i < |d| && d[i].0 == ContentLength ==> Decimal.ParseInt(d[i].1) == |Body(c)|)
      && (forall i :: 0 <= i < |d| && d[i].0 == ContentType ==> filename.Some? && d[i].1 == MimeType(filename.value))
  {
    var d1, d2, d3 := DispositionDefault(name, filename, headers), LengthDefault(c, headers), TypeDefault(filename, headers);
    var d := d1 + d2 + d3;
    assert |ContentDisposition| == 19 && |ContentLength| == 14 && |ContentType| == 12;
    LengthDefaultValue(c, headers);
    forall i | 0 <= i < |d|
      ensures d[i].0 == ContentDisposition ==> d[i].1 == Disposition(name, filename)
      ensures d[i].0 == ContentLength ==> Decimal.ParseInt(d[i].1) == |Body(c)|
      ensures d[i].0 == ContentType ==> filename.Some? && d[i].1 == MimeType(filename.value)
    {
      if i < |d1| {
        assert d[i] == d1[i];
      } else if i < |d1| + |d2| {
        assert d[i] == d2[i - |d1|];
      } else {
        assert d[i] == d3[i - |d1| - |d2|];
      }
    }
  }

  /** A Content-Length default, when there is one, reads back as the body's
      byte count. */
  lemma LengthDefaultValue(c: Contents, headers: seq<Header>)
    ensures forall i :: 0 <= i < |LengthDefault(c, headers)| ==>
      LengthDefault(c, headers)[i].0 == ContentLength && Decimal.ParseInt(LengthDefault(c, headers)[i].1) == |Body(c)|
  {
    if LengthDefault(c, headers) != [] {
      assert LengthDefault(c, headers) == [(ContentLength, Decimal.IntToString(|Body(c)|))];
      Decimal.ParseIntOfIntToString(|Body(c)|);
    }
  }

  /** All headers of a part: the caller's, in order and casing, then the defaults. */
  function PartHeaders(name: string, c: Contents, filename: Option<string>, headers: seq<Header>): (hs: seq<Header>)
    ensures |hs| >= |headers| && hs[..|headers|] == headers
    ensures hs[|headers|..] == DefaultHeaders(name, c, filename, headers)
  {
    headers + DefaultHeaders(name, c, filename, headers)
  }

  /** The `Name: Value` line of one header. */
  function HeaderText(h: Header): string {
    h.0 + ": " + h.1
  }

  /** One `Name: Value` line per header. */
  function HeaderLines(hs: seq<Header>): string {
    if hs == [] then "" else HeaderText(hs[0]) + CRLF + HeaderLines(hs[1..])
  }

  /** The header lines without their line breaks. */
  function HeaderTexts(hs: seq<Header>): (ts: seq<string>)
    ensures |ts| == |hs|
  {
    if hs == [] then [] else [HeaderText(hs[0])] + HeaderTexts(hs[1..])
  }

  lemma {:induction false} HeaderLinesAsLines(hs: seq<Header>)
    ensures HeaderLines(hs) == Lines(HeaderTexts(hs))
  {
    if hs != [] {
      HeaderLinesAsLines(hs[1..]);
      assert HeaderTexts(hs)[0] == HeaderText(hs[0]);
      assert HeaderTexts(hs)[1..] == HeaderTexts(hs[1..]);
    }
  }

  lemma {:induction false} HeaderLinesAppend(a: seq<Header>, b: seq<Header>)
    ensures HeaderLines(a + b) == HeaderLines(a) + HeaderLines(b)
  {
    if a == [] {
      assert a + b == b;
    } else {
      assert (a + b)[0] == a[0];
      assert (a + b)[1..] == a[1..] + b;
      HeaderLinesAppend(a[1..], b);
    }
  }

  /** The caller's header lines come first, verbatim, before the defaults. */
  lemma CallerHeadersFirst(name: string, c: Contents, filename: Option<string>, headers: seq<Header>)
    ensures HeaderLines(PartHeaders(name, c, filename, headers))
      == HeaderLines(headers) + HeaderLines(DefaultHeaders(name, c, filename, headers))
  {
    HeaderLinesAppend(headers, DefaultHeaders(name, c, filename, headers));
  }

  /** The opening delimiter line of every part. */
  function Delimiter(boundary: string): string {
    "--" + boundary + CRLF
  }

  /** The closing delimiter line that ends the body. */
  function Closing(boundary: string): string {
    "--" + boundary + "--" + CRLF
  }

  /** The closing delimiter is the single line `--boundary--`. */
  lemma ClosingAsLines(boundary: string)
    ensures Closing(boundary) == Lines(["--" + boundary + "--"])
  {
    assert ["--" + boundary + "--"][1..] == [];
    assert Lines(["--" + boundary + "--"]) == "--" + boundary + "--" + CRLF + "";
  }

  /** One part: delimiter, header lines, blank line, body, line break. */
  function RenderPart(boundary: string, name: string, c: Contents, filename: Option<string>, headers: seq<Header>): string {
    Delimiter(boundary) + HeaderLines(PartHeaders(name, c, Filename(filename, c), headers)) + CRLF + Body(c) + CRLF
  }

  /** Delimiter, header lines, blank line and body, read line by line. */
  lemma {:induction false} FramedAsLines(boundary: string, hs: seq<Header>, body: string)
    ensures Delimiter(boundary) + HeaderLines(hs) + CRLF + body + CRLF
      == Lines(["--" + boundary] + HeaderTexts(hs) + ["", body])
  {
    var ts := HeaderTexts(hs);
    HeaderLinesAsLines(hs);
    var tail: seq<string> := ["", body];
    assert tail[1..] == [body] && [body][1..] == [];
    assert Lines([body]) == body + CRLF + "";
    assert Lines(tail) == "" + CRLF + Lines([body]);
    assert Lines(tail) == CRLF + body + CRLF;
    LinesAppend(["--" + boundary], ts + tail);
    LinesAppend(ts, tail);
    assert ["--" + boundary][1..] == [];
    assert Lines(["--" + boundary]) == "--" + boundary + CRLF + "";
    assert Lines(["--" + boundary]) == Delimiter(boundary);
    assert ["--" + boundary] + ts + tail == ["--" + boundary] + (ts + tail);
  }

  /** A part read line by line: the delimiter, one line per header, a
      blank line, and the body as the last line. */
  lemma PartAsLines(boundary: string, name: string, c: Contents, filename: Option<string>, headers: seq<Header>)
    ensures RenderPart(boundary, name, c, filename, headers)
      == Lines(["--" + boundary] + HeaderTexts(PartHeaders(name, c, Filename(filename, c), headers)) + ["", Body(c)])
  {
    FramedAsLines(boundary, PartHeaders(name, c, Filename(filename, c), headers), Body(c));
  }

  /** An element's part, or the error for its first missing key (contents
      is checked before name). */
  function RenderElement(boundary: string, e: Element): (r: Result<string, ElementError>)
    ensures r.Failure? <==> e.contents.None? || e.name.None?
    ensures r.Success? ==> |r.value| >= |Delimiter(boundary)| + 2
    ensures r.Success? ==> r.value[..|Delimiter(boundary)|] == Delimiter(boundary)
    ensures r.Success? ==> r.value[|r.value| - 2..] == CRLF
    ensures r.Failure? ==> r.error == MissingKey(if e.contents.None? then "contents" else "name")
  {
    if e.contents.None? then Failure(MissingKey("contents"))
    else if e.name.None? then Failure(MissingKey("name"))
    else Success(RenderPart(boundary, e.name.value, e.contents.value, e.filename, e.headers))
  }

  /** The concatenation of the parts render gives the elements, in order,
      or the error of the first element it rejects. */
  function JoinParts(es: seq<Element>, render: Element -> Result<string, ElementError>): Result<string, ElementError> {
    if es == [] then Success("")
    else match JoinParts(es[..|es| - 1], render)
      case Failure(err) => Failure(err)
      case Success(front) =>
        match render(es[|es| - 1])
        case Failure(err) => Failure(err)
        case Success(last) => Success(front + last)
  }

  /** The renderer of one encoder: each element's part for this boundary. */
  function Renderer(boundary: string): Element -> Result<string, ElementError> {
    e => RenderElement(boundary, e)
  }

  /** The parts of all elements in order, failing at the first bad element. */
  function EncodeParts(es: seq<Element>, boundary: string): Result<string, ElementError> {
    JoinParts(es, Renderer(boundary))
  }

  /** The whole body: every part, then the closing delimiter. */
  function Encode(es: seq<Element>, boundary: string): Result<string, ElementError> {
    match EncodeParts(es, boundary)
    case Failure(err) => Failure(err)
    case Success(parts) => Success(parts + Closing(boundary))
  }

  /** Joining fails exactly when render rejects some element, and then with
      the error of the first one it rejects. */
  lemma {:induction false} JoinPartsFails(es: seq<Element>, render: Element -> Result<string, ElementError>)
    ensures JoinParts(es, render).Failure? <==> exists i :: 0 <= i < |es| && render(es[i]).Failure?
    ensures JoinParts(es, render).Failure? ==>
      exists i :: 0 <= i < |es| && render(es[i]).Failure? && (forall j :: 0 <= j < i ==> render(es[j]).Success?)
        && JoinParts(es, render).error == render(es[i]).error
  {
    if es != [] {
      var front := es[..|es| - 1];
      JoinPartsFails(front, render);
      if JoinParts(front, render).Success? {
        assert forall j :: 0 <= j < |front| ==> render(es[j]).Success? by {
          forall j | 0 <= j < |front| ensures render(es[j]).Success? {
            assert front[j] == es[j];
          }
        }
      } else {
        var i :| 0 <= i < |front| && render(front[i]).Failure? && (forall j :: 0 <= j < i ==> render(front[j]).Success?)
          && JoinParts(front, render).error == render(front[i]).error;
        assert es[i] == front[i];
        assert forall j :: 0 <= j < i ==> es[j] == front[j];
      }
    }
  }

  /** Once a prefix fails, the whole list fails with the same error. */
  lemma {:induction false} JoinPartsPrefixFails(es: seq<Element>, k: nat, render: Element -> Result<string, ElementError>)
    requires k <= |es| && JoinParts(es[..k], render).Failure?
    ensures JoinParts(es, render) == JoinParts(es[..k], render)
    decreases |es| - k
  {
    if k == |es| {
      assert es[..k] == es;
    } else {
      var front := es[..|es| - 1];
      assert front[..k] == es[..k];
      JoinPartsPrefixFails(front, k, render);
    }
  }

  /** Joining distributes over concatenation of element lists. */
  lemma {:induction false} JoinPartsAppend(a: seq<Element>, b: seq<Element>, render: Element -> Result<string, ElementError>)
    requires JoinParts(a, render).Success? && JoinParts(b, render).Success?
    ensures JoinParts(a + b, render) == Success(JoinParts(a, render).value + JoinParts(b, render).value)
  {
    if b == [] {
      assert a + b == a;
      assert JoinParts(a, render).value + "" == JoinParts(a, render).value;
    } else {
      var b', last := b[..|b| - 1], b[|b| - 1];
      assert (a + b)[..|a + b| - 1] == a + b';
      assert (a + b)[|a + b| - 1] == last;
      var pa, pb := JoinParts(a, render).value, JoinParts(b, render).value;
      var pb', r := JoinParts(b', render).value, render(last).value;
      JoinPartsAppend(a, b', render);
      assert (pa + pb') + r == pa + pb;
    }
  }

  predicate IsBad(e: Element) {
    e.contents.None? || e.name.None?
  }

  /** Encoding fails exactly when some element lacks contents or name, and
      then with the missing key of the first such element. */
  lemma EncodePartsFails(es: seq<Element>, boundary: string)
    ensures EncodeParts(es, boundary).Failure? <==> exists i :: 0 <= i < |es| && IsBad(es[i])
    ensures EncodeParts(es, boundary).Failure? ==>
      exists i :: 0 <= i < |es| && IsBad(es[i]) && (forall j :: 0 <= j < i ==> !IsBad(es[j]))
        && EncodeParts(es, boundary).error == MissingKey(if es[i].contents.None? then "contents" else "name")
  {
    var render := Renderer(boundary);
    JoinPartsFails(es, render);
    assert forall e :: render(e).Failure? <==> IsBad(e);
  }

  /** Encoding distributes over concatenation of element lists. */
  lemma EncodePartsAppend(a: seq<Element>, b: seq<Element>, boundary: string)
    requires EncodeParts(a, boundary).Success? && EncodeParts(b, boundary).Success?
    ensures EncodeParts(a + b, boundary)
      == Success(EncodeParts(a, boundary).value + EncodeParts(b, boundary).value)
  {
    JoinPartsAppend(a, b, Renderer(boundary));
  }

  /** A one-element list encodes to that element's part. */
  lemma EncodePartsSingle(e: Element, boundary: string)
    ensures EncodeParts([e], boundary) == RenderElement(boundary, e)
  {
    assert [e][..0] == [] && [e][|[e]| - 1] == e;
    assert Renderer(boundary)(e) == RenderElement(boundary, e);
    assert JoinParts([], Renderer(boundary)) == Success("");
    if RenderElement(boundary, e).Success? {
      var p := RenderElement(boundary, e).value;
      assert "" + p == p;
    }
  }

  /** With no elements the body is the closing delimiter alone, |b| + 6 bytes. */
  lemma EncodeEmpty(boundary: string)
    ensures Encode([], boundary) == Success("--" + boundary + "--\r\n")
    ensures |Encode([], boundary).value| == |boundary| + 6
  {
    var empty: seq<Element> := [];
    assert EncodeParts(empty, boundary) == Success("");
    assert Closing(boundary) == "--" + boundary + "--\r\n";
    assert "" + Closing(boundary) == Closing(boundary);
  }

  /** A successful body opens with the boundary and ends with the closing delimiter. */
  lemma {:induction false} EncodeFraming(es: seq<Element>, boundary: string)
    requires Encode(es, boundary).Success?
    ensures var body := Encode(es, boundary).value;
      |body| >= |Closing(boundary)|
      && body[..2 + |boundary|] == "--" + boundary
      && body[|body| - |Closing(boundary)|..] == Closing(boundary)
  {
    var parts := EncodeParts(es, boundary).value;
    var body := parts + Closing(boundary);
    assert body[|body| - |Closing(boundary)|..] == Closing(boundary);
    if es == [] {
      assert body[..2 + |boundary|] == "--" + boundary;
    } else {
      PartsOpenWithDelimiter(es, boundary);
      assert body[..2 + |boundary|] == parts[..2 + |boundary|];
    }
  }

  lemma {:induction false} PartsOpenWithDelimiter(es: seq<Element>, boundary: string)
    requires es != [] && EncodeParts(es, boundary).Success?
    ensures var p := EncodeParts(es, boundary).value;
      |p| >= 2 + |boundary| && p[..2 + |boundary|] == "--" + boundary
  {
    var front, e := es[..|es| - 1], es[|es| - 1];
    assert Renderer(boundary)(e) == RenderElement(boundary, e);
    var last := RenderElement(boundary, e).value;
    var p := EncodeParts(es, boundary).value;
    assert p == EncodeParts(front, boundary).value + last;
    assert last[..2 + |boundary|] == Delimiter(boundary)[..2 + |boundary|] == "--" + boundary;
    if front != [] {
      PartsOpenWithDelimiter(front, boundary);
    }
  }

  /** True when every element's contents report their size. */
  predicate SizesKnown(es: seq<Element>) {
    forall i :: 0 <= i < |es| && es[i].contents.Some? ==> Size(es[i].contents.value).Some?
  }

  /** The boundary actually used: the one supplied when it is non-empty,
      else the generated token. */
  function ChooseBoundary(boundary: Option<string>, generated: string): (b: string)
    requires generated != ""
    ensures b != ""
    ensures boundary.Some? && boundary.value != "" ==> b == boundary.value
  {
    if boundary.Some? && boundary.value != "" then boundary.value else generated
  }
}
