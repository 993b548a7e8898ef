/** How the encoder renders stream contents: the filename taken from the
    stream's path, the media type guessed from its extension, and caller
    headers that replace a default whatever their case. */
module MultipartFiles {
  import opened Wrappers
  import opened Text
  import opened MultipartParts
  import opened MultipartExamples
  import Decimal

  /** A stream element with a known size and a path, and no filename. */
  function File(name: string, data: string, uri: string, headers: seq<Header>): Element {
    Element(Some(name), Some(Stream(data, Some(uri), true)), None, headers)
  }

  /** The defaults of such a stream without caller headers: disposition
      with the path's last segment as filename, length, and the media type
      of its extension. */
  lemma StreamDefaultsAlone(name: string, data: string, uri: string)
    requires |data| > 0
    ensures var c := Stream(data, Some(uri), true);
      DefaultHeaders(name, c, Filename(None, c), [])
        == [(ContentDisposition, Disposition(name, Some(Basename(uri)))), (ContentLength, Decimal.IntToString(|data|)),
            (ContentType, MimeType(Basename(uri)))]
  {
    assert !HasHeader([], ContentDisposition) && !HasHeader([], ContentLength) && !HasHeader([], ContentType);
    StreamDefaults(name, data, uri, []);
  }

  /** An element without caller headers whose defaults are the given
      three headers. */
  lemma ThreeDefaultsLines(boundary: string, e: Element, h0: Header, h1: Header, h2: Header)
    requires !IsBad(e) && e.headers == []
    requires DefaultHeaders(e.name.value, e.contents.value, Filename(e.filename, e.contents.value), []) == [h0, h1, h2]
    ensures RenderElement(boundary, e) == Success(Lines([
      "--" + boundary, HeaderText(h0), HeaderText(h1), HeaderText(h2), "", Body(e.contents.value)]))
  {
    ElementLines(boundary, e);
    HeaderTextsOfSmall([h0, h1, h2]);
    assert HeaderTexts([]) == [];
    var ts := [HeaderText(h0), HeaderText(h1), HeaderText(h2)];
    assert ["--" + boundary] + HeaderTexts(e.headers) + ts + ["", Body(e.contents.value)]
      == ["--" + boundary, HeaderText(h0), HeaderText(h1), HeaderText(h2), "", Body(e.contents.value)];
  }

  /** A file without caller headers: the disposition names the path's last
      segment as filename, then come the length and the media type of that
      segment's extension. */
  lemma FileLines(boundary: string, name: string, data: string, uri: string)
    requires |data| > 0
    ensures RenderElement(boundary, File(name, data, uri, [])) == Success(Lines([
      "--" + boundary,
      HeaderText((ContentDisposition, Disposition(name, Some(Basename(uri))))),
      HeaderText((ContentLength, Decimal.IntToString(|data|))),
      HeaderText((ContentType, MimeType(Basename(uri)))),
      "",
      data]))
  {
    StreamDefaultsAlone(name, data, uri);
    var f := Basename(uri);
    ThreeDefaultsLines(boundary, File(name, data, uri, []), (ContentDisposition, Disposition(name, Some(f))),
      (ContentLength, Decimal.IntToString(|data|)), (ContentType, MimeType(f)));
  }

  /** A path `dir/stem.ext` names the file `stem.ext`, whose extension is
      ext, so its media type is the one ext implies. */
  lemma FileNameOfPath(dir: string, stem: string, ext: string)
    requires '/' !in stem + "." + ext && '.' !in ext
    ensures Basename(dir + "/" + (stem + "." + ext)) == stem + "." + ext
    ensures Extension(Basename(dir + "/" + (stem + "." + ext))) == Some(ext)
  {
    BasenameOf(dir, stem + "." + ext);
    MimeTypeOfExtension(stem, ext);
  }

  /** A file with caller headers: the caller's lines first, verbatim, then
      the defaults no caller header replaces. */
  lemma StreamLines(boundary: string, name: string, data: string, uri: string, headers: seq<Header>)
    requires |data| > 0
    ensures RenderElement(boundary, File(name, data, uri, headers)) == Success(Lines(["--" + boundary]
      + HeaderTexts(headers)
      + HeaderTexts((if HasHeader(headers, ContentDisposition) then [] else [(ContentDisposition, Disposition(name, Some(Basename(uri))))])
         + (if HasHeader(headers, ContentLength) then [] else [(ContentLength, Decimal.IntToString(|data|))])
         + (if HasHeader(headers, ContentType) then [] else [(ContentType, MimeType(Basename(uri)))]))
      + ["", data]))
  {
    var e, c := File(name, data, uri, headers), Stream(data, Some(uri), true);
    assert e.contents.value == c && e.name.value == name && e.filename == None && Body(c) == data;
    ElementLines(boundary, e);
    StreamDefaults(name, data, uri, headers);
  }

  /** A caller Content-Disposition, in any case, replaces the default one:
      the part keeps the caller's lines, then length and media type. */
  lemma CustomDispositionLines(boundary: string, name: string, data: string, uri: string, headers: seq<Header>)
    requires |data| > 0
    requires HasHeader(headers, ContentDisposition) && !HasHeader(headers, ContentLength) && !HasHeader(headers, ContentType)
    ensures RenderElement(boundary, File(name, data, uri, headers)) == Success(Lines(["--" + boundary]
      + HeaderTexts(headers)
      + [HeaderText((ContentLength, Decimal.IntToString(|data|))), HeaderText((ContentType, MimeType(Basename(uri))))]
      + ["", data]))
  {
    StreamLines(boundary, name, data, uri, headers);
    var d := [(ContentLength, Decimal.IntToString(|data|)), (ContentType, MimeType(Basename(uri)))];
    assert [] + [d[0]] + [d[1]] == d;
    HeaderTextsOfSmall(d);
  }

  /** A caller Content-Type, in any case, replaces the default one: the
      part keeps the caller's lines, then disposition and length. */
  lemma CustomTypeLines(boundary: string, name: string, data: string, uri: string, headers: seq<Header>)
    requires |data| > 0
    requires HasHeader(headers, ContentType) && !HasHeader(headers, ContentDisposition) && !HasHeader(headers, ContentLength)
    ensures RenderElement(boundary, File(name, data, uri, headers)) == Success(Lines(["--" + boundary]
      + HeaderTexts(headers)
      + [HeaderText((ContentDisposition, Disposition(name, Some(Basename(uri))))),
         HeaderText((ContentLength, Decimal.IntToString(|data|)))]
      + ["", data]))
  {
    StreamLines(boundary, name, data, uri, headers);
    var d := [(ContentDisposition, Disposition(name, Some(Basename(uri)))), (ContentLength, Decimal.IntToString(|data|))];
    assert [d[0]] + [d[1]] + [] == d;
    HeaderTextsOfSmall(d);
  }

  /** The three streams of the file tests report the paths `/foo/bar.txt`,
      `/foo/baz.jpg` and `/foo/bar.gif`: their file names and media types. */
  lemma BarTxtName(path: string, file: string)
    requires path == "/foo/bar.txt" && file == "bar.txt"
    ensures Basename(path) == file
  {
    BasenameOf("/foo", file);
    assert "/foo" + "/" + file == path;
  }

  lemma BarTxtType(file: string)
    requires file == "bar.txt"
    ensures MimeType(file) == "text/plain"
  {
    MimeTypeOfExtension("bar", "txt");
    assert "bar" + "." + "txt" == file;
  }

  lemma BazJpgName(path: string, file: string)
    requires path == "/foo/baz.jpg" && file == "baz.jpg"
    ensures Basename(path) == file
  {
    BasenameOf("/foo", file);
    assert "/foo" + "/" + file == path;
  }

  lemma BazJpgType(file: string)
    requires file == "baz.jpg"
    ensures MimeType(file) == "image/jpeg"
  {
    MimeTypeOfExtension("baz", "jpg");
    assert "baz" + "." + "jpg" == file;
  }

  lemma BarGifName(path: string, file: string)
    requires path == "/foo/bar.gif" && file == "bar.gif"
    ensures Basename(path) == file
  {
    BasenameOf("/foo", file);
    assert "/foo" + "/" + file == path;
  }

  lemma BarGifType(file: string)
    requires file == "bar.gif"
    ensures MimeType(file) == "image/gif"
  {
    MimeTypeOfExtension("bar", "gif");
    assert "bar" + "." + "gif" == file;
  }

  /** `content-disposition` names the disposition default and no other. */
  lemma DispositionName(h: string)
    requires h == "content-disposition"
    ensures SameIgnoringCase(h, ContentDisposition)
    ensures !SameIgnoringCase(h, ContentLength) && !SameIgnoringCase(h, ContentType)
  {
    assert |h| == |ContentDisposition| == 19;
    forall k | 0 <= k < 19
      ensures LowerChar(h[k]) == LowerChar(ContentDisposition[k])
    {
    }
    SameIgnoringCasePointwise(h, ContentDisposition);
  }

  /** `cOntenT-Type` names the type default and no other. */
  lemma TypeName(h: string)
    requires h == "cOntenT-Type"
    ensures SameIgnoringCase(h, ContentType)
    ensures !SameIgnoringCase(h, ContentLength) && !SameIgnoringCase(h, ContentDisposition)
  {
    SameIgnoringCasePointwise(h, ContentType);
  }

  /** The caller headers of the first custom-header element replace only the
      disposition default. */
  lemma FirstCustomHeaders(x: string, h: string)
    requires x == "x-foo" && h == "content-disposition"
    ensures var hs := [(x, "bar"), (h, "custom")];
      HasHeader(hs, ContentDisposition) && !HasHeader(hs, ContentLength) && !HasHeader(hs, ContentType)
  {
    DispositionName(h);
    var hs := [(x, "bar"), (h, "custom")];
    assert |x| == 5;
    assert hs[1..] == [(h, "custom")] && hs[1..][1..] == [];
    assert !HasHeader(hs[1..][1..], ContentLength) && !HasHeader(hs[1..][1..], ContentType);
    assert !HasHeader(hs[1..], ContentLength) && !HasHeader(hs[1..], ContentType);
  }

  /** The caller header of the second element replaces only the type default. */
  lemma SecondCustomHeaders(h: string)
    requires h == "cOntenT-Type"
    ensures var hs := [(h, "custom")];
      HasHeader(hs, ContentType) && !HasHeader(hs, ContentLength) && !HasHeader(hs, ContentDisposition)
  {
    TypeName(h);
    var hs := [(h, "custom")];
    assert hs[1..] == [];
  }
}
