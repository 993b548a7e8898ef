/** The encoder's behaviour on the concrete inputs of its test suite,
    derived from the model and stated line by line. */
module MultipartExamples {
  import opened Wrappers
  import opened Text
  import opened MultipartParts
  import Decimal

  /** A field given by name and contents, without filename or headers. */
  function Field(name: string, c: Contents): Element {
    Element(Some(name), Some(c), None, [])
  }

  lemma {:induction false} HeaderTextsAppend(a: seq<Header>, b: seq<Header>)
    ensures HeaderTexts(a + b) == HeaderTexts(a) + HeaderTexts(b)
  {
    if a == [] {
      assert a + b == b;
    } else {
      assert (a + b)[0] == a[0];
      assert (a + b)[1..] == a[1..] + b;
      HeaderTextsAppend(a[1..], b);
      assert HeaderTexts(a + b) == [HeaderText(a[0])] + (HeaderTexts(a[1..]) + HeaderTexts(b));
    }
  }

  /** The lines of a part whose headers are the caller's followed by the defaults. */
  lemma HeaderBlockLines(boundary: string, hs: seq<Header>, d: seq<Header>, body: string)
    ensures Lines(["--" + boundary] + HeaderTexts(hs + d) + ["", body])
      == Lines(["--" + boundary] + HeaderTexts(hs) + HeaderTexts(d) + ["", body])
  {
    HeaderTextsAppend(hs, d);
    assert ["--" + boundary] + HeaderTexts(hs + d) + ["", body]
      == ["--" + boundary] + HeaderTexts(hs) + HeaderTexts(d) + ["", body];
  }

  /** A complete element renders as its delimiter line, the caller's header
      lines, the default header lines, a blank line and the body. */
  lemma ElementLines(boundary: string, e: Element)
    requires !IsBad(e)
    ensures var c := e.contents.value;
      RenderElement(boundary, e) == Success(Lines(["--" + boundary] + HeaderTexts(e.headers)
        + HeaderTexts(DefaultHeaders(e.name.value, c, Filename(e.filename, c), e.headers)) + ["", Body(c)]))
  {
    var c := e.contents.value;
    var d := DefaultHeaders(e.name.value, c, Filename(e.filename, c), e.headers);
    assert RenderElement(boundary, e) == Success(RenderPart(boundary, e.name.value, c, e.filename, e.headers));
    PartAsLines(boundary, e.name.value, c, e.filename, e.headers);
    assert PartHeaders(e.name.value, c, Filename(e.filename, c), e.headers) == e.headers + d;
    HeaderBlockLines(boundary, e.headers, d, Body(c));
  }

  lemma EncodeTwo(e1: Element, e2: Element, boundary: string)
    requires RenderElement(boundary, e1).Success? && RenderElement(boundary, e2).Success?
    ensures Encode([e1, e2], boundary)
      == Success(RenderElement(boundary, e1).value + RenderElement(boundary, e2).value + Closing(boundary))
  {
    EncodePartsSingle(e1, boundary);
    EncodePartsSingle(e2, boundary);
    EncodePartsAppend([e1], [e2], boundary);
    assert [e1] + [e2] == [e1, e2];
  }

  /** Joining parts given line by line gives their lines in order. */
  lemma JoinOne(e: Element, render: Element -> Result<string, ElementError>, p: seq<string>)
    requires render(e) == Success(Lines(p))
    ensures JoinParts([e], render) == Success(Lines(p))
  {
    assert [e][..0] == [] && [e][0] == e;
    assert "" + Lines(p) == Lines(p);
  }

  lemma JoinTwo(e1: Element, e2: Element, render: Element -> Result<string, ElementError>, p1: seq<string>, p2: seq<string>)
    requires render(e1) == Success(Lines(p1)) && render(e2) == Success(Lines(p2))
    ensures JoinParts([e1, e2], render) == Success(Lines(p1 + p2))
  {
    JoinOne(e1, render, p1);
    assert [e1, e2][..1] == [e1] && [e1, e2][1] == e2;
    LinesAppend(p1, p2);
  }

  lemma JoinThree(e1: Element, e2: Element, e3: Element, render: Element -> Result<string, ElementError>,
                  p1: seq<string>, p2: seq<string>, p3: seq<string>)
    requires render(e1) == Success(Lines(p1)) && render(e2) == Success(Lines(p2)) && render(e3) == Success(Lines(p3))
    ensures JoinParts([e1, e2, e3], render) == Success(Lines(p1 + p2 + p3))
  {
    JoinTwo(e1, e2, render, p1, p2);
    assert [e1, e2, e3][..2] == [e1, e2] && [e1, e2, e3][2] == e3;
    LinesAppend(p1 + p2, p3);
  }

  /** The body is the parts' lines followed by the closing delimiter line. */
  lemma FinishLines(es: seq<Element>, boundary: string, p: seq<string>, expected: seq<string>)
    requires EncodeParts(es, boundary) == Success(Lines(p))
    requires expected == p + ["--" + boundary + "--"]
    ensures Encode(es, boundary) == Success(Lines(expected))
  {
    ClosingAsLines(boundary);
    LinesAppend(p, ["--" + boundary + "--"]);
  }

  /** A one-element body from the lines of its part. */
  lemma OnePart(e: Element, boundary: string, p: seq<string>, expected: seq<string>)
    requires RenderElement(boundary, e) == Success(Lines(p))
    requires expected == p + ["--" + boundary + "--"]
    ensures Encode([e], boundary) == Success(Lines(expected))
  {
    assert Renderer(boundary)(e) == RenderElement(boundary, e);
    JoinOne(e, Renderer(boundary), p);
    FinishLines([e], boundary, p, expected);
  }

  /** A two-element body from the lines of its two parts. */
  lemma TwoParts(e1: Element, e2: Element, boundary: string, p1: seq<string>, p2: seq<string>, expected: seq<string>)
    requires RenderElement(boundary, e1) == Success(Lines(p1))
    requires RenderElement(boundary, e2) == Success(Lines(p2))
    requires expected == p1 + p2 + ["--" + boundary + "--"]
    ensures Encode([e1, e2], boundary) == Success(Lines(expected))
  {
    assert Renderer(boundary)(e1) == RenderElement(boundary, e1);
    assert Renderer(boundary)(e2) == RenderElement(boundary, e2);
    JoinTwo(e1, e2, Renderer(boundary), p1, p2);
    FinishLines([e1, e2], boundary, p1 + p2, expected);
  }

  /** A three-element body from the lines of its three parts. */
  lemma ThreeParts(e1: Element, e2: Element, e3: Element, boundary: string,
                   p1: seq<string>, p2: seq<string>, p3: seq<string>, expected: seq<string>)
    requires RenderElement(boundary, e1) == Success(Lines(p1))
    requires RenderElement(boundary, e2) == Success(Lines(p2))
    requires RenderElement(boundary, e3) == Success(Lines(p3))
    requires expected == p1 + p2 + p3 + ["--" + boundary + "--"]
    ensures Encode([e1, e2, e3], boundary) == Success(Lines(expected))
  {
    assert Renderer(boundary)(e1) == RenderElement(boundary, e1);
    assert Renderer(boundary)(e2) == RenderElement(boundary, e2);
    assert Renderer(boundary)(e3) == RenderElement(boundary, e3);
    JoinThree(e1, e2, e3, Renderer(boundary), p1, p2, p3);
    FinishLines([e1, e2, e3], boundary, p1 + p2 + p3, expected);
  }

  /** The header line of a default Content-Disposition. */
  lemma DispositionText(name: string, filename: Option<string>)
    ensures HeaderText((ContentDisposition, Disposition(name, filename)))
      == "Content-Disposition: form-data; name=\"" + name + "\""
        + (if filename.Some? then "; filename=\"" + filename.value + "\"" else "")
  {
  }

  /** The defaults of a scalar field without caller headers: the
      disposition, then the length unless the text is empty. */
  lemma ScalarDefaults(name: string, c: Contents)
    requires !c.Stream?
    ensures DefaultHeaders(name, c, None, []) == [(ContentDisposition, Disposition(name, None))]
      + (if |Body(c)| > 0 then [(ContentLength, Decimal.IntToString(|Body(c)|))] else [])
  {
    assert !HasHeader([], ContentDisposition) && !HasHeader([], ContentLength) && !HasHeader([], ContentType);
  }

  /** A scalar field renders as its delimiter, its default header lines, a
      blank line and its text. */
  lemma FieldRender(boundary: string, name: string, c: Contents)
    requires !c.Stream?
    ensures RenderElement(boundary, Field(name, c))
      == Success(Lines(["--" + boundary] + HeaderTexts(DefaultHeaders(name, c, None, [])) + ["", Body(c)]))
  {
    var e := Field(name, c);
    ElementLines(boundary, e);
    assert e.contents.value == c && e.name.value == name && e.headers == [] && Filename(e.filename, c) == None;
    assert HeaderTexts([]) == [];
    assert ["--" + boundary] + HeaderTexts([]) == ["--" + boundary];
  }

  /** The default header lines of a scalar field: the disposition, then the
      length unless the text is empty. */
  lemma ScalarHeaderTexts(name: string, c: Contents)
    requires !c.Stream?
    ensures HeaderTexts(DefaultHeaders(name, c, None, [])) == ["Content-Disposition: form-data; name=\"" + name + "\""]
      + (if |Body(c)| > 0 then ["Content-Length: " + Decimal.IntToString(|Body(c)|)] else [])
  {
    ScalarDefaults(name, c);
    DispositionText(name, None);
    var d0 := (ContentDisposition, Disposition(name, None));
    assert HeaderText(d0) == "Content-Disposition: form-data; name=\"" + name + "\"";
    if |Body(c)| > 0 {
      var d1 := (ContentLength, Decimal.IntToString(|Body(c)|));
      HeaderTextsOfSmall([d0, d1]);
      assert HeaderText(d1) == "Content-Length: " + Decimal.IntToString(|Body(c)|);
    } else {
      HeaderTextsOfSmall([d0]);
    }
  }

  /** A non-empty scalar field gets a Content-Disposition and a
      Content-Length line. */
  lemma FieldLines(boundary: string, name: string, c: Contents)
    requires !c.Stream? && |Body(c)| > 0
    ensures RenderElement(boundary, Field(name, c)) == Success(Lines([
      "--" + boundary,
      "Content-Disposition: form-data; name=\"" + name + "\"",
      "Content-Length: " + Decimal.IntToString(|Body(c)|),
      "",
      Body(c)]))
  {
    FieldRender(boundary, name, c);
    ScalarHeaderTexts(name, c);
    var disposition := "Content-Disposition: form-data; name=\"" + name + "\"";
    var length := "Content-Length: " + Decimal.IntToString(|Body(c)|);
    assert ["--" + boundary] + ([disposition] + [length]) + ["", Body(c)]
      == ["--" + boundary, disposition, length, "", Body(c)];
  }

  /** A scalar field's part with its literal lines. */
  lemma ConcreteFieldLines(boundary: string, name: string, c: Contents, disposition: string, length: string)
    requires !c.Stream? && |Body(c)| > 0
    requires disposition == "Content-Disposition: form-data; name=\"" + name + "\""
    requires length == "Content-Length: " + Decimal.IntToString(|Body(c)|)
    ensures RenderElement(boundary, Field(name, c))
      == Success(Lines(["--" + boundary, disposition, length, "", Body(c)]))
  {
    FieldLines(boundary, name, c);
  }

  /** An empty scalar field (false) gets no Content-Length: its part is the
      disposition line, the blank line and an empty body line. */
  lemma EmptyFieldLines(boundary: string, name: string, c: Contents)
    requires !c.Stream? && |Body(c)| == 0
    ensures RenderElement(boundary, Field(name, c)) == Success(Lines([
      "--" + boundary,
      "Content-Disposition: form-data; name=\"" + name + "\"",
      "",
      ""]))
  {
    FieldRender(boundary, name, c);
    ScalarHeaderTexts(name, c);
    assert Body(c) == "";
  }

  /** A stream that knows its size and its path, with no filename given:
      the part names the path's last segment and adds the media type its
      extension implies, unless a caller header of the same name (ignoring
      case) replaces a default. */
  lemma StreamDefaults(name: string, data: string, uri: string, headers: seq<Header>)
    requires |data| > 0
    ensures var c := Stream(data, Some(uri), true);
      DefaultHeaders(name, c, Filename(None, c), headers)
        == (if HasHeader(headers, ContentDisposition) then [] else [(ContentDisposition, Disposition(name, Some(Basename(uri))))])
         + (if HasHeader(headers, ContentLength) then [] else [(ContentLength, Decimal.IntToString(|data|))])
         + (if HasHeader(headers, ContentType) then [] else [(ContentType, MimeType(Basename(uri)))])
  {
  }

  /** The header lines of a list of one, two or three headers. */
  lemma HeaderTextsOfSmall(hs: seq<Header>)
    requires 1 <= |hs| <= 3
    ensures |hs| == 1 ==> HeaderTexts(hs) == [HeaderText(hs[0])]
    ensures |hs| == 2 ==> HeaderTexts(hs) == [HeaderText(hs[0]), HeaderText(hs[1])]
    ensures |hs| == 3 ==> HeaderTexts(hs) == [HeaderText(hs[0]), HeaderText(hs[1]), HeaderText(hs[2])]
  {
    assert HeaderTexts(hs) == [HeaderText(hs[0])] + HeaderTexts(hs[1..]);
    if |hs| >= 2 {
      assert HeaderTexts(hs[1..]) == [HeaderText(hs[1])] + HeaderTexts(hs[2..]);
      if |hs| == 3 {
        assert HeaderTexts(hs[2..]) == [HeaderText(hs[2])] + HeaderTexts(hs[3..]);
        assert hs[3..] == [];
      } else {
        assert hs[2..] == [];
      }
    } else {
      assert hs[1..] == [];
    }
  }

  /** A three-character text field carries `Content-Length: 3`. */
  lemma ThreeCharPart(boundary: string, name: string, value: string)
    requires |value| == 3
    ensures RenderElement(boundary, Field(name, Str(value)))
      == Success(Lines(["--" + boundary, "Content-Disposition: form-data; name=\"" + name + "\"", "Content-Length: 3", "", value]))
  {
    assert Decimal.IntToString(3) == "3";
    assert "Content-Length: " + "3" == "Content-Length: 3";
    ConcreteFieldLines(boundary, name, Str(value), "Content-Disposition: form-data; name=\"" + name + "\"", "Content-Length: 3");
  }

  /** Two text fields: each part carries its disposition and its length. */
  lemma SerializesFields(boundary: string)
    ensures Encode([Field("foo", Str("bar")), Field("baz", Str("bam"))], boundary) == Success(Lines([
      "--" + boundary,
      "Content-Disposition: form-data; name=\"foo\"",
      "Content-Length: 3",
      "",
      "bar",
      "--" + boundary,
      "Content-Disposition: form-data; name=\"baz\"",
      "Content-Length: 3",
      "",
      "bam",
      "--" + boundary + "--"]))
  {
    ThreeCharPart(boundary, "foo", "bar");
    ThreeCharPart(boundary, "baz", "bam");
    assert "Content-Disposition: form-data; name=\"" + "foo" + "\"" == "Content-Disposition: form-data; name=\"foo\"";
    assert "Content-Disposition: form-data; name=\"" + "baz" + "\"" == "Content-Disposition: form-data; name=\"baz\"";
    TwoParts(Field("foo", Str("bar")), Field("baz", Str("bam")), boundary,
      ["--" + boundary, "Content-Disposition: form-data; name=\"foo\"", "Content-Length: 3", "", "bar"],
      ["--" + boundary, "Content-Disposition: form-data; name=\"baz\"", "Content-Length: 3", "", "bam"],
      [
      "--" + boundary,
      "Content-Disposition: form-data; name=\"foo\"",
      "Content-Length: 3",
      "",
      "bar",
      "--" + boundary,
      "Content-Disposition: form-data; name=\"baz\"",
      "Content-Length: 3",
      "",
      "bam",
      "--" + boundary + "--"]);
  }

  lemma IntPart(boundary: string)
    ensures RenderElement(boundary, Field("int", Int(1)))
      == Success(Lines(["--" + boundary, "Content-Disposition: form-data; name=\"int\"", "Content-Length: 1", "", "1"]))
  {
    assert Decimal.IntToString(1) == "1";
    assert Body(Int(1)) == "1";
    assert "Content-Length: " + "1" == "Content-Length: 1";
    assert "Content-Disposition: form-data; name=\"" + "int" + "\"" == "Content-Disposition: form-data; name=\"int\"";
    ConcreteFieldLines(boundary, "int", Int(1), "Content-Disposition: form-data; name=\"int\"", "Content-Length: 1");
  }

  lemma FalsePart(boundary: string)
    ensures RenderElement(boundary, Field("bool", Bool(false)))
      == Success(Lines(["--" + boundary, "Content-Disposition: form-data; name=\"bool\"", "", ""]))
  {
    assert "Content-Disposition: form-data; name=\"" + "bool" + "\"" == "Content-Disposition: form-data; name=\"bool\"";
    EmptyFieldLines(boundary, "bool", Bool(false));
  }

  lemma TruePart(boundary: string)
    ensures RenderElement(boundary, Field("bool2", Bool(true)))
      == Success(Lines(["--" + boundary, "Content-Disposition: form-data; name=\"bool2\"", "Content-Length: 1", "", "1"]))
  {
    assert Decimal.IntToString(1) == "1";
    assert Body(Bool(true)) == "1";
    assert "Content-Length: " + "1" == "Content-Length: 1";
    assert "Content-Disposition: form-data; name=\"" + "bool2" + "\"" == "Content-Disposition: form-data; name=\"bool2\"";
    ConcreteFieldLines(boundary, "bool2", Bool(true), "Content-Disposition: form-data; name=\"bool2\"", "Content-Length: 1");
  }

  /** Scalars are sent as their PHP text: 1 as "1", true as "1", and false
      as the empty string, whose part has no Content-Length. */
  lemma SerializesNonStringFields(boundary: string)
    ensures Encode([Field("int", Int(1)), Field("bool", Bool(false)), Field("bool2", Bool(true))], boundary)
      == Success(Lines([
      "--" + boundary,
      "Content-Disposition: form-data; name=\"int\"",
      "Content-Length: 1",
      "",
      "1",
      "--" + boundary,
      "Content-Disposition: form-data; name=\"bool\"",
      "",
      "",
      "--" + boundary,
      "Content-Disposition: form-data; name=\"bool2\"",
      "Content-Length: 1",
      "",
      "1",
      "--" + boundary + "--"]))
  {
    IntPart(boundary);
    FalsePart(boundary);
    TruePart(boundary);
        ThreeParts(Field("int", Int(1)), Field("bool", Bool(false)), Field("bool2", Bool(true)), boundary,
      ["--" + boundary, "Content-Disposition: form-data; name=\"int\"", "Content-Length: 1", "", "1"],
      ["--" + boundary, "Content-Disposition: form-data; name=\"bool\"", "", ""],
      ["--" + boundary, "Content-Disposition: form-data; name=\"bool2\"", "Content-Length: 1", "", "1"],
      [
      "--" + boundary,
      "Content-Disposition: form-data; name=\"int\"",
      "Content-Length: 1",
      "",
      "1",
      "--" + boundary,
      "Content-Disposition: form-data; name=\"bool\"",
      "",
      "",
      "--" + boundary,
      "Content-Disposition: form-data; name=\"bool2\"",
      "Content-Length: 1",
      "",
      "1",
      "--" + boundary + "--"]);
  }
}
