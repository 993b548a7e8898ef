/** The multipart body as a read-only stream: built once from the element
    list, then read sequentially from an advancing position. */
module MultipartStreams {
  import opened Wrappers
  import opened MultipartParts

  /** A write into the body always fails. */
  datatype WriteError = NotWritable

  lemma ComposeStep(es: seq<Element>, i: nat, boundary: string, body: string)
    requires i < |es| && EncodeParts(es[..i], boundary) == Success(body)
    ensures RenderElement(boundary, es[i]).Failure? ==> EncodeParts(es, boundary) == Failure(RenderElement(boundary, es[i]).error)
    ensures RenderElement(boundary, es[i]).Success? ==>
      EncodeParts(es[..i + 1], boundary) == Success(body + RenderElement(boundary, es[i]).value)
  {
    assert es[..i + 1][..i] == es[..i] && es[..i + 1][i] == es[i];
    assert Renderer(boundary)(es[i]) == RenderElement(boundary, es[i]);
    if RenderElement(boundary, es[i]).Failure? {
      JoinPartsPrefixFails(es, i + 1, Renderer(boundary));
    }
  }

  lemma SizesKnownStep(es: seq<Element>, i: nat)
    requires i < |es|
    ensures SizesKnown(es[..i + 1])
      <==> SizesKnown(es[..i]) && (es[i].contents.Some? ==> Size(es[i].contents.value).Some?)
  {
    assert forall j :: 0 <= j < i ==> es[..i + 1][j] == es[..i][j];
    assert es[..i + 1][i] == es[i];
  }

  /** The constructor's loop: appends each element's part in order, stopping
      at the first element without contents or name, and sums the sizes the
      parts report, which stays known only while every contents knows its. */
  method ComposeParts(elements: seq<Element>, boundary: string) returns (r: Result<string, ElementError>, size: Option<nat>)
    ensures r == EncodeParts(elements, boundary)
    ensures r.Success? ==> (size.Some? <==> SizesKnown(elements))
    ensures r.Success? && size.Some? ==> size.value == |r.value|
  {
    var body := "";
    var known := true;
    var i := 0;
    while i < |elements|
      invariant i <= |elements|
      invariant EncodeParts(elements[..i], boundary) == Success(body)
      invariant known <==> SizesKnown(elements[..i])
    {
      var e := elements[i];
      var part := RenderElement(boundary, e);
      ComposeStep(elements, i, boundary, body);
      if part.Failure? {
        return Failure(part.error), None;
      }
      SizesKnownStep(elements, i);
      body := body + part.value;
      known := known && Size(e.contents.value).Some?;
      i := i + 1;
    }
    assert elements[..i] == elements;
    r := Success(body);
    size := if known then Some(|body|) else None;
  }

  /** The stream: its boundary, the whole encoded body, the size it reports
      (unknown when some contents stream does not know its own) and the read
      position. The body never changes once built. */
  class MultipartStream {
    const boundary: string
    const body: string
    const size: Option<nat>
    var pos: nat

    ghost predicate Valid()
      reads this
    {
      pos <= |body| && boundary != "" && (size.Some? ==> size.value == |body|)
    }

    constructor (boundary: string, body: string, size: Option<nat>)
      requires boundary != "" && (size.Some? ==> size.value == |body|)
      ensures Valid() && pos == 0
      ensures this.boundary == boundary && this.body == body && this.size == size
    {
      this.boundary := boundary;
      this.body := body;
      this.size := size;
      pos := 0;
    }

    /** Construction from a list of elements and an optional boundary;
        `generated` stands for the unique token used when no non-empty
        boundary is supplied. An element without contents or without a name
        is rejected; otherwise the body is the encoding of all elements. */
    static method Create(elements: seq<Element>, boundary: Option<string>, generated: string)
      returns (r: Result<MultipartStream, ElementError>)
      requires generated != ""
      ensures Encode(elements, ChooseBoundary(boundary, generated)).Failure? ==>
        r == Failure(Encode(elements, ChooseBoundary(boundary, generated)).error)
      ensures Encode(elements, ChooseBoundary(boundary, generated)).Success? ==>
        r.Success? && fresh(r.value) && r.value.Valid() && r.value.pos == 0
        && r.value.boundary == ChooseBoundary(boundary, generated)
        && r.value.body == Encode(elements, ChooseBoundary(boundary, generated)).value
        && (r.value.size.Some? <==> SizesKnown(elements))
    {
      var b := ChooseBoundary(boundary, generated);
      var parts, partsSize := ComposeParts(elements, b);
      if parts.Failure? {
        return Failure(parts.error);
      }
      var body := parts.value + Closing(b);
      var size := if partsSize.Some? then Some(partsSize.value + |Closing(b)|) else None;
      var s := new MultipartStream(b, body, size);
      r := Success(s);
    }

    /** The body is read-only. */
    function IsWritable(): (w: bool)
      ensures !w
    {
      false
    }

    /** Every write is refused and the stream is left as it was. */
    method Write(data: string) returns (r: Result<nat, WriteError>)
      ensures r == Failure(NotWritable)
    {
      r := Failure(NotWritable);
    }

    function GetBoundary(): (b: string)
      requires Valid()
      reads this
      ensures b != "" && b == boundary
    {
      boundary
    }

    function GetSize(): (s: Option<nat>)
      requires Valid()
      reads this
      ensures s.Some? ==> s.value == |body|
      ensures s == size
    {
      size
    }

    function Tell(): (p: nat)
      reads this
      ensures p == pos
    {
      pos
    }

    function Eof(): (e: bool)
      requires Valid()
      reads this
      ensures e <==> pos == |body|
    {
      pos == |body|
    }

    /** Reads at most `n` bytes from the position on and advances past them. */
    method Read(n: nat) returns (s: string)
      requires Valid()
      modifies this
      ensures Valid()
      ensures |s| == if n < old(|body| - pos) then n else old(|body| - pos)
      ensures pos == old(pos) + |s|
      ensures s == body[old(pos)..pos]
    {
      var end := if n < |body| - pos then pos + n else |body|;
      s := body[pos..end];
      pos := end;
    }

    /** The rest of the body, leaving the position at the end. */
    method GetContents() returns (s: string)
      requires Valid()
      modifies this
      ensures Valid() && pos == |body|
      ensures s == body[old(pos)..]
    {
      s := "";
      while pos < |body|
        invariant Valid()
        invariant old(pos) <= pos
        invariant s == body[old(pos)..pos]
        decreases |body| - pos
      {
        var start := pos;
        var chunk := Read(8192);
        assert body[old(pos)..pos] == body[old(pos)..start] + body[start..pos];
        s := s + chunk;
      }
    }

    method Rewind()
      requires Valid()
      modifies this
      ensures Valid() && pos == 0
    {
      pos := 0;
    }

    /** The string form: the whole body, whatever the position was. */
    method ToString() returns (s: string)
      requires Valid()
      modifies this
      ensures Valid() && pos == |body|
      ensures s == body
    {
      Rewind();
      s := GetContents();
    }
  }

  /** A stream over no elements holds just the closing delimiter, and its
      size is the boundary's length plus six. */
  method EmptyStream(generated: string) returns (boundary: string, contents: string, size: Option<nat>)
    requires generated != ""
    ensures boundary == generated
    ensures contents == "--" + boundary + "--\r\n"
    ensures size == Some(|boundary| + 6)
  {
    EncodeEmpty(generated);
    var r := MultipartStream.Create([], None, generated);
    var s := r.value;
    boundary := s.GetBoundary();
    contents := s.GetContents();
    size := s.GetSize();
  }

  /** An element with neither a name nor contents is refused for lacking
      contents; one with contents but no name for lacking a name. */
  lemma RejectsIncompleteElements(boundary: string)
    ensures Encode([Element(None, None, None, [])], boundary) == Failure(MissingKey("contents"))
    ensures Encode([Element(None, Some(Str("bar")), None, [])], boundary) == Failure(MissingKey("name"))
  {
    EncodePartsFails([Element(None, None, None, [])], boundary);
    EncodePartsFails([Element(None, Some(Str("bar")), None, [])], boundary);
  }
}
