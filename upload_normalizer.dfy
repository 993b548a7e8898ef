/** The uploaded-files normaliser: PHP's raw upload superglobal, whose
    leaves may be spread over five parallel arrays, becomes a tree with one
    uploaded-file descriptor at each leaf. */
module UploadedFiles {
  import opened Wrappers
  import opened Decimal

  /** A PHP array key: an integer or a string. */
  datatype Key = IntKey(i: int) | StrKey(s: string)

  const NAME := StrKey("name")
  const TYPE := StrKey("type")
  const TMP_NAME := StrKey("tmp_name")
  const ERROR := StrKey("error")
  const SIZE := StrKey("size")

  const UPLOAD_ERR_OK := 0
  const UPLOAD_ERR_NO_FILE := 4

  /** The upload status codes PHP defines: OK, the two size limits, partial,
      no file, no temporary directory, cannot write, stopped by an extension. */
  predicate IsErrorCode(e: int) {
    e == 0 || e == 1 || e == 2 || e == 3 || e == 4 || e == 6 || e == 7 || e == 8
  }

  /** One uploaded file: where it was stored, its size, its status code and
      the name and media type the client sent (absent when null). */
  datatype UploadedFile = UploadedFile(
    source: string,
    size: int,
    error: int,
    clientFilename: Option<string>,
    clientMediaType: Option<string>)

  /** A raw value as PHP hands it over: a scalar, null, an already built
      uploaded file, or an array of keyed entries in insertion order. */
  datatype Raw =
    | Text(s: string)
    | Number(n: int)
    | Null
    | File(file: UploadedFile)
    | Branch(entries: seq<(Key, Raw)>)

  /** The normalised shape: an uploaded file, or an array of keyed subtrees. */
  datatype Tree = Leaf(file: UploadedFile) | Node(children: seq<(Key, Tree)>)

  /** "Invalid value in files specification", or an uploaded file whose
      arguments its constructor refuses. */
  datatype NormalizeError = InvalidFilesSpec | InvalidUploadedFile

  /** `$array[$key]`: the entry under `k`, null when there is none. */
  function Lookup(es: seq<(Key, Raw)>, k: Key): Raw {
    if es == [] then Null
    else if es[0].0 == k then es[0].1
    else Lookup(es[1..], k)
  }

  /** `$value[$key]` on a value that should be an array; null otherwise. */
  function Sub(v: Raw, k: Key): Raw {
    if v.Branch? then Lookup(v.entries, k) else Null
  }

  /** PHP's (int) cast. */
  function IntCast(v: Raw): int {
    match v
    case Text(s) => ParseInt(s)
    case Number(n) => n
    case Null => 0
    case File(_) => 1
    case Branch(es) => if es == [] then 0 else 1
  }

  /** A client-supplied name: a string, or null for none. */
  function ClientText(v: Raw): Result<Option<string>, NormalizeError> {
    match v
    case Text(s) => Success(Some(s))
    case Null => Success(None)
    case _ => Failure(InvalidUploadedFile)
  }

  /** The uploaded-file constructor: the source must be a path string, the
      status one of the defined codes, the names strings or null; size and
      status are cast to integers. */
  function MakeFile(tmp: Raw, size: Raw, error: Raw, name: Raw, mediaType: Raw): (r: Result<UploadedFile, NormalizeError>)
    ensures r.Success? <==> (tmp.Text? && IsErrorCode(IntCast(error))
      && ClientText(name).Success? && ClientText(mediaType).Success?)
    ensures r.Success? ==> (r.value.source == tmp.s && r.value.size == IntCast(size)
      && r.value.error == IntCast(error)
      && r.value.clientFilename == ClientText(name).value
      && r.value.clientMediaType == ClientText(mediaType).value)
  {
    if !tmp.Text? || !IsErrorCode(IntCast(error)) then Failure(InvalidUploadedFile)
    else
      var clientName :- ClientText(name);
      var clientType :- ClientText(mediaType);
      Success(UploadedFile(tmp.s, IntCast(size), IntCast(error), clientName, clientType))
  }

  /** A leaf group given by its five parallel values. When `tmp_name` is an
      array, each of its keys yields one synthesized group gathered from the
      same key of the other four, normalised in turn; otherwise the five
      values are the constructor arguments of one uploaded file. */
  function FromSpec(tmp: Raw, size: Raw, error: Raw, name: Raw, mediaType: Raw): (r: Result<Tree, NormalizeError>)
    decreases tmp, 2, 0
  {
    match tmp
    case Branch(es) =>
      var children :- FromSpecFrom(es, 0, size, error, name, mediaType);
      Success(Node(children))
    case _ =>
      var file :- MakeFile(tmp, size, error, name, mediaType);
      Success(Leaf(file))
  }

  /** The group synthesized for the `j`th key of the `tmp_name` array from
      the same key of the other four. */
  function Synthesized(es: seq<(Key, Raw)>, j: nat, size: Raw, error: Raw, name: Raw, mediaType: Raw)
    : Result<Tree, NormalizeError>
    requires j < |es|
    decreases Branch(es), 0, 0
  {
    var k := es[j].0;
    FromSpec(es[j].1, Sub(size, k), Sub(error, k), Sub(name, k), Sub(mediaType, k))
  }

  /** The synthesized groups for the keys of `tmp_name` from index `i` on. */
  function FromSpecFrom(es: seq<(Key, Raw)>, i: nat, size: Raw, error: Raw, name: Raw, mediaType: Raw)
    : Result<seq<(Key, Tree)>, NormalizeError>
    requires i <= |es|
    decreases Branch(es), 1, |es| - i
  {
    if i == |es| then Success([])
    else
      var child :- Synthesized(es, i, size, error, name, mediaType);
      var rest :- FromSpecFrom(es, i + 1, size, error, name, mediaType);
      Success([(es[i].0, child)] + rest)
  }

  /** One value of the files array: an uploaded file passes through, an
      array with a `tmp_name` entry is a leaf group, any other array is
      normalised entry by entry, and anything else is refused. */
  function NormalizeValue(v: Raw): (r: Result<Tree, NormalizeError>)
    decreases v, 1, 0
  {
    match v
    case File(f) => Success(Leaf(f))
    case Branch(es) =>
      if Lookup(es, TMP_NAME) != Null then
        FromSpec(Lookup(es, TMP_NAME), Lookup(es, SIZE), Lookup(es, ERROR), Lookup(es, NAME), Lookup(es, TYPE))
      else
        var children :- NormalizeFrom(es, 0);
        Success(Node(children))
    case _ => Failure(InvalidFilesSpec)
  }

  /** The entries from index `i` on, each normalised independently, in
      order; the first failure aborts the whole. */
  function NormalizeFrom(es: seq<(Key, Raw)>, i: nat): Result<seq<(Key, Tree)>, NormalizeError>
    requires i <= |es|
    decreases Branch(es), 0, |es| - i
  {
    if i == |es| then Success([])
    else
      var child :- NormalizeValue(es[i].1);
      var rest :- NormalizeFrom(es, i + 1);
      Success([(es[i].0, child)] + rest)
  }

  /** The whole files array. */
  function NormalizeFiles(files: seq<(Key, Raw)>): Result<seq<(Key, Tree)>, NormalizeError> {
    NormalizeFrom(files, 0)
  }

  /** A PHP leaf group with its five keys in the order PHP lists them. */
  function Group(name: Raw, mediaType: Raw, tmp: Raw, error: Raw, size: Raw): Raw {
    Branch([(NAME, name), (TYPE, mediaType), (TMP_NAME, tmp), (ERROR, error), (SIZE, size)])
  }

  /** Lookup yields the value of the first entry carrying the key. */
  lemma {:induction false} LookupFirst(es: seq<(Key, Raw)>, i: nat, k: Key)
    requires i < |es| && es[i].0 == k
    requires forall j :: 0 <= j < i ==> es[j].0 != k
    ensures Lookup(es, k) == es[i].1
  {
    if i > 0 {
      LookupFirst(es[1..], i - 1, k);
    }
  }

  /** Lookup yields null for a key no entry carries. */
  lemma {:induction false} LookupAbsent(es: seq<(Key, Raw)>, k: Key)
    requires forall j :: 0 <= j < |es| ==> es[j].0 != k
    ensures Lookup(es, k) == Null
  {
    if es != [] {
      LookupAbsent(es[1..], k);
    }
  }

  /** The five keys of a leaf group are found where the group puts them. */
  lemma GroupLookups(name: Raw, mediaType: Raw, tmp: Raw, error: Raw, size: Raw)
    ensures var es := Group(name, mediaType, tmp, error, size).entries;
      Lookup(es, TMP_NAME) == tmp && Lookup(es, SIZE) == size && Lookup(es, ERROR) == error
      && Lookup(es, NAME) == name && Lookup(es, TYPE) == mediaType
  {
    var es := Group(name, mediaType, tmp, error, size).entries;
    assert |NAME.s| == 4 && |TYPE.s| == 4 && |TMP_NAME.s| == 8 && |ERROR.s| == 5 && |SIZE.s| == 4;
    assert NAME.s[0] != TYPE.s[0] && NAME.s[0] != SIZE.s[0] && TYPE.s[0] != SIZE.s[0];
    LookupFirst(es, 0, NAME);
    LookupFirst(es, 1, TYPE);
    LookupFirst(es, 2, TMP_NAME);
    LookupFirst(es, 3, ERROR);
    LookupFirst(es, 4, SIZE);
  }

  /** The entries are normalised independently: the whole succeeds exactly
      when every value does, each key keeps its place and carries its own
      value's normal form, and a failure is that of the first failing value. */
  lemma {:induction false} NormalizeFromPointwise(es: seq<(Key, Raw)>, i: nat)
    requires i <= |es|
    ensures NormalizeFrom(es, i).Success? <==> forall j :: i <= j < |es| ==> NormalizeValue(es[j].1).Success?
    ensures NormalizeFrom(es, i).Success? ==>
      |NormalizeFrom(es, i).value| == |es| - i
      && forall j :: i <= j < |es| ==> NormalizeFrom(es, i).value[j - i] == (es[j].0, NormalizeValue(es[j].1).value)
    ensures NormalizeFrom(es, i).Failure? ==>
      exists j :: i <= j < |es| && NormalizeValue(es[j].1).Failure?
        && NormalizeFrom(es, i).error == NormalizeValue(es[j].1).error
        && forall l :: i <= l < j ==> NormalizeValue(es[l].1).Success?
    decreases |es| - i
  {
    if i < |es| {
      NormalizeFromPointwise(es, i + 1);
      var r, child, rest := NormalizeFrom(es, i), NormalizeValue(es[i].1), NormalizeFrom(es, i + 1);
      if child.Failure? {
        assert r == Failure(child.error);
      } else if rest.Failure? {
        assert r == Failure(rest.error);
      } else {
        assert r == Success([(es[i].0, child.value)] + rest.value);
        assert r.value[1..] == rest.value;
      }
    }
  }

  /** The top-level form of the pointwise property. */
  lemma NormalizeFilesPointwise(files: seq<(Key, Raw)>)
    ensures NormalizeFiles(files).Success? <==> forall j :: 0 <= j < |files| ==> NormalizeValue(files[j].1).Success?
    ensures NormalizeFiles(files).Success? ==>
      |NormalizeFiles(files).value| == |files|
      && forall j :: 0 <= j < |files| ==> NormalizeFiles(files).value[j] == (files[j].0, NormalizeValue(files[j].1).value)
    ensures NormalizeFiles(files).Failure? ==>
      exists j :: 0 <= j < |files| && NormalizeValue(files[j].1).Failure?
        && NormalizeFiles(files).error == NormalizeValue(files[j].1).error
        && forall l :: 0 <= l < j ==> NormalizeValue(files[l].1).Success?
  {
    NormalizeFromPointwise(files, 0);
  }

  /** An array with a set `tmp_name` entry is read as a leaf group. */
  lemma LeafGroup(name: Raw, mediaType: Raw, tmp: Raw, error: Raw, size: Raw)
    requires tmp != Null
    ensures NormalizeValue(Group(name, mediaType, tmp, error, size)) == FromSpec(tmp, size, error, name, mediaType)
  {
    GroupLookups(name, mediaType, tmp, error, size);
  }

  /** An integer handed over as its decimal text is cast back to itself. */
  lemma IntCastOfText(n: int)
    ensures IntCast(Text(IntToString(n))) == n
  {
    ParseIntOfIntToString(n);
  }

  /** Five strings, status and size as decimal text, make one uploaded file. */
  lemma FileFromTexts(tmp: string, size: int, error: int, name: string, mediaType: string)
    requires IsErrorCode(error)
    ensures FromSpec(Text(tmp), Text(IntToString(size)), Text(IntToString(error)), Text(name), Text(mediaType))
      == Success(Leaf(UploadedFile(tmp, size, error, Some(name), Some(mediaType))))
  {
    var sizeText, errorText := Text(IntToString(size)), Text(IntToString(error));
    IntCastOfText(size);
    IntCastOfText(error);
    var made := MakeFile(Text(tmp), sizeText, errorText, Text(name), Text(mediaType));
    assert made == Success(UploadedFile(tmp, size, error, Some(name), Some(mediaType)));
  }

  /** A leaf group of five strings is one uploaded file, with the status and
      the size read back from their decimal text. */
  lemma LeafGroupFile(name: string, mediaType: string, tmp: string, error: int, size: int)
    requires IsErrorCode(error)
    ensures NormalizeValue(Group(Text(name), Text(mediaType), Text(tmp), Text(IntToString(error)), Text(IntToString(size))))
      == Success(Leaf(UploadedFile(tmp, size, error, Some(name), Some(mediaType))))
  {
    LeafGroup(Text(name), Text(mediaType), Text(tmp), Text(IntToString(error)), Text(IntToString(size)));
    FileFromTexts(tmp, size, error, name, mediaType);
  }

  /** A single upload: the five strings become one uploaded file, with the
      status and size read as integers. */
  lemma SingleFile(name: string, mediaType: string, tmp: string, size: nat)
    ensures NormalizeFiles([(StrKey("file"), Group(Text(name), Text(mediaType), Text(tmp), Text(IntToString(UPLOAD_ERR_OK)), Text(IntToString(size))))])
      == Success([(StrKey("file"), Leaf(UploadedFile(tmp, size, UPLOAD_ERR_OK, Some(name), Some(mediaType))))])
  {
    var files := [(StrKey("file"), Group(Text(name), Text(mediaType), Text(tmp), Text(IntToString(UPLOAD_ERR_OK)), Text(IntToString(size))))];
    LeafGroupFile(name, mediaType, tmp, UPLOAD_ERR_OK, size);
    NormalizeFilesPointwise(files);
    var expected := [(StrKey("file"), Leaf(UploadedFile(tmp, size, UPLOAD_ERR_OK, Some(name), Some(mediaType))))];
    assert NormalizeValue(files[0].1).Success?;
    assert NormalizeFiles(files).Success?;
    assert NormalizeFiles(files).value[0] == expected[0];
    assert NormalizeFiles(files).value == expected;
  }

  /** A scalar where an array or an uploaded file is expected is refused. */
  lemma RejectsScalar(s: string)
    ensures NormalizeFiles([(StrKey("test"), Text(s))]) == Failure(InvalidFilesSpec)
  {
    NormalizeFilesPointwise([(StrKey("test"), Text(s))]);
  }

  /** Two uploads side by side, the second one empty (no file, size 0, empty
      names): each key is normalised on its own. */
  lemma MultipleFiles(name: string, mediaType: string, tmp: string, size: nat)
    ensures NormalizeFiles([
        (StrKey("text_file"), Group(Text(name), Text(mediaType), Text(tmp), Text(IntToString(UPLOAD_ERR_OK)), Text(IntToString(size)))),
        (StrKey("image_file"), Group(Text(""), Text(""), Text(""), Text(IntToString(UPLOAD_ERR_NO_FILE)), Text(IntToString(0))))])
      == Success([
        (StrKey("text_file"), Leaf(UploadedFile(tmp, size, UPLOAD_ERR_OK, Some(name), Some(mediaType)))),
        (StrKey("image_file"), Leaf(UploadedFile("", 0, UPLOAD_ERR_NO_FILE, Some(""), Some(""))))])
  {
    var files := [
        (StrKey("text_file"), Group(Text(name), Text(mediaType), Text(tmp), Text(IntToString(UPLOAD_ERR_OK)), Text(IntToString(size)))),
        (StrKey("image_file"), Group(Text(""), Text(""), Text(""), Text(IntToString(UPLOAD_ERR_NO_FILE)), Text(IntToString(0))))];
    var expected := [
        (StrKey("text_file"), Leaf(UploadedFile(tmp, size, UPLOAD_ERR_OK, Some(name), Some(mediaType)))),
        (StrKey("image_file"), Leaf(UploadedFile("", 0, UPLOAD_ERR_NO_FILE, Some(""), Some(""))))];
    LeafGroupFile(name, mediaType, tmp, UPLOAD_ERR_OK, size);
    LeafGroupFile("", "", "", UPLOAD_ERR_NO_FILE, 0);
    NormalizeFilesPointwise(files);
    assert NormalizeFiles(files).Success?;
    assert NormalizeFiles(files).value[0] == expected[0];
    assert NormalizeFiles(files).value[1] == expected[1];
    assert NormalizeFiles(files).value == expected;
  }

  // ----- normalising an already normalised tree -----

  /** A normalised tree written back as a raw value: uploaded files stay
      objects, arrays keep their keys. */
  function EmbedTree(t: Tree): (v: Raw)
    ensures t.Leaf? ==> v == File(t.file)
    ensures t.Node? ==> v.Branch? && |v.entries| == |t.children|
    decreases t, 1
  {
    match t
    case Leaf(f) => File(f)
    case Node(cs) => Branch(EmbedEntries(cs))
  }

  function EmbedEntries(cs: seq<(Key, Tree)>): (es: seq<(Key, Raw)>)
    ensures |es| == |cs|
    ensures forall j :: 0 <= j < |cs| ==> es[j].0 == cs[j].0
    decreases Node(cs), 0
  {
    seq(|cs|, j requires 0 <= j < |cs| => (cs[j].0, EmbedTree(cs[j].1)))
  }

  /** No array below the top level has a `tmp_name` key. */
  predicate NoTmpName(t: Tree) {
    match t
    case Leaf(_) => true
    case Node(cs) => forall j :: 0 <= j < |cs| ==> cs[j].0 != TMP_NAME && NoTmpName(cs[j].1)
  }

  /** A normalised tree without a nested `tmp_name` key normalises to itself. */
  lemma {:induction false} NormalizeEmbedded(t: Tree)
    requires NoTmpName(t)
    ensures NormalizeValue(EmbedTree(t)) == Success(t)
    decreases t
  {
    match t
    case Leaf(_) =>
    case Node(cs) =>
      var es := EmbedEntries(cs);
      LookupAbsent(es, TMP_NAME);
      NormalizeFromPointwise(es, 0);
      forall j | 0 <= j < |cs|
        ensures NormalizeValue(es[j].1) == Success(cs[j].1)
      {
        NormalizeEmbedded(cs[j].1);
      }
      assert NormalizeFrom(es, 0).value == cs;
  }

  /** The top-level form: a normalised files array maps back to itself. */
  lemma NormalizeEmbeddedFiles(ts: seq<(Key, Tree)>)
    requires forall j :: 0 <= j < |ts| ==> NoTmpName(ts[j].1)
    ensures NormalizeFiles(EmbedEntries(ts)) == Success(ts)
  {
    var es := EmbedEntries(ts);
    NormalizeFilesPointwise(es);
    forall j | 0 <= j < |ts|
      ensures NormalizeValue(es[j].1) == Success(ts[j].1)
    {
      NormalizeEmbedded(ts[j].1);
    }
    assert NormalizeFiles(es).value == ts;
  }

  /** Normalising twice is normalising once, when the result has no nested
      `tmp_name` key. */
  lemma NormalizeTwice(files: seq<(Key, Raw)>)
    requires NormalizeFiles(files).Success?
    requires forall j :: 0 <= j < |NormalizeFiles(files).value| ==> NoTmpName(NormalizeFiles(files).value[j].1)
    ensures NormalizeFiles(EmbedEntries(NormalizeFiles(files).value)) == NormalizeFiles(files)
  {
    NormalizeEmbeddedFiles(NormalizeFiles(files).value);
  }

  /** Already built uploaded files, alone or in an array, pass through. */
  lemma AlreadyConverted(f: UploadedFile, g: UploadedFile)
    ensures NormalizeFiles([(StrKey("file"), File(f))]) == Success([(StrKey("file"), Leaf(f))])
    ensures NormalizeFiles([(StrKey("file"), Branch([(IntKey(0), File(f)), (IntKey(1), File(g))]))])
      == Success([(StrKey("file"), Node([(IntKey(0), Leaf(f)), (IntKey(1), Leaf(g))]))])
  {
    var one := [(StrKey("file"), Leaf(f))];
    NormalizeEmbeddedFiles(one);
    assert EmbedEntries(one) == [(StrKey("file"), File(f))];
    var pair := [(StrKey("file"), Node([(IntKey(0), Leaf(f)), (IntKey(1), Leaf(g))]))];
    var inner := [(IntKey(0), Leaf(f)), (IntKey(1), Leaf(g))];
    assert TMP_NAME != IntKey(0) && TMP_NAME != IntKey(1);
    NormalizeEmbeddedFiles(pair);
    assert EmbedEntries(inner) == [(IntKey(0), File(f)), (IntKey(1), File(g))];
    assert EmbedEntries(pair) == [(StrKey("file"), Branch([(IntKey(0), File(f)), (IntKey(1), File(g))]))];
  }

  /** Normalising twice differs from normalising once when a nested
      `tmp_name` array itself has a `tmp_name` key: the result then holds an
      array whose `tmp_name` entry is an uploaded file, which reads as a leaf
      group whose source is not a path. */
  lemma TmpNameKeyBreaksIdempotence(path: string)
    ensures var files := [(StrKey("a"), Branch([(TMP_NAME, Branch([(TMP_NAME, Text(path))]))]))];
      NormalizeFiles(files) == Success([(StrKey("a"), Node([(TMP_NAME, Leaf(UploadedFile(path, 0, UPLOAD_ERR_OK, None, None)))]))])
      && NormalizeFiles(EmbedEntries(NormalizeFiles(files).value)) == Failure(InvalidUploadedFile)
  {
    var inner := Branch([(TMP_NAME, Text(path))]);
    var outer := Branch([(TMP_NAME, inner)]);
    var files := [(StrKey("a"), outer)];
    var file := UploadedFile(path, 0, UPLOAD_ERR_OK, None, None);
    assert |TMP_NAME.s| == 8 && |SIZE.s| == 4 && |ERROR.s| == 5 && |NAME.s| == 4 && |TYPE.s| == 4;
    LookupFirst(outer.entries, 0, TMP_NAME);
    LookupAbsent(outer.entries, SIZE);
    LookupAbsent(outer.entries, ERROR);
    LookupAbsent(outer.entries, NAME);
    LookupAbsent(outer.entries, TYPE);
    assert MakeFile(Text(path), Null, Null, Null, Null) == Success(file);
    assert Synthesized(inner.entries, 0, Null, Null, Null, Null) == Success(Leaf(file));
    assert FromSpecFrom(inner.entries, 1, Null, Null, Null, Null) == Success([]);
    assert inner.entries[0] == (TMP_NAME, Text(path)) && Sub(Null, TMP_NAME) == Null;
    assert [(TMP_NAME, Leaf(file))] + [] == [(TMP_NAME, Leaf(file))];
    assert FromSpecFrom(inner.entries, 0, Null, Null, Null, Null) == Success([(TMP_NAME, Leaf(file))]);
    assert NormalizeValue(outer) == Success(Node([(TMP_NAME, Leaf(file))]));
    var once := [(StrKey("a"), Node([(TMP_NAME, Leaf(file))]))];
    NormalizeFilesPointwise(files);
    assert NormalizeFiles(files).value[0] == once[0];
    assert NormalizeFiles(files).value == once;
    var embedded := Branch([(TMP_NAME, File(file))]);
    assert EmbedEntries([(TMP_NAME, Leaf(file))]) == embedded.entries;
    assert EmbedEntries(once) == [(StrKey("a"), embedded)];
    LookupFirst(embedded.entries, 0, TMP_NAME);
    LookupAbsent(embedded.entries, SIZE);
    LookupAbsent(embedded.entries, ERROR);
    LookupAbsent(embedded.entries, NAME);
    LookupAbsent(embedded.entries, TYPE);
    assert NormalizeValue(embedded) == Failure(InvalidUploadedFile);
    NormalizeFilesPointwise([(StrKey("a"), embedded)]);
  }

  // ----- nested uploads spread over parallel arrays -----

  /** What the client posted for one file. */
  datatype Posted = Posted(name: string, mediaType: string, tmp: string, error: int, size: int)

  /** Uploads posted under nested field names such as `file[0]` or
      `nested[test][1]`. */
  datatype PostedTree = One(upload: Posted) | Many(children: seq<(Key, PostedTree)>)

  datatype Field = NameField | TypeField | TmpField | ErrorField | SizeField

  /** One field of one upload as PHP reports it: text, numbers in decimal. */
  function FieldValue(u: Posted, field: Field): Raw {
    match field
    case NameField => Text(u.name)
    case TypeField => Text(u.mediaType)
    case TmpField => Text(u.tmp)
    case ErrorField => Text(IntToString(u.error))
    case SizeField => Text(IntToString(u.size))
  }

  /** PHP's layout of nested uploads for one field: an array with the shape
      of the tree whose leaves are that field of each upload. */
  function Spread(t: PostedTree, field: Field): (v: Raw)
    ensures t.Many? ==> v.Branch?
    decreases t, 1
  {
    match t
    case One(u) => FieldValue(u, field)
    case Many(cs) => Branch(SpreadEntries(cs, field))
  }

  function SpreadEntries(cs: seq<(Key, PostedTree)>, field: Field): (es: seq<(Key, Raw)>)
    ensures |es| == |cs|
    ensures forall j :: 0 <= j < |cs| ==> es[j].0 == cs[j].0
    decreases Many(cs), 0
  {
    seq(|cs|, j requires 0 <= j < |cs| => (cs[j].0, Spread(cs[j].1, field)))
  }

  /** The whole upload tree as PHP hands it over: the five parallel arrays. */
  function Posting(t: PostedTree): Raw {
    Group(Spread(t, NameField), Spread(t, TypeField), Spread(t, TmpField), Spread(t, ErrorField), Spread(t, SizeField))
  }

  /** The uploaded file describing one posted file. */
  function Described(u: Posted): UploadedFile {
    UploadedFile(u.tmp, u.size, u.error, Some(u.name), Some(u.mediaType))
  }

  /** The tree of uploaded files with the shape of the posted tree. */
  function Descriptors(t: PostedTree): (r: Tree)
    ensures t.One? ==> r.Leaf?
    ensures t.Many? ==> r.Node? && |r.children| == |t.children|
    decreases t, 1
  {
    match t
    case One(u) => Leaf(Described(u))
    case Many(cs) => Node(DescriptorEntries(cs))
  }

  function DescriptorEntries(cs: seq<(Key, PostedTree)>): (ts: seq<(Key, Tree)>)
    ensures |ts| == |cs|
    decreases Many(cs), 0
  {
    seq(|cs|, j requires 0 <= j < |cs| => (cs[j].0, Descriptors(cs[j].1)))
  }

  /** Distinct keys in every array, and defined status codes. */
  predicate WellPosted(t: PostedTree) {
    match t
    case One(u) => IsErrorCode(u.error)
    case Many(cs) =>
      (forall i, j :: 0 <= i < j < |cs| ==> cs[i].0 != cs[j].0)
      && forall j :: 0 <= j < |cs| ==> WellPosted(cs[j].1)
  }

  /** One step of the gathering: the group of the `i`th key, then the rest. */
  lemma FromSpecFromStep(es: seq<(Key, Raw)>, i: nat, size: Raw, error: Raw, name: Raw, mediaType: Raw)
    requires i < |es|
    requires Synthesized(es, i, size, error, name, mediaType).Success?
    requires FromSpecFrom(es, i + 1, size, error, name, mediaType).Success?
    ensures FromSpecFrom(es, i, size, error, name, mediaType)
      == Success([(es[i].0, Synthesized(es, i, size, error, name, mediaType).value)]
        + FromSpecFrom(es, i + 1, size, error, name, mediaType).value)
  {
  }

  /** The synthesized groups are normalised independently, one per key of
      the `tmp_name` array, each from the same key of the other four. */
  lemma {:induction false} FromSpecFromPointwise(es: seq<(Key, Raw)>, i: nat, size: Raw, error: Raw, name: Raw, mediaType: Raw)
    requires i <= |es|
    requires forall j :: i <= j < |es| ==> Synthesized(es, j, size, error, name, mediaType).Success?
    ensures FromSpecFrom(es, i, size, error, name, mediaType).Success?
    ensures |FromSpecFrom(es, i, size, error, name, mediaType).value| == |es| - i
    ensures forall j :: i <= j < |es| ==>
      FromSpecFrom(es, i, size, error, name, mediaType).value[j - i] == (es[j].0, Synthesized(es, j, size, error, name, mediaType).value)
    decreases |es| - i
  {
    if i < |es| {
      FromSpecFromPointwise(es, i + 1, size, error, name, mediaType);
      FromSpecFromStep(es, i, size, error, name, mediaType);
      var r := FromSpecFrom(es, i, size, error, name, mediaType).value;
      var rest := FromSpecFrom(es, i + 1, size, error, name, mediaType).value;
      forall j | i < j < |es|
        ensures r[j - i] == (es[j].0, Synthesized(es, j, size, error, name, mediaType).value)
      {
        assert r[j - i] == rest[j - (i + 1)];
      }
    }
  }

  /** Each field's array, looked up under a key of the tree, is that
      subtree's array. */
  lemma SubSpread(cs: seq<(Key, PostedTree)>, j: nat, field: Field)
    requires j < |cs| && forall i :: 0 <= i < j ==> cs[i].0 != cs[j].0
    ensures Sub(Spread(Many(cs), field), cs[j].0) == Spread(cs[j].1, field)
  {
    LookupFirst(SpreadEntries(cs, field), j, cs[j].0);
  }

  /** The five fields of one posted file, as PHP hands them over. */
  lemma SpreadOne(u: Posted)
    ensures Spread(One(u), TmpField) == Text(u.tmp) && Spread(One(u), NameField) == Text(u.name)
    ensures Spread(One(u), TypeField) == Text(u.mediaType)
    ensures Spread(One(u), SizeField) == Text(IntToString(u.size)) && Spread(One(u), ErrorField) == Text(IntToString(u.error))
    ensures Descriptors(One(u)) == Leaf(UploadedFile(u.tmp, u.size, u.error, Some(u.name), Some(u.mediaType)))
  {
  }

  /** The five fields of one posted file give back its uploaded file. */
  lemma GatherOne(u: Posted)
    requires IsErrorCode(u.error)
    ensures FromSpec(Spread(One(u), TmpField), Spread(One(u), SizeField), Spread(One(u), ErrorField),
      Spread(One(u), NameField), Spread(One(u), TypeField)) == Success(Descriptors(One(u)))
  {
    SpreadOne(u);
    FileFromTexts(u.tmp, u.size, u.error, u.name, u.mediaType);
  }

  /** Gathering a `tmp_name` array succeeds with the node of its groups. */
  lemma FromSpecBranch(es: seq<(Key, Raw)>, size: Raw, error: Raw, name: Raw, mediaType: Raw)
    requires FromSpecFrom(es, 0, size, error, name, mediaType).Success?
    ensures FromSpec(Branch(es), size, error, name, mediaType)
      == Success(Node(FromSpecFrom(es, 0, size, error, name, mediaType).value))
  {
  }

  /** An array of posted trees gathers to its uploaded files once every
      key's group does. */
  lemma GatherMany(cs: seq<(Key, PostedTree)>, size: Raw, error: Raw, name: Raw, mediaType: Raw)
    requires forall j :: 0 <= j < |cs| ==>
      Synthesized(SpreadEntries(cs, TmpField), j, size, error, name, mediaType) == Success(Descriptors(cs[j].1))
    ensures FromSpecFrom(SpreadEntries(cs, TmpField), 0, size, error, name, mediaType) == Success(DescriptorEntries(cs))
  {
    var ts := SpreadEntries(cs, TmpField);
    FromSpecFromPointwise(ts, 0, size, error, name, mediaType);
    var r := FromSpecFrom(ts, 0, size, error, name, mediaType).value;
    var d := DescriptorEntries(cs);
    forall j | 0 <= j < |cs|
      ensures r[j] == d[j]
    {
      assert r[j - 0] == (ts[j].0, Synthesized(ts, j, size, error, name, mediaType).value);
    }
    assert r == d;
  }

  /** Gathering inverts spreading: the five parallel arrays of a posted tree
      give back one uploaded file per posted file, in the tree's shape. */
  lemma {:induction false} GatherSpread(t: PostedTree)
    requires WellPosted(t)
    ensures FromSpec(Spread(t, TmpField), Spread(t, SizeField), Spread(t, ErrorField), Spread(t, NameField), Spread(t, TypeField))
      == Success(Descriptors(t))
    decreases t
  {
    match t
    case One(u) =>
      GatherOne(u);
    case Many(cs) =>
      var ts := SpreadEntries(cs, TmpField);
      var size, error, name, mediaType := Spread(t, SizeField), Spread(t, ErrorField), Spread(t, NameField), Spread(t, TypeField);
      forall j | 0 <= j < |cs|
        ensures Synthesized(ts, j, size, error, name, mediaType) == Success(Descriptors(cs[j].1))
      {
        SubSpread(cs, j, SizeField);
        SubSpread(cs, j, ErrorField);
        SubSpread(cs, j, NameField);
        SubSpread(cs, j, TypeField);
        GatherSpread(cs[j].1);
      }
      GatherMany(cs, size, error, name, mediaType);
      FromSpecBranch(ts, size, error, name, mediaType);
  }

  /** A posted tree, handed over as five parallel arrays, normalises to its
      uploaded files. */
  lemma NormalizePosting(t: PostedTree)
    requires WellPosted(t)
    ensures NormalizeValue(Posting(t)) == Success(Descriptors(t))
  {
    LeafGroup(Spread(t, NameField), Spread(t, TypeField), Spread(t, TmpField), Spread(t, ErrorField), Spread(t, SizeField));
    GatherSpread(t);
  }

  /** The uploaded files of a two-entry array. */
  lemma DescriptorsOfTwo(ka: Key, a: PostedTree, kb: Key, b: PostedTree)
    ensures Descriptors(Many([(ka, a), (kb, b)])) == Node([(ka, Descriptors(a)), (kb, Descriptors(b))])
  {
    var es := DescriptorEntries([(ka, a), (kb, b)]);
    assert es[0] == (ka, Descriptors(a)) && es[1] == (kb, Descriptors(b));
    assert es == [(ka, Descriptors(a)), (kb, Descriptors(b))];
  }

  /** A two-entry array with distinct keys normalises to its two files. */
  lemma NormalizeTwo(ka: Key, a: Posted, kb: Key, b: Posted)
    requires ka != kb && IsErrorCode(a.error) && IsErrorCode(b.error)
    ensures NormalizeValue(Posting(Many([(ka, One(a)), (kb, One(b))])))
      == Success(Node([(ka, Leaf(Described(a))), (kb, Leaf(Described(b)))]))
  {
    NormalizePosting(Many([(ka, One(a)), (kb, One(b))]));
    DescriptorsOfTwo(ka, One(a), kb, One(b));
  }

  /** Nested field names: `file[0]`, `file[1]`, `nested[other]`,
      `nested[test][0]` and `nested[test][1]` give a tree of the same keys,
      in the same order, with one uploaded file per posted file. */
  lemma NestedFiles(f0: Posted, f1: Posted, other: Posted, test0: Posted, test1: Posted)
    requires IsErrorCode(f0.error) && IsErrorCode(f1.error) && IsErrorCode(other.error)
    requires IsErrorCode(test0.error) && IsErrorCode(test1.error)
    ensures NormalizeFiles([
        (StrKey("file"), Posting(Many([(IntKey(0), One(f0)), (IntKey(1), One(f1))]))),
        (StrKey("nested"), Posting(Many([
          (StrKey("other"), One(other)),
          (StrKey("test"), Many([(IntKey(0), One(test0)), (IntKey(1), One(test1))]))])))])
      == Success([
        (StrKey("file"), Node([(IntKey(0), Leaf(Described(f0))), (IntKey(1), Leaf(Described(f1)))])),
        (StrKey("nested"), Node([
          (StrKey("other"), Leaf(Described(other))),
          (StrKey("test"), Node([(IntKey(0), Leaf(Described(test0))), (IntKey(1), Leaf(Described(test1)))]))]))])
  {
    var file := Many([(IntKey(0), One(f0)), (IntKey(1), One(f1))]);
    var test := Many([(IntKey(0), One(test0)), (IntKey(1), One(test1))]);
    var nested := Many([(StrKey("other"), One(other)), (StrKey("test"), test)]);
    assert |"other"| != |"test"|;
    assert WellPosted(test);
    assert WellPosted(nested);
    NormalizeTwo(IntKey(0), f0, IntKey(1), f1);
    NormalizePosting(nested);
    DescriptorsOfTwo(IntKey(0), One(test0), IntKey(1), One(test1));
    DescriptorsOfTwo(StrKey("other"), One(other), StrKey("test"), test);
    var files := [(StrKey("file"), Posting(file)), (StrKey("nested"), Posting(nested))];
    var expected := [
        (StrKey("file"), Node([(IntKey(0), Leaf(Described(f0))), (IntKey(1), Leaf(Described(f1)))])),
        (StrKey("nested"), Node([
          (StrKey("other"), Leaf(Described(other))),
          (StrKey("test"), Node([(IntKey(0), Leaf(Described(test0))), (IntKey(1), Leaf(Described(test1)))]))]))];
    NormalizeFilesPointwise(files);
    assert NormalizeFiles(files).value == expected;
  }
}
