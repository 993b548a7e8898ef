/** The server-side request as an immutable value: every `with*` and
    `without*` operation returns a new request and leaves the one it was
    called on as it was. Attributes are an ordered PHP array from names to
    values; the uploaded files are a normalised upload tree. */
module ServerRequests {
  import opened Wrappers
  import opened UploadedFiles

  datatype ServerRequest<V> = ServerRequest(
    httpMethod: string,
    uri: string,
    uploadedFiles: seq<(Key, Tree)>,
    attributes: seq<(string, V)>)

  /** A request as the constructor makes it: no uploaded files, no attributes. */
  function NewRequest<V>(httpMethod: string, uri: string): (r: ServerRequest<V>)
    ensures r.httpMethod == httpMethod && r.uri == uri
    ensures r.uploadedFiles == [] && r.attributes == []
  {
    ServerRequest(httpMethod, uri, [], [])
  }

  /** A PHP array has each key at most once. */
  predicate UniqueNames<V>(a: seq<(string, V)>) {
    forall i, j :: 0 <= i < j < |a| ==> a[i].0 != a[j].0
  }

  predicate HasName<V>(a: seq<(string, V)>, name: string) {
    exists i :: 0 <= i < |a| && a[i].0 == name
  }

  /** The position of the entry named `name`, if any (the first one). */
  function Find<V>(a: seq<(string, V)>, name: string): (r: Option<nat>)
    ensures r.None? <==> !HasName(a, name)
    ensures r.Some? ==> r.value < |a| && a[r.value].0 == name
    ensures r.Some? ==> forall j :: 0 <= j < r.value ==> a[j].0 != name
  {
    if a == [] then None
    else if a[0].0 == name then Some(0)
    else match Find(a[1..], name)
      case None => None
      case Some(i) => Some(i + 1)
  }

  /** The value stored under `name`, or `default` when there is none. */
  function GetAttribute<V>(r: ServerRequest<V>, name: string, default: V): (v: V)
    ensures !HasName(r.attributes, name) ==> v == default
    ensures UniqueNames(r.attributes) ==>
      forall j :: 0 <= j < |r.attributes| && r.attributes[j].0 == name ==> v == r.attributes[j].1
  {
    match Find(r.attributes, name)
    case None => default
    case Some(i) => r.attributes[i].1
  }

  /** A copy whose attribute `name` is `value`: an existing entry is
      replaced where it stands, a new one goes at the end. */
  function WithAttribute<V>(r: ServerRequest<V>, name: string, value: V): (s: ServerRequest<V>)
    ensures s.httpMethod == r.httpMethod && s.uri == r.uri && s.uploadedFiles == r.uploadedFiles
    ensures HasName(r.attributes, name) ==> |s.attributes| == |r.attributes|
    ensures !HasName(r.attributes, name) ==> s.attributes == r.attributes + [(name, value)]
    ensures forall j :: 0 <= j < |r.attributes| && r.attributes[j].0 != name ==> s.attributes[j] == r.attributes[j]
  {
    match Find(r.attributes, name)
    case None => r.(attributes := r.attributes + [(name, value)])
    case Some(i) => r.(attributes := r.attributes[i := (name, value)])
  }

  /** A copy without the attribute `name`; the request itself when there is
      no such attribute. */
  function WithoutAttribute<V>(r: ServerRequest<V>, name: string): (s: ServerRequest<V>)
    ensures s.httpMethod == r.httpMethod && s.uri == r.uri && s.uploadedFiles == r.uploadedFiles
    ensures !HasName(r.attributes, name) ==> s == r
    ensures HasName(r.attributes, name) ==> |s.attributes| == |r.attributes| - 1
    ensures HasName(r.attributes, name) ==>
      exists k :: 0 <= k < |r.attributes| && r.attributes[k].0 == name
        && (forall j :: 0 <= j < k ==> r.attributes[j].0 != name)
        && s.attributes == r.attributes[..k] + r.attributes[k + 1..]
  {
    match Find(r.attributes, name)
    case None => r
    case Some(i) => r.(attributes := r.attributes[..i] + r.attributes[i + 1..])
  }

  /** A copy carrying the given upload tree; nothing else changes. */
  function WithUploadedFiles<V>(r: ServerRequest<V>, files: seq<(Key, Tree)>): (s: ServerRequest<V>)
    ensures s.uploadedFiles == files
    ensures s.httpMethod == r.httpMethod && s.uri == r.uri && s.attributes == r.attributes
  {
    r.(uploadedFiles := files)
  }

  /** Setting an attribute keeps the names unique. */
  lemma WithKeepsUnique<V>(r: ServerRequest<V>, name: string, value: V)
    requires UniqueNames(r.attributes)
    ensures UniqueNames(WithAttribute(r, name, value).attributes)
  {
    var a := r.attributes;
    var b := WithAttribute(r, name, value).attributes;
    match Find(a, name)
    case None =>
      assert forall i :: 0 <= i < |a| ==> b[i] == a[i];
    case Some(k) =>
      assert forall i :: 0 <= i < |a| ==> b[i].0 == a[i].0;
  }

  /** Removing an attribute keeps the names unique. */
  lemma WithoutKeepsUnique<V>(r: ServerRequest<V>, name: string)
    requires UniqueNames(r.attributes)
    ensures UniqueNames(WithoutAttribute(r, name).attributes)
  {
    var a := r.attributes;
    match Find(a, name)
    case None =>
    case Some(k) =>
      var b := a[..k] + a[k + 1..];
      assert forall i :: 0 <= i < |b| ==> b[i] == if i < k then a[i] else a[i + 1];
  }

  /** Reading back an attribute just set gives its value. */
  lemma GetAfterWith<V>(r: ServerRequest<V>, name: string, value: V, default: V)
    requires UniqueNames(r.attributes)
    ensures GetAttribute(WithAttribute(r, name, value), name, default) == value
  {
    var s := WithAttribute(r, name, value);
    WithKeepsUnique(r, name, value);
    match Find(r.attributes, name)
    case None =>
      assert s.attributes[|r.attributes|] == (name, value);
    case Some(k) =>
      assert s.attributes[k] == (name, value);
  }

  /** Setting one attribute leaves every other attribute as it was. */
  lemma GetOtherAfterWith<V>(r: ServerRequest<V>, name: string, value: V, other: string, default: V)
    requires UniqueNames(r.attributes) && other != name
    ensures GetAttribute(WithAttribute(r, name, value), other, default) == GetAttribute(r, other, default)
  {
    var a := r.attributes;
    var s := WithAttribute(r, name, value);
    WithKeepsUnique(r, name, value);
    match Find(a, other)
    case None =>
      forall j | 0 <= j < |s.attributes|
        ensures s.attributes[j].0 != other
      {
        if j < |a| {
          assert a[j].0 != other;
        }
      }
    case Some(k) =>
      assert s.attributes[k] == a[k];
  }

  /** After removing an attribute, reading it gives the default. */
  lemma GetAfterWithout<V>(r: ServerRequest<V>, name: string, default: V)
    requires UniqueNames(r.attributes)
    ensures GetAttribute(WithoutAttribute(r, name), name, default) == default
  {
    var a := r.attributes;
    match Find(a, name)
    case None =>
    case Some(k) =>
      var b := a[..k] + a[k + 1..];
      forall j | 0 <= j < |b|
        ensures b[j].0 != name
      {
        assert b[j] == if j < k then a[j] else a[j + 1];
      }
  }

  /** Removing one attribute leaves every other attribute as it was. */
  lemma GetOtherAfterWithout<V>(r: ServerRequest<V>, name: string, other: string, default: V)
    requires UniqueNames(r.attributes) && other != name
    ensures GetAttribute(WithoutAttribute(r, name), other, default) == GetAttribute(r, other, default)
  {
    var a := r.attributes;
    WithoutKeepsUnique(r, name);
    match Find(a, name)
    case None =>
    case Some(k) =>
      var b := a[..k] + a[k + 1..];
      match Find(a, other)
      case None =>
        forall j | 0 <= j < |b|
          ensures b[j].0 != other
        {
          assert b[j] == if j < k then a[j] else a[j + 1];
        }
      case Some(m) =>
        assert m != k;
        if m < k {
          assert b[m] == a[m];
        } else {
          assert b[m - 1] == a[m];
        }
  }

  /** Adding a new attribute and removing it again gives back the request. */
  lemma WithoutUndoesWith<V>(r: ServerRequest<V>, name: string, value: V)
    requires !HasName(r.attributes, name)
    ensures WithoutAttribute(WithAttribute(r, name, value), name) == r
  {
    var a := r.attributes;
    var b := a + [(name, value)];
    assert b[|a|].0 == name;
    assert forall j :: 0 <= j < |a| ==> b[j] == a[j];
    assert Find(b, name) == Some(|a|);
    assert b[..|a|] + b[|a| + 1..] == a;
  }

  /** Setting the same attribute twice is setting it once. */
  lemma WithIdempotent<V>(r: ServerRequest<V>, name: string, value: V)
    requires UniqueNames(r.attributes)
    ensures WithAttribute(WithAttribute(r, name, value), name, value) == WithAttribute(r, name, value)
  {
    var a := r.attributes;
    var s := WithAttribute(r, name, value);
    WithKeepsUnique(r, name, value);
    match Find(a, name)
    case None =>
      assert s.attributes[|a|].0 == name;
      assert forall j :: 0 <= j < |a| ==> s.attributes[j] == a[j];
      assert Find(s.attributes, name) == Some(|a|);
      assert s.attributes[|a| := (name, value)] == s.attributes;
    case Some(k) =>
      assert s.attributes[k] == (name, value);
      assert forall j :: 0 <= j < k ==> s.attributes[j] == a[j];
      assert Find(s.attributes, name) == Some(k);
      assert s.attributes[k := (name, value)] == s.attributes;
  }

  /** A new request has no attributes and a missing attribute reads as the
      supplied default; adding `name` then `other` lists them in that order;
      removing `other` gives back the first list; removing an unknown name
      changes nothing. */
  lemma AttributeScenario(r1: ServerRequest<string>, default: string)
    requires r1.attributes == []
    ensures GetAttribute(r1, "name", default) == default
    ensures GetAttribute(WithAttribute(r1, "name", "value"), "name", default) == "value"
    ensures WithAttribute(r1, "name", "value").attributes == [("name", "value")]
    ensures WithAttribute(WithAttribute(r1, "name", "value"), "other", "otherValue").attributes
      == [("name", "value"), ("other", "otherValue")]
    ensures WithoutAttribute(WithAttribute(WithAttribute(r1, "name", "value"), "other", "otherValue"), "other").attributes
      == [("name", "value")]
    ensures var r3 := WithAttribute(WithAttribute(r1, "name", "value"), "other", "otherValue");
      WithoutAttribute(r3, "unknown") == r3
  {
    var r2 := WithAttribute(r1, "name", "value");
    GetAfterWith(r1, "name", "value", default);
    assert "other" != "name";
    assert !HasName(r2.attributes, "other");
    var r3 := WithAttribute(r2, "other", "otherValue");
    WithoutUndoesWith(r2, "other", "otherValue");
    assert "unknown" != "name" && "unknown" != "other";
    assert !HasName(r3.attributes, "unknown");
  }

  /** A new request has no uploaded files; the copy made by
      `WithUploadedFiles` has exactly the given ones and the original keeps
      none. */
  lemma UploadedFilesScenario<V>(httpMethod: string, uri: string, files: seq<(Key, Tree)>)
    ensures NewRequest<V>(httpMethod, uri).uploadedFiles == []
    ensures WithUploadedFiles(NewRequest<V>(httpMethod, uri), files).uploadedFiles == files
    ensures files != [] ==> WithUploadedFiles(NewRequest<V>(httpMethod, uri), files) != NewRequest<V>(httpMethod, uri)
  {
  }
}
