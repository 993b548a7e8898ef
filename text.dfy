/** String helpers shared by the encoder and the request reconstruction:
    ASCII lower-casing (PHP's strtolower), first and last occurrence of a
    character, and splitting at them. */
module Text {
  import opened Wrappers

  const CRLF: string := "\r\n"

  /** The text made of the given lines, each ended by CRLF. */
  function Lines(ls: seq<string>): string {
    if ls == [] then "" else ls[0] + CRLF + Lines(ls[1..])
  }

  lemma {:induction false} LinesAppend(a: seq<string>, b: seq<string>)
    ensures Lines(a + b) == Lines(a) + Lines(b)
  {
    if a == [] {
      assert a + b == b;
      assert "" + Lines(b) == Lines(b);
    } else {
      assert (a + b)[0] == a[0];
      assert (a + b)[1..] == a[1..] + b;
      LinesAppend(a[1..], b);
    }
  }

  function LowerChar(c: char): (l: char)
    ensures 'A' <= c <= 'Z' ==> l as int == c as int + 32
    ensures !('A' <= c <= 'Z') ==> l == c
  {
    if 'A' <= c <= 'Z' then (c as int + 32) as char else c
  }

  /** Header names compare as PHP compares their strtolower forms,
      character by character. */
  predicate SameIgnoringCase(a: string, b: string) {
    |a| == |b| && (a == [] || (LowerChar(a[0]) == LowerChar(b[0]) && SameIgnoringCase(a[1..], b[1..])))
  }

  /** The same comparison, stated position by position. */
  lemma {:induction false} SameIgnoringCasePointwise(a: string, b: string)
    ensures SameIgnoringCase(a, b) <==> |a| == |b| && forall k :: 0 <= k < |a| ==> LowerChar(a[k]) == LowerChar(b[k])
  {
    if |a| == |b| && a != [] {
      SameIgnoringCasePointwise(a[1..], b[1..]);
      if forall k :: 0 <= k < |a| ==> LowerChar(a[k]) == LowerChar(b[k]) {
        assert forall k :: 0 <= k < |a| - 1 ==> a[1..][k] == a[k + 1] && b[1..][k] == b[k + 1];
      }
      if SameIgnoringCase(a, b) {
        forall k | 0 <= k < |a| ensures LowerChar(a[k]) == LowerChar(b[k]) {
          if k > 0 {
            assert a[1..][k - 1] == a[k] && b[1..][k - 1] == b[k];
          }
        }
      }
    }
  }

  /** The position of the first c in s, if any. */
  function IndexOf(s: string, c: char): (r: Option<nat>)
    ensures r.None? <==> c !in s
    ensures r.Some? ==> r.value < |s| && s[r.value] == c && c !in s[..r.value]
  {
    if s == [] then None
    else if s[0] == c then Some(0)
    else match IndexOf(s[1..], c)
      case None => None
      case Some(i) => assert s[1..][..i] == s[1..i + 1]; Some(i + 1)
  }

  /** The position of the last c in s, if any. */
  function LastIndexOf(s: string, c: char): (r: Option<nat>)
    ensures r.None? <==> c !in s
    ensures r.Some? ==> r.value < |s| && s[r.value] == c && c !in s[r.value + 1..]
  {
    if s == [] then None
    else if s[|s| - 1] == c then Some(|s| - 1)
    else match LastIndexOf(s[..|s| - 1], c)
      case None => assert s == s[..|s| - 1] + [s[|s| - 1]]; None
      case Some(i) => Some(i)
  }

  /** The longest suffix of s that does not contain c. */
  function AfterLast(s: string, c: char): (r: string)
    ensures |r| <= |s| && r == s[|s| - |r|..]
    ensures c !in r
    ensures |r| < |s| ==> s[|s| - |r| - 1] == c
  {
    match LastIndexOf(s, c)
    case None => s
    case Some(i) => s[i + 1..]
  }

  /** s cut at its first c: the part before it and, when c occurs, the part after it. */
  function SplitAtFirst(s: string, c: char): (r: (string, Option<string>))
    ensures c !in r.0
    ensures r.1.None? <==> c !in s
    ensures s == r.0 + (if r.1.Some? then [c] + r.1.value else [])
  {
    match IndexOf(s, c)
    case None => (s, None)
    case Some(i) => assert s == s[..i] + [c] + s[i + 1..]; (s[..i], Some(s[i + 1..]))
  }

  /** The first `c` of `a + [c] + b`, when `a` has no `c`, is at `|a|`. */
  lemma {:induction false} IndexOfAt(a: string, b: string, c: char)
    requires c !in a
    ensures IndexOf(a + [c] + b, c) == Some(|a|)
  {
    if a != [] {
      IndexOfAt(a[1..], b, c);
      assert (a + [c] + b)[1..] == a[1..] + [c] + b;
    }
  }

  /** Splitting at the first `c` of `a + [c] + b`, when `a` has no `c`,
      gives back `a` and `b`. */
  lemma SplitAtFirstAt(a: string, b: string, c: char)
    requires c !in a
    ensures SplitAtFirst(a + [c] + b, c) == (a, Some(b))
  {
    var s := a + [c] + b;
    IndexOfAt(a, b, c);
    assert s[..|a|] == a && s[|a| + 1..] == b;
  }
}
