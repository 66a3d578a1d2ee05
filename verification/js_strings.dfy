/**
 * The JavaScript string built-ins the converter relies on, over `seq<char>`:
 * `String.prototype.split` with a one-character separator,
 * `String.prototype.indexOf` and `String.prototype.replace` with a string
 * (not a regular-expression) pattern.
 */
module JsStrings {
  import opened Wrappers

  /** `c` does not occur anywhere in `s`. */
  predicate Free(s: string, c: char)
  {
    forall i :: 0 <= i < |s| ==> s[i] != c
  }

  /** Glues the pieces back together with `c` between consecutive pieces
      (`Array.prototype.join`); the inverse of `Split`. */
  function Join(parts: seq<string>, c: char): string
    requires |parts| >= 1
  {
    if |parts| == 1 then parts[0] else parts[0] + [c] + Join(parts[1..], c)
  }

  /** `s.split(c)`: the maximal runs of `s` that do not contain `c`, in order.
      The result always has at least one piece (`"".split(".")` is `[""]`). */
  function Split(s: string, c: char): (parts: seq<string>)
    ensures |parts| >= 1
    ensures forall k :: 0 <= k < |parts| ==> Free(parts[k], c)
    ensures Join(parts, c) == s
  {
    if |s| == 0 then [""]
    else
      var rest := Split(s[1..], c);
      if s[0] == c then
        [""] + rest
      else
        JoinConsHead(s[0], rest, c);
        [[s[0]] + rest[0]] + rest[1..]
  }

  /** Prepending a character to the first piece prepends it to the joined string. */
  lemma JoinConsHead(x: char, parts: seq<string>, c: char)
    requires |parts| >= 1
    ensures Join([[x] + parts[0]] + parts[1..], c) == [x] + Join(parts, c)
  {
  }

  /** The first piece of a join is a prefix of it, followed by `c` when more pieces follow. */
  lemma JoinHead(parts: seq<string>, c: char)
    requires |parts| >= 1
    ensures |parts[0]| <= |Join(parts, c)|
    ensures Join(parts, c)[..|parts[0]|] == parts[0]
    ensures |parts| > 1 ==> |parts[0]| < |Join(parts, c)| && Join(parts, c)[|parts[0]|] == c
  {
  }

  /** The text before the first `c`: element 0 of `s.split(c)`. */
  function FirstPiece(s: string, c: char): (p: string)
    ensures Free(p, c)
    ensures |p| <= |s| && s[..|p|] == p
    ensures |p| < |s| ==> s[|p|] == c
  {
    var parts := Split(s, c);
    JoinHead(parts, c);
    parts[0]
  }

  /** Round trip: the first piece of a dot-free prefix followed by `c` is that prefix. */
  lemma FirstPieceOfJoined(p: string, c: char, rest: string)
    requires Free(p, c)
    ensures FirstPiece(p + [c] + rest, c) == p
  {
    var s := p + [c] + rest;
    var r := FirstPiece(s, c);
    assert forall j :: 0 <= j < |p| ==> s[j] != c;
    assert s[|p|] == c;
    assert forall j :: 0 <= j < |r| ==> s[j] == r[j];
    assert |r| == |p|;
    assert s[..|p|] == p;
  }

  /** `pat` occurs in `s` starting at index `i`. */
  predicate OccursAt(s: string, pat: string, i: nat)
  {
    i + |pat| <= |s| && s[i..i + |pat|] == pat
  }

  /** `s.indexOf(pat, from)`: the least index at or after `from` where `pat` occurs. */
  function IndexFrom(s: string, pat: string, from: nat): (r: Option<nat>)
    decreases |s| - from
    ensures r.Some? ==> from <= r.value && OccursAt(s, pat, r.value)
    ensures r.Some? ==> forall i :: from <= i < r.value ==> !OccursAt(s, pat, i)
    ensures r.None? ==> forall i :: from <= i ==> !OccursAt(s, pat, i)
  {
    if from + |pat| > |s| then None
    else if s[from..from + |pat|] == pat then Some(from)
    else IndexFrom(s, pat, from + 1)
  }

  /** `s.indexOf(pat)`: the first occurrence of `pat` in `s`, if any. */
  function IndexOf(s: string, pat: string): (r: Option<nat>)
    ensures r.Some? ==> OccursAt(s, pat, r.value)
    ensures r.Some? ==> forall i :: 0 <= i < r.value ==> !OccursAt(s, pat, i)
    ensures r.None? <==> forall i :: 0 <= i ==> !OccursAt(s, pat, i)
  {
    IndexFrom(s, pat, 0)
  }

  /** `s.replace(pat, rep)` with a string pattern: only the first occurrence of
      `pat` is replaced; `s` is returned unchanged when `pat` does not occur.
      (`rep` is taken literally; the converter's `".jpg"` holds no `$` pattern.) */
  function ReplaceFirst(s: string, pat: string, rep: string): (r: string)
    ensures (forall i :: 0 <= i ==> !OccursAt(s, pat, i)) ==> r == s
  {
    match IndexOf(s, pat)
    case None => s
    case Some(i) => s[..i] + rep + s[i + |pat|..]
  }

  /** Replacing a pattern that occurs for the first time at `i` splices `rep` in at `i`. */
  lemma ReplaceFirstAt(s: string, pat: string, rep: string, i: nat)
    requires OccursAt(s, pat, i)
    requires forall j :: 0 <= j < i ==> !OccursAt(s, pat, j)
    ensures ReplaceFirst(s, pat, rep) == s[..i] + rep + s[i + |pat|..]
  {
  }
}
