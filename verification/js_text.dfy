/**
  The few JavaScript string and value operations the core relies on, with the
  semantics the language gives them: truthiness, `||`, `String(v)`,
  `String.prototype.replace` with a string pattern, `Array.prototype.join`,
  `startsWith`, `includes` and an ASCII `toLowerCase`.
 */
module JsText {
  import opened Wrappers

  /** A value thrown by a failing call: an `Error` carries a message. */
  datatype Thrown = ErrorValue(message: string) | OtherValue

  /** `error instanceof Error ? error.message : 'Unknown error'`. */
  function ErrorMessage(t: Thrown): string {
    match t
    case ErrorValue(m) => m
    case OtherValue => "Unknown error"
  }

  /** Truthiness of an optional string: `undefined`, `null` and `""` are falsy. */
  predicate Truthy(v: Option<string>) {
    v.Some? && v.value != ""
  }

  /** `a || b` over optional strings. */
  function Or(a: Option<string>, b: Option<string>): Option<string> {
    if Truthy(a) then a else b
  }

  /** `String(v)`: a missing value renders as the word "undefined". */
  function StringOf(v: Option<string>): string {
    if v.Some? then v.value else "undefined"
  }

  predicate StartsWith(s: string, prefix: string) {
    |prefix| <= |s| && s[..|prefix|] == prefix
  }

  /** `pat` occurs in `s` starting at index `i`. */
  predicate OccursAt(s: string, pat: string, i: nat) {
    i + |pat| <= |s| && s[i..i + |pat|] == pat
  }

  /** `s.includes(pat)`. */
  predicate Contains(s: string, pat: string) {
    exists i: nat | i <= |s| :: OccursAt(s, pat, i)
  }

  lemma OccursAtShift(s: string, pat: string, i: nat)
    requires |s| > 0
    ensures OccursAt(s, pat, i + 1) <==> OccursAt(s[1..], pat, i)
  {
    if i + 1 + |pat| <= |s| {
      assert s[i + 1..i + 1 + |pat|] == s[1..][i..i + |pat|];
    }
  }

  /** `s.indexOf(pat)`: the first index at which `pat` occurs, if any. */
  function IndexOf(s: string, pat: string): (r: Option<nat>)
    ensures r.Some? ==> OccursAt(s, pat, r.value)
    ensures r.Some? ==> forall j: nat :: j < r.value ==> !OccursAt(s, pat, j)
    ensures r.None? <==> !Contains(s, pat)
    decreases |s|
  {
    if OccursAt(s, pat, 0) then Some(0)
    else if |s| == 0 then
      assert forall j: nat :: !OccursAt(s, pat, j);
      None
    else
      match IndexOf(s[1..], pat)
      case None =>
        assert forall j: nat :: !OccursAt(s, pat, j) by {
          forall j: nat ensures !OccursAt(s, pat, j) {
            if j > 0 {
              OccursAtShift(s, pat, j - 1);
            }
          }
        }
        None
      case Some(k) =>
        OccursAtShift(s, pat, k);
        assert forall j: nat :: j < k + 1 ==> !OccursAt(s, pat, j) by {
          forall j: nat | j < k + 1 ensures !OccursAt(s, pat, j) {
            if j > 0 {
              OccursAtShift(s, pat, j - 1);
            }
          }
        }
        Some(k + 1)
  }

  /**
    `s.replace(pat, rep)` as the program means it: the first occurrence of
    `pat` is replaced by `rep` taken literally; without an occurrence `s` is
    returned unchanged.
   */
  function ReplaceFirst(s: string, pat: string, rep: string): string {
    match IndexOf(s, pat)
    case None => s
    case Some(i) => s[..i] + rep + s[i + |pat|..]
  }

  /**
    The replacement-pattern expansion JavaScript applies to the replacement
    string of `replace` when the pattern is a string (GetSubstitution in the
    ECMAScript language specification): `$$` gives `$`, `$&` the matched
    text, `` $` `` the text before the match and `$'` the text after it;
    with no capture groups every other `$` sequence stays literal.
   */
  function ExpandReplacement(rep: string, matched: string, before: string, after: string): string
    decreases |rep|
  {
    if |rep| == 0 then ""
    else if rep[0] == '$' && |rep| >= 2 && rep[1] in "$&`'" then
      (if rep[1] == '$' then "$"
       else if rep[1] == '&' then matched
       else if rep[1] == '`' then before
       else after)
      + ExpandReplacement(rep[2..], matched, before, after)
    else [rep[0]] + ExpandReplacement(rep[1..], matched, before, after)
  }

  /** `s.replace(pat, rep)` exactly as JavaScript evaluates it, `$` patterns included. */
  function ReplaceFirstExpanding(s: string, pat: string, rep: string): string {
    match IndexOf(s, pat)
    case None => s
    case Some(i) => s[..i] + ExpandReplacement(rep, pat, s[..i], s[i + |pat|..]) + s[i + |pat|..]
  }

  /** Without a `$` the replacement string is inserted as it is. */
  lemma {:induction false} ExpandWithoutDollar(rep: string, matched: string, before: string, after: string)
    requires '$' !in rep
    ensures ExpandReplacement(rep, matched, before, after) == rep
    decreases |rep|
  {
    if |rep| > 0 {
      assert '$' !in rep[1..];
      ExpandWithoutDollar(rep[1..], matched, before, after);
    }
  }

  /** A `$`-free prefix of the replacement passes through unchanged. */
  lemma {:induction false} ExpandPlainPrefix(plain: string, rest: string, matched: string, before: string, after: string)
    requires '$' !in plain
    ensures ExpandReplacement(plain + rest, matched, before, after)
         == plain + ExpandReplacement(rest, matched, before, after)
    decreases |plain|
  {
    if |plain| > 0 {
      assert (plain + rest)[0] == plain[0] != '$';
      assert (plain + rest)[1..] == plain[1..] + rest;
      assert '$' !in plain[1..];
      ExpandPlainPrefix(plain[1..], rest, matched, before, after);
      assert plain == [plain[0]] + plain[1..];
    } else {
      assert plain + rest == rest;
    }
  }

  /** The two readings of `replace` agree whenever the replacement has no `$`. */
  lemma ExpandingAgreesWithoutDollar(s: string, pat: string, rep: string)
    requires '$' !in rep
    ensures ReplaceFirstExpanding(s, pat, rep) == ReplaceFirst(s, pat, rep)
  {
    var found := IndexOf(s, pat);
    if found.Some? {
      var i := found.value;
      var before, after := s[..i], s[i + |pat|..];
      assert ExpandReplacement(rep, pat, before, after) == rep by {
        ExpandWithoutDollar(rep, pat, before, after);
      }
    }
  }

  /**
    Only the first occurrence is replaced: when `s` is `a + pat + b` and
    `pat` does not start anywhere inside `a`, the result is `a + rep + b`
    whatever `b` holds.
   */
  lemma ReplaceFirstSplits(a: string, pat: string, b: string, rep: string)
    requires forall j: nat :: j < |a| ==> !OccursAt(a + pat + b, pat, j)
    ensures ReplaceFirst(a + pat + b, pat, rep) == a + rep + b
    ensures IndexOf(a + pat + b, pat) == Some(|a|)
  {
    var s := a + pat + b;
    assert s[|a|..|a| + |pat|] == pat;
    assert OccursAt(s, pat, |a|);
    assert s[..|a|] == a;
    assert s[|a| + |pat|..] == b;
  }

  /** A string with no occurrence of `pat` is left as it is. */
  lemma ReplaceFirstAbsent(s: string, pat: string, rep: string)
    requires !Contains(s, pat)
    ensures ReplaceFirst(s, pat, rep) == s
    ensures ReplaceFirstExpanding(s, pat, rep) == s
  {
  }

  /** How `Array.prototype.join` renders one element: `undefined` becomes "". */
  function JoinPiece(v: Option<string>): string {
    v.GetOr("")
  }

  /** `xs.join(sep)`. */
  function Join(xs: seq<Option<string>>, sep: string): string {
    if |xs| == 0 then ""
    else if |xs| == 1 then JoinPiece(xs[0])
    else JoinPiece(xs[0]) + sep + Join(xs[1..], sep)
  }

  /**
    With a non-empty separator, the joined string is empty exactly when the
    list is empty or holds a single element that renders as "".
   */
  lemma JoinEmptyIff(xs: seq<Option<string>>, sep: string)
    requires sep != ""
    ensures Join(xs, sep) == "" <==> |xs| == 0 || (|xs| == 1 && JoinPiece(xs[0]) == "")
  {
    if |xs| >= 2 {
      assert |Join(xs, sep)| >= |sep|;
    }
  }

  predicate IsAsciiUpper(c: char) {
    'A' <= c <= 'Z'
  }

  predicate IsAsciiLetter(c: char) {
    IsAsciiUpper(c) || 'a' <= c <= 'z'
  }

  function LowerChar(c: char): char {
    if IsAsciiUpper(c) then (c as int + 32) as char else c
  }

  /** `s.toLowerCase()` restricted to the ASCII letters. */
  function AsciiLower(s: string): (r: string)
    ensures |r| == |s|
    ensures forall i :: 0 <= i < |s| ==> r[i] == LowerChar(s[i])
  {
    seq(|s|, i requires 0 <= i < |s| => LowerChar(s[i]))
  }
}
