/** The few JavaScript string operations the script parser relies on:
    `trim`, ASCII `toUpperCase`/`toLowerCase`, `includes`, `split` on one
    character and `join`. Strings are sequences of Unicode scalar values,
    which is what Dafny's `char` is, where JavaScript has UTF-16 code units:
    a character outside the Basic Multilingual Plane is one `char` here and
    two units there, and a lone surrogate has no `char`. Every pattern and
    marker the parser tests for is a single Basic Multilingual Plane
    character or a run of them, none a surrogate, so no modelled operation
    tells the two apart. The scans walk an index through the string rather
    than slicing it, and the properties of each operation are lemmas next
    to it. */
module Strings {

  /** White space as `String.prototype.trim` and the regular-expression
      class `\s` understand it: the ECMAScript WhiteSpace and LineTerminator
      code points. */
  predicate IsSpace(c: char) {
    c == '\t' || c == '\n' || c == '\U{000B}' || c == '\U{000C}' || c == '\r' ||
    c == ' ' || c == '\U{00A0}' || c == '\U{1680}' || ('\U{2000}' <= c <= '\U{200A}') ||
    c == '\U{2028}' || c == '\U{2029}' || c == '\U{202F}' || c == '\U{205F}' ||
    c == '\U{3000}' || c == '\U{FEFF}'
  }

  /** The code points a regular-expression `.` does not match. */
  predicate IsLineTerminator(c: char) {
    c == '\n' || c == '\r' || c == '\U{2028}' || c == '\U{2029}'
  }

  predicate AllSpace(s: string) {
    forall i :: 0 <= i < |s| ==> IsSpace(s[i])
  }

  /** The first index at or after `i` that does not hold white space. */
  function SkipSpace(s: string, i: nat): (j: nat)
    requires i <= |s|
    ensures i <= j <= |s|
    ensures forall k {:trigger IsSpace(s[k])} :: i <= k < j ==> IsSpace(s[k])
    ensures j == |s| || !IsSpace(s[j])
    decreases |s| - i
  {
    if i < |s| && IsSpace(s[i]) then SkipSpace(s, i + 1) else i
  }

  /** The index just past the last character before `j`, and not before
      `i`, that is not white space (`i` when there is none). */
  function SkipSpaceBack(s: string, i: nat, j: nat): (e: nat)
    requires i <= j <= |s|
    ensures i <= e <= j
    ensures forall k {:trigger IsSpace(s[k])} :: e <= k < j ==> IsSpace(s[k])
    ensures e == i || !IsSpace(s[e - 1])
    decreases j
  {
    if i < j && IsSpace(s[j - 1]) then SkipSpaceBack(s, i, j - 1) else j
  }

  /** `s.trim()`: no longer than `s`, and neither starting nor ending with
      white space. */
  function Trim(s: string): (r: string)
    ensures |r| <= |s|
    ensures r == [] || (!IsSpace(r[0]) && !IsSpace(r[|r| - 1]))
  {
    var a := SkipSpace(s, 0);
    s[a..SkipSpaceBack(s, a, |s|)]
  }

  /** Trimming keeps an infix of `s` that neither starts nor ends with white
      space, and drops only white space around it. */
  lemma TrimIsInfix(s: string)
    ensures var r := Trim(s);
            exists i :: 0 <= i && i + |r| <= |s| && r == s[i..i + |r|] &&
                        AllSpace(s[..i]) && AllSpace(s[i + |r|..])
    ensures var r := Trim(s);
            r == [] || (!IsSpace(r[0]) && !IsSpace(r[|r| - 1]))
  {
    var a := SkipSpace(s, 0);
    var e := SkipSpaceBack(s, a, |s|);
    var r := Trim(s);
    assert r == s[a..a + |r|];
    assert AllSpace(s[..a]);
    assert AllSpace(s[a + |r|..]) by {
      forall k | 0 <= k < |s| - e ensures IsSpace(s[e..][k]) {
        assert s[e..][k] == s[e + k];
      }
    }
  }

  /** A string trims to nothing exactly when it is all white space. */
  lemma TrimEmpty(s: string)
    ensures Trim(s) == [] <==> AllSpace(s)
  {
    var a := SkipSpace(s, 0);
    var e := SkipSpaceBack(s, a, |s|);
    if Trim(s) == [] {
      assert e == a;
    } else {
      assert a < |s| && !IsSpace(s[a]);
    }
  }

  function UpperChar(c: char): char {
    if 'a' <= c <= 'z' then (c as int - 32) as char else c
  }

  function LowerChar(c: char): char {
    if 'A' <= c <= 'Z' then (c as int + 32) as char else c
  }

  /** `s.toUpperCase()` restricted to ASCII letters: as long as `s`, and
      with no lower-case ASCII letter left. */
  function Upper(s: string): (r: string)
    ensures |r| == |s|
    ensures forall i :: 0 <= i < |r| ==> !('a' <= r[i] <= 'z')
  {
    seq(|s|, i requires 0 <= i < |s| => UpperChar(s[i]))
  }

  /** `s.toLowerCase()` restricted to ASCII letters: as long as `s`, and
      with no upper-case ASCII letter left. */
  function Lower(s: string): (r: string)
    ensures |r| == |s|
    ensures forall i :: 0 <= i < |r| ==> !('A' <= r[i] <= 'Z')
  {
    seq(|s|, i requires 0 <= i < |s| => LowerChar(s[i]))
  }

  /** Upper-casing changes letters only: no other character becomes, or
      stops being, a given non-letter. */
  lemma UpperCharKeepsNonLetters(c: char, d: char)
    requires !('a' <= d <= 'z') && !('A' <= d <= 'Z')
    ensures UpperChar(c) == d <==> c == d
  {
  }

  /** Lower-casing twice is lower-casing once. */
  lemma LowerIdempotent(s: string)
    ensures Lower(Lower(s)) == Lower(s)
  {
    assert forall i :: 0 <= i < |s| ==> Lower(Lower(s))[i] == Lower(s)[i];
  }

  /** Upper-casing first changes nothing to the lower-cased result. */
  lemma LowerOfUpper(s: string)
    ensures Lower(Upper(s)) == Lower(s)
  {
    assert forall i :: 0 <= i < |s| ==> Lower(Upper(s))[i] == Lower(s)[i];
  }

  /** `p` occurs in `s` starting at index `i`. */
  predicate OccursAt(s: string, p: string, i: int) {
    0 <= i && i + |p| <= |s| && forall k :: 0 <= k < |p| ==> s[i + k] == p[k]
  }

  /** `s.includes(p)`: every string includes the empty string, and none
      includes a pattern longer than itself. */
  predicate Contains(s: string, p: string)
    ensures p == [] ==> Contains(s, p)
    ensures Contains(s, p) ==> |p| <= |s|
  {
    assert p == [] ==> OccursAt(s, p, 0);
    exists i | 0 <= i <= |s| - |p| :: OccursAt(s, p, i)
  }

  /** If the upper-cased `s` contains a pattern with a non-letter at
      position `k`, then `s` itself holds that character: upper-casing
      never manufactures punctuation. */
  lemma UpperContainsNonLetter(s: string, p: string, k: nat)
    requires Contains(Upper(s), p)
    requires k < |p| && !('a' <= p[k] <= 'z') && !('A' <= p[k] <= 'Z')
    ensures Contains(s, [p[k]])
  {
    var i :| OccursAt(Upper(s), p, i);
    assert OccursAt(Upper(s), p, i);
    assert Upper(s)[i + k] == p[k];
    UpperCharKeepsNonLetters(s[i + k], p[k]);
    assert OccursAt(s, [p[k]], i + k);
  }

  /** `Contains` for a one-character pattern is membership. */
  lemma ContainsChar(s: string, c: char)
    ensures Contains(s, [c]) <==> c in s
  {
    if c in s {
      var i :| 0 <= i < |s| && s[i] == c;
      assert OccursAt(s, [c], i);
    }
    if Contains(s, [c]) {
      var i :| OccursAt(s, [c], i);
      assert OccursAt(s, [c], i);
      assert s[i + 0] == [c][0];
    }
  }

  /** The index of the first `c` at or after `i`, or `|s|` when there is
      none. */
  function Find(s: string, c: char, i: nat): (j: nat)
    requires i <= |s|
    ensures i <= j <= |s|
    ensures j < |s| ==> s[j] == c
    ensures forall k :: i <= k < j ==> s[k] != c
    decreases |s| - i
  {
    if i == |s| || s[i] == c then i else Find(s, c, i + 1)
  }

  /** The pieces of `s[i..]` between the occurrences of `c`. */
  function SplitFrom(s: string, c: char, i: nat): (r: seq<string>)
    requires i <= |s|
    ensures |r| >= 1
    decreases |s| - i
  {
    var j := Find(s, c, i);
    if j == |s| then [s[i..]] else [s[i..j]] + SplitFrom(s, c, j + 1)
  }

  /** `s.split(c)` for a one-character separator: at least one piece, even
      for the empty string. */
  function Split(s: string, c: char): (r: seq<string>)
    ensures |r| >= 1
  {
    SplitFrom(s, c, 0)
  }

  /** `parts.join(c)`: the parts and one separator between each two of
      them, so one character fewer than there are parts besides the parts'
      own. */
  function Join(parts: seq<string>, c: char): (r: string)
    ensures |parts| >= 1 ==> |r| == TotalLength(parts) + |parts| - 1
  {
    if |parts| == 0 then []
    else if |parts| == 1 then parts[0]
    else parts[0] + [c] + Join(parts[1..], c)
  }

  /** The length of all the parts together. */
  function TotalLength(parts: seq<string>): nat {
    if |parts| == 0 then 0 else |parts[0]| + TotalLength(parts[1..])
  }

  /** No piece of a split holds the separator. */
  lemma {:induction false} SplitFromPieces(s: string, c: char, i: nat)
    requires i <= |s|
    ensures forall k :: 0 <= k < |SplitFrom(s, c, i)| ==> c !in SplitFrom(s, c, i)[k]
    decreases |s| - i
  {
    var j := Find(s, c, i);
    if j < |s| {
      SplitFromPieces(s, c, j + 1);
      var r := SplitFrom(s, c, i);
      forall k | 0 <= k < |r| ensures c !in r[k] {
        if k > 0 {
          assert r[k] == SplitFrom(s, c, j + 1)[k - 1];
        }
      }
    }
  }

  /** Joining the pieces of a split gives back the original string. */
  lemma {:induction false} JoinSplitFrom(s: string, c: char, i: nat)
    requires i <= |s|
    ensures Join(SplitFrom(s, c, i), c) == s[i..]
    decreases |s| - i
  {
    var j := Find(s, c, i);
    if j < |s| {
      var rest := SplitFrom(s, c, j + 1);
      var parts := SplitFrom(s, c, i);
      assert parts == [s[i..j]] + rest;
      assert parts[1..] == rest;
      assert Join(parts, c) == s[i..j] + [c] + Join(rest, c);
      JoinSplitFrom(s, c, j + 1);
      SliceAround(s, i, j);
    }
  }

  /** A suffix is the text before index `j`, the character at `j` and the
      text after it. */
  lemma SliceAround(s: string, i: nat, j: nat)
    requires i <= j < |s|
    ensures s[i..] == s[i..j] + [s[j]] + s[j + 1..]
  {
  }

  /** `split` then `join` is the identity, and no piece holds the
      separator. */
  lemma JoinSplit(s: string, c: char)
    ensures Join(Split(s, c), c) == s
    ensures forall k :: 0 <= k < |Split(s, c)| ==> c !in Split(s, c)[k]
  {
    JoinSplitFrom(s, c, 0);
    SplitFromPieces(s, c, 0);
    assert s[0..] == s;
  }

  /** A string with `c` in it splits into at least two pieces; the first is
      the text before the first `c`, and the others joined back with `c` are
      the text after it. */
  lemma SplitAtFirst(s: string, c: char)
    requires c in s
    ensures Find(s, c, 0) < |s|
    ensures |Split(s, c)| >= 2
    ensures Split(s, c)[0] == s[..Find(s, c, 0)]
    ensures Join(Split(s, c)[1..], c) == s[Find(s, c, 0) + 1..]
  {
    var j := Find(s, c, 0);
    var i :| 0 <= i < |s| && s[i] == c;
    assert j <= i;
    assert Split(s, c)[1..] == SplitFrom(s, c, j + 1);
    JoinSplitFrom(s, c, j + 1);
  }
}
