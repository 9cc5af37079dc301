/** The argument of a bracketed directive, as the pattern
    `/\[TAG:\s*(.*?)\]/i` of `createDrama` extracts it (script.js:46, 60, 68,
    95, 103, 111), and the pause length `parseInt(arg) || 2` (script.js:116). */
module Directives {

  import opened Wrappers
  import opened Strings

  // ---------------------------------------------------------------------
  // The directive pattern
  // ---------------------------------------------------------------------

  /** The opening of each directive as the upper-cased line holds it. The
      pattern is case-insensitive and, outside Unicode mode, a JavaScript
      regular expression folds only ASCII letters onto these ASCII
      letters, so comparing the upper-cased line with them is exact. */
  const SceneOpen := "[SCENE:"
  const BackgroundOpen := "[BACKGROUND:"
  const MusicOpen := "[MUSIC:"
  const ActionOpen := "[ACTION:"
  const SoundOpen := "[SOUND:"
  const PauseOpen := "[PAUSE:"

  /** A character the lazy group `(.*?)` takes before the closing `]`:
      not the `]` itself, and not a line terminator, which `.` does not
      match. */
  predicate InGroup(c: char) {
    c != ']' && !IsLineTerminator(c)
  }

  /** `(.*?)\]`: the first `]` at or after `w`, provided no line terminator
      comes before it. */
  function CloseAt(t: string, w: nat): (r: Option<nat>)
    requires w <= |t|
    ensures r.Some? ==> w <= r.value < |t| && t[r.value] == ']'
    ensures r.Some? ==> forall k {:trigger InGroup(t[k])} :: w <= k < r.value ==> InGroup(t[k])
    decreases |t| - w
  {
    if w == |t| then None
    else if t[w] == ']' then Some(w)
    else if IsLineTerminator(t[w]) then None
    else assert InGroup(t[w]); CloseAt(t, w + 1)
  }

  /** One attempt of the regular-expression engine, at start position
      `p`: the opening must match there; `\s*` then takes all the white
      space (giving some back never helps, since `]` is not white space) and
      the lazy group stops at the first `]`. A capture holds no `]` and no
      line terminator. */
  function MatchAt(t: string, open: string, p: nat): (r: Option<string>)
    ensures r.Some? ==> OccursAt(Upper(t), open, p)
    ensures r.Some? ==> forall k :: 0 <= k < |r.value| ==> InGroup(r.value[k])
  {
    if OccursAt(Upper(t), open, p) then
      var w := SkipSpace(t, p + |open|);
      match CloseAt(t, w)
      case Some(e) => Some(t[w..e])
      case None => None
    else None
  }

  /** The search: the attempts at `p`, `p + 1`, ... in turn, the first
      that succeeds giving the match. */
  function MatchFrom(t: string, open: string, p: nat): (r: Option<string>)
    ensures r.Some? ==> p + |open| <= |t|
    ensures r.Some? ==> forall k :: 0 <= k < |r.value| ==> InGroup(r.value[k])
    decreases |t| - p
  {
    if p + |open| > |t| then None
    else if MatchAt(t, open, p).Some? then MatchAt(t, open, p)
    else MatchFrom(t, open, p + 1)
  }

  /** `t.match(/\[TAG:\s*(.*?)\]/i)`, returning the first group: it fails
      on a line shorter than the opening, and a capture holds no `]` and no
      line terminator. */
  function MatchTag(t: string, open: string): (r: Option<string>)
    ensures r.Some? ==> |open| <= |t|
    ensures r.Some? ==> forall k :: 0 <= k < |r.value| ==> InGroup(r.value[k])
  {
    MatchFrom(t, open, 0)
  }

  /** Independent description of one way the pattern can match: the opening
      at `p`, white space up to `w`, then `arg` (no `]`, no line terminator)
      and a `]`. */
  ghost predicate CapturesAt(t: string, open: string, p: int, w: int, arg: string) {
    OccursAt(Upper(t), open, p) &&
    p + |open| <= w && w + |arg| < |t| &&
    (forall k :: p + |open| <= k < w ==> IsSpace(t[k])) && !IsSpace(t[w]) &&
    (forall k :: 0 <= k < |arg| ==> t[w + k] == arg[k]) && t[w + |arg|] == ']' &&
    (forall k :: 0 <= k < |arg| ==> InGroup(arg[k]))
  }

  lemma {:induction false} SkipSpaceFinds(t: string, q: nat, w: nat)
    requires q <= w < |t|
    requires forall k :: q <= k < w ==> IsSpace(t[k])
    requires !IsSpace(t[w])
    ensures SkipSpace(t, q) == w
    decreases w - q
  {
    if q < w {
      SkipSpaceFinds(t, q + 1, w);
    }
  }

  lemma {:induction false} CloseAtFinds(t: string, w: nat, e: nat)
    requires w <= e < |t| && t[e] == ']'
    requires forall k :: w <= k < e ==> InGroup(t[k])
    ensures CloseAt(t, w) == Some(e)
    decreases e - w
  {
    if w < e {
      CloseAtFinds(t, w + 1, e);
    }
  }

  /** A way of matching at `p` is what the attempt at `p` finds. */
  lemma CapturesAtFound(t: string, open: string, p: nat, w: int, arg: string)
    requires CapturesAt(t, open, p, w, arg)
    ensures SkipSpace(t, p + |open|) == w
    ensures MatchAt(t, open, p) == Some(arg)
  {
    SkipSpaceFinds(t, p + |open|, w);
    forall k | w <= k < w + |arg|
      ensures InGroup(t[k])
    {
      assert t[k] == arg[k - w];
    }
    CloseAtFinds(t, w, w + |arg|);
    assert t[w..w + |arg|] == arg;
  }

  /** What the attempt at `p` finds is a way of matching at `p`. */
  lemma MatchAtCaptures(t: string, open: string, p: nat)
    requires MatchAt(t, open, p).Some?
    ensures CapturesAt(t, open, p, SkipSpace(t, p + |open|), MatchAt(t, open, p).value)
  {
    var w := SkipSpace(t, p + |open|);
    var e := CloseAt(t, w).value;
    var arg := t[w..e];
    assert w < |t|;
    forall k | 0 <= k < |arg| ensures t[w + k] == arg[k] && InGroup(arg[k]) {
      assert arg[k] == t[w + k];
      assert InGroup(t[w + k]);
    }
  }

  /** At one start position the pattern matches in at most one way. */
  lemma CapturesAtUnique(t: string, open: string, p: nat, w1: int, a1: string, w2: int, a2: string)
    requires CapturesAt(t, open, p, w1, a1) && CapturesAt(t, open, p, w2, a2)
    ensures w1 == w2 && a1 == a2
  {
    CapturesAtFound(t, open, p, w1, a1);
    CapturesAtFound(t, open, p, w2, a2);
  }

  /** A successful search returns the first successful attempt. */
  lemma {:induction false} MatchFromSome(t: string, open: string, p0: nat) returns (p: nat)
    requires MatchFrom(t, open, p0).Some?
    ensures p0 <= p && MatchAt(t, open, p) == MatchFrom(t, open, p0)
    ensures forall q :: p0 <= q < p ==> MatchAt(t, open, q).None?
    decreases |t| - p0
  {
    if MatchAt(t, open, p0).None? {
      p := MatchFromSome(t, open, p0 + 1);
    } else {
      p := p0;
    }
  }

  /** A failed search means every attempt from `p0` on fails. */
  lemma {:induction false} MatchFromNone(t: string, open: string, p0: nat)
    requires MatchFrom(t, open, p0).None?
    ensures forall p :: p0 <= p ==> MatchAt(t, open, p).None?
    decreases |t| - p0
  {
    if p0 + |open| <= |t| {
      MatchFromNone(t, open, p0 + 1);
    }
  }

  /** The pattern finds the leftmost start position where it can match, and
      captures what can follow the opening there; it fails exactly when no
      start position works. */
  lemma MatchTagLeftmost(t: string, open: string)
    ensures MatchTag(t, open).None? <==> forall p: nat, w, a :: !CapturesAt(t, open, p, w, a)
    ensures MatchTag(t, open).Some? ==>
      exists p: nat, w :: CapturesAt(t, open, p, w, MatchTag(t, open).value) &&
        forall p': nat, w', a :: p' < p ==> !CapturesAt(t, open, p', w', a)
  {
    if MatchTag(t, open).Some? {
      var p := MatchFromSome(t, open, 0);
      MatchAtCaptures(t, open, p);
      forall p': nat, w', a | p' < p ensures !CapturesAt(t, open, p', w', a) {
        if CapturesAt(t, open, p', w', a) {
          CapturesAtFound(t, open, p', w', a);
        }
      }
      assert CapturesAt(t, open, p, SkipSpace(t, p + |open|), MatchTag(t, open).value);
    } else {
      MatchFromNone(t, open, 0);
      forall p: nat, w, a | CapturesAt(t, open, p, w, a) ensures false {
        CapturesAtFound(t, open, p, w, a);
      }
    }
  }

  /** Only a line with a `]` in it can match: a directive without one is
      ignored. */
  lemma MatchNeedsClosingBracket(t: string, open: string)
    ensures MatchTag(t, open).Some? ==> ']' in t
  {
    MatchTagLeftmost(t, open);
    if MatchTag(t, open).Some? {
      var p: nat, w :| CapturesAt(t, open, p, w, MatchTag(t, open).value);
      assert t[w + |MatchTag(t, open).value|] == ']';
    }
  }

  // ---------------------------------------------------------------------
  // parseInt(arg) || 2
  // ---------------------------------------------------------------------

  /** The value of a digit in bases up to 36, or 36 for a non-digit. */
  function DigitValue(c: char): nat {
    if '0' <= c <= '9' then c as nat - '0' as nat
    else if 'a' <= c <= 'z' then c as nat - 'a' as nat + 10
    else if 'A' <= c <= 'Z' then c as nat - 'A' as nat + 10
    else 36
  }

  /** The first index at or after `i` that does not hold a digit of
      `radix`. */
  function DigitEnd(s: string, radix: nat, i: nat): (e: nat)
    requires i <= |s|
    ensures i <= e <= |s|
    ensures forall k {:trigger DigitValue(s[k])} :: i <= k < e ==> DigitValue(s[k]) < radix
    ensures e == |s| || DigitValue(s[e]) >= radix
    decreases |s| - i
  {
    if i < |s| && DigitValue(s[i]) < radix then DigitEnd(s, radix, i + 1) else i
  }

  /** The number the digits `ds` spell in base `radix`. */
  function Value(ds: string, radix: nat): nat {
    if ds == [] then 0
    else Value(ds[..|ds| - 1], radix) * radix + DigitValue(ds[|ds| - 1]) % 36
  }

  /** The outcome of `parseInt`: a number or NaN. Values too large for a
      double are kept exact. */
  datatype Parsed = NaN | Number(value: int)

  /** Where the numeral of `s` begins: after the leading white space and
      one optional sign. */
  function NumeralStart(s: string): (b: nat)
    ensures b <= |s|
  {
    var a := SkipSpace(s, 0);
    if a < |s| && (s[a] == '-' || s[a] == '+') then a + 1 else a
  }

  /** `s` holds `0x` or `0X` at index `b`. */
  predicate HexPrefixAt(s: string, b: nat) {
    b + 2 <= |s| && s[b] == '0' && (s[b + 1] == 'x' || s[b + 1] == 'X')
  }

  /** `parseInt(s)` with no radix: leading white space, an optional sign,
      then a `0x`/`0X` prefix selecting base 16 or else base 10, then the
      longest run of digits of that base; NaN when the run is empty. A
      number is read only when the numeral starts with a decimal digit (the
      `0` of `0x` included), so a blank string is NaN. */
  function ParseInt(s: string): (r: Parsed)
    ensures r.Number? ==> NumeralStart(s) < |s| && '0' <= s[NumeralStart(s)] <= '9'
    ensures AllSpace(s) ==> r.NaN?
  {
    var a := SkipSpace(s, 0);
    var negative := a < |s| && s[a] == '-';
    var b := NumeralStart(s);
    var hex := HexPrefixAt(s, b);
    var radix := if hex then 16 else 10;
    var c := if hex then b + 2 else b;
    var e := DigitEnd(s, radix, c);
    if e == c then NaN
    else Number(Signed(negative, Value(s[c..e], radix)))
  }

  /** A magnitude with its sign applied. */
  function Signed(negative: bool, n: nat): int {
    if negative then -(n as int) else n
  }

  /** `parseInt(arg) || 2`: NaN and zero (either sign) are falsy and give 2;
      every other number, negative ones included, is kept. */
  function PauseDuration(arg: string): (r: int)
    ensures r != 0
    ensures ParseInt(arg).Number? && ParseInt(arg).value != 0 ==> r == ParseInt(arg).value
    ensures r == 2 <== ParseInt(arg).NaN? || ParseInt(arg).value == 0
  {
    match ParseInt(arg)
    case Number(v) => if v != 0 then v else 2
    case NaN => 2
  }

  predicate IsDecimal(ds: string) {
    forall k :: 0 <= k < |ds| ==> '0' <= ds[k] <= '9'
  }

  predicate AllDigits(ds: string, radix: nat) {
    forall k :: 0 <= k < |ds| ==> DigitValue(ds[k]) < radix
  }

  lemma {:induction false} DigitEndAll(s: string, radix: nat, i: nat)
    requires i <= |s|
    requires forall k :: i <= k < |s| ==> DigitValue(s[k]) < radix
    ensures DigitEnd(s, radix, i) == |s|
    decreases |s| - i
  {
    if i < |s| {
      DigitEndAll(s, radix, i + 1);
    }
  }

  /** `parseInt` of a string whose numeral is all decimal digits. */
  lemma ParseIntOfDigits(s: string)
    requires NumeralStart(s) < |s|
    requires forall k :: NumeralStart(s) <= k < |s| ==> '0' <= s[k] <= '9'
    ensures var a := SkipSpace(s, 0);
            var v := Value(s[NumeralStart(s)..], 10);
            ParseInt(s) == Number(Signed(s[a] == '-', v))
  {
    var b := NumeralStart(s);
    assert !HexPrefixAt(s, b) by {
      if b + 1 < |s| {
        assert '0' <= s[b + 1] <= '9';
      }
    }
    forall k | b <= k < |s| ensures DigitValue(s[k]) < 10 {
      assert '0' <= s[k] <= '9';
    }
    DigitEndAll(s, 10, b);
    assert s[b..|s|] == s[b..];
  }

  /** `parseInt` of a plain decimal numeral, possibly negative, is its
      value. */
  lemma ParseIntOfNumeral(ds: string, negative: bool)
    requires ds != [] && IsDecimal(ds)
    ensures ParseInt(if negative then "-" + ds else ds) ==
            Number(if negative then -(Value(ds, 10) as int) else Value(ds, 10))
  {
    var s := if negative then "-" + ds else ds;
    var b := if negative then 1 else 0;
    assert s[b..] == ds;
    assert s[0] == '-' <==> negative;
    assert SkipSpace(s, 0) == 0;
    assert NumeralStart(s) == b;
    forall k | b <= k < |s| ensures '0' <= s[k] <= '9' {
      assert s[k] == ds[k - b];
    }
    ParseIntOfDigits(s);
  }

  /** A pause written as a plain decimal numeral, possibly negative, lasts
      that many seconds unless it is zero, which gives 2. */
  lemma PauseDurationOfNumeral(ds: string, negative: bool)
    requires ds != [] && IsDecimal(ds)
    ensures PauseDuration(if negative then "-" + ds else ds) ==
            if Value(ds, 10) == 0 then 2 else if negative then -(Value(ds, 10) as int) else Value(ds, 10)
  {
    ParseIntOfNumeral(ds, negative);
  }

  /** A numeral with the `0x` prefix is read in base 16. */
  lemma ParseIntOfHex(ds: string)
    requires ds != [] && AllDigits(ds, 16)
    ensures ParseInt("0x" + ds) == Number(Value(ds, 16))
  {
    var s := "0x" + ds;
    assert s[0] == '0' && s[1] == 'x';
    assert SkipSpace(s, 0) == 0;
    assert NumeralStart(s) == 0;
    forall k | 2 <= k < |s| ensures DigitValue(s[k]) < 16 {
      assert s[k] == ds[k - 2];
    }
    DigitEndAll(s, 16, 2);
    assert s[2..|s|] == ds;
  }

  /** A pause whose argument does not start (after white space and a sign)
      with a digit lasts 2 seconds. */
  lemma PauseDurationWithoutDigits(arg: string)
    requires var b := NumeralStart(arg);
             b == |arg| || !('0' <= arg[b] <= '9')
    ensures PauseDuration(arg) == 2
  {
  }
}
