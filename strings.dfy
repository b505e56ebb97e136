/** The PHP string primitives the auto-mapping code relies on, stated over
    `seq<char>`: substring search (`strpos`, the literal parts of the
    regular expressions), `str_replace`, `strtolower`, the `/X$/` suffix
    strip done with `preg_replace`, and the decimal conversion of an int. */
module Strings {
  import opened Wrappers

  /** The literal word every controller short name ends in. */
  const ControllerSuffix: string := "Controller"

  /** The literal word every action method name ends in. */
  const ActionSuffix: string := "Action"

  /** True when `p` occurs in `s` starting at index `i`. */
  predicate OccursAt(s: string, i: nat, p: string) {
    i + |p| <= |s| && s[i..i + |p|] == p
  }

  /** True when `s` ends with `suffix`. */
  predicate EndsWith(s: string, suffix: string) {
    |suffix| <= |s| && s[|s| - |suffix|..] == suffix
  }

  lemma OccursAtChar(s: string, i: nat, p: string, j: nat)
    requires OccursAt(s, i, p) && j < |p|
    ensures s[i + j] == p[j]
  {
    assert s[i..i + |p|][j] == s[i + j];
  }

  /** The largest `k` with `lo <= k < hi` at which `p` occurs in `s`
      (what a greedy sub-pattern followed by the literal `p` settles on). */
  function LastOccurrence(s: string, p: string, lo: nat, hi: nat): (r: Option<nat>)
    ensures r.Some? ==> lo <= r.value < hi && OccursAt(s, r.value, p)
    ensures r.Some? ==> forall k: nat :: r.value < k < hi ==> !OccursAt(s, k, p)
    ensures r.None? ==> forall k: nat :: lo <= k < hi ==> !OccursAt(s, k, p)
    decreases hi
  {
    if hi <= lo then None
    else if OccursAt(s, hi - 1, p) then Some(hi - 1)
    else LastOccurrence(s, p, lo, hi - 1)
  }

  /** `strpos($s, $p, $from)`: the smallest index from `from` on at which
      `p` occurs in `s`, or None where PHP returns false. */
  function FirstOccurrence(s: string, p: string, from: nat): (r: Option<nat>)
    ensures r.Some? ==> from <= r.value && OccursAt(s, r.value, p)
    ensures r.Some? ==> forall k: nat :: from <= k < r.value ==> !OccursAt(s, k, p)
    ensures r.None? ==> forall k: nat :: from <= k ==> !OccursAt(s, k, p)
    decreases |s| - from
  {
    if from + |p| > |s| then None
    else if OccursAt(s, from, p) then Some(from)
    else FirstOccurrence(s, p, from + 1)
  }

  /** An occurrence with none before it, from `from` on, is what `strpos`
      returns. */
  lemma {:induction false} FirstOccurrenceUnique(s: string, p: string, from: nat, i: nat)
    requires from <= i && OccursAt(s, i, p)
    requires forall k: nat :: from <= k < i ==> !OccursAt(s, k, p)
    ensures FirstOccurrence(s, p, from) == Some(i)
    decreases i - from
  {
    if from < i {
      FirstOccurrenceUnique(s, p, from + 1, i);
    }
  }

  /** `strpos` finds a trailing occurrence when none starts earlier. */
  lemma {:induction false} FirstOccurrenceAtEnd(h: string, p: string)
    requires forall k: nat :: k < |h| ==> !OccursAt(h + p, k, p)
    ensures FirstOccurrence(h + p, p, 0) == Some(|h|)
  {
    assert (h + p)[|h|..|h| + |p|] == p;
    FirstOccurrenceUnique(h + p, p, 0, |h|);
  }

  /** `str_replace($p, $r, $s)` for one non-empty search string: the
      occurrences of `p` are found left to right without overlap, and the
      replacement text is never searched again. */
  function ReplaceAll(s: string, p: string, r: string): string
    requires |p| > 0
    decreases |s|
  {
    if |s| < |p| then s
    else if s[..|p|] == p then r + ReplaceAll(s[|p|..], p, r)
    else [s[0]] + ReplaceAll(s[1..], p, r)
  }

  /** A string in which the first character of the search string does not
      occur is left unchanged by `str_replace`. */
  lemma {:induction false} ReplaceAllAbsent(s: string, p: string, r: string)
    requires |p| > 0 && p[0] !in s
    ensures ReplaceAll(s, p, r) == s
    decreases |s|
  {
    if |s| >= |p| {
      assert s[..|p|][0] == s[0];
      assert s[0] in s;
      assert s[1..] + [] == s[1..];
      assert forall c :: c in s[1..] ==> c in s;
      ReplaceAllAbsent(s[1..], p, r);
      assert [s[0]] + s[1..] == s;
    }
  }

  /** Dropping the first character of `a` keeps the needle from starting
      anywhere in what is left of `a`. */
  lemma NoMatchShift(a: string, t: string, p: string)
    requires |a| > 0
    requires forall k: nat :: k < |a| ==> !OccursAt(a + t, k, p)
    ensures forall k: nat :: k < |a[1..]| ==> !OccursAt(a[1..] + t, k, p)
  {
    var s := a + t;
    var rest := a[1..] + t;
    assert s[1..] == rest;
    forall k: nat | k < |a[1..]| ensures !OccursAt(rest, k, p) {
      assert !OccursAt(s, k + 1, p);
      if k + |p| <= |rest| {
        assert rest[k..k + |p|] == s[k + 1..k + 1 + |p|];
      }
    }
  }

  /** A prefix at which no occurrence of the search string starts is
      copied through unchanged. */
  lemma {:induction false} ReplaceAllSkipNoMatch(a: string, t: string, p: string, r: string)
    requires |p| > 0
    requires forall k: nat :: k < |a| ==> !OccursAt(a + t, k, p)
    ensures ReplaceAll(a + t, p, r) == a + ReplaceAll(t, p, r)
    decreases |a|
  {
    if a == [] {
      assert a + t == t;
    } else {
      var s := a + t;
      var rest := a[1..] + t;
      assert s[1..] == rest && s[0] == a[0];
      NoMatchShift(a, t, p);
      ReplaceAllSkipNoMatch(a[1..], t, p, r);
      assert a == [a[0]] + a[1..];
      if |s| >= |p| {
        assert !OccursAt(s, 0, p);
        assert s[..|p|] != p by {
          assert s[..|p|] == s[0..|p|];
        }
        assert ReplaceAll(s, p, r) == [a[0]] + ReplaceAll(rest, p, r);
        assert [a[0]] + (a[1..] + ReplaceAll(t, p, r)) == a + ReplaceAll(t, p, r);
      } else {
        assert ReplaceAll(t, p, r) == t;
      }
    }
  }

  /** An occurrence at the very start is replaced, and the scan resumes
      after it. */
  lemma ReplaceAllAtStart(t: string, p: string, r: string)
    requires |p| > 0
    ensures ReplaceAll(p + t, p, r) == r + ReplaceAll(t, p, r)
  {
    assert (p + t)[..|p|] == p;
    assert (p + t)[|p|..] == t;
  }

  /** Replacing a single character distributes over concatenation: no
      occurrence can straddle the seam. */
  lemma {:induction false} ReplaceCharConcat(a: string, b: string, c: char, r: string)
    ensures ReplaceAll(a + b, [c], r) == ReplaceAll(a, [c], r) + ReplaceAll(b, [c], r)
    decreases |a|
  {
    if a == [] {
      assert a + b == b;
    } else {
      assert (a + b)[..1] == a[..1];
      assert (a + b)[1..] == a[1..] + b;
      assert (a + b)[0] == a[0];
      ReplaceCharConcat(a[1..], b, c, r);
    }
  }

  /** Replacing a character in the one-character string made of it. */
  lemma ReplaceCharSelf(c: char, r: string)
    ensures ReplaceAll([c], [c], r) == r
  {
    assert [c][..1] == [c];
    assert [c][1..] == [];
  }

  predicate IsDigit(c: char) {
    '0' <= c <= '9'
  }

  predicate IsUpper(c: char) {
    'A' <= c <= 'Z'
  }

  /** True when no decimal digit occurs in `s`. */
  predicate DigitFree(s: string) {
    forall c :: c in s ==> !IsDigit(c)
  }

  function DigitChar(d: nat): (c: char)
    requires d < 10
    ensures IsDigit(c) && c as int - '0' as int == d
  {
    (d + '0' as int) as char
  }

  /** The decimal notation of `n`, as PHP renders an int key (`"{$index}"`). */
  function DecimalString(n: nat): (s: string)
    ensures |s| > 0 && IsDigit(s[0])
    ensures n < 10 ==> s == [DigitChar(n)]
    decreases n
  {
    if n < 10 then [DigitChar(n)] else DecimalString(n / 10) + [DigitChar(n % 10)]
  }

  /** `strtolower` on one byte: ASCII upper-case letters only. */
  function LowerChar(c: char): (d: char)
    ensures !IsUpper(d)
    ensures IsUpper(c) ==> d as int == c as int + 32
    ensures !IsUpper(c) ==> d == c
  {
    if IsUpper(c) then (c as int + 32) as char else c
  }

  /** `strtolower`: every ASCII upper-case letter is lowered, every other
      character is kept, so the result holds no upper-case ASCII letter. */
  function Lower(s: string): (t: string)
    ensures |t| == |s|
    ensures forall j :: 0 <= j < |s| ==> t[j] == LowerChar(s[j])
    ensures forall j :: 0 <= j < |t| ==> !IsUpper(t[j])
    decreases |s|
  {
    if s == [] then [] else [LowerChar(s[0])] + Lower(s[1..])
  }

  /** Lower-casing compares position by position, so two strings that agree
      after a common prefix once lowered still agree with a common suffix. */
  lemma {:induction false} LowerCancelPrefix(q: string, x: string, y: string, a: string)
    requires Lower(q + x) == Lower(q + y)
    ensures Lower(x + a) == Lower(y + a)
  {
    LowerAgreeAfter(q, x, y);
    LowerAgreeAppend(x, y, a);
  }

  lemma {:induction false} LowerAgreeAfter(q: string, x: string, y: string)
    requires Lower(q + x) == Lower(q + y)
    ensures |x| == |y| && forall i :: 0 <= i < |x| ==> LowerChar(x[i]) == LowerChar(y[i])
  {
    assert |q + x| == |q + y|;
    forall i | 0 <= i < |x| ensures LowerChar(x[i]) == LowerChar(y[i]) {
      var sx, sy := q + x, q + y;
      assert sx[|q| + i] == x[i];
      assert sy[|q| + i] == y[i];
      LowerAt(sx, |q| + i);
      LowerAt(sy, |q| + i);
    }
  }

  lemma {:induction false} LowerAgreeAppend(x: string, y: string, a: string)
    requires |x| == |y| && forall i :: 0 <= i < |x| ==> LowerChar(x[i]) == LowerChar(y[i])
    ensures Lower(x + a) == Lower(y + a)
  {
    var ux, uy := Lower(x + a), Lower(y + a);
    forall i | 0 <= i < |x + a| ensures ux[i] == uy[i] {
      LowerAt(x + a, i);
      LowerAt(y + a, i);
    }
  }

  lemma {:induction false} LowerAt(s: string, i: nat)
    requires i < |s|
    ensures Lower(s)[i] == LowerChar(s[i])
  {
  }

  /** `strtolower` works character by character, so it distributes over
      concatenation. */
  lemma {:induction false} LowerJoin(a: string, b: string)
    ensures Lower(a + b) == Lower(a) + Lower(b)
  {
    var l := Lower(a + b);
    forall i | 0 <= i < |a + b| ensures l[i] == (Lower(a) + Lower(b))[i] {
      LowerAt(a + b, i);
      if i < |a| { LowerAt(a, i); } else { LowerAt(b, i - |a|); }
    }
  }

  /** `preg_replace('/X$/', '', $s)`: removes one trailing `suffix`, and
      leaves `s` unchanged when it does not end with it. */
  function RemoveSuffix(s: string, suffix: string): (t: string)
    ensures EndsWith(s, suffix) ==> t + suffix == s
    ensures !EndsWith(s, suffix) ==> t == s
  {
    if EndsWith(s, suffix) then s[..|s| - |suffix|] else s
  }
}
