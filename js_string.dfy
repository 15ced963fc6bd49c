/** The few ECMAScript string operations the validator is built from:
    `String.prototype.trim`, `includes` and `startsWith`.
    Strings are sequences of Unicode scalar values. */
module JsString {

  /** ECMAScript WhiteSpace or LineTerminator (ECMA-262, sections 12.2 and
      12.3): TAB, VT, FF, SPACE, NO-BREAK SPACE, ZERO WIDTH NO-BREAK SPACE
      (U+FEFF), the other Unicode space separators (category Zs), LF, CR,
      LINE SEPARATOR and PARAGRAPH SEPARATOR. */
  predicate IsWS(c: char) {
    var n := c as int;
    || n == 0x09 || n == 0x0B || n == 0x0C || n == 0x20 || n == 0xA0 || n == 0xFEFF
    || n == 0x1680 || 0x2000 <= n <= 0x200A || n == 0x202F || n == 0x205F || n == 0x3000
    || n == 0x0A || n == 0x0D || n == 0x2028 || n == 0x2029
  }

  predicate AllWS(s: string) {
    forall i :: 0 <= i < |s| ==> IsWS(s[i])
  }

  /** The index of the first character at or after `i` that is not
      whitespace, or `|s|` if there is none. */
  function SkipLeading(s: string, i: nat): (j: nat)
    requires i <= |s|
    ensures i <= j <= |s|
    ensures forall k :: i <= k < j ==> IsWS(s[k])
    ensures j < |s| ==> !IsWS(s[j])
    decreases |s| - i
  {
    if i < |s| && IsWS(s[i]) then SkipLeading(s, i + 1) else i
  }

  /** The index just past the last character before `j`, and not before
      `lo`, that is not whitespace, or `lo` if there is none. */
  function SkipTrailing(s: string, lo: nat, j: nat): (e: nat)
    requires lo <= j <= |s|
    ensures lo <= e <= j
    ensures forall k :: e <= k < j ==> IsWS(s[k])
    ensures e > lo ==> !IsWS(s[e - 1])
    decreases j
  {
    if j > lo && IsWS(s[j - 1]) then SkipTrailing(s, lo, j - 1) else j
  }

  /** `s.trim()`: `s` with whitespace removed from both ends, and nothing else
      removed. */
  function Trim(s: string): (r: string)
    ensures |r| <= |s|
    ensures exists k :: StripsAt(s, k, r)
    ensures r == [] || (!IsWS(r[0]) && !IsWS(r[|r| - 1]))
  {
    var i := SkipLeading(s, 0);
    var e := SkipTrailing(s, i, |s|);
    assert StripsAt(s, i, s[i..e]);
    s[i..e]
  }

  /** `r` is `s` with the whitespace-only prefix `s[..k]` and a
      whitespace-only suffix removed. */
  predicate StripsAt(s: string, k: int, r: string) {
    0 <= k <= |s| - |r| && s[k..k + |r|] == r && AllWS(s[..k]) && AllWS(s[k + |r|..])
  }

  /** A string that neither starts nor ends with whitespace is its own trim. */
  lemma TrimOfTrimmed(s: string)
    requires s == [] || (!IsWS(s[0]) && !IsWS(s[|s| - 1]))
    ensures Trim(s) == s
  {
  }

  lemma TrimIdempotent(s: string)
    ensures Trim(Trim(s)) == Trim(s)
  {
    TrimOfTrimmed(Trim(s));
  }

  /** Trimming leaves nothing exactly when the string is all whitespace. */
  lemma TrimEmptyIff(s: string)
    ensures Trim(s) == [] <==> AllWS(s)
  {
    var r := Trim(s);
    var k :| StripsAt(s, k, r);
    if r == [] {
      forall i | 0 <= i < |s| ensures IsWS(s[i]) {
        if i < k { assert s[i] == s[..k][i]; } else { assert s[i] == s[k..][i - k]; }
      }
    } else {
      assert s[k] == r[0];
    }
  }

  /** Trimming a trimmed string surrounded by whitespace gives it back:
      the trim of a string is determined by where its first and last
      non-whitespace characters are. */
  lemma TrimPadded(p: string, t: string, q: string)
    requires AllWS(p) && AllWS(q)
    requires t == [] || (!IsWS(t[0]) && !IsWS(t[|t| - 1]))
    ensures Trim(p + t + q) == t
  {
    var s := p + t + q;
    if t == [] {
      assert AllWS(s) by {
        forall i | 0 <= i < |s| ensures IsWS(s[i]) {
          if i < |p| { assert s[i] == p[i]; } else { assert s[i] == q[i - |p|]; }
        }
      }
      TrimEmptyIff(s);
    } else {
      LeadingOfPadded(p, t, q);
      TrailingOfPadded(p, t, q);
      assert s[|p|..|p| + |t|] == t;
    }
  }

  lemma LeadingOfPadded(p: string, t: string, q: string)
    requires AllWS(p) && t != [] && !IsWS(t[0])
    ensures SkipLeading(p + t + q, 0) == |p|
  {
    var s := p + t + q;
    assert s[|p|] == t[0];
    assert forall k :: 0 <= k < |p| ==> s[k] == p[k];
  }

  lemma TrailingOfPadded(p: string, t: string, q: string)
    requires AllWS(q) && t != [] && !IsWS(t[|t| - 1])
    ensures SkipTrailing(p + t + q, |p|, |p + t + q|) == |p| + |t|
  {
    var s := p + t + q;
    assert s[|p| + |t| - 1] == t[|t| - 1];
    assert forall k :: |p| + |t| <= k < |s| ==> s[k] == q[k - |p| - |t|];
  }

  /** `s.startsWith(p)` */
  predicate StartsWith(s: string, p: string) {
    |p| <= |s| && s[..|p|] == p
  }

  /** `s.includes(p)` */
  predicate Contains(s: string, p: string) {
    exists i | 0 <= i <= |s| - |p| :: OccursAt(s, p, i)
  }

  /** `p` occurs in `s` starting at index `i`. */
  predicate OccursAt(s: string, p: string, i: int) {
    0 <= i <= |s| - |p| && s[i..i + |p|] == p
  }

  /** Every character of an included string occurs in the including one. */
  lemma ContainsChar(s: string, p: string, k: nat)
    requires Contains(s, p) && k < |p|
    ensures exists j :: 0 <= j < |s| && s[j] == p[k]
  {
    var i :| 0 <= i <= |s| - |p| && OccursAt(s, p, i);
    assert s[i + k] == s[i..i + |p|][k];
  }

  /** A string that includes `p + q` includes `p`. */
  lemma ContainsPrefix(s: string, p: string, q: string)
    requires Contains(s, p + q)
    ensures Contains(s, p)
  {
    var i :| 0 <= i <= |s| - |p + q| && OccursAt(s, p + q, i);
    assert s[i..i + |p|] == (p + q)[..|p|];
    assert OccursAt(s, p, i);
  }

  /** `s.includes("..")` holds exactly when two adjacent characters of `s`
      are both '.', wherever they are. */
  lemma DotDotAnywhere(s: string)
    ensures Contains(s, "..") <==> exists i :: 0 <= i < |s| - 1 && s[i] == '.' && s[i + 1] == '.'
  {
    if Contains(s, "..") {
      var i :| 0 <= i <= |s| - 2 && OccursAt(s, "..", i);
      assert s[i] == s[i..i + 2][0] && s[i + 1] == s[i..i + 2][1];
    }
    if exists i :: 0 <= i < |s| - 1 && s[i] == '.' && s[i + 1] == '.' {
      var i :| 0 <= i < |s| - 1 && s[i] == '.' && s[i + 1] == '.';
      assert s[i..i + 2] == "..";
      assert OccursAt(s, "..", i);
    }
  }
}
