/**
 * The text handling the task-list screen relies on: JavaScript's
 * `String.prototype.trim`, which strips leading and trailing white space
 * and line terminators. A title is accepted only when its trimmed form is
 * non-empty, and the trimmed form is what gets stored.
 */
module Text {

  /** The code points ECMAScript counts as WhiteSpace or LineTerminator:
      TAB, VT, FF, SP, NBSP, ZWNBSP (BOM), the other Unicode "Zs" space
      separators, and LF, CR, LINE SEPARATOR, PARAGRAPH SEPARATOR. */
  predicate IsSpace(c: char) {
    var n := c as int;
    n == 0x09 || n == 0x0B || n == 0x0C || n == 0x20 || n == 0xA0 || n == 0xFEFF
    || n == 0x1680 || (0x2000 <= n <= 0x200A) || n == 0x202F || n == 0x205F || n == 0x3000
    || n == 0x0A || n == 0x0D || n == 0x2028 || n == 0x2029
  }

  /** Every character of `s` is white space (vacuously true of ""). */
  predicate AllSpace(s: string) {
    forall k :: 0 <= k < |s| ==> IsSpace(s[k])
  }

  /** The index of the first character at or after `i` that is not white
      space, or `|s|` when there is none. */
  function SkipLeading(s: string, i: nat): (n: nat)
    requires i <= |s|
    ensures i <= n <= |s|
    ensures forall k :: i <= k < n ==> IsSpace(s[k])
    ensures n == |s| || !IsSpace(s[n])
    decreases |s| - i
  {
    if i < |s| && IsSpace(s[i]) then SkipLeading(s, i + 1) else i
  }

  /** The end of `s[lo..j]` once its trailing white space is dropped: every
      character from there to `j` is white space, and the one before it (if
      any after `lo`) is not. */
  function SkipTrailing(s: string, lo: nat, j: nat): (n: nat)
    requires lo <= j <= |s|
    ensures lo <= n <= j
    ensures forall k :: n <= k < j ==> IsSpace(s[k])
    ensures n == lo || !IsSpace(s[n - 1])
  {
    if lo < j && IsSpace(s[j - 1]) then SkipTrailing(s, lo, j - 1) else j
  }

  /** `s.trim()`: white space removed from both ends. It is empty exactly
      when `s` is empty or all white space, and otherwise starts and ends
      with a character that is not a space. */
  function Trim(s: string): (r: string)
    ensures |r| <= |s|
    ensures r == [] <==> AllSpace(s)
    ensures r != [] ==> !IsSpace(r[0]) && !IsSpace(r[|r| - 1])
  {
    var a := SkipLeading(s, 0);
    var b := SkipTrailing(s, a, |s|);
    assert b == a ==> AllSpace(s);
    s[a..b]
  }

  /** Trimming is the one way of cutting `s` into leading white space, a
      middle part and trailing white space where the middle is either empty
      or starts and ends with a character that is not a space: the middle
      part is what `trim` returns. */
  lemma TrimIsUniqueSplit(lead: string, middle: string, trail: string)
    requires AllSpace(lead) && AllSpace(trail)
    requires middle != [] ==> !IsSpace(middle[0]) && !IsSpace(middle[|middle| - 1])
    ensures Trim(lead + middle + trail) == middle
  {
    var s := lead + middle + trail;
    var a := SkipLeading(s, 0);
    if middle == [] {
      assert AllSpace(s) by {
        forall k | 0 <= k < |s| ensures IsSpace(s[k]) {
          if k < |lead| { assert s[k] == lead[k]; } else { assert s[k] == trail[k - |lead|]; }
        }
      }
    } else {
      var i, j := |lead|, |lead| + |middle|;
      assert s[i] == middle[0];
      assert a == i;
      var b := SkipTrailing(s, a, |s|);
      assert s[j - 1] == middle[|middle| - 1];
      assert b == j;
      assert s[i..j] == middle;
    }
  }

  /** Trimming twice is the same as trimming once. */
  lemma TrimIdempotent(s: string)
    ensures Trim(Trim(s)) == Trim(s)
  {
    TrimIsUniqueSplit([], Trim(s), []);
    assert [] + Trim(s) + [] == Trim(s);
  }

  /** A title with no white space around it is stored exactly as typed. */
  lemma TrimKeepsTidyText(s: string)
    requires s != [] && !IsSpace(s[0]) && !IsSpace(s[|s| - 1])
    ensures Trim(s) == s
  {
    TrimIsUniqueSplit([], s, []);
    assert [] + s + [] == s;
  }

  /** The trimmed text is a slice of the input with only white space before
      and after it. */
  lemma TrimIsSlice(s: string)
    ensures exists i :: 0 <= i <= |s| - |Trim(s)| && Trim(s) == s[i..i + |Trim(s)|]
                        && AllSpace(s[..i]) && AllSpace(s[i + |Trim(s)|..])
  {
    var a := SkipLeading(s, 0);
    var b := SkipTrailing(s, a, |s|);
    assert Trim(s) == s[a..b];
    assert forall k :: 0 <= k < a ==> s[..a][k] == s[k];
    assert forall k :: 0 <= k < |s| - b ==> s[b..][k] == s[b + k];
  }
}
