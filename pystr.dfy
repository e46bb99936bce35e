/**
 * The parts of Python's `str` that the tool relies on: `lower()`, the
 * substring test `p in s`, and `split()` followed by `[0]`.
 */
module PyStr {
  import opened Wrappers

  /** Whitespace as `str.split()` with no separator sees it (`str.isspace`). */
  predicate IsSpace(c: char) {
    var n := c as int;
    n == 32 || 9 <= n <= 13 || 28 <= n <= 31 || n == 0x85 || n == 0xA0 || n == 0x1680
    || 0x2000 <= n <= 0x200A || n == 0x2028 || n == 0x2029 || n == 0x202F
    || n == 0x205F || n == 0x3000
  }

  /** ASCII lower-casing of one character. */
  function LowerChar(c: char): char {
    if 'A' <= c <= 'Z' then (c as int + 32) as char else c
  }

  /** `s.lower()`, restricted to ASCII letters. */
  function Lower(s: string): (r: string)
    ensures |r| == |s|
    ensures forall i :: 0 <= i < |s| ==> r[i] == LowerChar(s[i])
  {
    if s == [] then [] else [LowerChar(s[0])] + Lower(s[1..])
  }

  /** Lower-casing twice is lower-casing once. */
  lemma LowerIdempotent(s: string)
    ensures Lower(Lower(s)) == Lower(s)
  {
    assert forall i :: 0 <= i < |s| ==> Lower(Lower(s))[i] == Lower(s)[i];
  }

  /** `p` occupies positions `j .. j + |p|` of `s`: Python's definition of `p in s`. */
  predicate OccursAt(s: string, p: string, j: int) {
    0 <= j && j + |p| <= |s| && s[j..j + |p|] == p
  }

  /**
   * Left-to-right search for `p` in `s`: `i` is the candidate start and `k`
   * the number of characters of `p` already matched there.
   */
  predicate Scan(s: string, p: string, i: nat, k: nat)
    decreases |s| - i, |p| - k
  {
    if k >= |p| then true
    else if i + |p| > |s| then false
    else if s[i + k] == p[k] then Scan(s, p, i, k + 1)
    else Scan(s, p, i + 1, 0)
  }

  /** `p in s` for two strings. */
  predicate Contains(s: string, p: string) {
    Scan(s, p, 0, 0)
  }

  lemma {:induction false} ScanFindsOccurrence(s: string, p: string, i: nat, k: nat)
    requires k <= |p| && i + k <= |s| && s[i..i + k] == p[..k]
    ensures Scan(s, p, i, k) <==> exists j :: i <= j && OccursAt(s, p, j)
    decreases |s| - i, |p| - k
  {
    if k >= |p| {
      assert OccursAt(s, p, i);
    } else if i + |p| > |s| {
    } else if s[i + k] == p[k] {
      var seen, want := s[i..i + k + 1], p[..k + 1];
      forall t | 0 <= t < k + 1 ensures seen[t] == want[t] {
        if t < k {
          assert s[i..i + k][t] == p[..k][t];
        }
      }
      assert seen == want;
      ScanFindsOccurrence(s, p, i, k + 1);
    } else {
      assert !OccursAt(s, p, i);
      assert s[i + 1..i + 1] == p[..0];
      ScanFindsOccurrence(s, p, i + 1, 0);
      assert (exists j :: i <= j && OccursAt(s, p, j)) ==> exists j :: i + 1 <= j && OccursAt(s, p, j);
    }
  }

  /** The scan answers exactly Python's question: does `p` occur somewhere in `s`? */
  lemma ContainsIffOccurs(s: string, p: string)
    ensures Contains(s, p) <==> exists j :: OccursAt(s, p, j)
  {
    ScanFindsOccurrence(s, p, 0, 0);
  }

  /** The empty string occurs in every string. */
  lemma ContainsEmpty(s: string)
    ensures Contains(s, "")
  {
  }

  /** A string holding a character that `s` lacks cannot occur in `s`. */
  lemma MissingCharRulesOut(s: string, p: string, c: char)
    requires c in p && c !in s
    ensures !Contains(s, p)
  {
    ContainsIffOccurs(s, p);
  }

  /** `s` holds the characters `a` and `b` side by side at position `j`. */
  predicate PairAt(s: string, j: int, a: char, b: char) {
    0 <= j < |s| - 1 && s[j] == a && s[j + 1] == b
  }

  lemma OccurrenceHoldsPair(s: string, p: string, i: int, k: nat)
    requires OccursAt(s, p, i) && k + 1 < |p|
    ensures PairAt(s, i + k, p[k], p[k + 1])
  {
    assert s[i..i + |p|][k] == p[k] && s[i..i + |p|][k + 1] == p[k + 1];
  }

  /** A string holding two adjacent characters that `s` never holds side by side cannot occur in `s`. */
  lemma MissingPairRulesOut(s: string, p: string, k: nat, a: char, b: char)
    requires k + 1 < |p| && p[k] == a && p[k + 1] == b
    requires forall j :: !PairAt(s, j, a, b)
    ensures !Contains(s, p)
  {
    ContainsIffOccurs(s, p);
    forall i ensures !OccursAt(s, p, i) {
      if OccursAt(s, p, i) {
        OccurrenceHoldsPair(s, p, i, k);
      }
    }
  }

  /** The maximal run of non-space characters at the front of `s`. */
  function LeadingWord(s: string): (w: string)
    ensures w <= s
    ensures forall i :: 0 <= i < |w| ==> !IsSpace(w[i])
    ensures |w| == |s| || IsSpace(s[|w|])
  {
    if s == [] || IsSpace(s[0]) then [] else [s[0]] + LeadingWord(s[1..])
  }

  /**
   * `s.split()[0]`: the first whitespace-separated word, or `None` where
   * Python raises `IndexError` because `s` holds only whitespace.
   */
  function FirstWord(s: string): (w: Option<string>)
    ensures w.None? <==> forall i :: 0 <= i < |s| ==> IsSpace(s[i])
    ensures w.Some? ==> w.value != [] && forall i :: 0 <= i < |w.value| ==> !IsSpace(w.value[i])
  {
    if s == [] then None
    else if IsSpace(s[0]) then FirstWord(s[1..])
    else Some(LeadingWord(s))
  }

  /** A window of `s` that lower-cases to `p` makes `p` occur in `Lower(s)`. */
  lemma LoweredWindow(s: string, p: string, j: nat)
    requires j + |p| <= |s|
    requires forall i :: 0 <= i < |p| ==> LowerChar(s[j + i]) == p[i]
    ensures Contains(Lower(s), p)
  {
    var l := Lower(s);
    forall i | 0 <= i < |p| ensures l[j..j + |p|][i] == p[i] {
      assert l[j + i] == LowerChar(s[j + i]);
    }
    assert OccursAt(l, p, j);
    ContainsIffOccurs(l, p);
  }

  /**
   * A string that starts with `n` non-space characters followed by a space
   * or its end has those `n` characters as its leading (and first) word.
   */
  lemma LeadingWordIs(s: string, n: nat)
    requires 0 < n <= |s|
    requires forall i :: 0 <= i < n ==> !IsSpace(s[i])
    requires n == |s| || IsSpace(s[n])
    ensures LeadingWord(s) == s[..n]
    ensures FirstWord(s) == Some(s[..n])
  {
    assert |LeadingWord(s)| == n;
  }

  /** `w` sits at position `n` of `s`, after whitespace only and before whitespace or the end. */
  predicate WordAt(s: string, w: string, n: int) {
    0 <= n && n + |w| <= |s| && s[n..n + |w|] == w
    && (forall i :: 0 <= i < n ==> IsSpace(s[i]))
    && (n + |w| == |s| || IsSpace(s[n + |w|]))
  }

  /**
   * Where the first word sits: after a run of whitespace only, and followed
   * by whitespace or the end of the string.
   */
  lemma {:induction false} FirstWordPosition(s: string)
    requires FirstWord(s).Some?
    ensures exists n :: WordAt(s, FirstWord(s).value, n)
  {
    var w := FirstWord(s).value;
    if IsSpace(s[0]) {
      FirstWordPosition(s[1..]);
      var n :| WordAt(s[1..], w, n);
      assert s[n + 1..n + 1 + |w|] == w;
      assert WordAt(s, w, n + 1);
    } else {
      assert s[0..|w|] == w;
      assert WordAt(s, w, 0);
    }
  }
}
