/**
 * The two regular expressions of the release-range selection, written out by hand:
 *
 *   semantic tag name   /^v\d+\.\d+\.\d+$/
 *   version-bump title  /^\d+\.\d+\.\d+(-\S+)?$/
 *
 * Neither has the `m` or `u` flag, so `^` and `$` anchor at the ends of the whole
 * string, `\d` is an ASCII digit and `\S` is any character outside the ECMAScript
 * WhiteSpace and LineTerminator sets.  Each pattern has an executable recogniser
 * (a greedy left-to-right scan, as a backtracking engine finds the match) and a
 * declarative statement of its language; the lemmas at the end prove they agree.
 */
module Patterns {
  import opened Results

  /** `\d`: an ASCII decimal digit. */
  predicate IsDigit(c: char) {
    '0' <= c <= '9'
  }

  /** `\s`: ECMAScript WhiteSpace (tab, VT, FF, space, NBSP, ZWNBSP, category Zs) or LineTerminator. */
  predicate IsWhitespace(c: char) {
    var n := c as int;
    if n < 0x80 then
      (0x09 <= n <= 0x0D) || n == 0x20
    else
      n == 0xA0 || n == 0x1680 || (0x2000 <= n <= 0x200A) || n == 0x2028 || n == 0x2029 ||
      n == 0x202F || n == 0x205F || n == 0x3000 || n == 0xFEFF
  }

  // ---------------------------------------------------------------------------
  // Declarative languages
  // ---------------------------------------------------------------------------

  /** `s[lo..hi]` is `\d+`: non-empty and all digits. */
  ghost predicate DigitsIn(s: string, lo: int, hi: int) {
    0 <= lo < hi <= |s| && forall x :: lo <= x < hi ==> IsDigit(s[x])
  }

  /** `s[lo..hi]` is `\d+\.\d+\.\d+`, with its two dots at positions `i` and `j`. */
  ghost predicate TripleIn(s: string, lo: int, i: int, j: int, hi: int) {
    DigitsIn(s, lo, i) && DigitsIn(s, i + 1, j) && DigitsIn(s, j + 1, hi) && s[i] == '.' && s[j] == '.'
  }

  /** `s[lo..]` is `-\S+`. */
  ghost predicate PreReleaseSuffixIn(s: string, lo: int) {
    0 <= lo && lo + 1 < |s| && s[lo] == '-' && forall x :: lo < x < |s| ==> !IsWhitespace(s[x])
  }

  /** `s` is in the language of `^v\d+\.\d+\.\d+$`, split at its two dots. */
  ghost predicate SemverTagSplit(s: string, i: int, j: int) {
    |s| > 0 && s[0] == 'v' && TripleIn(s, 1, i, j, |s|)
  }

  ghost predicate InSemverTagLanguage(s: string) {
    exists i, j :: SemverTagSplit(s, i, j)
  }

  /** `s` is in the language of `^\d+\.\d+\.\d+(-\S+)?$`: the number ends at `k`, then the optional group. */
  ghost predicate VersionBumpSplit(s: string, i: int, j: int, k: int) {
    TripleIn(s, 0, i, j, k) && (k == |s| || PreReleaseSuffixIn(s, k))
  }

  ghost predicate InVersionBumpLanguage(s: string) {
    exists i, j, k :: VersionBumpSplit(s, i, j, k)
  }

  // ---------------------------------------------------------------------------
  // Recognisers
  // ---------------------------------------------------------------------------

  /** Length of the longest run of digits starting at `from` (what a greedy `\d+` consumes). */
  function DigitRun(s: string, from: nat): (n: nat)
    requires from <= |s|
    ensures from + n <= |s|
    ensures forall x :: from <= x < from + n ==> IsDigit(s[x])
    ensures from + n == |s| || !IsDigit(s[from + n])
    decreases |s| - from
  {
    if from == |s| || !IsDigit(s[from]) then 0 else 1 + DigitRun(s, from + 1)
  }

  /** Any maximal digit run starting at `from` is the one `DigitRun` finds. */
  lemma DigitRunExact(s: string, from: nat, hi: nat)
    requires from <= hi <= |s|
    requires forall x :: from <= x < hi ==> IsDigit(s[x])
    requires hi == |s| || !IsDigit(s[hi])
    ensures DigitRun(s, from) == hi - from
  {
  }

  /**
   * Matches `\d+\.\d+\.\d+` at `from`, greedily, and returns the positions of the
   * two dots and of the end of the number.
   */
  function ScanNumberTriple(s: string, from: nat): (r: Option<(nat, nat, nat)>)
    requires from <= |s|
    ensures r.Some? ==> TripleIn(s, from, r.value.0, r.value.1, r.value.2)
    ensures r.Some? ==> r.value.2 == |s| || !IsDigit(s[r.value.2])
  {
    var i := from + DigitRun(s, from);
    if i == from || i == |s| || s[i] != '.' then None
    else
      var j := i + 1 + DigitRun(s, i + 1);
      if j == i + 1 || j == |s| || s[j] != '.' then None
      else
        var k := j + 1 + DigitRun(s, j + 1);
        if k == j + 1 then None else Some((i, j, k))
  }

  /** The greedy scan is complete: it finds every number that is not followed by a further digit. */
  lemma ScanNumberTripleComplete(s: string, from: nat, i: int, j: int, k: int)
    requires from <= |s|
    requires TripleIn(s, from, i, j, k)
    requires k == |s| || !IsDigit(s[k])
    ensures ScanNumberTriple(s, from) == Some((i as nat, j as nat, k as nat))
  {
    DigitRunExact(s, from, i);
    DigitRunExact(s, i + 1, j);
    DigitRunExact(s, j + 1, k);
  }

  /**
   * `/^v\d+\.\d+\.\d+$/.test(s)`, computed by one greedy scan; the contract says the
   * scan accepts exactly the strings of the pattern's language.
   */
  predicate IsSemverTagName(s: string)
    ensures IsSemverTagName(s) <==> InSemverTagLanguage(s)
  {
    var accepted :=
      |s| > 0 && s[0] == 'v' &&
      match ScanNumberTriple(s, 1)
      case None => false
      case Some((_, _, k)) => k == |s|;
    assert accepted <==> InSemverTagLanguage(s) by {
      if accepted {
        var (i, j, k) := ScanNumberTriple(s, 1).value;
        assert SemverTagSplit(s, i, j);
      }
      if InSemverTagLanguage(s) {
        var i, j :| SemverTagSplit(s, i, j);
        ScanNumberTripleComplete(s, 1, i, j, |s|);
      }
    }
    accepted
  }

  /**
   * `/^\d+\.\d+\.\d+(-\S+)?$/.test(s)`, computed by one greedy scan and a check of the
   * rest; the contract says it accepts exactly the strings of the pattern's language.
   */
  predicate IsVersionBumpTitle(s: string)
    ensures IsVersionBumpTitle(s) <==> InVersionBumpLanguage(s)
  {
    var accepted :=
      match ScanNumberTriple(s, 0)
      case None => false
      case Some((_, _, k)) =>
        k == |s| ||
        (s[k] == '-' && k + 1 < |s| && forall x :: k < x < |s| ==> !IsWhitespace(s[x]));
    assert accepted <==> InVersionBumpLanguage(s) by {
      if accepted {
        var (i, j, k) := ScanNumberTriple(s, 0).value;
        assert VersionBumpSplit(s, i, j, k);
      }
      if InVersionBumpLanguage(s) {
        var i, j, k :| VersionBumpSplit(s, i, j, k);
        ScanNumberTripleComplete(s, 0, i, j, k);
      }
    }
    accepted
  }

  /** The titles a release tool writes are version bumps. */
  lemma VersionBumpExamples(title: string)
    requires title == "1.2.3" || title == "1.2.3-rc1" || title == "1.2.3-rc-1"
    ensures IsVersionBumpTitle(title)
  {
    ScanNumberTripleComplete(title, 0, 1, 3, 5);
  }

  /** Ordinary titles and near misses are not version bumps. */
  lemma NotVersionBumpExamples(title: string)
    requires title == "Add login flow" || title == "1.2.3-" || title == "v1.2.3" || title == "1.2.3-rc 1"
    ensures !IsVersionBumpTitle(title)
  {
    if title == "1.2.3-" || title == "1.2.3-rc 1" {
      ScanNumberTripleComplete(title, 0, 1, 3, 5);
      assert title == "1.2.3-" || title[8] == ' ';
    } else {
      assert !IsDigit(title[0]);
    }
  }

  /** `v` followed by exactly three dot-separated numbers is a semantic tag name. */
  lemma SemverTagExamples(name: string)
    requires name == "v1.1.0" || name == "v1.1.1" || name == "v10.20.300"
    ensures IsSemverTagName(name)
  {
    if name == "v10.20.300" {
      ScanNumberTripleComplete(name, 1, 3, 6, 10);
    } else {
      ScanNumberTripleComplete(name, 1, 2, 4, 6);
    }
  }

  /** Other tag names, including ones that merely contain a version, are not. */
  lemma NotSemverTagExamples(name: string)
    requires name == "latest" || name == "staging-1" || name == "1.1.0" || name == "v1.1" ||
             name == "v1.1.0-rc1" || name == "v1.1.0\n"
    ensures !IsSemverTagName(name)
  {
    if name == "v1.1" {
      assert DigitRun(name, 3) == 1;
    } else if name == "v1.1.0-rc1" || name == "v1.1.0\n" {
      ScanNumberTripleComplete(name, 1, 2, 4, 6);
    }
  }
}
