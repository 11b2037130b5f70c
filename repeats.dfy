/** The similarity kernel of the offline cleaner (src/fix_hallucination.py):
    character-set Jaccard similarity, and explicit scanners for the two
    regular expressions `(.{2,15}?)\1{4,}` (used with `re.findall`) and
    `(.{2,10}?)\1{2,}` (used with `re.sub(..., r'\1', ...)`). */
module Repeats {
  import opened Strings
  import opened Wrappers

  // ---------------------------------------------------------------------
  // Jaccard similarity over character sets
  // ---------------------------------------------------------------------

  /** Python's `set(s)`. */
  function CharSet(s: string): set<char> {
    if s == [] then {} else {s[0]} + CharSet(s[1..])
  }

  /** The characters of `CharSet(s)` are exactly those of `s`. */
  lemma {:induction false} CharSetMembers(s: string, c: char)
    ensures c in CharSet(s) <==> c in s
  {
    if s != [] {
      CharSetMembers(s[1..], c);
      assert s == [s[0]] + s[1..];
    }
  }

  /** A similarity score `num / den`, kept exact. */
  datatype Ratio = Ratio(num: nat, den: nat)

  lemma SubsetCard(a: set<char>, b: set<char>)
    requires a <= b
    ensures |a| <= |b|
  {
    assert b == a + (b - a);
  }

  /** `similarity(s1, s2)`: 0 when either string is empty, otherwise the
      number of shared distinct characters over the number of distinct
      characters of either. */
  function Similarity(s1: string, s2: string): (r: Ratio)
    ensures 0 < r.den && r.num <= r.den
    ensures s1 == [] || s2 == [] ==> r.num == 0
    ensures s1 != [] && s2 != [] ==>
              r.num == |CharSet(s1) * CharSet(s2)| && r.den == |CharSet(s1) + CharSet(s2)|
  {
    if s1 == [] || s2 == [] then Ratio(0, 1)
    else
      assert s1[0] in CharSet(s1);
      SubsetCard(CharSet(s1) * CharSet(s2), CharSet(s1) + CharSet(s2));
      Ratio(|CharSet(s1) * CharSet(s2)|, |CharSet(s1) + CharSet(s2)|)
  }

  /** `similarity(s1, s2) > 0.8`, cross-multiplied. */
  predicate Similar(s1: string, s2: string) {
    5 * Similarity(s1, s2).num > 4 * Similarity(s1, s2).den
  }

  lemma SimilaritySymmetric(s1: string, s2: string)
    ensures Similarity(s1, s2) == Similarity(s2, s1)
  {
    if s1 != [] && s2 != [] {
      var a, b := CharSet(s1), CharSet(s2);
      assert a * b == b * a && a + b == b + a;
    }
  }

  /** A non-empty string has similarity 1 with itself, and so is similar. */
  lemma SimilarityReflexive(s: string)
    requires s != []
    ensures Similarity(s, s).num == Similarity(s, s).den
    ensures Similar(s, s)
  {
    var a := CharSet(s);
    assert a * a == a && a + a == a;
  }

  /** The score depends only on the character sets: two strings with the
      same characters in any order and multiplicity score alike. */
  lemma SimilarityBySets(s1: string, t1: string, s2: string, t2: string)
    requires s1 != [] <==> t1 != []
    requires s2 != [] <==> t2 != []
    requires CharSet(s1) == CharSet(t1) && CharSet(s2) == CharSet(t2)
    ensures Similarity(s1, s2) == Similarity(t1, t2)
  {
  }

  // ---------------------------------------------------------------------
  // Back-to-back repetition, as in the regular expression `(.{lo,hi}?)\1{m-1,}`
  // ---------------------------------------------------------------------

  /** `unit` written `n` times back to back. */
  function Repeat(unit: string, n: nat): (r: string)
    ensures |r| == n * |unit|
  {
    if n == 0 then [] else unit + Repeat(unit, n - 1)
  }

  /** `.` matches every character but the newline. */
  predicate NoNewline(s: string) {
    forall i :: 0 <= i < |s| ==> s[i] != '\n'
  }

  /** The number of back-to-back copies of `unit` in `s` from index `q` on:
      what the greedy `\1{0,}` takes. */
  function CopiesFrom(s: string, q: nat, unit: string): (n: nat)
    requires unit != [] && q <= |s|
    ensures q + n * |unit| <= |s|
    decreases |s| - q
  {
    if OccursAt(s, unit, q) then 1 + CopiesFrom(s, q + |unit|, unit) else 0
  }

  lemma {:induction false} CopiesSpell(s: string, q: nat, unit: string, n: nat)
    requires unit != [] && q <= |s| && n <= CopiesFrom(s, q, unit)
    ensures q + n * |unit| <= |s| && s[q..q + n * |unit|] == Repeat(unit, n)
    decreases n
  {
    if n > 0 {
      var q' := q + |unit|;
      CopiesSpell(s, q', unit, n - 1);
      assert s[q..q'] == unit;
      assert s[q..q + n * |unit|] == s[q..q'] + s[q'..q' + (n - 1) * |unit|];
    }
  }

  /** Conversely, `n` copies spelled out from `q` are all counted. */
  lemma {:induction false} CopiesOfRepeat(s: string, q: nat, unit: string, n: nat)
    requires unit != [] && q + n * |unit| <= |s| && s[q..q + n * |unit|] == Repeat(unit, n)
    ensures CopiesFrom(s, q, unit) >= n
    decreases n
  {
    if n > 0 {
      var q' := q + |unit|;
      var block := s[q..q + n * |unit|];
      assert block == unit + Repeat(unit, n - 1);
      assert s[q..q'] == block[..|unit|] == unit;
      assert s[q'..q' + (n - 1) * |unit|] == block[|unit|..];
      CopiesOfRepeat(s, q', unit, n - 1);
    }
  }

  /** The shape of one regular expression `(.{minLen,maxLen}?)\1{minCopies-1,}`. */
  datatype RepeatPattern = RepeatPattern(minLen: nat, maxLen: nat, minCopies: nat)

  predicate ValidPattern(pat: RepeatPattern) {
    1 <= pat.minLen && 1 <= pat.minCopies
  }

  /** `(.{2,15}?)\1{threshold-1,}` of `detect_short_repeats`. */
  function ShortPhrase(threshold: nat): RepeatPattern {
    RepeatPattern(2, 15, threshold)
  }

  /** `(.{2,10}?)\1{2,}` of `clean_repeated_words`. */
  const Stutter := RepeatPattern(2, 10, 3)

  /** The pattern matches at `p` with a first group of `k` characters. */
  predicate MatchesWith(s: string, p: nat, pat: RepeatPattern, k: nat) {
    && pat.minLen <= k <= pat.maxLen
    && 1 <= k && p + k <= |s|
    && NoNewline(s[p..p + k])
    && CopiesFrom(s, p, s[p..p + k]) >= pat.minCopies
  }

  /** The group length the lazy `.{lo,hi}?` settles on at `p`: the smallest
      length from `k` on for which enough copies follow. */
  function ShortestUnit(s: string, p: nat, pat: RepeatPattern, k: nat): (r: Option<nat>)
    requires ValidPattern(pat) && pat.minLen <= k
    ensures r.Some? ==> k <= r.value && MatchesWith(s, p, pat, r.value)
    ensures r.Some? ==> forall k' :: k <= k' < r.value ==> !MatchesWith(s, p, pat, k')
    ensures r.None? ==> forall k' :: k <= k' ==> !MatchesWith(s, p, pat, k')
    decreases pat.maxLen - k
  {
    if k > pat.maxLen then None
    else if MatchesWith(s, p, pat, k) then Some(k)
    else ShortestUnit(s, p, pat, k + 1)
  }

  /** The match of the pattern at `p`, if any: the length of the group. */
  function MatchAt(s: string, p: nat, pat: RepeatPattern): (r: Option<nat>)
    requires ValidPattern(pat)
    ensures r.Some? ==> MatchesWith(s, p, pat, r.value)
    ensures r.Some? ==> forall k: nat :: k < r.value ==> !MatchesWith(s, p, pat, k)
    ensures r.None? ==> forall k: nat :: !MatchesWith(s, p, pat, k)
  {
    ShortestUnit(s, p, pat, pat.minLen)
  }

  /** The index just past a match at `p` of group length `k`. */
  function MatchEnd(s: string, p: nat, k: nat): (e: nat)
    requires 1 <= k && p + k <= |s|
    ensures p + k <= e <= |s|
  {
    p + k * CopiesFrom(s, p, s[p..p + k])
  }

  /** `re.findall(pattern, s[p..])`: the groups of successive non-overlapping
      matches, the search resuming at the end of each match. */
  function FindAll(s: string, pat: RepeatPattern, p: nat): seq<string>
    requires ValidPattern(pat) && p <= |s|
    decreases |s| - p
  {
    if p == |s| then []
    else
      match MatchAt(s, p, pat)
      case None => FindAll(s, pat, p + 1)
      case Some(k) => [s[p..p + k]] + FindAll(s, pat, MatchEnd(s, p, k))
  }

  /** `re.sub(pattern, r'\1', s[p..])`: every match replaced by one copy of
      its group. */
  function SubAll(s: string, pat: RepeatPattern, p: nat): string
    requires ValidPattern(pat) && p <= |s|
    decreases |s| - p
  {
    if p == |s| then []
    else
      match MatchAt(s, p, pat)
      case None => [s[p]] + SubAll(s, pat, p + 1)
      case Some(k) => s[p..p + k] + SubAll(s, pat, MatchEnd(s, p, k))
  }

  /** `sub` only keeps characters of the text: it adds none. */
  lemma {:induction false} SubAllInside(s: string, pat: RepeatPattern, p: nat, c: char)
    requires ValidPattern(pat) && p <= |s|
    requires c !in s[p..]
    ensures c !in SubAll(s, pat, p)
    decreases |s| - p
  {
    if p < |s| {
      assert s[p] == s[p..][0];
      match MatchAt(s, p, pat)
      case None =>
        assert s[p + 1..] == s[p..][1..];
        SubAllInside(s, pat, p + 1, c);
      case Some(k) =>
        var e := MatchEnd(s, p, k);
        assert s[p..p + k] == s[p..][..k];
        assert s[e..] == s[p..][e - p..];
        SubAllInside(s, pat, e, c);
    }
  }

  /** `s` holds `n` copies of `u` back to back somewhere. */
  ghost predicate HasRun(s: string, u: string, n: nat) {
    exists q :: OccursAt(s, Repeat(u, n), q)
  }

  /** Every group `findall` reports is a unit of the allowed length without
      a newline, and `s` holds at least `minCopies` copies of it back to back. */
  lemma {:induction false} FindAllSound(s: string, pat: RepeatPattern, p: nat, u: string)
    requires ValidPattern(pat) && p <= |s|
    requires u in FindAll(s, pat, p)
    ensures pat.minLen <= |u| <= pat.maxLen && NoNewline(u)
    ensures HasRun(s, u, pat.minCopies)
    decreases |s| - p
  {
    if p < |s| {
      match MatchAt(s, p, pat)
      case None => FindAllSound(s, pat, p + 1, u);
      case Some(k) =>
        if u == s[p..p + k] {
          CopiesSpell(s, p, u, pat.minCopies);
          assert OccursAt(s, Repeat(u, pat.minCopies), p);
        } else {
          FindAllSound(s, pat, MatchEnd(s, p, k), u);
        }
    }
  }

  /** `sub` never lengthens the text. */
  lemma {:induction false} SubAllShorter(s: string, pat: RepeatPattern, p: nat)
    requires ValidPattern(pat) && p <= |s|
    ensures |SubAll(s, pat, p)| <= |s| - p
    decreases |s| - p
  {
    if p < |s| {
      match MatchAt(s, p, pat)
      case None => SubAllShorter(s, pat, p + 1);
      case Some(k) => SubAllShorter(s, pat, MatchEnd(s, p, k));
    }
  }

  /** Where `findall` finds nothing, `sub` changes nothing. */
  lemma {:induction false} SubAllNoMatch(s: string, pat: RepeatPattern, p: nat)
    requires ValidPattern(pat) && p <= |s|
    requires FindAll(s, pat, p) == []
    ensures SubAll(s, pat, p) == s[p..]
    decreases |s| - p
  {
    if p < |s| {
      assert MatchAt(s, p, pat).None?;
      SubAllNoMatch(s, pat, p + 1);
      assert s[p..] == [s[p]] + s[p + 1..];
    }
  }

  /** Where `findall` finds something and the pattern asks for two copies or
      more, `sub` shortens the text. */
  lemma {:induction false} SubAllMatch(s: string, pat: RepeatPattern, p: nat)
    requires ValidPattern(pat) && p <= |s| && pat.minCopies >= 2
    requires FindAll(s, pat, p) != []
    ensures |SubAll(s, pat, p)| < |s| - p
    decreases |s| - p
  {
    assert p < |s|;
    var m := MatchAt(s, p, pat);
    if m.None? {
      assert FindAll(s, pat, p) == FindAll(s, pat, p + 1);
      SubAllMatch(s, pat, p + 1);
      assert SubAll(s, pat, p) == [s[p]] + SubAll(s, pat, p + 1);
    } else {
      var k := m.value;
      var e := MatchEnd(s, p, k);
      assert SubAll(s, pat, p) == s[p..p + k] + SubAll(s, pat, e);
      SubAllShorter(s, pat, e);
      TwoCopiesAtLeast(k, CopiesFrom(s, p, s[p..p + k]));
    }
  }

  /** A text shorter than `minCopies` units of the least length holds no
      match, so `sub` leaves it as it is. */
  lemma {:induction false} SubAllShort(s: string, pat: RepeatPattern, p: nat)
    requires ValidPattern(pat) && p <= |s| && |s| < pat.minLen * pat.minCopies
    ensures SubAll(s, pat, p) == s[p..]
    decreases |s| - p
  {
    if p < |s| {
      forall k: nat
        ensures !MatchesWith(s, p, pat, k)
      {
        if pat.minLen <= k && 1 <= k && p + k <= |s| {
          var n := CopiesFrom(s, p, s[p..p + k]);
          assert p + n * k <= |s|;
          if n >= pat.minCopies {
            MulAtLeast(n, k, pat.minCopies, pat.minLen);
          }
        }
      }
      SubAllShort(s, pat, p + 1);
      assert s[p..] == [s[p]] + s[p + 1..];
    }
  }

  lemma MulAtLeast(a: nat, b: nat, c: nat, d: nat)
    requires a >= c && b >= d
    ensures a * b >= c * d
  {
    assert a * b >= c * b;
    assert c * b >= c * d;
  }

  lemma TwoCopiesAtLeast(k: nat, c: nat)
    requires c >= 2
    ensures k * c >= 2 * k
  {
  }

  /** `detect_short_repeats(content, threshold)`: the distinct groups
      `re.findall(r'(.{2,15}?)\1{threshold-1,}', content)` reports. Each has
      2 to 15 characters, none a newline, and `content` holds `threshold`
      copies of it back to back. */
  function DetectShortRepeats(content: string, threshold: nat): (r: set<string>)
    requires threshold >= 1
    ensures forall u :: u in r ==> 2 <= |u| <= 15 && NoNewline(u)
    ensures forall u :: u in r ==> HasRun(content, u, threshold)
  {
    var found := FindAll(content, ShortPhrase(threshold), 0);
    forall u | u in found
      ensures 2 <= |u| <= 15 && NoNewline(u)
      ensures HasRun(content, u, threshold)
    {
      FindAllSound(content, ShortPhrase(threshold), 0, u);
      assert ShortPhrase(threshold).minCopies == threshold;
    }
    set u | u in found
  }
}
