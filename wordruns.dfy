/** The word pass both cleaners share (src/fix_hallucination.py
    `clean_repeated_words` and the inner loop of src/mp3_to_text.py
    `_remove_hallucination`): a run of three or more equal consecutive words
    becomes one word, shorter runs stay as they are. */
module WordRuns {
  import opened Strings


  /** The end of the run of words equal to `words[i]` that starts at `i`. */
  function RunEnd(words: seq<string>, i: nat): (j: nat)
    requires i < |words|
    ensures i < j <= |words|
    ensures forall k :: i <= k < j ==> words[k] == words[i]
    ensures j == |words| || words[j] != words[i]
    decreases |words| - i
  {
    if i + 1 < |words| && words[i + 1] == words[i] then RunEnd(words, i + 1) else i + 1
  }

  /** The words after the collapse, run by run. */
  function CollapseRuns(words: seq<string>): (r: seq<string>)
    ensures |r| <= |words|
    ensures words != [] ==> r != [] && r[0] == words[0]
    decreases |words|
  {
    if words == [] then []
    else
      var j := RunEnd(words, 0);
      (if j >= 3 then [words[0]] else words[..j]) + CollapseRuns(words[j..])
  }

  /** The collapse only keeps words that were there. */
  lemma {:induction false} CollapseKeepsWords(words: seq<string>, w: string)
    requires w in CollapseRuns(words)
    ensures w in words
    decreases |words|
  {
    var j := RunEnd(words, 0);
    var block := if j >= 3 then [words[0]] else words[..j];
    assert CollapseRuns(words) == block + CollapseRuns(words[j..]);
    if w !in block {
      CollapseKeepsWords(words[j..], w);
    }
  }

  /** No word appears three times in a row. */
  predicate NoTriple(words: seq<string>) {
    forall i :: 0 <= i < |words| - 2 ==> !(words[i] == words[i + 1] && words[i + 1] == words[i + 2])
  }

  /** `words` with every run of equal neighbours reduced to one word: the
      order in which distinct neighbours follow each other. */
  function Skeleton(words: seq<string>): seq<string>
    decreases |words|
  {
    if words == [] then []
    else if |words| > 1 && words[0] == words[1] then Skeleton(words[1..])
    else [words[0]] + Skeleton(words[1..])
  }

  lemma SuffixOfRun(words: seq<string>, i: nat, j: nat)
    requires i < j <= |words|
    requires forall k :: i <= k < j ==> words[k] == words[i]
    ensures RunEnd(words, i) == RunEnd(words, j - 1)
    decreases j - i
  {
    if i + 1 < j {
      SuffixOfRun(words, i + 1, j);
    }
  }

  /** A run of one or two equal words at the front has the same skeleton as
      its first word alone. */
  lemma {:induction false} SkeletonOfRun(words: seq<string>, j: nat)
    requires 0 < j <= |words|
    requires forall k :: 0 <= k < j ==> words[k] == words[0]
    ensures Skeleton(words) == Skeleton(words[j - 1..])
    decreases j
  {
    if j > 1 {
      assert words[0] == words[1];
      SkeletonOfRun(words[1..], j - 1);
      assert words[1..][j - 2..] == words[j - 1..];
    }
  }

  /** The skeleton starts with the first word, whatever follows it. */
  lemma SkeletonFromFirst(words: seq<string>, j: nat)
    requires 0 < j <= |words|
    requires forall k :: 0 <= k < j ==> words[k] == words[0]
    requires j == |words| || words[j] != words[0]
    ensures Skeleton(words) == [words[0]] + Skeleton(words[j..])
  {
    SkeletonOfRun(words, j);
    var t := words[j - 1..];
    assert t[1..] == words[j..];
    assert |t| > 1 ==> t[1] == words[j];
  }

  /** The collapse keeps the order of distinct neighbouring words: only
      repeats are dropped. */
  lemma {:induction false} CollapseKeepsSkeleton(words: seq<string>)
    ensures Skeleton(CollapseRuns(words)) == Skeleton(words)
    decreases |words|
  {
    if words != [] {
      var j := RunEnd(words, 0);
      var rest := words[j..];
      var block := if j >= 3 then [words[0]] else words[..j];
      var r := CollapseRuns(words);
      assert r == block + CollapseRuns(rest);
      CollapseKeepsSkeleton(rest);
      SkeletonFromFirst(words, j);
      var jb := |block|;
      assert forall k :: 0 <= k < jb ==> block[k] == words[0];
      assert r[..jb] == block && r[jb..] == CollapseRuns(rest);
      assert forall k :: 0 <= k < jb ==> r[k] == r[0];
      if rest != [] {
        assert CollapseRuns(rest)[0] == rest[0] == words[j];
      }
      assert jb == |r| || r[jb] != r[0];
      SkeletonFromFirst(r, jb);
    }
  }

  /** After the collapse no word appears three times in a row. */
  lemma {:induction false} CollapseLeavesNoTriple(words: seq<string>)
    ensures NoTriple(CollapseRuns(words))
    decreases |words|
  {
    if words != [] {
      var j := RunEnd(words, 0);
      var rest := words[j..];
      var block := if j >= 3 then [words[0]] else words[..j];
      var tail := CollapseRuns(rest);
      var r := block + tail;
      assert r == CollapseRuns(words);
      CollapseLeavesNoTriple(rest);
      assert |block| <= 2;
      assert forall k :: 0 <= k < |block| ==> block[k] == words[0];
      assert tail != [] ==> tail[0] != words[0];
      forall i | 0 <= i < |r| - 2
        ensures !(r[i] == r[i + 1] && r[i + 1] == r[i + 2])
      {
        if i >= |block| {
          assert r[i] == tail[i - |block|] && r[i + 1] == tail[i + 1 - |block|] && r[i + 2] == tail[i + 2 - |block|];
        } else if i + 1 == |block| {
          assert r[i + 1] == tail[0];
        } else {
          assert i == 0 && |block| == 2;
          assert r[i + 2] == tail[0];
        }
      }
    }
  }

  /** Words with no triple repeat pass through the collapse unchanged, so the
      collapse is idempotent. */
  lemma {:induction false} CollapseWithoutTriple(words: seq<string>)
    requires NoTriple(words)
    ensures CollapseRuns(words) == words
    decreases |words|
  {
    if words != [] {
      var j := RunEnd(words, 0);
      assert |words| > 2 ==> !(words[0] == words[1] && words[1] == words[2]);
      var rest := words[j..];
      assert NoTriple(rest) by {
        forall i | 0 <= i < |rest| - 2
          ensures !(rest[i] == rest[i + 1] && rest[i + 1] == rest[i + 2])
        {
          assert rest[i] == words[j + i] && rest[i + 1] == words[j + i + 1] && rest[i + 2] == words[j + i + 2];
        }
      }
      CollapseWithoutTriple(rest);
      assert words == words[..j] + rest;
    }
  }

  lemma CollapseIdempotent(words: seq<string>)
    ensures CollapseRuns(CollapseRuns(words)) == CollapseRuns(words)
  {
    CollapseLeavesNoTriple(words);
    CollapseWithoutTriple(CollapseRuns(words));
  }

  /** Three equal words collapse to one. */
  lemma CollapseExample()
    ensures CollapseRuns(["그녀는", "그녀는", "그녀는"]) == ["그녀는"]
  {
    var w := ["그녀는", "그녀는", "그녀는"];
    assert RunEnd(w, 0) == 3;
    assert w[3..] == [];
  }

  /** The word loop of `clean_repeated_words` (and of `_remove_hallucination`):
      `i` walks the words, `j` finds how far the current word repeats; a run
      of three or more is appended once and skipped, otherwise one word is
      appended and `i` moves by one. */
  method CollapseWordRuns(words: seq<string>) returns (cleaned: seq<string>)
    ensures cleaned == CollapseRuns(words)
  {
    cleaned := [];
    var i := 0;
    assert words[i..] == words;
    while i < |words|
      invariant 0 <= i <= |words|
      invariant cleaned + CollapseRuns(words[i..]) == CollapseRuns(words)
    {
      var word := words[i];
      var repeatCount := 1;
      var j := i + 1;
      while j < |words| && words[j] == word
        invariant i < j <= |words|
        invariant repeatCount == j - i
        invariant forall k :: i <= k < j ==> words[k] == word
      {
        repeatCount := repeatCount + 1;
        j := j + 1;
      }
      var next := if repeatCount >= 3 then j else i + 1;
      CollapseStep(words, i, j);
      Assoc(cleaned, [word], CollapseRuns(words[next..]));
      cleaned := cleaned + [word];
      i := next;
    }
    assert words[i..] == [];
  }

  /** One step of the loop: the collapse of the suffix at `i` is the word at
      `i` followed by the collapse of the suffix the loop moves on to. */
  lemma CollapseStep(words: seq<string>, i: nat, j: nat)
    requires i < j <= |words|
    requires forall k :: i <= k < j ==> words[k] == words[i]
    requires j == |words| || words[j] != words[i]
    ensures CollapseRuns(words[i..]) == [words[i]] + CollapseRuns(words[if j - i >= 3 then j else i + 1..])
  {
    var rest := words[i..];
    var n := j - i;
    assert forall k :: 0 <= k < n ==> rest[k] == rest[0];
    assert n == |rest| || rest[n] != rest[0];
    CollapseFront(rest, n);
    if n >= 3 {
      assert rest[n..] == words[j..];
    } else {
      assert rest[1..] == words[i + 1..];
    }
  }

  /** The collapse of words that open with a run of `n` equal words. */
  lemma CollapseFront(s: seq<string>, n: nat)
    requires 0 < n <= |s|
    requires forall k :: 0 <= k < n ==> s[k] == s[0]
    requires n == |s| || s[n] != s[0]
    ensures CollapseRuns(s) == [s[0]] + CollapseRuns(s[if n >= 3 then n else 1..])
  {
    RunEndIs(s, n);
    if n >= 3 {
      CollapseUnfold(s, n, [s[0]], s[n..]);
    } else if n == 1 {
      CollapseUnfold(s, 1, [s[0]], s[1..]);
    } else {
      var next := s[1..];
      assert forall k :: 0 <= k < 1 ==> next[k] == next[0];
      RunEndIs(next, 1);
      assert s[..2] == [s[0]] + [s[0]];
      CollapseUnfold(s, 2, [s[0]] + [s[0]], s[2..]);
      assert next[1..] == s[2..];
      CollapseUnfold(next, 1, [s[0]], s[2..]);
      Assoc([s[0]], [s[0]], CollapseRuns(s[2..]));
    }
  }

  /** One step of `CollapseRuns`, with the block it keeps and the words it
      goes on with named by the caller. */
  lemma CollapseUnfold(s: seq<string>, j: nat, block: seq<string>, tail: seq<string>)
    requires s != [] && j == RunEnd(s, 0)
    requires block == (if j >= 3 then [s[0]] else s[..j]) && tail == s[j..]
    ensures CollapseRuns(s) == block + CollapseRuns(tail)
  {
  }

  /** The run the inner loop measures is the run `RunEnd` finds in the suffix. */
  lemma RunEndShift(words: seq<string>, i: nat, j: nat)
    requires i < j <= |words|
    requires forall k :: i <= k < j ==> words[k] == words[i]
    requires j == |words| || words[j] != words[i]
    ensures RunEnd(words[i..], 0) == j - i
  {
    var rest := words[i..];
    assert forall k :: 0 <= k < j - i ==> rest[k] == rest[0];
    RunEndIs(rest, j - i);
  }

  lemma RunEndIs(words: seq<string>, j: nat)
    requires 0 < j <= |words|
    requires forall k :: 0 <= k < j ==> words[k] == words[0]
    requires j == |words| || words[j] != words[0]
    ensures RunEnd(words, 0) == j
  {
    SuffixOfRun(words, 0, j);
  }
}
