/**
 * What an accepted sequence of tokens guarantees. Every strategy appends
 * one token at a time to a buffer, runs the prohibition check on the
 * buffer, and keeps the token only if the check passes; a word is the
 * concatenation of the tokens it kept.
 */
module AcceptedRuns {
  import opened JsString
  import opened Prohibitions

  /** The word built by `buffer += letter` for each token in turn. */
  function Concat(toks: seq<string>): string
    decreases |toks|
  {
    if |toks| == 0 then "" else Concat(toks[..|toks| - 1]) + toks[|toks| - 1]
  }

  /** Appending one more token extends the word by exactly that token. */
  lemma ConcatSnoc(toks: seq<string>, t: string)
    ensures Concat(toks + [t]) == Concat(toks) + t
  {
    assert (toks + [t])[..|toks|] == toks;
  }

  /**
   * Every token passed the check when it was appended: after the `j`-th
   * token the buffer is `Concat(toks[..j])` and the position is `j - 1`
   * (`AcceptedAt` states this for each `j`).
   */
  ghost predicate Accepted(toks: seq<string>, p: ProhibitionSetting, length: int)
    decreases |toks|
  {
    |toks| == 0 || (Accepted(toks[..|toks| - 1], p, length) && CheckProhibition(Concat(toks), p, length, |toks| - 1))
  }

  /** In an accepted run the buffer passed the check after every token. */
  lemma {:induction false} AcceptedAt(toks: seq<string>, p: ProhibitionSetting, length: int, j: int)
    requires Accepted(toks, p, length) && 0 < j <= |toks|
    ensures CheckProhibition(Concat(toks[..j]), p, length, j - 1)
    decreases |toks|
  {
    if j == |toks| {
      assert toks[..j] == toks;
    } else {
      var init := toks[..|toks| - 1];
      AcceptedAt(init, p, length, j);
      assert init[..j] == toks[..j];
    }
  }

  /** A token that passes the check at the next position extends an accepted run. */
  lemma AcceptedExtend(toks: seq<string>, t: string, p: ProhibitionSetting, length: int)
    requires Accepted(toks, p, length)
    requires CheckProhibition(Concat(toks) + t, p, length, |toks|)
    ensures Accepted(toks + [t], p, length)
  {
    assert (toks + [t])[..|toks|] == toks;
    ConcatSnoc(toks, t);
  }

  /**
   * The finished word passed the check at its last position: it ends with
   * no `always` token and with no `last` token, whatever the tokens' lengths.
   */
  lemma FinalWordAvoidsForbiddenEndings(toks: seq<string>, p: ProhibitionSetting)
    requires |toks| > 0 && Accepted(toks, p, |toks|)
    ensures forall x :: x in p.always ==> !EndsWith(Concat(toks), x)
    ensures forall x :: x in p.last ==> !EndsWith(Concat(toks), x)
  {
    AcceptedAt(toks, p, |toks|, |toks|);
    assert toks[..|toks|] == toks;
  }

  /**
   * The prefix rules are enforced while the position is at most the length
   * of some `first` token: at such a position the buffer starts with no
   * `first` token at all.
   */
  lemma EarlyBuffersAvoidForbiddenPrefixes(toks: seq<string>, p: ProhibitionSetting, length: int, j: nat, t: string)
    requires Accepted(toks, p, length)
    requires 0 < j <= |toks| && t in p.first && j - 1 <= |t|
    ensures forall x :: x in p.first ==> !StartsWith(Concat(toks[..j]), x)
  {
    AcceptedAt(toks, p, length, j);
    assert !(|t| < j - 1);
  }

  /** Every token is exactly one character long. */
  predicate OneCharTokens(toks: seq<string>)
  {
    forall j :: 0 <= j < |toks| ==> |toks[j]| == 1
  }

  /** With one-character tokens the buffer after `j` tokens is the word's first `j` characters. */
  lemma {:induction false} OneCharPrefixes(toks: seq<string>, j: nat)
    requires OneCharTokens(toks) && j <= |toks|
    ensures |Concat(toks)| == |toks|
    ensures Concat(toks[..j]) == Concat(toks)[..j]
    decreases |toks|
  {
    if |toks| > 0 {
      var init := toks[..|toks| - 1];
      assert OneCharTokens(init);
      if j == |toks| {
        OneCharPrefixes(init, 0);
        assert toks[..j] == toks;
      } else {
        OneCharPrefixes(init, j);
        assert toks[..j] == init[..j];
      }
    }
  }

  /** `t` occurs in `s` starting at index `k`. */
  predicate OccursAt(s: string, t: string, k: int)
  {
    0 <= k && k + |t| <= |s| && s[k..k + |t|] == t
  }

  ghost predicate Contains(s: string, t: string)
  {
    exists k :: OccursAt(s, t, k)
  }

  /**
   * With one-character tokens, checking suffixes after every append is
   * checking substrings: no non-empty `always` token occurs anywhere in the word.
   */
  lemma OneCharWordAvoidsAlways(toks: seq<string>, p: ProhibitionSetting, length: int)
    requires OneCharTokens(toks) && Accepted(toks, p, length)
    ensures forall x :: x in p.always && x != "" ==> !Contains(Concat(toks), x)
  {
    var w := Concat(toks);
    OneCharPrefixes(toks, 0);
    forall x, k | x in p.always && x != "" && 0 <= k && k + |x| <= |w| ensures !OccursAt(w, x, k) {
      var e := k + |x|;
      OneCharPrefixes(toks, e);
      AcceptedAt(toks, p, length, e);
      assert !EndsWith(w[..e], x);
      assert w[..e][e - |x|..] == w[k..e];
    }
  }

  /** Every token is at least one character long. */
  predicate NonEmptyTokens(toks: seq<string>)
  {
    forall j :: 0 <= j < |toks| ==> |toks[j]| >= 1
  }

  /** The buffer after the first `j` tokens is a prefix of the word. */
  lemma {:induction false} ConcatPrefix(toks: seq<string>, j: nat)
    requires j <= |toks|
    ensures Concat(toks[..j]) <= Concat(toks)
    decreases |toks|
  {
    if j == |toks| {
      assert toks[..j] == toks;
    } else {
      var init := toks[..|toks| - 1];
      ConcatPrefix(init, j);
      assert init[..j] == toks[..j];
      assert Concat(toks) == Concat(init) + toks[|toks| - 1];
    }
  }

  /** With non-empty tokens the buffer after `j` tokens has at least `j` characters. */
  lemma {:induction false} ConcatLength(toks: seq<string>, j: nat)
    requires NonEmptyTokens(toks) && j <= |toks|
    ensures |Concat(toks[..j])| >= j
  {
    if j > 0 {
      ConcatLength(toks, j - 1);
      assert toks[..j][..j - 1] == toks[..j - 1];
    }
  }

  /**
   * With non-empty tokens no non-empty `first` token begins the word: the
   * first buffer that is as long as such a token is reached at a position
   * that is still below the token's length, and it starts the word.
   */
  lemma NonEmptyWordAvoidsFirst(toks: seq<string>, p: ProhibitionSetting, length: int)
    requires NonEmptyTokens(toks) && Accepted(toks, p, length)
    ensures forall x :: x in p.first && x != "" ==> !StartsWith(Concat(toks), x)
  {
    forall x | x in p.first && x != "" {
      PrefixNotCompleted(toks, p, length, x);
    }
  }

  /** One forbidden prefix at a time, for `NonEmptyWordAvoidsFirst`. */
  lemma PrefixNotCompleted(toks: seq<string>, p: ProhibitionSetting, length: int, x: string)
    requires NonEmptyTokens(toks) && Accepted(toks, p, length)
    requires x in p.first && x != ""
    ensures !StartsWith(Concat(toks), x)
  {
    var w := Concat(toks);
    if StartsWith(w, x) {
      assert toks != [];
      assert toks[..|toks|] == toks;
      assert toks[..0] == [];
      var j := 1;
      while |Concat(toks[..j])| < |x|
        invariant 1 <= j <= |toks|
        invariant |Concat(toks[..j - 1])| < |x|
        decreases |toks| - j
      {
        j := j + 1;
      }
      ConcatLength(toks, j - 1);
      EarlyBuffersAvoidForbiddenPrefixes(toks, p, length, j, x);
      ConcatPrefix(toks, j);
    }
  }

  /**
   * With a token longer than one character the guarantee fails: `"xaby"`
   * is accepted under the rule `"ab"` although it contains `"ab"`.
   */
  lemma LongTokenHidesForbiddenString()
    ensures Accepted(["xaby"], ProhibitionSetting([], ["ab"], []), 1)
    ensures Contains(Concat(["xaby"]), "ab")
  {
    var toks := ["xaby"];
    assert Concat(toks) == "xaby" by {
      assert toks[..0] == [];
    }
    assert !EndsWith("xaby", "ab");
    assert OccursAt("xaby", "ab", 1);
  }

  /**
   * With an empty token the prefix guarantee fails: after two empty letters
   * the word `"a"` is accepted under the rule `^a`, because the prefix
   * completes only at position 2, beyond the rule's length.
   */
  lemma EmptyTokenHidesForbiddenPrefix()
    ensures Accepted(["", "", "a"], ProhibitionSetting(["a"], [], []), 3)
    ensures StartsWith(Concat(["", "", "a"]), "a")
  {
    var toks: seq<string> := ["", "", "a"];
    var p := ProhibitionSetting(["a"], [], []);
    assert toks[..0] == [] && toks[..1] == [""] && toks[..2] == ["", ""];
    assert [""][..0] == [] && ["", ""][..1] == [""];
    assert Concat([""]) == "";
    assert Concat(["", ""]) == "";
    assert Concat(toks) == "a";
    assert CheckProhibition("", p, 3, 0);
    assert CheckProhibition("", p, 3, 1);
    assert CheckProhibition("a", p, 3, 2);
    assert Accepted([""], p, 3);
    assert Accepted(["", ""], p, 3);
  }
}
