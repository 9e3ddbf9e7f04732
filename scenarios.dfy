/**
 * Worked settings: small clients that call each strategy on a setting
 * built from a few letters and state which words can come back, whatever
 * the draws.
 */
module Scenarios {
  import opened Wrappers
  import opened JsString
  import opened Prohibitions
  import opened AcceptedRuns
  import opened WordGenerator

  /** A letter that `split(",")` and `trim()` leave alone. */
  predicate Plain(c: char)
  {
    !IsWhitespace(c) && c != ','
  }

  /** The word of two tokens, and the buffer after the first. */
  lemma ConcatPair(toks: seq<string>)
    requires |toks| == 2
    ensures Concat(toks) == toks[0] + toks[1]
    ensures Concat(toks[..1]) == toks[0]
  {
    var t1 := toks[..1];
    assert t1[..0] == [];
    assert Concat(t1) == Concat(t1[..0]) + t1[0];
    assert Concat(t1) == toks[0];
    assert toks[..2][..1] == t1;
    assert Concat(toks) == Concat(toks[..1]) + toks[1];
  }

  /** `"a,b".split(",")` is `["a", "b"]`. */
  lemma SplitPair(a: char, b: char)
    requires a != ',' && b != ','
    ensures Split([a, ',', b], ',') == [[a], [b]]
  {
    SplitWithoutSeparator([b], ',');
    assert Split([',', b], ',') == ["", [b]] by {
      assert [',', b][1..] == [b];
    }
    assert [a, ',', b][1..] == [',', b];
    assert [a] + "" == [a];
  }

  /** Two plain letters separated by a comma split and trim into two one-letter tokens. */
  lemma TrimmedPair(a: char, b: char)
    requires Plain(a) && Plain(b)
    ensures Split([a, ',', b], ',') == [[a], [b]]
    ensures TrimEach(Split([a, ',', b], ',')) == [[a], [b]]
  {
    SplitPair(a, b);
    TrimUnpadded([a]);
    TrimUnpadded([b]);
  }

  /** Two plain letters without a comma are one token. */
  lemma TrimmedWhole(a: char, b: char)
    requires Plain(a) && Plain(b)
    ensures Split([a, b], ',') == [[a, b]]
    ensures TrimEach(Split([a, b], ',')) == [[a, b]]
  {
    SplitWithoutSeparator([a, b], ',');
    assert Trim([a, b]) == [a, b] by {
      TrimUnpadded([a, b]);
    }
    assert TrimEach([[a, b]]) == [[a, b]];
  }

  /** The pattern list `VV` is that one pattern. */
  lemma PatternVV()
    ensures TrimEach(Split(['V', 'V'], ',')) == [['V', 'V']]
  {
    assert Plain('V');
    TrimmedWhole('V', 'V');
  }

  /** `^c` compiles to the forbidden prefix `c`. */
  lemma PrefixRule(c: char)
    requires Plain(c) && c != '$'
    ensures GetProhibitions(Some(['^', c])) == ProhibitionSetting([[c]], [], [])
  {
    SingleRule(['^', c]);
    assert AfterFirst(['^', c]) == [c];
  }

  /** `c$` compiles to the forbidden suffix `c`. */
  lemma SuffixRule(c: char)
    requires Plain(c) && c != '^'
    ensures GetProhibitions(Some([c, '$'])) == ProhibitionSetting([], [], [[c]])
  {
    SingleRule([c, '$']);
    assert BeforeLast([c, '$']) == [c];
  }

  /** An unmarked two-letter rule `ab` compiles to the forbidden string `ab`. */
  lemma PlainPairRule(a: char, b: char)
    requires Plain(a) && Plain(b) && a != '^' && b != '$'
    ensures GetProhibitions(Some([a, b])) == ProhibitionSetting([], [[a, b]], [])
  {
    SingleRule([a, b]);
  }

  /** The count list `"2"` always yields the count 2. */
  lemma CountTwo(letters: string, rule: Option<string>, d: nat)
    ensures SimpleCount(SimpleSetting(letters, "2", rule), d) == Some(2)
  {
    assert Split("2", ',') == ["2"] by {
      SplitWithoutSeparator("2", ',');
    }
    assert ParseInt("2") == Some(2) by {
      ParseIntOfDecimal(2);
      assert IntToString(2) == "2";
    }
  }

  /** The check under a single forbidden string. */
  lemma CheckAlwaysOnly(buffer: string, x: string, length: int, count: int)
    ensures CheckProhibition(buffer, ProhibitionSetting([], [x], []), length, count) <==> !EndsWith(buffer, x)
  {
    assert forall y :: y in [x] <==> y == x;
  }

  /** The check under a single forbidden prefix. */
  lemma CheckFirstOnly(buffer: string, x: string, length: int, count: int)
    ensures CheckProhibition(buffer, ProhibitionSetting([x], [], []), length, count) <==> |x| < count || !StartsWith(buffer, x)
  {
    assert forall y :: y in [x] <==> y == x;
  }

  /** The check under a single forbidden suffix. */
  lemma CheckLastOnly(buffer: string, x: string, length: int, count: int)
    ensures CheckProhibition(buffer, ProhibitionSetting([], [], [x]), length, count) <==> count != length - 1 || !EndsWith(buffer, x)
  {
    assert forall y :: y in [x] <==> y == x;
  }

  // ---------------------------------------------------------------------
  // simple

  /** Two tokens from `a,b` whose word does not end with `ab`. */
  lemma PairAvoids(s: string, t: string, a: char, b: char)
    requires s in [[a], [b]] && t in [[a], [b]] && !EndsWith(s + t, [a, b])
    ensures s + t in {[a, a], [b, a], [b, b]}
  {
    var x, y := s[0], t[0];
    assert s + t == [x, y] by {
      assert s == [x] && t == [y];
    }
    assert EndsWith(s + t, [x, y]);
    if x == b {
      if y == a {
        assert s + t == [b, a];
      } else {
        assert s + t == [b, b];
      }
    } else {
      assert s + t == [a, a];
    }
  }

  /** A complete two-token `simple` run over `a,b` under the rule `ab` never spells `ab`. */
  lemma SimpleWordAvoidsPair(w: string, a: char, b: char)
    requires SimpleWord(w, [[a], [b]], ProhibitionSetting([], [[a, b]], []), Some(2))
    ensures w in {[a, a], [b, a], [b, b]}
  {
    var toks :| |toks| == 2 && w == Concat(toks) && SimpleRun(toks, [[a], [b]], ProhibitionSetting([], [[a, b]], []), 2);
    ConcatPair(toks);
    assert toks[..2] == toks;
    CheckAlwaysOnly(Concat(toks), [a, b], 2, 1);
    assert toks[0] in [[a], [b]] && toks[1] in [[a], [b]];
    PairAvoids(toks[0], toks[1], a, b);
  }

  /** Letters `a,b`, count `2`, rule `ab`: every word is `aa`, `ba` or `bb`. */
  method SimpleAvoidsPair(a: char, b: char, draws: seq<nat>) returns (word: Option<string>)
    requires Plain(a) && Plain(b) && a != '^' && b != '$'
    ensures word.Some? ==> word.value in {[a, a], [b, a], [b, b]}
  {
    word := Simple(SimpleSetting([a, ',', b], "2", Some([a, b])), draws);
    if word.Some? {
      CountTwo([a, ',', b], Some([a, b]), draws[0]);
      SplitPair(a, b);
      PlainPairRule(a, b);
      SimpleWordAvoidsPair(word.value, a, b);
    }
  }

  // ---------------------------------------------------------------------
  // simplecv

  /** A `CV` run over `c1,c2` / `v1,v2`: a consonant then a vowel. */
  lemma CvRunShape(toks: seq<string>, c1: char, c2: char, v1: char, v2: char, p: ProhibitionSetting)
    requires |toks| == 2 && CvRun(toks, [[c1], [c2]], [[v1], [v2]], ['C', 'V'], p)
    ensures toks[0] in [[c1], [c2]] && toks[1] in [[v1], [v2]]
    ensures Concat(toks) == toks[0] + toks[1] && Concat(toks[..1]) == toks[0]
  {
    ConcatPair(toks);
    assert CategoryOf('C') == Consonant && CategoryOf('V') == Vowel;
    assert toks[0] in CategoryPool([[c1], [c2]], [[v1], [v2]], Consonant);
    assert toks[1] in CategoryPool([[c1], [c2]], [[v1], [v2]], Vowel);
  }

  /** A consonant then a vowel, the consonant not `c2`. */
  lemma InitialAvoids(s: string, t: string, c1: char, c2: char, v1: char, v2: char)
    requires s in [[c1], [c2]] && t in [[v1], [v2]] && !StartsWith(s, [c2])
    ensures s + t in {[c1, v1], [c1, v2]}
  {
    assert s[..1] == s;
    assert s + t == [s[0], t[0]];
  }

  /** A consonant then a vowel, the word not ending with `v2`. */
  lemma FinalAvoids(s: string, t: string, c1: char, c2: char, v1: char, v2: char)
    requires s in [[c1], [c2]] && t in [[v1], [v2]] && !EndsWith(s + t, [v2])
    ensures s + t in {[c1, v1], [c2, v1]}
  {
    var w := s + t;
    assert w == [s[0], t[0]];
    assert w[|w| - 1..] == t;
  }

  /** A complete `CV` run under the prefix rule `c2`: the consonant is `c1`. */
  lemma CvWordAvoidsInitial(w: string, c1: char, c2: char, v1: char, v2: char)
    requires CvWord(w, [[c1], [c2]], [[v1], [v2]], ['C', 'V'], ProhibitionSetting([[c2]], [], []))
    ensures w in {[c1, v1], [c1, v2]}
  {
    var toks :| |toks| == 2 && w == Concat(toks) && CvRun(toks, [[c1], [c2]], [[v1], [v2]], ['C', 'V'], ProhibitionSetting([[c2]], [], []));
    CvRunShape(toks, c1, c2, v1, v2, ProhibitionSetting([[c2]], [], []));
    assert CheckProhibition(Concat(toks[..1]), ProhibitionSetting([[c2]], [], []), 2, 0);
    CheckFirstOnly(toks[0], [c2], 2, 0);
    InitialAvoids(toks[0], toks[1], c1, c2, v1, v2);
  }

  /** A complete `CV` run under the suffix rule `v2`: the vowel is `v1`. */
  lemma CvWordAvoidsFinal(w: string, c1: char, c2: char, v1: char, v2: char)
    requires CvWord(w, [[c1], [c2]], [[v1], [v2]], ['C', 'V'], ProhibitionSetting([], [], [[v2]]))
    ensures w in {[c1, v1], [c2, v1]}
  {
    var toks :| |toks| == 2 && w == Concat(toks) && CvRun(toks, [[c1], [c2]], [[v1], [v2]], ['C', 'V'], ProhibitionSetting([], [], [[v2]]));
    CvRunShape(toks, c1, c2, v1, v2, ProhibitionSetting([], [], [[v2]]));
    assert toks[..2] == toks;
    assert CheckProhibition(Concat(toks[..2]), ProhibitionSetting([], [], [[v2]]), 2, 1);
    CheckLastOnly(Concat(toks), [v2], 2, 1);
    FinalAvoids(toks[0], toks[1], c1, c2, v1, v2);
  }

  /** The pools and the pattern of the two `simplecv` settings below. */
  lemma CvPools(c1: char, c2: char, v1: char, v2: char, d: nat)
    requires Plain(c1) && Plain(c2) && Plain(v1) && Plain(v2)
    ensures Split([c1, ',', c2], ',') == [[c1], [c2]] && Split([v1, ',', v2], ',') == [[v1], [v2]]
    ensures Pick(Split(['C', 'V'], ','), d) == ['C', 'V']
  {
    SplitPair(c1, c2);
    SplitPair(v1, v2);
    SplitWithoutSeparator(['C', 'V'], ',');
  }

  /** Consonants `c1,c2`, vowels `v1,v2`, pattern `CV`, rule `^c2`: every word starts with `c1`. */
  method SimpleCvAvoidsInitial(c1: char, c2: char, v1: char, v2: char, draws: seq<nat>) returns (word: Option<string>)
    requires Plain(c1) && Plain(c2) && Plain(v1) && Plain(v2) && c2 != '$'
    ensures word.Some? ==> word.value in {[c1, v1], [c1, v2]}
  {
    word := SimpleCv(SimpleCvSetting([c1, ',', c2], [v1, ',', v2], ['C', 'V'], Some(['^', c2])), draws);
    if word.Some? {
      CvPools(c1, c2, v1, v2, draws[0]);
      assert GetProhibitions(Some(['^', c2])) == ProhibitionSetting([[c2]], [], []) by {
        PrefixRule(c2);
      }
      CvWordAvoidsInitial(word.value, c1, c2, v1, v2);
    }
  }

  /** Consonants `c1,c2`, vowels `v1,v2`, pattern `CV`, rule `v2$`: every word ends with `v1`. */
  method SimpleCvAvoidsFinal(c1: char, c2: char, v1: char, v2: char, draws: seq<nat>) returns (word: Option<string>)
    requires Plain(c1) && Plain(c2) && Plain(v1) && Plain(v2) && v2 != '^'
    ensures word.Some? ==> word.value in {[c1, v1], [c2, v1]}
  {
    word := SimpleCv(SimpleCvSetting([c1, ',', c2], [v1, ',', v2], ['C', 'V'], Some([v2, '$'])), draws);
    if word.Some? {
      CvPools(c1, c2, v1, v2, draws[0]);
      assert GetProhibitions(Some([v2, '$'])) == ProhibitionSetting([], [], [[v2]]) by {
        SuffixRule(v2);
      }
      CvWordAvoidsFinal(word.value, c1, c2, v1, v2);
    }
  }

  // ---------------------------------------------------------------------
  // dependencycv

  /** Consonants and vowels that share no letter. */
  predicate Disjoint(c1: char, c2: char, v1: char, v2: char)
  {
    c1 != v1 && c1 != v2 && c2 != v1 && c2 != v2
  }

  /** With no letter accepted yet, a `V` position draws a vowel. */
  lemma DependencyFirstVowel(x: string, c1: char, c2: char, v1: char, v2: char, rules: seq<Transition>)
    requires x in DependencyPool([[c1], [c2]], [[v1], [v2]], rules, 'V', "")
    ensures x in {[v1], [v2]}
  {
  }

  /**
   * After `v1` the rule `v1 -> c1,c2` offers no vowel, and `v2` has no rule
   * of its own: a `V` position gets the placeholder.
   */
  lemma DependencySecondPlaceholder(prev: string, x: string, c1: char, c2: char, v1: char, v2: char)
    requires c1 != ',' && c2 != ',' && Disjoint(c1, c2, v1, v2)
    requires prev in {[v1], [v2]}
    requires x in DependencyPool([[c1], [c2]], [[v1], [v2]], [Transition([v1], [c1, ',', c2])], 'V', prev)
    ensures x == Placeholder
  {
    var rules := [Transition([v1], [c1, ',', c2])];
    if prev == [v1] {
      SplitPair(c1, c2);
      assert RuleLetters(rules, prev) == Some([[c1], [c2]]);
      assert KeepMembers([[c1], [c2]], [[v1], [v2]]) == [];
    } else {
      assert RuleLetters(rules, prev) == None;
    }
  }

  /** Token by token, a `VV` run under the rule `v1 -> c1,c2` is a vowel, then the placeholder. */
  lemma PlaceholderTokens(toks: seq<string>, c1: char, c2: char, v1: char, v2: char)
    requires c1 != ',' && c2 != ',' && Disjoint(c1, c2, v1, v2)
    requires |toks| == 2
    requires FromDependencyPools(toks, [[c1], [c2]], [[v1], [v2]], [Transition([v1], [c1, ',', c2])], ['V', 'V'])
    ensures toks[0] in {[v1], [v2]} && toks[1] == Placeholder
  {
    var rules := [Transition([v1], [c1, ',', c2])];
    assert Previous(toks, 0) == "" && Previous(toks, 1) == toks[0];
    DependencyFirstVowel(toks[0], c1, c2, v1, v2, rules);
    DependencySecondPlaceholder(toks[0], toks[1], c1, c2, v1, v2);
  }

  /** A vowel followed by the placeholder spells one of the two expected words. */
  lemma VowelThenPlaceholder(a: string, b: string, v1: char, v2: char)
    requires a in {[v1], [v2]} && b == Placeholder
    ensures a + b in {[v1, '-'], [v2, '-']}
  {
    if a == [v1] {
      assert a + b == [v1, '-'];
    } else {
      assert a + b == [v2, '-'];
    }
  }

  /** A complete `VV` run under the rule `v1 -> c1,c2`: a vowel, then the placeholder. */
  lemma DependencyWordPlaceholder(w: string, c1: char, c2: char, v1: char, v2: char)
    requires c1 != ',' && c2 != ',' && Disjoint(c1, c2, v1, v2)
    requires DependencyWord(w, [[c1], [c2]], [[v1], [v2]], [Transition([v1], [c1, ',', c2])], ['V', 'V'], NoProhibitions)
    ensures w in {[v1, '-'], [v2, '-']}
  {
    var rules := [Transition([v1], [c1, ',', c2])];
    var toks :| |toks| == 2 && w == Concat(toks) && DependencyRun(toks, [[c1], [c2]], [[v1], [v2]], rules, ['V', 'V'], NoProhibitions);
    PlaceholderTokens(toks, c1, c2, v1, v2);
    ConcatPair(toks);
    VowelThenPlaceholder(toks[0], toks[1], v1, v2);
  }

  /**
   * Consonants `c1,c2`, vowels `v1,v2`, pattern `VV`, the single rule
   * `v1 -> c1,c2` and no prohibitions: every word is a vowel followed by `-`.
   */
  method DependencyCvPlaceholder(c1: char, c2: char, v1: char, v2: char, draws: seq<nat>) returns (word: Option<string>)
    requires Plain(c1) && Plain(c2) && Plain(v1) && Plain(v2) && Disjoint(c1, c2, v1, v2)
    ensures word.Some? ==> word.value in {[v1, '-'], [v2, '-']}
  {
    var rules := [Transition([v1], [c1, ',', c2])];
    word := DependencyCv(DependencyCvSetting([c1, ',', c2], [v1, ',', v2], ['V', 'V'], None, rules), draws);
    if word.Some? {
      TrimmedPair(c1, c2);
      TrimmedPair(v1, v2);
      PatternVV();
      DependencyWordPlaceholder(word.value, c1, c2, v1, v2);
    }
  }
}
