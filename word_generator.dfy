/**
 * The word generator: three strategies that build a word token by token
 * under the prohibition rules, and a fourth that is a stub.
 *
 * Randomness is a stream `draws` of natural numbers supplied by the caller.
 * Each attempt reads the next entry; a pool of `n` tokens turns an entry
 * `d` into the index `d % n`, which stands for `Math.floor(Math.random() * n)`.
 * The first entry chooses the count or pattern, and every later entry
 * serves one append attempt, accepted or not. The source retries a
 * rejected position forever; here the run ends with `None` once the stream
 * is used up, and every word that IS returned satisfies the rules.
 */
module WordGenerator {
  import opened Wrappers
  import opened JsString
  import opened Prohibitions
  import opened AcceptedRuns

  // ---------------------------------------------------------------------
  // Settings

  /** `SimpleWGSetting`; `prohibitions` is `None` when the field is null or undefined. */
  datatype SimpleSetting = SimpleSetting(letters: string, patterns: string, prohibitions: Option<string>)

  /** `SimpleCvWGSetting`. */
  datatype SimpleCvSetting = SimpleCvSetting(consonants: string, vowels: string, patterns: string, prohibitions: Option<string>)

  /** `DependencyCvTransition`: the letters that may follow `letter`, comma-separated. */
  datatype Transition = Transition(letter: string, nextLetters: string)

  /** `DependencyCvWGSetting`. */
  datatype DependencyCvSetting = DependencyCvSetting(
    consonants: string, vowels: string, patterns: string, prohibitions: Option<string>,
    transitions: seq<Transition>)

  /** `SlaimWGSetting`. */
  datatype SlaimSetting = SlaimSetting(
    fConsonants: string, vowels: string, lConsonants: string, weight: real,
    prohibitions: Option<string>, transitions: seq<Transition>)

  // ---------------------------------------------------------------------
  // Pools

  /** What a pattern character asks for. */
  datatype Category = Consonant | Vowel | Any | Literal

  /** `c.toUpperCase()` compared with `"C"`, `"V"` and `"*"`; anything else is a literal. */
  function CategoryOf(c: char): Category
  {
    if c == 'C' || c == 'c' then Consonant
    else if c == 'V' || c == 'v' then Vowel
    else if c == '*' then Any
    else Literal
  }

  /** A pattern character selects a category exactly when it upper-cases to that category's letter. */
  lemma CategoryOfUpperCase(c: char)
    ensures CategoryOf(c) == Consonant <==> UpperAscii(c) == 'C'
    ensures CategoryOf(c) == Vowel <==> UpperAscii(c) == 'V'
    ensures CategoryOf(c) == Any <==> UpperAscii(c) == '*'
  {
  }

  /** The token written where the pattern has no category, and the last resort of every pool. */
  const Placeholder: string := "-"

  /** Whether token `x` belongs to category `cat`; a literal position admits no drawn token. */
  predicate Fits(x: string, consonants: seq<string>, vowels: seq<string>, cat: Category)
  {
    match cat
    case Consonant => x in consonants
    case Vowel => x in vowels
    case Any => true
    case Literal => false
  }

  /**
   * The pool for a category: the consonants, the vowels, both (consonants
   * first, `consonants.concat(vowels)`), or the placeholder alone.
   */
  function CategoryPool(consonants: seq<string>, vowels: seq<string>, cat: Category): (pool: seq<string>)
    ensures cat == Literal ==> pool == [Placeholder]
    ensures cat != Literal ==> forall x :: x in pool <==> (x in consonants || x in vowels) && Fits(x, consonants, vowels, cat)
  {
    match cat
    case Consonant => consonants
    case Vowel => vowels
    case Any => consonants + vowels
    case Literal => [Placeholder]
  }

  /** `pool[Math.floor(Math.random() * pool.length)]`, the random index being `d % |pool|`. */
  function Pick(pool: seq<string>, d: nat): (x: string)
    requires |pool| > 0
    ensures x in pool
  {
    pool[d % |pool|]
  }

  // ---------------------------------------------------------------------
  // simple

  /** The count `simple` chooses: `parseInt` of the entry the first draw picks from `patterns`. */
  function SimpleCount(setting: SimpleSetting, d: nat): (r: Option<int>)
    ensures exists x :: x in Split(setting.patterns, ',') && r == ParseInt(x)
  {
    ParseInt(Pick(Split(setting.patterns, ','), d))
  }

  /** How many tokens `for (i = 0; i < count; i++)` keeps: none for `NaN` or a count below one. */
  function Iterations(count: Option<int>): nat
  {
    if count.Some? && count.value > 0 then count.value else 0
  }

  /** A run of `simple`: every token comes from the flat pool and was accepted. */
  ghost predicate SimpleRun(toks: seq<string>, letters: seq<string>, p: ProhibitionSetting, count: int)
  {
    && (forall j :: 0 <= j < |toks| ==> toks[j] in letters)
    && Accepted(toks, p, count)
  }

  /** A token from the pool that passes the check at the next position extends a `simple` run. */
  lemma SimpleRunExtend(toks: seq<string>, t: string, letters: seq<string>, p: ProhibitionSetting, count: int)
    requires SimpleRun(toks, letters, p, count) && t in letters
    requires CheckProhibition(Concat(toks) + t, p, count, |toks|)
    ensures SimpleRun(toks + [t], letters, p, count)
    ensures Concat(toks + [t]) == Concat(toks) + t
  {
    AcceptedExtend(toks, t, p, count);
    ConcatSnoc(toks, t);
  }

  /** `w` is the word of a complete `simple` run for the chosen count. */
  ghost predicate SimpleWord(w: string, letters: seq<string>, p: ProhibitionSetting, count: Option<int>)
  {
    exists toks :: |toks| == Iterations(count) && w == Concat(toks) && SimpleRun(toks, letters, p, count.GetOr(0))
  }

  /**
   * `simple`: as many tokens as the chosen count, each drawn from the
   * untrimmed `letters.split(",")`, each accepted by the check. A count
   * that is `NaN` or below one gives the empty word.
   */
  method Simple(setting: SimpleSetting, draws: seq<nat>) returns (word: Option<string>)
    ensures word.Some? ==> |draws| > 0
    ensures |draws| > 0 && word.Some? ==>
      SimpleWord(word.value, Split(setting.letters, ','), GetProhibitions(setting.prohibitions), SimpleCount(setting, draws[0]))
    ensures |draws| > 0 && Iterations(SimpleCount(setting, draws[0])) == 0 ==> word == Some("")
  {
    if |draws| == 0 {
      return None;
    }
    var letters := Split(setting.letters, ',');
    var buffer := "";
    var countList := Split(setting.patterns, ',');
    var count := ParseInt(Pick(countList, draws[0]));
    var prohibitions := GetProhibitions(setting.prohibitions);
    var i, k := 0, 1;
    ghost var toks: seq<string> := [];
    while count.Some? && i < count.value
      invariant 1 <= k <= |draws|
      invariant |toks| == i
      invariant i > 0 ==> count.Some? && i <= count.value
      invariant buffer == Concat(toks)
      invariant SimpleRun(toks, letters, prohibitions, count.GetOr(0))
      decreases |draws| - k
    {
      if k == |draws| {
        return None;
      }
      var letter := Pick(letters, draws[k]);
      k := k + 1;
      buffer := buffer + letter;
      var isOk := CheckProhibition(buffer, prohibitions, count.value, i);
      if !isOk {
        // undo the append and retry position i
        DropLastAfterAppend(Concat(toks), letter);
        buffer := DropLast(buffer, letter);
      } else {
        SimpleRunExtend(toks, letter, letters, prohibitions, count.value);
        toks := toks + [letter];
        i := i + 1;
      }
    }
    assert |toks| == Iterations(count);
    assert SimpleWord(buffer, letters, prohibitions, count);
    return Some(buffer);
  }

  // ---------------------------------------------------------------------
  // simplecv

  /** A run of `simplecv`: each token from its category's pool. */
  ghost predicate CvRun(toks: seq<string>, consonants: seq<string>, vowels: seq<string>, pattern: string, p: ProhibitionSetting)
  {
    && |toks| <= |pattern|
    && FromCategoryPools(toks, consonants, vowels, pattern)
    && Accepted(toks, p, |pattern|)
  }

  /** Each token comes from the pool of the pattern character at its position. */
  ghost predicate FromCategoryPools(toks: seq<string>, consonants: seq<string>, vowels: seq<string>, pattern: string)
    requires |toks| <= |pattern|
  {
    forall j :: 0 <= j < |toks| ==> toks[j] in CategoryPool(consonants, vowels, CategoryOf(pattern[j]))
  }

  /** A token from the next position's pool extends a sequence of tokens drawn from their pools. */
  lemma CategoryPoolsExtend(toks: seq<string>, t: string, consonants: seq<string>, vowels: seq<string>, pattern: string)
    requires |toks| < |pattern| && FromCategoryPools(toks, consonants, vowels, pattern)
    requires t in CategoryPool(consonants, vowels, CategoryOf(pattern[|toks|]))
    ensures FromCategoryPools(toks + [t], consonants, vowels, pattern)
  {
    forall j | 0 <= j < |toks| + 1
      ensures (toks + [t])[j] in CategoryPool(consonants, vowels, CategoryOf(pattern[j]))
    {
      if j < |toks| {
        assert (toks + [t])[j] == toks[j];
      }
    }
  }

  /** A token from its position's pool that passes the check extends a `simplecv` run. */
  lemma CvRunExtend(toks: seq<string>, t: string, consonants: seq<string>, vowels: seq<string>, pattern: string, p: ProhibitionSetting)
    requires CvRun(toks, consonants, vowels, pattern, p) && |toks| < |pattern|
    requires t in CategoryPool(consonants, vowels, CategoryOf(pattern[|toks|]))
    requires CheckProhibition(Concat(toks) + t, p, |pattern|, |toks|)
    ensures CvRun(toks + [t], consonants, vowels, pattern, p)
    ensures Concat(toks + [t]) == Concat(toks) + t
  {
    CategoryPoolsExtend(toks, t, consonants, vowels, pattern);
    AcceptedExtend(toks, t, p, |pattern|);
    ConcatSnoc(toks, t);
  }

  /** `w` is the word of a complete `simplecv` run over `pattern`. */
  ghost predicate CvWord(w: string, consonants: seq<string>, vowels: seq<string>, pattern: string, p: ProhibitionSetting)
  {
    exists toks :: |toks| == |pattern| && w == Concat(toks) && CvRun(toks, consonants, vowels, pattern, p)
  }

  /**
   * `simplecv`: one token per character of the chosen pattern, drawn from
   * the untrimmed consonants for `C`, vowels for `V`, both for `*`, and
   * `"-"` for any other character; each accepted by the check.
   */
  method SimpleCv(setting: SimpleCvSetting, draws: seq<nat>) returns (word: Option<string>)
    ensures word.Some? ==> |draws| > 0
    ensures |draws| > 0 && word.Some? ==>
      CvWord(word.value, Split(setting.consonants, ','), Split(setting.vowels, ','),
             Pick(Split(setting.patterns, ','), draws[0]), GetProhibitions(setting.prohibitions))
  {
    var consonants := Split(setting.consonants, ',');
    var vowels := Split(setting.vowels, ',');
    var letters := consonants + vowels;
    var buffer := "";
    var patternList := Split(setting.patterns, ',');
    if |draws| == 0 {
      return None;
    }
    var pattern := Pick(patternList, draws[0]);
    var prohibitions := GetProhibitions(setting.prohibitions);
    var i, k := 0, 1;
    ghost var toks: seq<string> := [];
    while i < |pattern|
      invariant 1 <= k <= |draws|
      invariant |toks| == i <= |pattern|
      invariant buffer == Concat(toks)
      invariant CvRun(toks, consonants, vowels, pattern, prohibitions)
      decreases |draws| - k
    {
      if k == |draws| {
        return None;
      }
      var letter;
      match CategoryOf(pattern[i]) {
        case Consonant => letter := Pick(consonants, draws[k]);
        case Vowel => letter := Pick(vowels, draws[k]);
        case Any => letter := Pick(letters, draws[k]);
        case Literal => letter := Placeholder;
      }
      assert letter in CategoryPool(consonants, vowels, CategoryOf(pattern[i]));
      k := k + 1;
      buffer := buffer + letter;
      var isOk := CheckProhibition(buffer, prohibitions, |pattern|, i);
      if !isOk {
        DropLastAfterAppend(Concat(toks), letter);
        buffer := DropLast(buffer, letter);
      } else {
        CvRunExtend(toks, letter, consonants, vowels, pattern, prohibitions);
        toks := toks + [letter];
        i := i + 1;
      }
    }
    assert CvWord(buffer, consonants, vowels, pattern, prohibitions);
    return Some(buffer);
  }

  // ---------------------------------------------------------------------
  // dependencycv

  /**
   * The index of the LAST transition whose `letter` is `letter` (the lookup
   * does not stop at the first match), or -1 if none is.
   */
  function LastMatch(transitions: seq<Transition>, letter: string): (i: int)
    ensures -1 <= i < |transitions|
    ensures i >= 0 ==> transitions[i].letter == letter
    ensures forall j :: i < j < |transitions| ==> transitions[j].letter != letter
    decreases |transitions|
  {
    if |transitions| == 0 then -1
    else if transitions[|transitions| - 1].letter == letter then |transitions| - 1
    else
      var init := transitions[..|transitions| - 1];
      assert forall j :: 0 <= j < |init| ==> init[j] == transitions[j];
      LastMatch(init, letter)
  }

  /** The untrimmed split `nextLetters` of the last matching rule, or `None` (`null`). */
  function RuleLetters(transitions: seq<Transition>, letter: string): Option<seq<string>>
  {
    var i := LastMatch(transitions, letter);
    if i < 0 then None else Some(Split(transitions[i].nextLetters, ','))
  }

  /**
   * There is no list exactly when no rule has `letter`; otherwise it is the
   * split of a rule for `letter` that no later rule for `letter` follows.
   */
  lemma RuleLettersSpec(transitions: seq<Transition>, letter: string)
    ensures var r := RuleLetters(transitions, letter);
      && (r.None? <==> forall j :: 0 <= j < |transitions| ==> transitions[j].letter != letter)
      && (r.Some? ==> exists j ::
            && 0 <= j < |transitions| && transitions[j].letter == letter
            && r.value == Split(transitions[j].nextLetters, ',')
            && (forall k :: j < k < |transitions| ==> transitions[k].letter != letter))
  {
  }

  /**
   * The `setting.transitions.forEach(...)` lookup: every rule whose letter
   * matches overwrites `nextLetters` with its untrimmed split, so the last
   * match is what remains.
   */
  method LookupTransition(transitions: seq<Transition>, oldLetter: string) returns (nextLetters: Option<seq<string>>)
    ensures var i := LastMatch(transitions, oldLetter);
      nextLetters == if i < 0 then None else Some(Split(transitions[i].nextLetters, ','))
  {
    nextLetters := None;
    for n := 0 to |transitions|
      invariant nextLetters == RuleLetters(transitions[..n], oldLetter)
    {
      assert transitions[..n + 1][..n] == transitions[..n];
      if transitions[n].letter == oldLetter {
        // the callback's `return` ends only this callback; the loop goes on
        nextLetters := Some(Split(transitions[n].nextLetters, ','));
      }
    }
    assert transitions[..|transitions|] == transitions;
  }

  /** `next.filter((c) => members.indexOf(c) !== -1)`. */
  function KeepMembers(next: seq<string>, members: seq<string>): (r: seq<string>)
    ensures |r| <= |next|
    ensures forall x :: x in r <==> x in next && x in members
    decreases |next|
  {
    if |next| == 0 then []
    else
      var rest := KeepMembers(next[1..], members);
      assert forall x :: x in next <==> x == next[0] || x in next[1..];
      (if next[0] in members then [next[0]] else []) + rest
  }

  /** Narrows a transition's next letters to a category; a literal position keeps only the placeholder. */
  function FilterByCategory(next: seq<string>, consonants: seq<string>, vowels: seq<string>, cat: Category): (r: seq<string>)
    ensures cat == Literal ==> r == [Placeholder]
    ensures cat != Literal ==> forall x :: x in r <==> x in next && Fits(x, consonants, vowels, cat)
  {
    match cat
    case Consonant => KeepMembers(next, consonants)
    case Vowel => KeepMembers(next, vowels)
    case Any => next
    case Literal => [Placeholder]
  }

  /** Token `x` is listed by the rule for `oldLetter` and fits the category of `ch`. */
  predicate Permitted(x: string, consonants: seq<string>, vowels: seq<string>, transitions: seq<Transition>, ch: char, oldLetter: string)
  {
    var next := RuleLetters(transitions, oldLetter);
    next.Some? && x in next.value && Fits(x, consonants, vowels, CategoryOf(ch))
  }

  /**
   * The pool `dependencycv` draws from at a position with pattern character
   * `ch`, after accepting `oldLetter`: the category's pool when no letter has
   * been accepted yet, otherwise the rule's next letters narrowed to the
   * category; a missing rule or an empty list becomes the placeholder.
   */
  function DependencyPool(consonants: seq<string>, vowels: seq<string>, transitions: seq<Transition>, ch: char, oldLetter: string): seq<string>
  {
    var list :=
      if oldLetter == "" then Some(CategoryPool(consonants, vowels, CategoryOf(ch)))
      else match RuleLetters(transitions, oldLetter)
        case None => None
        case Some(next) => Some(FilterByCategory(next, consonants, vowels, CategoryOf(ch)));
    if list.None? || |list.value| == 0 then [Placeholder] else list.value
  }

  /**
   * What the pool is: never empty; with no previous letter it is the
   * category's pool; after a letter it is exactly the permitted tokens when
   * there are any, and the placeholder alone when there are none.
   */
  lemma DependencyPoolSpec(consonants: seq<string>, vowels: seq<string>, transitions: seq<Transition>, ch: char, oldLetter: string)
    ensures var pool := DependencyPool(consonants, vowels, transitions, ch, oldLetter);
      && |pool| > 0
      && (oldLetter == "" && |CategoryPool(consonants, vowels, CategoryOf(ch))| > 0 ==>
            pool == CategoryPool(consonants, vowels, CategoryOf(ch)))
      && (oldLetter != "" && (exists y :: Permitted(y, consonants, vowels, transitions, ch, oldLetter)) ==>
            forall x :: x in pool <==> Permitted(x, consonants, vowels, transitions, ch, oldLetter))
      && (oldLetter != "" && !(exists y :: Permitted(y, consonants, vowels, transitions, ch, oldLetter)) ==>
            pool == [Placeholder])
  {
    var list :=
      if oldLetter == "" then Some(CategoryPool(consonants, vowels, CategoryOf(ch)))
      else match RuleLetters(transitions, oldLetter)
        case None => None
        case Some(next) => Some(FilterByCategory(next, consonants, vowels, CategoryOf(ch)));
    assert oldLetter != "" && list.Some? && |list.value| > 0 && CategoryOf(ch) != Literal ==>
      Permitted(list.value[0], consonants, vowels, transitions, ch, oldLetter);
  }

  /**
   * The candidate list of one `dependencycv` position: the category's pool
   * when no letter has been accepted yet, otherwise the looked-up next
   * letters narrowed to the category; `null` or empty becomes `["-"]`.
   */
  method CandidatePool(
    consonants: seq<string>, vowels: seq<string>, letters: seq<string>, transitions: seq<Transition>,
    ch: char, oldLetter: string) returns (pool: seq<string>)
    requires letters == consonants + vowels
    ensures |pool| > 0
    ensures pool == DependencyPool(consonants, vowels, transitions, ch, oldLetter)
  {
    var letterList: Option<seq<string>> := None;
    if oldLetter == "" {
      match CategoryOf(ch) {
        case Consonant => letterList := Some(consonants);
        case Vowel => letterList := Some(vowels);
        case Any => letterList := Some(letters);
        case Literal => letterList := Some([Placeholder]);
      }
    } else {
      var nextLetters := LookupTransition(transitions, oldLetter);
      if nextLetters.Some? {
        match CategoryOf(ch) {
          case Consonant => letterList := Some(KeepMembers(nextLetters.value, consonants));
          case Vowel => letterList := Some(KeepMembers(nextLetters.value, vowels));
          case Any => letterList := Some(nextLetters.value);
          case Literal => letterList := Some([Placeholder]);
        }
      }
    }
    if letterList.None? || |letterList.value| == 0 {
      letterList := Some([Placeholder]);
    }
    pool := letterList.value;
  }

  /** The token accepted before position `j`, or `""` at the start. */
  function Previous(toks: seq<string>, j: nat): string
    requires j <= |toks|
  {
    if j == 0 then "" else toks[j - 1]
  }

  /** Each token of `toks` comes from the pool that its pattern character and the token before it select. */
  ghost predicate FromDependencyPools(
    toks: seq<string>, consonants: seq<string>, vowels: seq<string>, transitions: seq<Transition>, pattern: string)
    requires |toks| <= |pattern|
  {
    forall j {:trigger Previous(toks, j)} :: 0 <= j < |toks| ==>
      toks[j] in DependencyPool(consonants, vowels, transitions, pattern[j], Previous(toks, j))
  }

  /** A token drawn from the pool that the next pattern character and the last token select extends such a run. */
  lemma DependencyPoolsExtend(
    toks: seq<string>, t: string, consonants: seq<string>, vowels: seq<string>, transitions: seq<Transition>, pattern: string)
    requires |toks| < |pattern| && FromDependencyPools(toks, consonants, vowels, transitions, pattern)
    requires t in DependencyPool(consonants, vowels, transitions, pattern[|toks|], Previous(toks, |toks|))
    ensures FromDependencyPools(toks + [t], consonants, vowels, transitions, pattern)
  {
    var ext := toks + [t];
    forall j | 0 <= j < |ext|
      ensures ext[j] in DependencyPool(consonants, vowels, transitions, pattern[j], Previous(ext, j))
    {
      if j < |toks| {
        assert ext[j] == toks[j] && Previous(ext, j) == Previous(toks, j);
      } else {
        assert ext[j] == t && Previous(ext, j) == Previous(toks, |toks|);
      }
    }
  }

  /** A run of `dependencycv`: each token from the pool its predecessor selects, each accepted. */
  ghost predicate DependencyRun(
    toks: seq<string>, consonants: seq<string>, vowels: seq<string>, transitions: seq<Transition>,
    pattern: string, p: ProhibitionSetting)
  {
    && |toks| <= |pattern|
    && FromDependencyPools(toks, consonants, vowels, transitions, pattern)
    && Accepted(toks, p, |pattern|)
  }

  /** `w` is the word of a complete `dependencycv` run over `pattern`. */
  ghost predicate DependencyWord(
    w: string, consonants: seq<string>, vowels: seq<string>, transitions: seq<Transition>,
    pattern: string, p: ProhibitionSetting)
  {
    exists toks :: |toks| == |pattern| && w == Concat(toks) && DependencyRun(toks, consonants, vowels, transitions, pattern, p)
  }

  /** An accepted token drawn from the pool its predecessor selects extends a `dependencycv` run. */
  lemma DependencyRunExtend(
    toks: seq<string>, t: string, consonants: seq<string>, vowels: seq<string>, transitions: seq<Transition>,
    pattern: string, p: ProhibitionSetting)
    requires DependencyRun(toks, consonants, vowels, transitions, pattern, p) && |toks| < |pattern|
    requires t in DependencyPool(consonants, vowels, transitions, pattern[|toks|], Previous(toks, |toks|))
    requires CheckProhibition(Concat(toks) + t, p, |pattern|, |toks|)
    ensures DependencyRun(toks + [t], consonants, vowels, transitions, pattern, p)
    ensures Concat(toks + [t]) == Concat(toks) + t
    ensures Previous(toks + [t], |toks| + 1) == t
  {
    DependencyPoolsExtend(toks, t, consonants, vowels, transitions, pattern);
    AcceptedExtend(toks, t, p, |pattern|);
    ConcatSnoc(toks, t);
  }

  /**
   * `dependencycv`: like `simplecv` on trimmed pools and a trimmed pattern,
   * except that once a token has been accepted the next one comes from the
   * transition table (see `DependencyPool`); a rejected draw leaves the
   * previous letter as it was.
   */
  method DependencyCv(setting: DependencyCvSetting, draws: seq<nat>) returns (word: Option<string>)
    ensures word.Some? ==> |draws| > 0
    ensures |draws| > 0 && word.Some? ==>
      DependencyWord(word.value, TrimEach(Split(setting.consonants, ',')), TrimEach(Split(setting.vowels, ',')),
                     setting.transitions, Pick(TrimEach(Split(setting.patterns, ',')), draws[0]),
                     GetProhibitions(setting.prohibitions))
  {
    var consonants := TrimEach(Split(setting.consonants, ','));
    var vowels := TrimEach(Split(setting.vowels, ','));
    var letters := consonants + vowels;
    var buffer := "";
    var patternList := TrimEach(Split(setting.patterns, ','));
    if |draws| == 0 {
      return None;
    }
    var pattern := Pick(patternList, draws[0]);
    var prohibitions := GetProhibitions(setting.prohibitions);
    var oldLetter := "";
    var i, k := 0, 1;
    ghost var toks: seq<string> := [];
    while i < |pattern|
      invariant 1 <= k <= |draws|
      invariant |toks| == i <= |pattern|
      invariant buffer == Concat(toks)
      invariant oldLetter == Previous(toks, i)
      invariant DependencyRun(toks, consonants, vowels, setting.transitions, pattern, prohibitions)
      decreases |draws| - k
    {
      var pool := CandidatePool(consonants, vowels, letters, setting.transitions, pattern[i], oldLetter);
      if k == |draws| {
        return None;
      }
      var letter := Pick(pool, draws[k]);
      k := k + 1;
      buffer := buffer + letter;
      var isOk := CheckProhibition(buffer, prohibitions, |pattern|, i);
      if !isOk {
        DropLastAfterAppend(Concat(toks), letter);
        buffer := DropLast(buffer, letter);
      } else {
        oldLetter := letter;
        DependencyRunExtend(toks, letter, consonants, vowels, setting.transitions, pattern, prohibitions);
        toks := toks + [letter];
        i := i + 1;
      }
    }
    assert DependencyWord(buffer, consonants, vowels, setting.transitions, pattern, prohibitions);
    return Some(buffer);
  }

  // ---------------------------------------------------------------------
  // slaim

  /** `slaim`: declared with its own settings, it builds nothing and returns the empty word. */
  function Slaim(setting: SlaimSetting): (word: string)
    ensures |word| == 0
  {
    ""
  }
}
