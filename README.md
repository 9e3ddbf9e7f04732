# Word generator of wordmaker_web, modelled in Dafny

wordmaker_web builds made-up words (lexemes) for constructed languages. Its
core is the `WordGenerator` class in `scripts/wgenerator.ts`. It has three
strategies. `simple` draws every token from one comma-separated letter list.
`simplecv` follows a `C`/`V`/`*` pattern over a consonant list and a vowel
list. `dependencycv` also restricts each token to the letters that a
transition table allows after the previous accepted letter. A fourth
strategy, `slaim`, is a stub.

All three strategies run the same loop. They append a drawn token to a
buffer and run the prohibition check on the buffer. A rejected token is
taken off again and the same position is drawn again. The prohibition rules
come from a comma-separated string:
- `^x` forbids `x` as a prefix.
- `x$` forbids `x` as a suffix of the finished word.
- A plain `x` must not end the buffer after any append.

The model has these modules:
- `JsString` (`js_string.dfy`): the JavaScript string operations the code
  relies on, with the same edge cases. These are `split` (never empty),
  `trim` (ECMAScript whitespace), `startsWith`, `endsWith`, `substring`,
  `substr` and `parseInt` (sign, `0x` prefix, longest digit run,
  `NaN` as `None`).
- `Prohibitions` (`prohibitions.dfy`): `getProhibitions` and
  `checkProhibition`, as pure functions.
- `AcceptedRuns` (`accepted_runs.dfy`): what a sequence of accepted tokens
  guarantees about the word they spell.
- `WordGenerator` (`word_generator.dfy`): the settings records, the three
  strategies as methods with the source's loop, and `slaim`.
- `Scenarios` (`scenarios.dfy`): clients that run each strategy on a fixed
  setting and prove which words can come back.

Randomness is a stream `draws: seq<nat>` passed in by the caller. Each call
of `Math.floor(Math.random() * n)` becomes "the next entry modulo `n`". The
first entry picks the count or pattern. Every later entry serves one append
attempt. The source retries forever when no token can pass the rules, so
each strategy returns `Option<string>`: `None` means the stream ran out
before the word was finished. Every `Some(word)` is proved to be the
concatenation of accepted tokens. Each token came from the right pool, and
the check passed right after it was appended.

Three behaviours of the code are easy to misread, and the model follows
the code in each:
- In `dependencycv` the transition lookup is a `forEach` whose `return` does
  not stop the loop, so the LAST rule for a letter wins, not the first
  (scripts/wgenerator.ts:188-193).
- A token such as `^ab$` goes into both the prefix list and the suffix list,
  not into one bucket only (scripts/wgenerator.ts:262-263).
- The check compares the longest prefix rule with the position index, not
  with the buffer length (scripts/wgenerator.ts:281-283).

One might expect that no forbidden string occurs anywhere in a generated
word, and that no word starts with a forbidden prefix. The first holds when
every token is one character long (`OneCharWordAvoidsAlways`); a longer
token can hide a forbidden string inside itself
(`LongTokenHidesForbiddenString`). The second holds when every token is
non-empty (`NonEmptyWordAvoidsFirst`); empty tokens, as a letter list such
as `a,,b` produces, move the position past the prefix's length before the
prefix is complete (`EmptyTokenHidesForbiddenPrefix`).

The settings are records of strings, one per strategy
(scripts/wgenerator.ts:4-50): `SimpleSetting`, `SimpleCvSetting`,
`DependencyCvSetting` with its list of `Transition` rules (a letter and the
comma-separated letters allowed after it), and `SlaimSetting`. The compiled
rules are `ProhibitionSetting`, three lists of strings
(scripts/wgenerator.ts:55-59). The `prohibitions` field is `Option<string>`
so that the `null` case of `getProhibitions` is reachable.

## Model

| member | source | states |
|---|---|---|
| `JsString.Split` | scripts/wgenerator.ts:86 | `split(",")` never returns an empty list, and no piece contains the separator |
| `JsString.SplitWithoutSeparator` | scripts/wgenerator.ts:86 | a string without the separator splits into itself alone |
| `JsString.JoinSplit` | scripts/wgenerator.ts:86 | joining the pieces of a split with the separator gives back the original string |
| `JsString.SplitJoin` | scripts/wgenerator.ts:86 | splitting a join of separator-free pieces gives back exactly those pieces |
| `JsString.Trim` | scripts/wgenerator.ts:253 | `trim()` is empty exactly when the string is all whitespace; otherwise neither end is whitespace |
| `JsString.TrimStrips` | scripts/wgenerator.ts:253 | `trim()` is a contiguous part of the string, and everything before and after that part is whitespace |
| `JsString.StripBothEnds` | scripts/wgenerator.ts:253 | dropping a leading whitespace run and then a trailing one leaves a part of the string with only whitespace around it |
| `JsString.TrimStart` | scripts/wgenerator.ts:253 | removes exactly the leading run of whitespace and keeps the rest |
| `JsString.TrimEnd` | scripts/wgenerator.ts:253 | removes exactly the trailing run of whitespace and keeps the rest |
| `JsString.TrimUnpadded` | scripts/wgenerator.ts:261 | a string with no whitespace at either end is unchanged by `trim()` |
| `JsString.TrimIdempotent` | scripts/wgenerator.ts:261 | a trimmed token is unchanged by trimming again |
| `JsString.TrimEach` | scripts/wgenerator.ts:158-162 | `map((x) => x.trim())` trims every element and keeps the count |
| `JsString.TrimEachStrips` | scripts/wgenerator.ts:261 | each element of the trimmed list is its own piece with only whitespace dropped around it |
| `JsString.StartsWithChar` | scripts/wgenerator.ts:262 | `startsWith("^")` holds exactly when the first character is `^` |
| `JsString.EndsWithChar` | scripts/wgenerator.ts:263 | `endsWith("$")` holds exactly when the last character is `$` |
| `JsString.StartsWithConcat` | scripts/wgenerator.ts:262 | `startsWith(prefix)` holds exactly when the string is `prefix` followed by something |
| `JsString.EndsWithConcat` | scripts/wgenerator.ts:263 | `endsWith(suffix)` holds exactly when the string is something followed by `suffix` |
| `JsString.DropEnds` | scripts/wgenerator.ts:262-263 | `substring(1)` and `substring(0, length - 1)` drop exactly the first and the last character; putting it back restores the token, and the empty string stays empty |
| `JsString.DropLast` | scripts/wgenerator.ts:100 | `substr(0, length - letter.length)` on a buffer ending in `letter` leaves what came before `letter` |
| `JsString.DropLastAfterAppend` | scripts/wgenerator.ts:99-102 | removing a rejected letter restores the buffer exactly |
| `JsString.DigitRun` | scripts/wgenerator.ts:89 | `parseInt` reads the longest run of digits in the radix and stops at the first non-digit |
| `JsString.NatToStringValue` | scripts/wgenerator.ts:89 | a decimal numeral is read whole and has the value it denotes |
| `JsString.DecimalNumeral` | scripts/wgenerator.ts:89 | a decimal numeral has no leading whitespace, sign or `0x` prefix, and its digits are read back to its value |
| `JsString.MagnitudeOfDecimal` | scripts/wgenerator.ts:89 | the unsigned part of `parseInt` reads a decimal numeral in radix 10 back to its value |
| `JsString.ParseUnsigned` | scripts/wgenerator.ts:89 | `parseInt` reads back the decimal numeral of every natural number |
| `JsString.ParseNegative` | scripts/wgenerator.ts:89 | `parseInt` reads `-` followed by a decimal numeral as the negated value |
| `JsString.ParseInt` | scripts/wgenerator.ts:89 | `parseInt` is `NaN` when, after leading whitespace, nothing is left or the next character is neither a digit nor a sign; a negative result needs a `-` there |
| `JsString.ParseIntOfDecimal` | scripts/wgenerator.ts:89 | `parseInt` reads back every integer written in decimal, sign included |
| `Prohibitions.FirstTokens` | scripts/wgenerator.ts:262 | every `^`-token appears in `first` without its marker, and `first` holds nothing else |
| `Prohibitions.LastTokens` | scripts/wgenerator.ts:263 | every `$`-token appears in `last` without its marker, and `last` holds nothing else |
| `Prohibitions.UnmarkedTokens` | scripts/wgenerator.ts:268 | `always` holds exactly the tokens with neither marker |
| `Prohibitions.TrimmedTokens` | scripts/wgenerator.ts:261 | `split(",").map((x) => x.trim())` yields one token per comma-separated piece |
| `Prohibitions.GetProhibitions` | scripts/wgenerator.ts:252-259 | null or blank rules give three empty lists |
| `Prohibitions.GetProhibitionsSpec` | scripts/wgenerator.ts:260-270 | for non-blank rules the comma-separated tokens are trimmed; `always` holds exactly the trimmed tokens with neither marker; every `^`-token appears in `first` without its marker and every `$`-token in `last` without its marker, and those lists hold nothing else |
| `Prohibitions.SingleRule` | scripts/wgenerator.ts:252-270 | one token without comma or surrounding whitespace compiles to itself: without `^` in `first`, without `$` in `last`, or unchanged in `always` when it has neither marker |
| `Prohibitions.OneToken` | scripts/wgenerator.ts:262-268 | how the three filters sort a list of one token |
| `Prohibitions.TokensAreTrimmed` | scripts/wgenerator.ts:261 | every token of the compiled rule list is already trimmed |
| `Prohibitions.DoublyMarkedToken` | scripts/wgenerator.ts:262-268 | a token with both `^` and `$` lands in `first` and in `last` and never in `always` |
| `Prohibitions.MaxLength` | scripts/wgenerator.ts:281 | the `reduce(Math.max)` over the `first` lengths is at least every length and equal to one of them |
| `Prohibitions.CheckProhibition` | scripts/wgenerator.ts:280-296 | passes exactly when (every `first` token is shorter than the position, or none is a prefix of the buffer), no `always` token ends the buffer, and, at the last position, no `last` token ends it |
| `Prohibitions.NothingForbidden` | scripts/wgenerator.ts:283-295 | with all three lists empty, every buffer passes at every position |
| `Prohibitions.EmptyAlwaysTokenRejectsEverything` | scripts/wgenerator.ts:287-289 | an empty `always` token, as left by a stray comma, makes every buffer fail |
| `AcceptedRuns.ConcatSnoc` | scripts/wgenerator.ts:95 | `buffer += letter` extends the word by exactly the letter |
| `AcceptedRuns.AcceptedAt` | scripts/wgenerator.ts:97 | in an accepted run the buffer after each token passed the check at that token's position |
| `AcceptedRuns.AcceptedExtend` | scripts/wgenerator.ts:97-102 | a token that passes the check at the next position extends an accepted run |
| `AcceptedRuns.FinalWordAvoidsForbiddenEndings` | scripts/wgenerator.ts:287-293 | a finished word ends with no `always` token and no `last` token, whatever the token lengths |
| `AcceptedRuns.EarlyBuffersAvoidForbiddenPrefixes` | scripts/wgenerator.ts:281-285 | at every position up to the length of some `first` token, the buffer starts with no `first` token |
| `AcceptedRuns.OneCharPrefixes` | scripts/wgenerator.ts:95 | with one-character tokens, the buffer after `j` tokens is the first `j` characters of the word |
| `AcceptedRuns.OneCharWordAvoidsAlways` | scripts/wgenerator.ts:273-296 | with one-character tokens, no non-empty `always` token occurs anywhere in the word |
| `AcceptedRuns.ConcatPrefix` | scripts/wgenerator.ts:95 | the buffer after the first `j` tokens is a prefix of the word |
| `AcceptedRuns.ConcatLength` | scripts/wgenerator.ts:95 | with non-empty tokens, the buffer after `j` tokens has at least `j` characters |
| `AcceptedRuns.PrefixNotCompleted` | scripts/wgenerator.ts:281-285 | with non-empty tokens, a given non-empty `first` token does not begin the word |
| `AcceptedRuns.NonEmptyWordAvoidsFirst` | scripts/wgenerator.ts:281-285 | with non-empty tokens, no non-empty `first` token begins the word |
| `AcceptedRuns.LongTokenHidesForbiddenString` | scripts/wgenerator.ts:287-289 | with a multi-character token, a word can contain a forbidden string and still be accepted |
| `AcceptedRuns.EmptyTokenHidesForbiddenPrefix` | scripts/wgenerator.ts:281-285 | with empty tokens, a word can start with a forbidden prefix and still be accepted |
| `WordGenerator.CategoryOfUpperCase` | scripts/wgenerator.ts:125 | a pattern character selects consonants exactly when it upper-cases to `C`, vowels exactly for `V`, both exactly for `*`, and is a literal otherwise |
| `WordGenerator.CategoryPool` | scripts/wgenerator.ts:125-138 | `C` draws from consonants, `V` from vowels, `*` from both, and any other character gives exactly `"-"` |
| `WordGenerator.Pick` | scripts/wgenerator.ts:94 | the drawn token is an element of the pool |
| `WordGenerator.SimpleCount` | scripts/wgenerator.ts:88-89 | the count is `parseInt` of one of the comma-separated entries of `patterns` |
| `WordGenerator.SimpleRunExtend` | scripts/wgenerator.ts:93-103 | a token from the letter list that passes the check extends a `simple` run, and the buffer grows by exactly that token |
| `WordGenerator.Simple` | scripts/wgenerator.ts:85-106 | a returned word concatenates exactly `count` tokens of the untrimmed letter list, each accepted by the check right after it was appended; a `NaN` or non-positive count gives `""` |
| `WordGenerator.CategoryPoolsExtend` | scripts/wgenerator.ts:122-138 | a token drawn from the next position's category pool extends a sequence of tokens that each came from their own position's pool |
| `WordGenerator.CvRunExtend` | scripts/wgenerator.ts:122-147 | a token from its position's pool that passes the check extends a `simplecv` run, and the buffer grows by exactly that token |
| `WordGenerator.SimpleCv` | scripts/wgenerator.ts:113-150 | a returned word has one accepted token per pattern character, each from the pool that character's upper-case selects |
| `WordGenerator.LastMatch` | scripts/wgenerator.ts:188-193 | the index of the last transition whose letter matches; no later rule matches, and -1 means none matches |
| `WordGenerator.RuleLettersSpec` | scripts/wgenerator.ts:187-193 | there is no next-letter list exactly when no rule has the letter; otherwise it is the split of a rule for the letter with no later rule for it |
| `WordGenerator.LookupTransition` | scripts/wgenerator.ts:187-193 | the `forEach` leaves the untrimmed split next letters of the last matching rule, or `null` |
| `WordGenerator.KeepMembers` | scripts/wgenerator.ts:198-205 | the filter keeps exactly the next letters that belong to the category list |
| `WordGenerator.FilterByCategory` | scripts/wgenerator.ts:196-213 | the next letters narrowed to consonants for `C`, to vowels for `V`, all of them for `*`, and `["-"]` otherwise |
| `WordGenerator.DependencyPoolSpec` | scripts/wgenerator.ts:168-219 | the pool is never empty; with no previous letter it is the category pool; after a letter it is exactly the permitted tokens if there are any, else `["-"]` |
| `WordGenerator.CandidatePool` | scripts/wgenerator.ts:168-219 | the imperative pool selection is never empty and computes exactly the pool `DependencyPoolSpec` describes |
| `WordGenerator.DependencyPoolsExtend` | scripts/wgenerator.ts:221-232 | a token drawn from the pool that the next pattern character and the last accepted token select extends a sequence of tokens that each came from the pool their own position and predecessor select |
| `WordGenerator.DependencyRunExtend` | scripts/wgenerator.ts:221-232 | accepting a token drawn from the current pool extends the run, the buffer grows by exactly that token, and that token becomes the next position's previous letter |
| `WordGenerator.DependencyCv` | scripts/wgenerator.ts:157-236 | a returned word has one accepted token per character of the trimmed pattern, each from the pool its previously accepted token selects; a rejection leaves the previous letter unchanged |
| `WordGenerator.Slaim` | scripts/wgenerator.ts:243-245 | returns the empty string for every setting |
| `Scenarios.SplitPair` | scripts/wgenerator.ts:86 | `"a,b".split(",")` is the two one-letter tokens |
| `Scenarios.TrimmedPair` | scripts/wgenerator.ts:158-159 | two plain letters joined by a comma split and trim into two one-letter tokens |
| `Scenarios.PrefixRule` | scripts/wgenerator.ts:262 | `^c` compiles to the forbidden prefix `c` alone |
| `Scenarios.SuffixRule` | scripts/wgenerator.ts:263 | `c$` compiles to the forbidden suffix `c` alone |
| `Scenarios.PlainPairRule` | scripts/wgenerator.ts:268 | an unmarked two-letter rule compiles to one forbidden string |
| `Scenarios.CountTwo` | scripts/wgenerator.ts:88-89 | the count list `"2"` yields the count 2 whatever is drawn |
| `Scenarios.CheckAlwaysOnly` | scripts/wgenerator.ts:287-289 | under one forbidden string the check passes exactly when the buffer does not end with it |
| `Scenarios.CheckFirstOnly` | scripts/wgenerator.ts:281-285 | under one forbidden prefix the check passes exactly when the prefix is shorter than the position or does not begin the buffer |
| `Scenarios.CheckLastOnly` | scripts/wgenerator.ts:291-293 | under one forbidden suffix the check passes exactly when the position is not the last or the buffer does not end with it |
| `Scenarios.SimpleWordAvoidsPair` | scripts/wgenerator.ts:93-103 | a complete two-token run over `a,b` under the rule `ab` spells `aa`, `ba` or `bb` |
| `Scenarios.SimpleAvoidsPair` | scripts/wgenerator.ts:85-106 | letters `a,b`, count `2` and rule `ab` yield only `aa`, `ba` or `bb` |
| `Scenarios.CvWordAvoidsInitial` | scripts/wgenerator.ts:122-147 | a complete `CV` run under the prefix rule `c2` starts with `c1` |
| `Scenarios.CvWordAvoidsFinal` | scripts/wgenerator.ts:122-147 | a complete `CV` run under the suffix rule `v2` ends with `v1` |
| `Scenarios.SimpleCvAvoidsInitial` | scripts/wgenerator.ts:113-150 | pattern `CV` over `c1,c2` / `v1,v2` with rule `^c2` yields only `c1v1` or `c1v2` |
| `Scenarios.SimpleCvAvoidsFinal` | scripts/wgenerator.ts:113-150 | pattern `CV` over `c1,c2` / `v1,v2` with rule `v2$` yields only `c1v1` or `c2v1` |
| `Scenarios.DependencyFirstVowel` | scripts/wgenerator.ts:170-185 | with no letter accepted yet, a `V` position draws one of the vowels |
| `Scenarios.DependencySecondPlaceholder` | scripts/wgenerator.ts:186-219 | after `v1` (rule `v1 -> c1,c2`, no vowel among them) or after `v2` (no rule), a `V` position gets `"-"` |
| `Scenarios.PlaceholderTokens` | scripts/wgenerator.ts:167-233 | a `VV` run under the rule `v1 -> c1,c2` is a vowel token followed by `"-"` |
| `Scenarios.DependencyWordPlaceholder` | scripts/wgenerator.ts:167-235 | the word of a complete `VV` run under the rule `v1 -> c1,c2` is `v1-` or `v2-` |
| `Scenarios.DependencyCvPlaceholder` | scripts/wgenerator.ts:157-236 | pattern `VV` with the single rule `v1 -> c1,c2` and disjoint letter lists yields only `v1-` or `v2-` |

## Left out

- `Math.random` is not modelled as a floating-point source. Every draw is an index `d % n` taken from a caller-supplied stream of naturals.
- The unbounded retry loop is bounded by the draw stream. A strategy returns `None` once the stream is used up, where the source would keep retrying. Termination of the source is not claimed.
- A `simplecv` position whose pattern character is neither `C`, `V` nor `*` draws nothing in the source. Here it still uses up one stream entry. Without that, a rejected `"-"` would retry forever with no draw to bound it.
- WordGenerator.Simple: promises nothing about the result when the stream runs out (`None`). It does not promise that every accepted word can be produced by some stream.
- WordGenerator.SimpleCv: promises nothing about the result when the stream runs out (`None`). It does not promise that every accepted word can be produced by some stream.
- WordGenerator.DependencyCv: promises nothing about the result when the stream runs out (`None`). It does not promise that every accepted word can be produced by some stream.
- `parseInt` is modelled on unbounded integers. Float rounding of numerals beyond 2^53 is not modelled.
- Strings are sequences of Unicode characters, not UTF-16 code units. Surrogate pairs in patterns are not modelled.
- `toUpperCase` is modelled only as far as it matters here: a character counts as `C`, `V` or `*` exactly when it upper-cases to one of them.
- The unused `prohibitionsFirstMax` in `simple` (scripts/wgenerator.ts:92) has no effect and is not modelled.
- The `null` value of the settings fields is modelled for `prohibitions` only (as `None`). The other fields are always strings in the interface.
- The strategy symbols `SIMPLE_SYMBOL`, `SIMPLECV_SYMBOL` and `DEPENDENCYCV_SYMBOL` (scripts/wgenerator.ts:68-78) are string constants with no behaviour and are not modelled. The dispatch on the mode is view code (scripts/wordmaker.js:108-117, which names the symbols in lower case) and is not part of this model.
- The Vue view model, dialogs, file reading and configuration loading (scripts/wordmaker.js, scripts/equivalentchoicevm.ts) are not part of this model.
- JSON export (scripts/wmmodules.ts) is not part of this model. Neither are the constant default settings and equivalents tables in that file.
- The `weight` field of the `slaim` setting is a real number that nothing reads.
