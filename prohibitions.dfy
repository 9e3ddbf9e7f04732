/**
 * Forbidden strings ("prohibitions"): how a comma-separated rule string is
 * compiled into forbidden prefixes, forbidden strings and forbidden
 * suffixes, and how a partly built word is checked against them.
 */
module Prohibitions {
  import opened Wrappers
  import opened JsString

  /**
   * The compiled rules: `first` must not begin the word, `always` must not
   * end the buffer after any append, `last` must not end the finished word.
   */
  datatype ProhibitionSetting = ProhibitionSetting(first: seq<string>, always: seq<string>, last: seq<string>)

  const NoProhibitions := ProhibitionSetting([], [], [])

  /**
   * `s.split(",").map((x) => x.trim())`: one token per comma-separated
   * piece, that piece without its surrounding whitespace (`TrimEachStrips`).
   */
  function TrimmedTokens(s: string): (r: seq<string>)
    ensures |r| == |Split(s, ',')|
  {
    TrimEach(Split(s, ','))
  }

  /** `ts.filter((x) => x.startsWith("^")).map((x) => x.substring(1))`. */
  function FirstTokens(ts: seq<string>): (r: seq<string>)
    ensures |r| <= |ts|
    ensures forall i :: 0 <= i < |ts| && StartsWith(ts[i], "^") ==> AfterFirst(ts[i]) in r
    ensures forall x :: x in r ==> exists i :: 0 <= i < |ts| && StartsWith(ts[i], "^") && x == AfterFirst(ts[i])
    decreases |ts|
  {
    if |ts| == 0 then []
    else
      var rest := FirstTokens(ts[1..]);
      assert forall x :: x in rest ==> exists i :: 0 <= i < |ts| && StartsWith(ts[i], "^") && x == AfterFirst(ts[i]) by {
        forall x | x in rest ensures exists i :: 0 <= i < |ts| && StartsWith(ts[i], "^") && x == AfterFirst(ts[i]) {
          var i :| 0 <= i < |ts[1..]| && StartsWith(ts[1..][i], "^") && x == AfterFirst(ts[1..][i]);
          assert ts[i + 1] == ts[1..][i];
        }
      }
      assert forall i :: 1 <= i < |ts| && StartsWith(ts[i], "^") ==> AfterFirst(ts[i]) in rest by {
        forall i | 1 <= i < |ts| && StartsWith(ts[i], "^") ensures AfterFirst(ts[i]) in rest {
          assert ts[1..][i - 1] == ts[i];
        }
      }
      (if StartsWith(ts[0], "^") then [AfterFirst(ts[0])] else []) + rest
  }

  /** `ts.filter((x) => x.endsWith("$")).map((x) => x.substring(0, x.length - 1))`. */
  function LastTokens(ts: seq<string>): (r: seq<string>)
    ensures |r| <= |ts|
    ensures forall i :: 0 <= i < |ts| && EndsWith(ts[i], "$") ==> BeforeLast(ts[i]) in r
    ensures forall x :: x in r ==> exists i :: 0 <= i < |ts| && EndsWith(ts[i], "$") && x == BeforeLast(ts[i])
    decreases |ts|
  {
    if |ts| == 0 then []
    else
      var rest := LastTokens(ts[1..]);
      assert forall x :: x in rest ==> exists i :: 0 <= i < |ts| && EndsWith(ts[i], "$") && x == BeforeLast(ts[i]) by {
        forall x | x in rest ensures exists i :: 0 <= i < |ts| && EndsWith(ts[i], "$") && x == BeforeLast(ts[i]) {
          var i :| 0 <= i < |ts[1..]| && EndsWith(ts[1..][i], "$") && x == BeforeLast(ts[1..][i]);
          assert ts[i + 1] == ts[1..][i];
        }
      }
      assert forall i :: 1 <= i < |ts| && EndsWith(ts[i], "$") ==> BeforeLast(ts[i]) in rest by {
        forall i | 1 <= i < |ts| && EndsWith(ts[i], "$") ensures BeforeLast(ts[i]) in rest {
          assert ts[1..][i - 1] == ts[i];
        }
      }
      (if EndsWith(ts[0], "$") then [BeforeLast(ts[0])] else []) + rest
  }

  /** `ts.filter((x) => !(x.startsWith("^") || x.endsWith("$")))`. */
  function UnmarkedTokens(ts: seq<string>): (r: seq<string>)
    ensures |r| <= |ts|
    ensures forall t :: t in r <==> t in ts && !StartsWith(t, "^") && !EndsWith(t, "$")
    decreases |ts|
  {
    if |ts| == 0 then []
    else
      var rest := UnmarkedTokens(ts[1..]);
      assert forall t :: t in ts <==> t == ts[0] || t in ts[1..];
      (if !(StartsWith(ts[0], "^") || EndsWith(ts[0], "$")) then [ts[0]] else []) + rest
  }

  /**
   * `getProhibitions`: a missing or blank rule string forbids nothing;
   * otherwise the trimmed tokens are sorted into the three lists.
   */
  function GetProhibitions(prohibitions: Option<string>): (r: ProhibitionSetting)
    ensures prohibitions.None? || Trim(prohibitions.value) == [] ==> r == NoProhibitions
  {
    if prohibitions.None? || |Trim(prohibitions.value)| == 0 then NoProhibitions
    else
      var split := TrimmedTokens(prohibitions.value);
      ProhibitionSetting(FirstTokens(split), UnmarkedTokens(split), LastTokens(split))
  }

  /**
   * What a non-blank rule string compiles to. Every comma-separated token is
   * trimmed; a token starting with `^` goes, without it, into `first`; a
   * token ending with `$` goes, without it, into `last` (a token with both
   * markers goes into both); a token with neither goes unchanged into
   * `always`, and nothing else is in any list.
   */
  lemma GetProhibitionsSpec(prohibitions: string)
    requires Trim(prohibitions) != []
    ensures var r := GetProhibitions(Some(prohibitions));
      var ts := TrimmedTokens(prohibitions);
      && (forall t :: t in r.always <==> t in ts && !StartsWith(t, "^") && !EndsWith(t, "$"))
      && (forall t :: t in r.always ==> Trim(t) == t)
      && (forall i :: 0 <= i < |ts| && StartsWith(ts[i], "^") ==> AfterFirst(ts[i]) in r.first)
      && (forall x :: x in r.first ==> exists i :: 0 <= i < |ts| && StartsWith(ts[i], "^") && x == AfterFirst(ts[i]))
      && (forall i :: 0 <= i < |ts| && EndsWith(ts[i], "$") ==> BeforeLast(ts[i]) in r.last)
      && (forall x :: x in r.last ==> exists i :: 0 <= i < |ts| && EndsWith(ts[i], "$") && x == BeforeLast(ts[i]))
  {
  }

  /**
   * A rule string holding one token, with no comma and no surrounding
   * whitespace, compiles to that token alone: without its `^` in `first`,
   * without its `$` in `last`, or unchanged in `always` when it has neither.
   */
  lemma SingleRule(rule: string)
    requires |rule| > 0 && !IsWhitespace(rule[0]) && !IsWhitespace(rule[|rule| - 1]) && ',' !in rule
    ensures GetProhibitions(Some(rule)) == ProhibitionSetting(
      if rule[0] == '^' then [AfterFirst(rule)] else [],
      if rule[0] != '^' && rule[|rule| - 1] != '$' then [rule] else [],
      if rule[|rule| - 1] == '$' then [BeforeLast(rule)] else [])
  {
    StartsWithChar(rule, '^');
    EndsWithChar(rule, '$');
    SplitWithoutSeparator(rule, ',');
    TrimUnpadded(rule);
    assert TrimmedTokens(rule) == [rule];
    OneToken(rule);
  }

  /** How the three filters treat a list of one token. */
  lemma OneToken(t: string)
    ensures FirstTokens([t]) == if StartsWith(t, "^") then [AfterFirst(t)] else []
    ensures LastTokens([t]) == if EndsWith(t, "$") then [BeforeLast(t)] else []
    ensures UnmarkedTokens([t]) == if !StartsWith(t, "^") && !EndsWith(t, "$") then [t] else []
  {
    assert [t][1..] == [];
  }

  /** Every token is already trimmed. */
  lemma TokensAreTrimmed(s: string)
    ensures forall t :: t in TrimmedTokens(s) ==> Trim(t) == t
  {
    var pieces := Split(s, ',');
    var ts := TrimEach(pieces);
    forall i | 0 <= i < |ts| ensures Trim(ts[i]) == ts[i] {
      TrimIdempotent(pieces[i]);
    }
  }

  /** A token marked at both ends lands in `first` and in `last`, and never in `always`. */
  lemma DoublyMarkedToken(prohibitions: string, i: nat)
    requires Trim(prohibitions) != []
    requires i < |TrimmedTokens(prohibitions)|
    requires StartsWith(TrimmedTokens(prohibitions)[i], "^") && EndsWith(TrimmedTokens(prohibitions)[i], "$")
    ensures var t := TrimmedTokens(prohibitions)[i];
      var r := GetProhibitions(Some(prohibitions));
      AfterFirst(t) in r.first && BeforeLast(t) in r.last && t !in r.always
  {
    GetProhibitionsSpec(prohibitions);
  }

  function Max(a: int, b: int): int
  {
    if a < b then b else a
  }

  /** `xs.map((x) => x.length).reduce((old, current) => Math.max(old, current))`. */
  function MaxLength(xs: seq<string>): (m: nat)
    requires |xs| > 0
    ensures forall i :: 0 <= i < |xs| ==> |xs[i]| <= m
    ensures exists i :: 0 <= i < |xs| && |xs[i]| == m
    decreases |xs|
  {
    if |xs| == 1 then |xs[0]|
    else
      var m := MaxLength(xs[..|xs| - 1]);
      assert forall i :: 0 <= i < |xs| - 1 ==> xs[..|xs| - 1][i] == xs[i];
      Max(m, |xs[|xs| - 1]|)
  }

  /**
   * `checkProhibition(buffer, prohibitions, length, count)`, where `count`
   * is the zero-based position just filled and `length` the number of
   * positions. The `first` rules apply only while some `first` token is at
   * least `count` long (the position, not the buffer length, is compared);
   * `always` applies at every position; `last` only at position `length - 1`.
   */
  function CheckProhibition(buffer: string, p: ProhibitionSetting, length: int, count: int): (ok: bool)
    ensures ok <==>
      && ((forall x :: x in p.first ==> |x| < count) || (forall x :: x in p.first ==> !StartsWith(buffer, x)))
      && (forall x :: x in p.always ==> !EndsWith(buffer, x))
      && (count != length - 1 || forall x :: x in p.last ==> !EndsWith(buffer, x))
  {
    var firstMax := if |p.first| == 0 then -1 else MaxLength(p.first);
    var isFirst := |p.first| == 0 || firstMax < count || (forall x :: x in p.first ==> !StartsWith(buffer, x));
    var isAlways := |p.always| == 0 || (forall x :: x in p.always ==> !EndsWith(buffer, x));
    var isLast := |p.last| == 0 || count != length - 1 || (forall x :: x in p.last ==> !EndsWith(buffer, x));
    isFirst && isAlways && isLast
  }

  /** With no rules at all, every buffer passes at every position. */
  lemma NothingForbidden(buffer: string, length: int, count: int)
    ensures CheckProhibition(buffer, NoProhibitions, length, count)
  {
  }

  /**
   * An empty `always` token (left by a stray comma, as in `"ab,"`) ends
   * every buffer, so no buffer ever passes.
   */
  lemma EmptyAlwaysTokenRejectsEverything(buffer: string, p: ProhibitionSetting, length: int, count: int)
    requires "" in p.always
    ensures !CheckProhibition(buffer, p, length, count)
  {
  }
}
