/**
 * The JavaScript string operations the word generator is built from:
 * `split` on a one-character separator, `trim`, `startsWith`, `endsWith`,
 * `substr` and `parseInt`. Strings are sequences of characters.
 */
module JsString {
  import opened Wrappers

  /** ECMAScript WhiteSpace and LineTerminator code points: what `trim` and `parseInt` skip. */
  predicate IsWhitespace(c: char)
  {
    c == '\t' || c == '\n' || c == '\U{000B}' || c == '\U{000C}' || c == '\r' || c == ' '
    || c == '\U{00A0}' || c == '\U{1680}' || ('\U{2000}' <= c <= '\U{200A}')
    || c == '\U{2028}' || c == '\U{2029}' || c == '\U{202F}' || c == '\U{205F}'
    || c == '\U{3000}' || c == '\U{FEFF}'
  }

  // ---------------------------------------------------------------------
  // split and its inverse

  /**
   * `s.split(sep)`: the pieces between separators, in order. Never empty:
   * the empty string splits into one empty piece, and neighbouring
   * separators give empty pieces.
   */
  function Split(s: string, sep: char): (parts: seq<string>)
    ensures |parts| >= 1
    ensures forall i :: 0 <= i < |parts| ==> sep !in parts[i]
    decreases |s|
  {
    if |s| == 0 then [""]
    else
      var rest := Split(s[1..], sep);
      if s[0] == sep then [""] + rest
      else [[s[0]] + rest[0]] + rest[1..]
  }

  /** `parts.join(sep)`. */
  function Join(parts: seq<string>, sep: char): string
    requires |parts| >= 1
    decreases |parts|
  {
    if |parts| == 1 then parts[0] else parts[0] + [sep] + Join(parts[1..], sep)
  }

  /** A string without the separator splits into itself alone. */
  lemma SplitWithoutSeparator(s: string, sep: char)
    requires sep !in s
    ensures Split(s, sep) == [s]
  {
    SplitJoin([s], sep);
  }

  /** Joining the pieces of a split gives the string back. */
  lemma {:induction false} JoinSplit(s: string, sep: char)
    ensures Join(Split(s, sep), sep) == s
    decreases |s|
  {
    if |s| > 0 {
      var rest := Split(s[1..], sep);
      JoinSplit(s[1..], sep);
      if s[0] == sep {
        assert ([""] + rest)[1..] == rest;
      } else if |rest| > 1 {
        var parts := [[s[0]] + rest[0]] + rest[1..];
        assert parts[1..] == rest[1..];
        assert Join(rest, sep) == rest[0] + [sep] + Join(rest[1..], sep);
      }
    }
  }

  /** A piece without separators glues onto the first piece of what follows it. */
  lemma {:induction false} SplitAppend(a: string, t: string, sep: char)
    requires sep !in a
    ensures Split(a + t, sep) == [a + Split(t, sep)[0]] + Split(t, sep)[1..]
    decreases |a|
  {
    if |a| == 0 {
      var parts := Split(t, sep);
      assert a + t == t;
      assert a + parts[0] == parts[0];
      assert parts == [parts[0]] + parts[1..];
    } else {
      assert (a + t)[0] == a[0];
      assert (a + t)[1..] == a[1..] + t;
      SplitAppend(a[1..], t, sep);
      assert [a[0]] + (a[1..] + Split(t, sep)[0]) == a + Split(t, sep)[0];
    }
  }

  /** Splitting a join of separator-free pieces gives the pieces back. */
  lemma {:induction false} SplitJoin(parts: seq<string>, sep: char)
    requires |parts| >= 1
    requires forall i :: 0 <= i < |parts| ==> sep !in parts[i]
    ensures Split(Join(parts, sep), sep) == parts
    decreases |parts|
  {
    if |parts| == 1 {
      SplitAppend(parts[0], "", sep);
      assert parts[0] + "" == parts[0];
    } else {
      var tail := Join(parts[1..], sep);
      SplitJoin(parts[1..], sep);
      assert ([sep] + tail)[0] == sep && ([sep] + tail)[1..] == tail;
      assert Split([sep] + tail, sep) == [""] + parts[1..];
      SplitAppend(parts[0], [sep] + tail, sep);
      assert parts[0] + ([sep] + tail) == Join(parts, sep);
      assert parts[0] + "" == parts[0];
    }
  }

  // ---------------------------------------------------------------------
  // trim

  /** Drops the leading whitespace. */
  function TrimStart(s: string): (r: string)
    ensures |r| <= |s| && r == s[|s| - |r|..]
    ensures forall i :: 0 <= i < |s| - |r| ==> IsWhitespace(s[i])
    ensures r == [] || !IsWhitespace(r[0])
    decreases |s|
  {
    if |s| > 0 && IsWhitespace(s[0]) then TrimStart(s[1..]) else s
  }

  /** Drops the trailing whitespace. */
  function TrimEnd(s: string): (r: string)
    ensures |r| <= |s| && r == s[..|r|]
    ensures forall i :: |r| <= i < |s| ==> IsWhitespace(s[i])
    ensures r == [] || !IsWhitespace(r[|r| - 1])
    decreases |s|
  {
    if |s| > 0 && IsWhitespace(s[|s| - 1]) then TrimEnd(s[..|s| - 1]) else s
  }

  /**
   * `s.trim()`: empty exactly when `s` is all whitespace, otherwise neither
   * end is whitespace; `TrimStrips` states which part of `s` it is.
   */
  function Trim(s: string): (r: string)
    ensures r == [] || (!IsWhitespace(r[0]) && !IsWhitespace(r[|r| - 1]))
    ensures r == [] <==> forall i :: 0 <= i < |s| ==> IsWhitespace(s[i])
  {
    var t := TrimStart(s);
    var r := TrimEnd(t);
    assert r != [] ==> r[0] == t[0];
    assert r == [] ==> t == [];
    assert (forall i :: 0 <= i < |s| ==> IsWhitespace(s[i])) ==> t == [] by {
      if t != [] {
        assert t[0] == s[|s| - |t|];
      }
    }
    r
  }

  /** Every character of `x` is whitespace. */
  predicate AllWhitespace(x: string)
  {
    forall i :: 0 <= i < |x| ==> IsWhitespace(x[i])
  }

  /**
   * `r` is `s` with its first `a` characters and its last `|s| - a - |r|`
   * characters dropped, all of them whitespace.
   */
  predicate StripsTo(s: string, r: string, a: int)
  {
    && 0 <= a <= |s| - |r| && r == s[a..a + |r|]
    && AllWhitespace(s[..a]) && AllWhitespace(s[a + |r|..])
  }

  /** `r` is what is left of `s` once a leading and a trailing run of whitespace are dropped. */
  ghost predicate Stripped(s: string, r: string)
  {
    exists a :: StripsTo(s, r, a)
  }

  /**
   * `s.trim()` is `s` without a leading and a trailing run of whitespace:
   * what is left is a contiguous part of `s`, and everything before and
   * after it is whitespace.
   */
  lemma TrimStrips(s: string)
    ensures exists a :: StripsTo(s, Trim(s), a)
  {
    var t := TrimStart(s);
    StripBothEnds(s, t, TrimEnd(t));
    assert StripsTo(s, Trim(s), |s| - |t|);
  }

  /**
   * Dropping a run of whitespace from the front of `s` and then from the
   * back of what is left strips `s` at both ends.
   */
  lemma StripBothEnds(s: string, t: string, r: string)
    requires |t| <= |s| && t == s[|s| - |t|..] && forall i :: 0 <= i < |s| - |t| ==> IsWhitespace(s[i])
    requires |r| <= |t| && r == t[..|r|] && forall i :: |r| <= i < |t| ==> IsWhitespace(t[i])
    ensures StripsTo(s, r, |s| - |t|)
  {
    SuffixSlices(s, |s| - |t|, |r|);
  }

  /** The first `k` characters of `s[a..]`, and the rest of it. */
  lemma SuffixSlices(s: string, a: int, k: int)
    requires 0 <= a <= |s| && 0 <= k <= |s| - a
    ensures s[a..][..k] == s[a..a + k] && s[a..][k..] == s[a + k..]
  {
  }

  /** `xs.map((x) => x.trim())`. */
  function TrimEach(xs: seq<string>): (ys: seq<string>)
    ensures |ys| == |xs|
    ensures forall i :: 0 <= i < |xs| ==> ys[i] == Trim(xs[i])
  {
    seq(|xs|, i requires 0 <= i < |xs| => Trim(xs[i]))
  }

  /** A string with no whitespace at either end is its own trim. */
  lemma TrimUnpadded(s: string)
    requires s == [] || (!IsWhitespace(s[0]) && !IsWhitespace(s[|s| - 1]))
    ensures Trim(s) == s
  {
    assert TrimStart(s) == s;
    assert TrimEnd(s) == s;
  }

  /** Trimming twice is trimming once. */
  lemma TrimIdempotent(s: string)
    ensures Trim(Trim(s)) == Trim(s)
  {
    TrimUnpadded(Trim(s));
  }

  /**
   * Each element of `xs.map((x) => x.trim())` is its element with a leading
   * and a trailing run of whitespace stripped.
   */
  lemma TrimEachStrips(xs: seq<string>)
    ensures forall i :: 0 <= i < |xs| ==> Stripped(xs[i], TrimEach(xs)[i])
  {
    forall i | 0 <= i < |xs| {
      TrimStrips(xs[i]);
    }
  }

  // ---------------------------------------------------------------------
  // toUpperCase

  /**
   * `toUpperCase` on one character, as far as the letters `a` to `z` go;
   * every other character is left as it is (no other character upper-cases
   * to `C`, `V` or `*`, the only results compared here).
   */
  function UpperAscii(c: char): char
  {
    if 'a' <= c <= 'z' then (c as int - 'a' as int + 'A' as int) as char else c
  }

  // ---------------------------------------------------------------------
  // startsWith, endsWith, substr

  /** `s.startsWith(prefix)`. */
  predicate StartsWith(s: string, prefix: string)
  {
    |prefix| <= |s| && s[..|prefix|] == prefix
  }

  /** `s.endsWith(suffix)`. */
  predicate EndsWith(s: string, suffix: string)
  {
    |suffix| <= |s| && s[|s| - |suffix|..] == suffix
  }

  /** A one-character prefix is a test on the first character. */
  lemma StartsWithChar(s: string, c: char)
    ensures StartsWith(s, [c]) <==> |s| > 0 && s[0] == c
  {
    if |s| > 0 && s[0] == c {
      assert s[..1] == [c];
    }
  }

  /** A one-character suffix is a test on the last character. */
  lemma EndsWithChar(s: string, c: char)
    ensures EndsWith(s, [c]) <==> |s| > 0 && s[|s| - 1] == c
  {
    if |s| > 0 && s[|s| - 1] == c {
      assert s[|s| - 1..] == [c];
    }
  }

  /** `t.substring(1)`: all but the first character. */
  function AfterFirst(t: string): string
  {
    if |t| == 0 then "" else t[1..]
  }

  /** `t.substring(0, t.length - 1)`: all but the last character. */
  function BeforeLast(t: string): string
  {
    if |t| == 0 then "" else t[..|t| - 1]
  }

  /** `s.startsWith(prefix)` holds exactly when `s` is `prefix` followed by something. */
  lemma StartsWithConcat(s: string, prefix: string)
    ensures StartsWith(s, prefix) <==> exists rest :: s == prefix + rest
  {
    if StartsWith(s, prefix) {
      assert s == prefix + s[|prefix|..];
    }
    if rest :| s == prefix + rest {
      assert s[..|prefix|] == prefix;
    }
  }

  /** `s.endsWith(suffix)` holds exactly when `s` is something followed by `suffix`. */
  lemma EndsWithConcat(s: string, suffix: string)
    ensures EndsWith(s, suffix) <==> exists rest :: s == rest + suffix
  {
    if EndsWith(s, suffix) {
      assert s == s[..|s| - |suffix|] + suffix;
    }
    if rest :| s == rest + suffix {
      assert s[|s| - |suffix|..] == suffix;
    }
  }

  /**
   * Dropping the first or the last character loses exactly that character:
   * putting it back gives `t` again, and the empty string stays empty.
   */
  lemma DropEnds(t: string)
    ensures |t| == 0 ==> AfterFirst(t) == "" && BeforeLast(t) == ""
    ensures |t| > 0 ==> [t[0]] + AfterFirst(t) == t && BeforeLast(t) + [t[|t| - 1]] == t
  {
  }

  /**
   * `buffer.substr(0, buffer.length - letter.length)`: drops as many trailing
   * characters as `letter` has (a negative length gives the empty string).
   * It undoes `buffer += letter`.
   */
  function DropLast(buffer: string, letter: string): (r: string)
    ensures EndsWith(buffer, letter) ==> r + letter == buffer
  {
    if |letter| <= |buffer| then buffer[..|buffer| - |letter|] else ""
  }

  /** A rejected letter is taken off again: appending and then dropping restores the buffer. */
  lemma DropLastAfterAppend(buffer: string, letter: string)
    ensures DropLast(buffer + letter, letter) == buffer
  {
    assert (buffer + letter)[..|buffer|] == buffer;
  }

  // ---------------------------------------------------------------------
  // parseInt

  /** The value of an ASCII letter or digit as a digit in radix up to 36; 36 for anything else. */
  function DigitValue(c: char): nat
  {
    if '0' <= c <= '9' then c as int - '0' as int
    else if 'a' <= c <= 'z' then c as int - 'a' as int + 10
    else if 'A' <= c <= 'Z' then c as int - 'A' as int + 10
    else 36
  }

  predicate IsDigit(c: char, radix: nat)
  {
    DigitValue(c) < radix
  }

  /** The length of the longest prefix of `s` made of digits in `radix`. */
  function DigitRun(s: string, radix: nat): (n: nat)
    ensures n <= |s|
    ensures forall i :: 0 <= i < n ==> IsDigit(s[i], radix)
    ensures n < |s| ==> !IsDigit(s[n], radix)
    decreases |s|
  {
    if |s| > 0 && IsDigit(s[0], radix) then 1 + DigitRun(s[1..], radix) else 0
  }

  /** The value of a string of digits, most significant first. */
  function DigitsValue(ds: string, radix: nat): nat
    decreases |ds|
  {
    if |ds| == 0 then 0 else DigitsValue(ds[..|ds| - 1], radix) * radix + DigitValue(ds[|ds| - 1])
  }

  /**
   * `parseInt(s)` without a radix argument: leading whitespace is skipped, an
   * optional sign is read, a `0x`/`0X` prefix selects radix 16, and the
   * longest run of digits that follows is the value; trailing characters are
   * ignored. No digits gives `NaN`, here `None`.
   */
  function ParseInt(s: string): (r: Option<int>)
    ensures var t := TrimStart(s);
      |t| == 0 || (!IsDigit(t[0], 10) && t[0] != '-' && t[0] != '+') ==> r.None?
    ensures r.Some? && r.value < 0 ==> |TrimStart(s)| > 0 && TrimStart(s)[0] == '-'
  {
    var t := TrimStart(s);
    var negative := |t| > 0 && t[0] == '-';
    var u := if |t| > 0 && (t[0] == '-' || t[0] == '+') then t[1..] else t;
    match ParseMagnitude(u)
    case None => None
    case Some(magnitude) => Some(if negative then -(magnitude as int) else magnitude)
  }

  /** The unsigned part: a `0x`/`0X` prefix selects radix 16, otherwise radix 10. */
  function ParseMagnitude(u: string): Option<nat>
  {
    if |u| >= 2 && u[0] == '0' && (u[1] == 'x' || u[1] == 'X') then ParseDigits(u[2..], 16)
    else ParseDigits(u, 10)
  }

  /** The value of the longest run of digits at the start of `v`; `None` when there is none. */
  function ParseDigits(v: string, radix: nat): Option<nat>
  {
    var n := DigitRun(v, radix);
    if n == 0 then None else Some(DigitsValue(v[..n], radix))
  }

  function DigitChar(d: nat): (c: char)
    requires d < 10
    ensures '0' <= c <= '9' && DigitValue(c) == d
  {
    ('0' as int + d) as char
  }

  /** The decimal numeral of `n`, without leading zeros. */
  function NatToString(n: nat): (s: string)
    ensures |s| >= 1 && forall i :: 0 <= i < |s| ==> '0' <= s[i] <= '9'
    ensures s[0] == '0' ==> n == 0
  {
    if n < 10 then [DigitChar(n)] else NatToString(n / 10) + [DigitChar(n % 10)]
  }

  /** The decimal numeral of `i`, with a `-` in front when it is negative. */
  function IntToString(i: int): string
  {
    if i < 0 then "-" + NatToString(-i) else NatToString(i)
  }

  lemma {:induction false} NatToStringValue(n: nat)
    ensures DigitRun(NatToString(n), 10) == |NatToString(n)|
    ensures DigitsValue(NatToString(n), 10) == n
  {
    var s := NatToString(n);
    assert forall i :: 0 <= i < |s| ==> IsDigit(s[i], 10);
    if n >= 10 {
      NatToStringValue(n / 10);
      assert s[..|s| - 1] == NatToString(n / 10);
    }
  }

  /**
   * A decimal numeral starts with neither whitespace, a sign nor a `0x`
   * prefix, and all of it is read, in radix 10, back to its value.
   */
  lemma DecimalNumeral(m: nat)
    ensures var d := NatToString(m);
      && !IsWhitespace(d[0]) && d[0] != '-' && d[0] != '+'
      && !(|d| >= 2 && d[0] == '0')
      && DigitRun(d, 10) == |d| && DigitsValue(d[..|d|], 10) == m
  {
    var d := NatToString(m);
    NatToStringValue(m);
    assert d[..|d|] == d;
  }

  /** The unsigned part of `parseInt` reads a decimal numeral back to its value. */
  lemma MagnitudeOfDecimal(m: nat)
    ensures ParseMagnitude(NatToString(m)) == Some(m)
  {
    DecimalNumeral(m);
    var d := NatToString(m);
    assert ParseDigits(d, 10) == Some(m);
  }

  /** `parseInt` reads back the decimal numeral of every natural number. */
  lemma ParseUnsigned(m: nat)
    ensures ParseInt(NatToString(m)) == Some(m as int)
  {
    var d := NatToString(m);
    assert TrimStart(d) == d && d[0] != '-' && d[0] != '+' by {
      DecimalNumeral(m);
    }
    MagnitudeOfDecimal(m);
    ParseUnsignedMagnitude(d);
  }

  /** Without leading whitespace or a sign, `parseInt` is the unsigned magnitude. */
  lemma ParseUnsignedMagnitude(s: string)
    requires |s| > 0 && TrimStart(s) == s && s[0] != '-' && s[0] != '+'
    ensures ParseInt(s) == if ParseMagnitude(s).Some? then Some(ParseMagnitude(s).value as int) else None
  {
  }

  /** `parseInt` reads back a minus sign followed by a decimal numeral as the negated value. */
  lemma ParseNegative(m: nat)
    ensures ParseInt("-" + NatToString(m)) == Some(-(m as int))
  {
    var t := "-" + NatToString(m);
    MagnitudeOfDecimal(m);
    assert TrimStart(t) == t;
    assert t[1..] == NatToString(m);
  }

  /** `parseInt` reads back every integer written in decimal. */
  lemma ParseIntOfDecimal(i: int)
    ensures ParseInt(IntToString(i)) == Some(i)
  {
    if i < 0 {
      var m: nat := -i;
      assert IntToString(i) == "-" + NatToString(m);
      ParseNegative(m);
    } else {
      var m: nat := i;
      assert IntToString(i) == NatToString(m);
      ParseUnsigned(m);
    }
  }
}
