/**
 * The handful of Python `str` operations the application relies on, defined
 * over `seq<char>`: `strip()`, `split(sep)`, `split()`, `sep.join(parts)`,
 * `lower()` (ASCII letters only), `endswith(...)` and decimal formatting of a
 * counter as done by an f-string.
 */
module Text {

  /** The characters for which Python's `str.isspace()` holds; `strip()` and `split()` use this set. */
  predicate IsSpace(c: char) {
    || c == ' '
    || ('\t' <= c <= '\r')
    || ('\U{1c}' <= c <= '\U{1f}')
    || c == '\U{85}' || c == '\U{a0}' || c == '\U{1680}'
    || ('\U{2000}' <= c <= '\U{200a}')
    || c == '\U{2028}' || c == '\U{2029}' || c == '\U{202f}' || c == '\U{205f}' || c == '\U{3000}'
  }

  predicate AllSpace(s: string) {
    forall i :: 0 <= i < |s| ==> IsSpace(s[i])
  }

  // ---------------------------------------------------------------- strip()

  /** Drops leading whitespace (`lstrip()`). */
  function TrimStart(s: string): (r: string)
    ensures |r| <= |s| && r == s[|s| - |r|..]
    ensures AllSpace(s[..|s| - |r|])
    ensures r == [] || !IsSpace(r[0])
  {
    if s != [] && IsSpace(s[0]) then TrimStart(s[1..]) else s
  }

  /** Drops trailing whitespace (`rstrip()`). */
  function TrimEnd(s: string): (r: string)
    ensures |r| <= |s| && r == s[..|r|]
    ensures AllSpace(s[|r|..])
    ensures r == [] || !IsSpace(r[|r| - 1])
  {
    if s != [] && IsSpace(s[|s| - 1]) then
      var t := s[..|s| - 1];
      var r := TrimEnd(t);
      assert AllSpace(s[|r|..]) by {
        forall j | 0 <= j < |s| - |r| ensures IsSpace(s[|r|..][j]) {
          if |r| + j < |s| - 1 { assert s[|r|..][j] == t[|r|..][j]; }
        }
      }
      assert s[..|r|] == t[..|r|];
      r
    else s
  }

  /** Python's `s.strip()`. */
  function Trim(s: string): (r: string)
    ensures r == [] || (!IsSpace(r[0]) && !IsSpace(r[|r| - 1]))
    ensures r == [] <==> AllSpace(s)
  {
    var t := TrimEnd(TrimStart(s));
    assert t == [] ==> AllSpace(s) by {
      if t == [] {
        var u := TrimStart(s);
        assert AllSpace(u[..|u|]);
        assert s == s[..|s| - |u|] + u;
      }
    }
    assert t != [] ==> !AllSpace(s) by {
      if t != [] {
        var u := TrimStart(s);
        assert u[0] == s[|s| - |u|];
      }
    }
    t
  }

  // ---------------------------------------------------------------- split(sep) and join

  /** Index of the first `c` in `s`, or `|s|` when there is none. */
  function IndexOf(s: string, c: char): (r: nat)
    ensures r <= |s|
    ensures forall i :: 0 <= i < r ==> s[i] != c
    ensures r < |s| ==> s[r] == c
  {
    if s == [] || s[0] == c then 0 else 1 + IndexOf(s[1..], c)
  }

  /** Python's `s.split(c)` for a one-character separator: never empty, empty pieces kept. */
  function SplitOn(s: string, c: char): (r: seq<string>)
    decreases |s|
    ensures |r| >= 1
    ensures r[0] == s[..IndexOf(s, c)]
    ensures forall k :: 0 <= k < |r| ==> c !in r[k]
  {
    var i := IndexOf(s, c);
    if i == |s| then [s] else [s[..i]] + SplitOn(s[i + 1..], c)
  }

  /** Python's `sep.join(parts)`. */
  function Join(parts: seq<string>, sep: string): string {
    if |parts| == 0 then ""
    else if |parts| == 1 then parts[0]
    else parts[0] + sep + Join(parts[1..], sep)
  }

  /** Splitting on a character and joining with that same character gives back the original text. */
  lemma {:induction false} JoinSplitOn(s: string, c: char)
    decreases |s|
    ensures Join(SplitOn(s, c), [c]) == s
  {
    var i := IndexOf(s, c);
    if i < |s| {
      var rest := SplitOn(s[i + 1..], c);
      JoinSplitOn(s[i + 1..], c);
      assert SplitOn(s, c) == [s[..i]] + rest;
      assert s == s[..i] + [c] + s[i + 1..];
    }
  }

  // ---------------------------------------------------------------- split() on whitespace

  /** A piece produced by `split()`: non-empty and free of whitespace. */
  predicate IsWord(w: string) {
    w != [] && forall i :: 0 <= i < |w| ==> !IsSpace(w[i])
  }

  /** Length of the run of non-whitespace characters at the start of `s`. */
  function WordEnd(s: string): (r: nat)
    ensures r <= |s|
    ensures forall i :: 0 <= i < r ==> !IsSpace(s[i])
    ensures r < |s| ==> IsSpace(s[r])
  {
    if s == [] || IsSpace(s[0]) then 0 else 1 + WordEnd(s[1..])
  }

  /** Python's `s.split()` with no argument: the maximal runs of non-whitespace. */
  function Words(s: string): (r: seq<string>)
    decreases |s|
    ensures forall k :: 0 <= k < |r| ==> IsWord(r[k])
    ensures r == [] <==> AllSpace(s)
  {
    if s == [] then []
    else if IsSpace(s[0]) then
      var r := Words(s[1..]);
      assert AllSpace(s[1..]) ==> AllSpace(s) by {
        if AllSpace(s[1..]) {
          forall i | 0 <= i < |s| ensures IsSpace(s[i]) {
            if i > 0 { assert s[i] == s[1..][i - 1]; }
          }
        }
      }
      r
    else
      var n := WordEnd(s);
      [s[..n]] + Words(s[n..])
  }

  /** Whitespace in front of a text does not change its words. */
  lemma {:induction false} WordsAfterSpace(s: string, t: string)
    requires AllSpace(s)
    decreases |s|
    ensures Words(s + t) == Words(t)
  {
    if s != [] {
      assert (s + t)[0] == s[0] && IsSpace(s[0]);
      assert (s + t)[1..] == s[1..] + t;
      assert Words(s + t) == Words(s[1..] + t);
      WordsAfterSpace(s[1..], t);
    } else {
      assert s + t == t;
    }
  }

  /**
   * `lead` then the first word of `s` then `rest` make up `s`: `lead` is
   * whitespace, `rest` is empty or starts with whitespace, and the words of
   * `rest` are the remaining words of `s`.
   */
  predicate FirstWordSplit(s: string, lead: string, rest: string) {
    && Words(s) != []
    && AllSpace(lead)
    && (rest == [] || IsSpace(rest[0]))
    && s == lead + Words(s)[0] + rest
    && Words(rest) == Words(s)[1..]
  }

  /** What `split()` returns, read back against the text: any text that is not all whitespace splits so. */
  lemma {:induction false} WordsSplitsText(s: string)
    requires !AllSpace(s)
    decreases |s|
    ensures exists lead, rest :: FirstWordSplit(s, lead, rest)
  {
    if IsSpace(s[0]) {
      assert s == [s[0]] + s[1..];
      SpaceBefore(s[0], s[1..]);
      assert Words(s) == Words(s[1..]);
      WordsSplitsText(s[1..]);
      var lead, rest :| FirstWordSplit(s[1..], lead, rest);
      assert s == [s[0]] + s[1..];
      SplitAfterSpace(s[0], s[1..], lead, rest);
    } else {
      var n := WordEnd(s);
      assert Words(s) == [s[..n]] + Words(s[n..]);
      assert s == [] + s[..n] + s[n..];
      assert FirstWordSplit(s, [], s[n..]);
    }
  }

  /** One more whitespace character in front keeps the split, with a longer `lead`. */
  lemma SplitAfterSpace(c: char, t: string, lead: string, rest: string)
    requires IsSpace(c) && FirstWordSplit(t, lead, rest)
    ensures FirstWordSplit([c] + t, [c] + lead, rest)
  {
    assert AllSpace([c]);
    WordsAfterSpace([c], t);
    SpaceBefore(c, lead);
    var w := Words(t)[0];
    assert [c] + (lead + w + rest) == ([c] + lead) + w + rest;
  }

  /** Whitespace in front does not change whether a text is all whitespace. */
  lemma SpaceBefore(c: char, s: string)
    requires IsSpace(c)
    ensures AllSpace([c] + s) <==> AllSpace(s)
  {
    if AllSpace(s) {
      forall i | 0 <= i < |[c] + s| ensures IsSpace(([c] + s)[i]) {
        if i > 0 { assert ([c] + s)[i] == s[i - 1]; }
      }
    }
    if AllSpace([c] + s) {
      forall i | 0 <= i < |s| ensures IsSpace(s[i]) {
        assert s[i] == ([c] + s)[i + 1];
      }
    }
  }

  /** Words joined by single spaces split back into the same words. */
  lemma {:induction false} WordsOfJoin(ws: seq<string>)
    requires forall k :: 0 <= k < |ws| ==> IsWord(ws[k])
    decreases |ws|
    ensures Words(Join(ws, " ")) == ws
  {
    if |ws| == 1 {
      var w := ws[0];
      assert WordEnd(w) == |w| by { WordEndOfWord(w, ""); assert w + "" == w; }
      assert w[|w|..] == [] && w[..|w|] == w;
      assert Words(w) == [w] + Words([]);
    } else if |ws| > 1 {
      var w, rest := ws[0], Join(ws[1..], " ");
      var s := w + " " + rest;
      assert Join(ws, " ") == s;
      WordEndOfWord(w, " " + rest);
      assert s == w + (" " + rest);
      assert s[..|w|] == w;
      assert s[|w|..] == " " + rest;
      assert Words(" " + rest) == Words(rest) by { WordsAfterSpace(" ", rest); }
      WordsOfJoin(ws[1..]);
      assert ws == [w] + ws[1..];
    }
  }

  lemma {:induction false} WordEndOfWord(w: string, t: string)
    requires IsWord(w)
    requires t == [] || IsSpace(t[0])
    decreases |w|
    ensures WordEnd(w + t) == |w|
  {
    assert (w + t)[0] == w[0];
    if |w| > 1 {
      assert (w + t)[1..] == w[1..] + t;
      WordEndOfWord(w[1..], t);
    } else {
      assert (w + t)[1..] == t;
    }
  }

  // ---------------------------------------------------------------- lower() and endswith()

  /** Python's `lower()` restricted to ASCII letters. */
  function LowerChar(c: char): (r: char)
    ensures 'A' <= c <= 'Z' ==> r as int == c as int + 32
    ensures !('A' <= c <= 'Z') ==> r == c
  {
    if 'A' <= c <= 'Z' then (c as int + 32) as char else c
  }

  function Lower(s: string): (r: string)
    ensures |r| == |s|
    ensures forall i :: 0 <= i < |s| ==> r[i] == LowerChar(s[i])
  {
    if s == [] then [] else [LowerChar(s[0])] + Lower(s[1..])
  }

  predicate EndsWith(s: string, suffix: string) {
    |suffix| <= |s| && s[|s| - |suffix|..] == suffix
  }

  // ---------------------------------------------------------------- decimal formatting

  function DigitChar(d: nat): char
    requires d < 10
  {
    ('0' as int + d) as char
  }

  /** The decimal text of `n`, as `f"{n}"` writes it. */
  function NatToString(n: nat): (r: string)
    ensures |r| >= 1
    ensures n < 10 <==> |r| == 1
  {
    if n < 10 then [DigitChar(n)] else NatToString(n / 10) + [DigitChar(n % 10)]
  }

  /** Different counters print differently, so `base-1`, `base-2`, ... are distinct texts. */
  lemma {:induction false} NatToStringInjective(a: nat, b: nat)
    requires NatToString(a) == NatToString(b)
    decreases a
    ensures a == b
  {
    if a >= 10 {
      var sa, sb := NatToString(a), NatToString(b);
      assert sa[|sa| - 1] == DigitChar(a % 10) && sb[|sb| - 1] == DigitChar(b % 10);
      assert sa[..|sa| - 1] == NatToString(a / 10);
      assert sb[..|sb| - 1] == NatToString(b / 10);
      NatToStringInjective(a / 10, b / 10);
    }
  }
}
