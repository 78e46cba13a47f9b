/** The string operations the service relies on: Python's `sep.join(parts)`,
    `s.split()` with no separator, and `str(n)` for a natural number. */
module Text {

  /** Python's `str.isspace` for one character: the ASCII controls
      U+0009..U+000D and U+001C..U+001F, the space, and the Unicode spaces. */
  predicate IsSpace(c: char)
  {
    || ('\U{9}' <= c <= '\U{D}')
    || ('\U{1C}' <= c <= '\U{20}')
    || c == '\U{85}' || c == '\U{A0}' || c == '\U{1680}'
    || ('\U{2000}' <= c <= '\U{200A}')
    || c == '\U{2028}' || c == '\U{2029}' || c == '\U{202F}' || c == '\U{205F}'
    || c == '\U{3000}'
  }

  /** No character of `w` is whitespace. */
  predicate NoSpace(w: string)
  {
    forall i :: 0 <= i < |w| ==> !IsSpace(w[i])
  }

  // ---------------------------------------------------------------------
  // sep.join(parts)
  // ---------------------------------------------------------------------

  /** Total length of all parts. */
  function TotalLength(parts: seq<string>): nat
  {
    if |parts| == 0 then 0 else |parts[0]| + TotalLength(parts[1..])
  }

  /** Python's `sep.join(parts)`: the parts in order, one `sep` between each
      neighbouring pair and none at either end. */
  function Join(parts: seq<string>, sep: string): (r: string)
    ensures |parts| == 0 ==> r == ""
    ensures |parts| > 0 ==> parts[0] <= r
  {
    if |parts| == 0 then ""
    else if |parts| == 1 then parts[0]
    else parts[0] + sep + Join(parts[1..], sep)
  }

  /** The joined string holds all the parts' characters and one separator
      per neighbouring pair. */
  lemma {:induction false} JoinLength(parts: seq<string>, sep: string)
    requires |parts| > 0
    ensures |Join(parts, sep)| == TotalLength(parts) + (|parts| - 1) * |sep|
  {
    if |parts| > 1 {
      JoinLength(parts[1..], sep);
    }
  }

  /** Where part i begins inside `Join(parts, sep)`. */
  function JoinOffset(parts: seq<string>, sep: string, i: nat): nat
    requires i <= |parts|
  {
    if i == 0 then 0 else |parts[0]| + |sep| + JoinOffset(parts[1..], sep, i - 1)
  }

  /** A slice lying wholly in the right operand of a concatenation. */
  lemma SliceRight(a: string, b: string, lo: nat, hi: nat)
    requires |a| <= lo <= hi <= |a| + |b|
    ensures (a + b)[lo..hi] == b[lo - |a|..hi - |a|]
  {
  }

  /** The left operand of a concatenation is its prefix. */
  lemma SliceLeft(a: string, b: string)
    ensures |a| <= |a + b| && (a + b)[0..|a|] == a
  {
  }

  /** Every part sits, unchanged and in order, at its offset of the joined
      string. */
  lemma {:induction false} JoinSlices(parts: seq<string>, sep: string, i: nat)
    requires i < |parts|
    ensures JoinOffset(parts, sep, i) + |parts[i]| <= |Join(parts, sep)|
    ensures Join(parts, sep)[JoinOffset(parts, sep, i)..JoinOffset(parts, sep, i) + |parts[i]|] == parts[i]
  {
    if |parts| == 1 {
      assert Join(parts, sep) == parts[0];
      assert JoinOffset(parts, sep, 0) == 0;
      SliceLeft(parts[0], "");
    } else {
      var head := parts[0] + sep;
      var rest := Join(parts[1..], sep);
      assert Join(parts, sep) == head + rest;
      if i == 0 {
        assert JoinOffset(parts, sep, 0) == 0;
        SliceLeft(parts[0], sep + rest);
        assert head + rest == parts[0] + (sep + rest);
      } else {
        JoinSlices(parts[1..], sep, i - 1);
        var o := JoinOffset(parts[1..], sep, i - 1);
        assert parts[1..][i - 1] == parts[i];
        assert JoinOffset(parts, sep, i) == |head| + o;
        SliceRight(head, rest, |head| + o, |head| + o + |parts[i]|);
      }
    }
  }

  /** A separator follows every part but the last. */
  lemma {:induction false} JoinSeparators(parts: seq<string>, sep: string, i: nat)
    requires i + 1 < |parts|
    ensures JoinOffset(parts, sep, i) + |parts[i]| + |sep| <= |Join(parts, sep)|
    ensures Join(parts, sep)[JoinOffset(parts, sep, i) + |parts[i]|..JoinOffset(parts, sep, i) + |parts[i]| + |sep|] == sep
  {
    var rest := Join(parts[1..], sep);
    var k := |parts[0] + sep|;
    assert Join(parts, sep) == (parts[0] + sep) + rest;
    if i > 0 {
      JoinSeparators(parts[1..], sep, i - 1);
      var o := JoinOffset(parts[1..], sep, i - 1);
      assert parts[1..][i - 1] == parts[i];
      SliceRight(parts[0] + sep, rest, k + o + |parts[i]|, k + o + |parts[i]| + |sep|);
    }
  }

  /** With a non-empty separator the joined string is empty exactly when there
      is no part, or a single empty part. */
  lemma JoinEmptyIff(parts: seq<string>, sep: string)
    requires |sep| > 0
    ensures Join(parts, sep) == "" <==> |parts| == 0 || (|parts| == 1 && parts[0] == "")
  {
    if |parts| > 1 {
      assert Join(parts, sep) == parts[0] + sep + Join(parts[1..], sep);
    }
  }

  // ---------------------------------------------------------------------
  // s.split()
  // ---------------------------------------------------------------------

  /** Length of the maximal run of non-whitespace characters at the start of s. */
  function TokenLength(s: string): (n: nat)
    ensures n <= |s|
    ensures forall i :: 0 <= i < n ==> !IsSpace(s[i])
    ensures n == |s| || IsSpace(s[n])
  {
    if |s| == 0 || IsSpace(s[0]) then 0 else 1 + TokenLength(s[1..])
  }

  /** Python's `s.split()`: the maximal runs of non-whitespace characters,
      in order; leading, trailing and repeated whitespace yields no empty word. */
  function Words(s: string): (ws: seq<string>)
    ensures forall k :: 0 <= k < |ws| ==> |ws[k]| > 0 && NoSpace(ws[k])
    decreases |s|
  {
    if |s| == 0 then []
    else if IsSpace(s[0]) then Words(s[1..])
    else
      var n := TokenLength(s);
      [s[..n]] + Words(s[n..])
  }

  /** Python's `len(s.split())`. */
  function WordCount(s: string): nat
  {
    |Words(s)|
  }

  /** The non-whitespace characters of s, in order. */
  function NonSpace(s: string): string
  {
    if |s| == 0 then ""
    else if IsSpace(s[0]) then NonSpace(s[1..])
    else [s[0]] + NonSpace(s[1..])
  }

  /** The words, concatenated. */
  function Concat(ws: seq<string>): string
  {
    if |ws| == 0 then "" else ws[0] + Concat(ws[1..])
  }

  lemma {:induction false} NonSpaceAppend(a: string, b: string)
    ensures NonSpace(a + b) == NonSpace(a) + NonSpace(b)
    decreases |a|
  {
    if |a| > 0 {
      assert (a + b)[0] == a[0];
      assert (a + b)[1..] == a[1..] + b;
      NonSpaceAppend(a[1..], b);
      if IsSpace(a[0]) {
        assert NonSpace(a + b) == NonSpace(a[1..] + b);
      } else {
        assert NonSpace(a + b) == [a[0]] + NonSpace(a[1..] + b);
      }
    } else {
      assert a + b == b;
    }
  }

  lemma {:induction false} NonSpaceOfWord(w: string)
    requires NoSpace(w)
    ensures NonSpace(w) == w
    decreases |w|
  {
    if |w| > 0 {
      assert NoSpace(w[1..]);
      NonSpaceOfWord(w[1..]);
    }
  }

  /** Splitting loses exactly the whitespace: the words together hold every
      other character of s, in order. */
  lemma {:induction false} WordsKeepText(s: string)
    ensures Concat(Words(s)) == NonSpace(s)
    decreases |s|
  {
    if |s| > 0 {
      if IsSpace(s[0]) {
        WordsKeepText(s[1..]);
      } else {
        var n := TokenLength(s);
        assert Words(s) == [s[..n]] + Words(s[n..]);
        assert ([s[..n]] + Words(s[n..]))[1..] == Words(s[n..]);
        WordsKeepText(s[n..]);
        assert s == s[..n] + s[n..];
        NonSpaceAppend(s[..n], s[n..]);
        NonSpaceOfWord(s[..n]);
      }
    }
  }

  /** A word followed by a space splits at that space. */
  lemma TokenLengthOfWord(w: string, rest: string)
    requires NoSpace(w)
    requires |rest| == 0 || IsSpace(rest[0])
    ensures TokenLength(w + rest) == |w|
  {
    var s := w + rest;
    assert forall i :: 0 <= i < |w| ==> s[i] == w[i];
    assert |s| > |w| ==> s[|w|] == rest[0];
  }

  /** Leading whitespace is skipped. */
  lemma WordsSkipSpace(s: string)
    requires |s| > 0 && IsSpace(s[0])
    ensures Words(s) == Words(s[1..])
  {
  }

  /** A word followed by whitespace (or by nothing) splits off as one word. */
  lemma WordsOfWordThenRest(w: string, rest: string)
    requires |w| > 0 && NoSpace(w)
    requires |rest| == 0 || IsSpace(rest[0])
    ensures Words(w + rest) == [w] + Words(rest)
  {
    TokenLengthOfWord(w, rest);
    var s := w + rest;
    assert s[0] == w[0];
    assert s[..|w|] == w;
    assert s[|w|..] == rest;
  }

  /** Round trip: splitting words joined by single spaces gives the words
      back, provided each is non-empty and free of whitespace. */
  lemma {:induction false} WordsOfJoin(ws: seq<string>)
    requires forall k :: 0 <= k < |ws| ==> |ws[k]| > 0 && NoSpace(ws[k])
    ensures Words(Join(ws, " ")) == ws
    decreases |ws|
  {
    if |ws| == 1 {
      WordsOfWordThenRest(ws[0], "");
      assert ws[0] + "" == ws[0];
    } else if |ws| > 1 {
      var w := ws[0];
      var tail := Join(ws[1..], " ");
      assert Join(ws, " ") == w + (" " + tail);
      WordsOfWordThenRest(w, " " + tail);
      WordsSkipSpace(" " + tail);
      assert (" " + tail)[1..] == tail;
      WordsOfJoin(ws[1..]);
      assert ws == [w] + ws[1..];
    }
  }

  /** Reference count of words, one character at a time: a word starts at
      every non-whitespace character that is first or follows whitespace.
      `afterSpace` says whether the character before `s` was whitespace (or
      there was none). */
  function WordStarts(s: string, afterSpace: bool): nat
  {
    if |s| == 0 then 0
    else (if afterSpace && !IsSpace(s[0]) then 1 else 0) + WordStarts(s[1..], IsSpace(s[0]))
  }

  /** Inside a run of non-whitespace, no word starts. */
  lemma {:induction false} WordStartsInsideWord(s: string, k: nat)
    requires k <= |s|
    requires forall i :: 0 <= i < k ==> !IsSpace(s[i])
    ensures WordStarts(s, false) == WordStarts(s[k..], false)
    decreases k
  {
    if k > 0 {
      assert !IsSpace(s[0]);
      WordStartsInsideWord(s[1..], k - 1);
      assert s[1..][k - 1..] == s[k..];
    }
  }

  /** Python's `len(s.split())` is the number of word starts: the split
      yields one word per maximal run of non-whitespace, never splitting a
      run and never merging two. */
  lemma {:induction false} WordCountIsWordStarts(s: string)
    ensures WordCount(s) == WordStarts(s, true)
    decreases |s|
  {
    if |s| > 0 {
      if IsSpace(s[0]) {
        WordCountIsWordStarts(s[1..]);
      } else {
        var n := TokenLength(s);
        assert |Words(s)| == 1 + |Words(s[n..])|;
        assert WordStarts(s, true) == 1 + WordStarts(s[1..], false);
        WordStartsInsideWord(s[1..], n - 1);
        assert s[1..][n - 1..] == s[n..];
        assert WordStarts(s[n..], false) == WordStarts(s[n..], true);
        WordCountIsWordStarts(s[n..]);
      }
    }
  }

  /** Every character of `g` is whitespace. */
  predicate AllSpace(g: string)
  {
    forall i :: 0 <= i < |g| ==> IsSpace(g[i])
  }

  /** Words laid out with whitespace gaps around and between them:
      `gaps[0] + words[0] + gaps[1] + ... + words[n - 1] + gaps[n]`. */
  function Layout(gaps: seq<string>, words: seq<string>): string
    requires |gaps| == |words| + 1
    decreases |words|
  {
    if |words| == 0 then gaps[0]
    else gaps[0] + words[0] + Layout(gaps[1..], words[1..])
  }

  /** A layout of words: non-empty words free of whitespace, whitespace-only
      gaps, and a non-empty gap between every two words. */
  predicate IsLayout(gaps: seq<string>, words: seq<string>)
  {
    && |gaps| == |words| + 1
    && (forall k :: 0 <= k < |words| ==> |words[k]| > 0 && NoSpace(words[k]))
    && (forall k :: 0 <= k < |gaps| ==> AllSpace(gaps[k]))
    && (forall k :: 0 < k < |words| ==> |gaps[k]| > 0)
  }

  /** Leading whitespace of any length is skipped. */
  lemma {:induction false} WordsSkipGap(g: string, t: string)
    requires AllSpace(g)
    ensures Words(g + t) == Words(t)
    decreases |g|
  {
    if |g| > 0 {
      assert (g + t)[0] == g[0];
      assert (g + t)[1..] == g[1..] + t;
      WordsSkipGap(g[1..], t);
    } else {
      assert g + t == t;
    }
  }

  /** After its first word, a layout continues with whitespace or ends. */
  lemma LayoutAfterFirstWord(gaps: seq<string>, words: seq<string>)
    requires IsLayout(gaps, words) && |words| > 0
    ensures IsLayout(gaps[1..], words[1..])
    ensures var rest := Layout(gaps[1..], words[1..]);
            |rest| == 0 || IsSpace(rest[0])
  {
    var rest := Layout(gaps[1..], words[1..]);
    if |words| == 1 {
      assert rest == gaps[1];
    } else {
      assert |gaps[1]| > 0;
      assert rest == gaps[1] + (words[1] + Layout(gaps[2..], words[2..]));
      assert rest[0] == gaps[1][0];
    }
  }

  /** Splitting recovers the words of any layout, whatever whitespace
      surrounds and separates them; with `WordsKeepText` and `Words`' own
      contract this fixes the split of every string. */
  lemma {:induction false} WordsOfLayout(gaps: seq<string>, words: seq<string>)
    requires IsLayout(gaps, words)
    ensures Words(Layout(gaps, words)) == words
    decreases |words|
  {
    if |words| == 0 {
      WordsSkipGap(gaps[0], "");
      assert gaps[0] + "" == gaps[0];
    } else {
      var w := words[0];
      var rest := Layout(gaps[1..], words[1..]);
      LayoutAfterFirstWord(gaps, words);
      assert Layout(gaps, words) == gaps[0] + (w + rest);
      WordsSkipGap(gaps[0], w + rest);
      WordsOfWordThenRest(w, rest);
      WordsOfLayout(gaps[1..], words[1..]);
      assert words == [w] + words[1..];
    }
  }

  // ---------------------------------------------------------------------
  // str(n)
  // ---------------------------------------------------------------------

  function DigitChar(d: nat): (c: char)
    requires d < 10
    ensures '0' <= c <= '9'
  {
    ['0', '1', '2', '3', '4', '5', '6', '7', '8', '9'][d]
  }

  /** Python's `str(n)` for a natural number: decimal digits, no sign and no
      leading zero. */
  function NatToString(n: nat): (s: string)
    ensures |s| > 0
    ensures forall i :: 0 <= i < |s| ==> '0' <= s[i] <= '9'
    ensures s[0] == '0' ==> n == 0
  {
    if n < 10 then [DigitChar(n)] else NatToString(n / 10) + [DigitChar(n % 10)]
  }

  /** Reads a string of decimal digits back as a number. */
  function ParseDigits(s: string): nat
    requires forall i :: 0 <= i < |s| ==> '0' <= s[i] <= '9'
  {
    if |s| == 0 then 0
    else ParseDigits(s[..|s| - 1]) * 10 + ((s[|s| - 1] as int) - ('0' as int))
  }

  /** Round trip: the decimal rendering of n reads back as n. */
  lemma {:induction false} ParseNatToString(n: nat)
    ensures ParseDigits(NatToString(n)) == n
  {
    var s := NatToString(n);
    if n < 10 {
      assert s[..0] == "";
    } else {
      var d := n % 10;
      ParseNatToString(n / 10);
      assert s[..|s| - 1] == NatToString(n / 10);
      assert s[|s| - 1] == DigitChar(d);
      assert (DigitChar(d) as int) - ('0' as int) == d;
    }
  }
}
