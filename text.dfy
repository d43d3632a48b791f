/**
 * Character classes and the Python `str` operations the parser relies on:
 * `strip()`, `" ".join(s.split())`, `replace(pat, "")`, `lower()`, `int()`
 * of a digit string, and substring tests (`x in s`).
 */
module Text {
  import opened Wrappers

  /** Python's `\d`, restricted to the ASCII digits. */
  predicate IsDigit(c: char) { '0' <= c <= '9' }

  /** `[A-Za-z]`. */
  predicate IsAsciiLetter(c: char) { 'A' <= c <= 'Z' || 'a' <= c <= 'z' }

  /** Python's `\w`, restricted to ASCII: letters, digits and the underscore. */
  predicate IsWordChar(c: char) { IsAsciiLetter(c) || IsDigit(c) || c == '_' }

  /**
   * The characters Python treats as whitespace: those `str.isspace()` accepts,
   * which are also what `\s`, `str.split()` and `str.strip()` use.
   */
  predicate IsSpace(c: char) {
    c == ' ' || '\t' <= c <= '\r' || '\U{1C}' <= c <= '\U{1F}' || c == '\U{85}' || c == '\U{A0}'
    || c == '\U{1680}' || '\U{2000}' <= c <= '\U{200A}' || c == '\U{2028}' || c == '\U{2029}'
    || c == '\U{202F}' || c == '\U{205F}' || c == '\U{3000}'
  }

  predicate AllDigits(s: string) { forall i :: 0 <= i < |s| ==> IsDigit(s[i]) }

  predicate AllSpace(s: string) { forall i :: 0 <= i < |s| ==> IsSpace(s[i]) }

  predicate NoSpace(s: string) { forall i :: 0 <= i < |s| ==> !IsSpace(s[i]) }

  /** ASCII lowering, as `str.lower()` does it for the characters the patterns mention. */
  function Lower(c: char): (r: char)
    ensures 'A' <= c <= 'Z' ==> 'a' <= r <= 'z' && r as int == c as int + 32
    ensures !('A' <= c <= 'Z') ==> r == c
  {
    if 'A' <= c <= 'Z' then (c as int + 32) as char else c
  }

  function LowerString(s: string): (r: string)
    ensures |r| == |s|
    ensures forall i :: 0 <= i < |s| ==> r[i] == Lower(s[i])
  {
    seq(|s|, i requires 0 <= i < |s| => Lower(s[i]))
  }

  // ---------------------------------------------------------------------------
  // Decimal digits
  // ---------------------------------------------------------------------------

  function DigitValue(c: char): int { c as int - '0' as int }

  function DigitChar(n: nat): (c: char)
    requires n < 10
    ensures IsDigit(c) && DigitValue(c) == n
  {
    ('0' as int + n) as char
  }

  /** `int(ds)` for a string of ASCII digits; the empty string reads as 0. */
  function DecimalValue(ds: string): (v: nat)
    requires AllDigits(ds)
    ensures |ds| == 1 ==> v == DigitValue(ds[0])
  {
    if |ds| == 0 then 0 else DecimalValue(ds[..|ds| - 1]) * 10 + DigitValue(ds[|ds| - 1])
  }

  /** The decimal numeral of `n` with no leading zero, as `str(n)` or `strftime("%-d")` writes it. */
  function NatToString(n: nat): (r: string)
    ensures 1 <= |r| && AllDigits(r)
    ensures DecimalValue(r) == n
    ensures r[0] == '0' ==> n == 0 && |r| == 1
    ensures n < 10 <==> |r| == 1
  {
    if n < 10 then [DigitChar(n)]
    else
      var p := NatToString(n / 10);
      var r := p + [DigitChar(n % 10)];
      assert r[..|r| - 1] == p;
      r
  }

  /** The two-digit numeral `%02d` gives for `n < 100`. */
  function TwoDigits(n: nat): (r: string)
    requires n < 100
    ensures |r| == 2 && AllDigits(r)
    ensures DecimalValue(r) == n
  {
    var r := [DigitChar(n / 10), DigitChar(n % 10)];
    assert r[..1] == [r[0]];
    r
  }

  // ---------------------------------------------------------------------------
  // strip()
  // ---------------------------------------------------------------------------

  /** How many whitespace characters `s` starts with. */
  function LeadingSpaces(s: string): (k: nat)
    ensures k <= |s|
    ensures AllSpace(s[..k])
    ensures k < |s| ==> !IsSpace(s[k])
  {
    if s == [] || !IsSpace(s[0]) then 0
    else
      var k := 1 + LeadingSpaces(s[1..]);
      assert s[..k] == [s[0]] + s[1..][..k - 1];
      k
  }

  /** How many whitespace characters `s` ends with. */
  function TrailingSpaces(s: string): (k: nat)
    ensures k <= |s|
    ensures AllSpace(s[|s| - k..])
    ensures k < |s| ==> !IsSpace(s[|s| - k - 1])
  {
    if s == [] || !IsSpace(s[|s| - 1]) then 0
    else
      var t := s[..|s| - 1];
      var k := 1 + TrailingSpaces(t);
      assert s[|s| - k..] == t[|t| - (k - 1)..] + [s[|s| - 1]];
      k
  }

  /**
   * `s.strip()`: the slice of `s` that remains once its leading and trailing
   * whitespace is removed.
   */
  function Strip(s: string): (r: string)
    ensures |r| <= |s|
    ensures r == [] <==> AllSpace(s)
    ensures r != [] ==> !IsSpace(r[0]) && !IsSpace(r[|r| - 1])
    ensures LeadingSpaces(s) + |r| <= |s|
    ensures r == s[LeadingSpaces(s)..LeadingSpaces(s) + |r|]
    ensures AllSpace(s[LeadingSpaces(s) + |r|..])
  {
    var a := LeadingSpaces(s);
    var t := s[a..];
    var r := t[..|t| - TrailingSpaces(t)];
    StripEnds(s, a, t, TrailingSpaces(t), r);
    r
  }

  lemma StripEnds(s: string, a: nat, t: string, b: nat, r: string)
    requires a == LeadingSpaces(s) && t == s[a..] && b == TrailingSpaces(t) && r == t[..|t| - b]
    ensures r == [] <==> AllSpace(s)
    ensures r != [] ==> !IsSpace(r[0])
    ensures AllSpace(s[a + |r|..])
  {
    assert s[a + |r|..] == t[|t| - b..];
    if a < |s| {
      assert !IsSpace(t[0]);
      if b == |t| {
        assert false;
      }
      assert r[0] == t[0];
    } else {
      assert s[..a] == s;
    }
  }

  lemma {:induction false} StripIdempotent(s: string)
    ensures Strip(Strip(s)) == Strip(s)
  {
    var r := Strip(s);
    if r != [] {
      assert LeadingSpaces(r) == 0;
      assert Strip(r) == r[0..|Strip(r)|];
      assert AllSpace(r[|Strip(r)|..]);
    }
  }

  // ---------------------------------------------------------------------------
  // split() and " ".join(...)
  // ---------------------------------------------------------------------------

  /** Length of the run of non-whitespace characters at the start of `s`. */
  function WordLength(s: string): (k: nat)
    ensures k <= |s|
    ensures NoSpace(s[..k])
    ensures k < |s| ==> IsSpace(s[k])
  {
    if s == [] || IsSpace(s[0]) then 0
    else
      var k := 1 + WordLength(s[1..]);
      assert s[..k] == [s[0]] + s[1..][..k - 1];
      k
  }

  /** `s.split()`: the maximal runs of non-whitespace characters, in order. */
  function Split(s: string): (ws: seq<string>)
    ensures forall k :: 0 <= k < |ws| ==> ws[k] != [] && NoSpace(ws[k])
    decreases |s|
  {
    var t := s[LeadingSpaces(s)..];
    if t == [] then []
    else
      var n := WordLength(t);
      [t[..n]] + Split(t[n..])
  }

  /** `sep.join(ws)`. */
  function Join(ws: seq<string>, sep: string): string
  {
    if |ws| == 0 then []
    else if |ws| == 1 then ws[0]
    else ws[0] + sep + Join(ws[1..], sep)
  }

  /** `" ".join(s.split())`: runs of whitespace become one space, and the ends are trimmed. */
  function Collapse(s: string): string
  {
    Join(Split(s), " ")
  }

  /** A string in the form `Collapse` produces: words separated by exactly one space. */
  predicate Collapsed(s: string) {
    (forall i :: 0 <= i < |s| ==> IsSpace(s[i]) ==> s[i] == ' ')
    && (s != [] ==> s[0] != ' ' && s[|s| - 1] != ' ')
    && (forall i :: 0 <= i < |s| - 1 ==> s[i] == ' ' ==> s[i + 1] != ' ')
  }

  /** All characters of `s` that are not whitespace, in order. */
  function NonSpace(s: string): string
  {
    if s == [] then [] else (if IsSpace(s[0]) then [] else [s[0]]) + NonSpace(s[1..])
  }

  lemma {:induction false} NonSpaceAppend(a: string, b: string)
    ensures NonSpace(a + b) == NonSpace(a) + NonSpace(b)
  {
    if a == [] {
      assert a + b == b;
    } else {
      assert (a + b)[0] == a[0];
      assert (a + b)[1..] == a[1..] + b;
      NonSpaceAppend(a[1..], b);
    }
  }

  lemma {:induction false} NonSpaceOfSpaces(s: string)
    requires AllSpace(s)
    ensures NonSpace(s) == []
  {
    if s != [] { NonSpaceOfSpaces(s[1..]); }
  }

  lemma {:induction false} NonSpaceOfWord(s: string)
    requires NoSpace(s)
    ensures NonSpace(s) == s
  {
    if s != [] { NonSpaceOfWord(s[1..]); }
  }

  lemma {:induction false} JoinWordsCollapsed(ws: seq<string>)
    requires forall k :: 0 <= k < |ws| ==> ws[k] != [] && NoSpace(ws[k])
    ensures Collapsed(Join(ws, " "))
    ensures NonSpace(Join(ws, " ")) == NonSpaceJoin(ws)
  {
    if |ws| == 1 {
      NonSpaceOfWord(ws[0]);
    } else if |ws| > 1 {
      var rest := Join(ws[1..], " ");
      JoinWordsCollapsed(ws[1..]);
      var j := ws[0] + " " + rest;
      assert rest != [] by { assert |rest| >= |ws[1]|; }
      JoinLength(ws[1..]);
      forall i | 0 <= i < |j| && IsSpace(j[i]) ensures j[i] == ' ' {
        if i > |ws[0]| { assert j[i] == rest[i - |ws[0]| - 1]; }
      }
      forall i | 0 <= i < |j| - 1 && j[i] == ' ' ensures j[i + 1] != ' ' {
        if i > |ws[0]| {
          assert j[i] == rest[i - |ws[0]| - 1] && j[i + 1] == rest[i - |ws[0]|];
        }
      }
      assert j[|j| - 1] == rest[|rest| - 1];
      NonSpaceAppend(ws[0] + " ", rest);
      NonSpaceAppend(ws[0], " ");
      NonSpaceOfWord(ws[0]);
    }
  }

  lemma {:induction false} JoinLength(ws: seq<string>)
    requires |ws| > 0
    ensures |Join(ws, " ")| >= |ws[0]|
  {
  }

  /** The words of `ws` glued together with nothing between them. */
  function NonSpaceJoin(ws: seq<string>): string
  {
    if ws == [] then [] else ws[0] + NonSpaceJoin(ws[1..])
  }

  lemma {:induction false} SplitKeepsNonSpace(s: string)
    ensures NonSpaceJoin(Split(s)) == NonSpace(s)
    decreases |s|
  {
    if s == [] {
    } else if IsSpace(s[0]) {
      assert s == [s[0]] + s[1..];
      SplitSpace(s[0], s[1..]);
      SplitKeepsNonSpace(s[1..]);
    } else {
      var n := WordLength(s);
      var w, rest := s[..n], s[n..];
      assert s == w + rest;
      SplitWord(w, rest);
      assert ([w] + Split(rest))[1..] == Split(rest);
      NonSpaceAppend(w, rest);
      NonSpaceOfWord(w);
      SplitKeepsNonSpace(rest);
    }
  }

  /**
   * What `" ".join(s.split())` promises: the result is collapsed (single spaces,
   * no other whitespace, trimmed ends) and keeps every non-whitespace character
   * of `s`, in order.
   */
  lemma CollapseSpec(s: string)
    ensures Collapsed(Collapse(s))
    ensures NonSpace(Collapse(s)) == NonSpace(s)
  {
    JoinWordsCollapsed(Split(s));
    SplitKeepsNonSpace(s);
  }

  /** A word followed by nothing or by whitespace has exactly its own length as its leading run. */
  lemma {:induction false} WordLengthOf(w: string, rest: string)
    requires NoSpace(w) && (rest == [] || IsSpace(rest[0]))
    ensures WordLength(w + rest) == |w|
    decreases |w|
  {
    if w != [] {
      assert (w + rest)[1..] == w[1..] + rest;
      WordLengthOf(w[1..], rest);
    }
  }

  /** A word followed by nothing or by whitespace is split off whole. */
  lemma SplitWord(w: string, rest: string)
    requires w != [] && NoSpace(w) && (rest == [] || IsSpace(rest[0]))
    ensures Split(w + rest) == [w] + Split(rest)
  {
    var s := w + rest;
    assert s[0] == w[0];
    assert s[LeadingSpaces(s)..] == s;
    WordLengthOf(w, rest);
    assert s[..|w|] == w && s[|w|..] == rest;
  }

  /**
   * A whitespace character in front does not change the split. With
   * `SplitWord` and `Split([]) == []` this fixes `Split` on every string:
   * the words are exactly the maximal runs of non-whitespace characters.
   */
  lemma SplitSpace(c: char, rest: string)
    requires IsSpace(c)
    ensures Split([c] + rest) == Split(rest)
    ensures Split([]) == []
  {
    var s := [c] + rest;
    assert s[1..] == rest;
    assert s[LeadingSpaces(s)..] == rest[LeadingSpaces(rest)..];
  }

  /** A word and one space in front of `rest` split off as that word. */
  lemma SplitWordSpace(w: string, rest: string)
    requires w != [] && NoSpace(w)
    ensures Split(w + " " + rest) == [w] + Split(rest)
  {
    assert w + " " + rest == w + (" " + rest);
    SplitWord(w, " " + rest);
    SplitSpace(' ', rest);
  }

  /** Splitting non-empty words joined by single spaces gives the words back. */
  lemma {:induction false} SplitJoin(ws: seq<string>)
    requires forall k :: 0 <= k < |ws| ==> ws[k] != [] && NoSpace(ws[k])
    ensures Split(Join(ws, " ")) == ws
    decreases |ws|
  {
    if |ws| == 1 {
      assert ws[0] + [] == ws[0];
      SplitWord(ws[0], []);
    } else if |ws| > 1 {
      var rest := Join(ws[1..], " ");
      assert Join(ws, " ") == ws[0] + " " + rest;
      forall k | 0 <= k < |ws| - 1 ensures ws[1..][k] != [] && NoSpace(ws[1..][k]) {
        assert ws[1..][k] == ws[k + 1];
      }
      SplitJoin(ws[1..]);
      SplitWordSpace(ws[0], rest);
      assert [ws[0]] + ws[1..] == ws;
    }
  }

  /** Collapsing keeps the words, so collapsing twice is collapsing once. */
  lemma CollapseKeepsWords(s: string)
    ensures Split(Collapse(s)) == Split(s)
    ensures Collapse(Collapse(s)) == Collapse(s)
  {
    SplitJoin(Split(s));
  }

  // ---------------------------------------------------------------------------
  // Substrings and replace()
  // ---------------------------------------------------------------------------

  predicate OccursAt(s: string, pat: string, i: nat) {
    i + |pat| <= |s| && s[i..i + |pat|] == pat
  }

  /** Python's `pat in s`. */
  predicate Contains(s: string, pat: string) {
    exists i: nat | i <= |s| :: OccursAt(s, pat, i)
  }

  /**
   * `s.replace(pat, "")`: every non-overlapping occurrence of `pat`, found left
   * to right, is deleted.
   */
  function ReplaceAll(s: string, pat: string): (r: string)
    requires |pat| > 0
    ensures |r| <= |s|
    ensures OccursAt(s, pat, 0) ==> |r| <= |s| - |pat|
    decreases |s|
  {
    if |s| < |pat| then s
    else if s[..|pat|] == pat then
      assert s[0..|pat|] == s[..|pat|];
      ReplaceAll(s[|pat|..], pat)
    else [s[0]] + ReplaceAll(s[1..], pat)
  }

  /** Where `pat` does not occur, `s.replace(pat, "")` is `s` itself. */
  lemma {:induction false} ReplaceAllWithout(s: string, pat: string)
    requires |pat| > 0 && forall j: nat :: !OccursAt(s, pat, j)
    ensures ReplaceAll(s, pat) == s
    decreases |s|
  {
    if |s| >= |pat| {
      assert !OccursAt(s, pat, 0);
      ReplaceAllKeep(s, pat);
      forall j: nat ensures !OccursAt(s[1..], pat, j) {
        assert OccursAt(s[1..], pat, j) ==> OccursAt(s, pat, j + 1) by {
          if j + |pat| <= |s| - 1 {
            assert s[1..][j..j + |pat|] == s[j + 1..j + 1 + |pat|];
          }
        }
      }
      ReplaceAllWithout(s[1..], pat);
    }
  }

  /** `s.find(pat)` from `i` on: the first place at or after `i` where `pat` occurs. */
  function FindFrom(s: string, pat: string, i: nat): (r: Option<nat>)
    ensures r.Some? ==> i <= r.value && OccursAt(s, pat, r.value)
    ensures r.Some? ==> forall j :: i <= j < r.value ==> !OccursAt(s, pat, j)
    ensures r.None? ==> forall j :: i <= j ==> !OccursAt(s, pat, j)
    decreases |s| - i
  {
    if i + |pat| > |s| then None
    else if OccursAt(s, pat, i) then Some(i)
    else FindFrom(s, pat, i + 1)
  }

  /**
   * `s.replace(pat, "")` is fixed by the first occurrence of `pat`: what comes
   * before it is kept as it is, the occurrence is deleted, and the deletion
   * goes on in what follows it. With `!Contains(s, pat) ==> ReplaceAll(s, pat) == s`
   * this determines `ReplaceAll` on every string.
   */
  lemma ReplaceAllAtFirst(s: string, pat: string, i: nat)
    requires |pat| > 0 && OccursAt(s, pat, i) && forall j :: 0 <= j < i ==> !OccursAt(s, pat, j)
    ensures ReplaceAll(s, pat) == s[..i] + ReplaceAll(s[i + |pat|..], pat)
  {
    var k := 0;
    assert s[k..] == s;
    while k < i
      invariant k <= i
      invariant ReplaceAll(s, pat) == s[..k] + ReplaceAll(s[k..], pat)
    {
      assert !OccursAt(s, pat, k);
      ReplaceAllKeepAt(s, pat, k);
      Snoc(s, k, ReplaceAll(s[k + 1..], pat));
      k := k + 1;
    }
    ReplaceAllDropAt(s, pat, i);
  }

  /** `ReplaceAllKeep` on the suffix from `k`. */
  lemma ReplaceAllKeepAt(s: string, pat: string, k: nat)
    requires |pat| > 0 && k + |pat| <= |s| && !OccursAt(s, pat, k)
    ensures ReplaceAll(s[k..], pat) == [s[k]] + ReplaceAll(s[k + 1..], pat)
  {
    var t := s[k..];
    assert t[0..|pat|] == s[k..k + |pat|];
    ReplaceAllKeep(t, pat);
    assert t[1..] == s[k + 1..];
  }

  /** `ReplaceAllDrop` on the suffix from `i`. */
  lemma ReplaceAllDropAt(s: string, pat: string, i: nat)
    requires |pat| > 0 && OccursAt(s, pat, i)
    ensures ReplaceAll(s[i..], pat) == ReplaceAll(s[i + |pat|..], pat)
  {
    var t := s[i..];
    assert t[0..|pat|] == s[i..i + |pat|];
    ReplaceAllDrop(t, pat);
    assert t[|pat|..] == s[i + |pat|..];
  }

  lemma Snoc(s: string, k: nat, r: string)
    requires k < |s|
    ensures s[..k] + ([s[k]] + r) == s[..k + 1] + r
  {
    assert s[..k + 1] == s[..k] + [s[k]];
  }

  /** One step of `ReplaceAll`: an occurrence at the front is dropped. */
  lemma ReplaceAllDrop(s: string, pat: string)
    requires |pat| > 0 && OccursAt(s, pat, 0)
    ensures ReplaceAll(s, pat) == ReplaceAll(s[|pat|..], pat)
  {
    assert s[0..|pat|] == s[..|pat|];
  }

  /** One step of `ReplaceAll`: a first character that starts no occurrence is kept. */
  lemma ReplaceAllKeep(s: string, pat: string)
    requires |pat| > 0 && |pat| <= |s| && !OccursAt(s, pat, 0)
    ensures ReplaceAll(s, pat) == [s[0]] + ReplaceAll(s[1..], pat)
  {
    assert s[0..|pat|] == s[..|pat|];
  }

  /** An occurrence with none between `k` and it is the one `FindFrom` finds from `k`. */
  lemma {:induction false} FindFromFirst(s: string, pat: string, k: nat, i: nat)
    requires k <= i && OccursAt(s, pat, i) && forall j :: k <= j < i ==> !OccursAt(s, pat, j)
    ensures FindFrom(s, pat, k) == Some(i)
    decreases i - k
  {
    if k < i {
      assert !OccursAt(s, pat, k);
      FindFromFirst(s, pat, k + 1, i);
    }
  }

  /** Deleting an occurrence that is there always shortens the string. */
  lemma {:induction false} ReplaceAllShrinks(s: string, pat: string)
    requires |pat| > 0 && Contains(s, pat)
    ensures |ReplaceAll(s, pat)| <= |s| - |pat|
    decreases |s|
  {
    var i: nat :| OccursAt(s, pat, i);
    assert OccursAt(s, pat, i);
    assert s[0..|pat|] == s[..|pat|];
    if s[..|pat|] != pat {
      assert i > 0 && i + |pat| <= |s|;
      assert s[1..][i - 1..i - 1 + |pat|] == s[i..i + |pat|];
      assert OccursAt(s[1..], pat, i - 1);
      ReplaceAllShrinks(s[1..], pat);
    }
  }
}
