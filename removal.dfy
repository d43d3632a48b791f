/**
 * What `ET_MARKERS.sub("", s)` and `AWST_MARKERS.sub("", s)` leave behind:
 * no marker of the removed family can be found in the result again.
 *
 * The argument works on any left-to-right removal scan, described by the
 * length `len(j)` of the match the scan removes at `j` (0 for none): it
 * tracks which positions of `s` the result keeps, and uses the `\b` on
 * both sides of every removed match.
 */
module Removal {
  import opened Wrappers
  import opened Text
  import opened Zones
  import opened Lexer

  /** The positions of `s` whose characters `CutFrom(s, len, i)` keeps, in order. */
  function KeptFrom(s: string, len: nat -> nat, i: nat): (K: seq<nat>)
    ensures forall k :: 0 <= k < |K| ==> i <= K[k] < |s|
    decreases |s| - i
  {
    if i >= |s| then []
    else if len(i) > 0 then KeptFrom(s, len, i + len(i))
    else [i] + KeptFrom(s, len, i + 1)
  }

  /** Every match the scan removes fits in `s` and has `\b` on both of its sides. */
  predicate Bordered(s: string, len: nat -> nat)
  {
    forall j :: 0 <= j < |s| && len(j) > 0 ==> j + len(j) <= |s| && WordStart(s, j) && WordEnd(s, j + len(j))
  }

  /** Each kept character comes from its place in `s`, where no match starts. */
  lemma {:induction false} KeptPlaces(s: string, len: nat -> nat, i: nat)
    ensures |CutFrom(s, len, i)| == |KeptFrom(s, len, i)|
    ensures forall k :: 0 <= k < |KeptFrom(s, len, i)| ==>
              CutFrom(s, len, i)[k] == s[KeptFrom(s, len, i)[k]] && len(KeptFrom(s, len, i)[k]) == 0
    decreases |s| - i
  {
    if i < |s| && len(i) > 0 {
      KeptPlaces(s, len, i + len(i));
    } else if i < |s| {
      KeptPlaces(s, len, i + 1);
      var K', out' := KeptFrom(s, len, i + 1), CutFrom(s, len, i + 1);
      var K, out := [i] + K', [s[i]] + out';
      forall k | 0 <= k < |K| ensures out[k] == s[K[k]] && len(K[k]) == 0 {
        if k > 0 {
          assert K[k] == K'[k - 1] && out[k] == out'[k - 1];
        }
      }
    }
  }

  /** The kept positions increase. */
  lemma {:induction false} KeptIncreasing(s: string, len: nat -> nat, i: nat)
    ensures forall a, b :: 0 <= a < b < |KeptFrom(s, len, i)| ==> KeptFrom(s, len, i)[a] < KeptFrom(s, len, i)[b]
    decreases |s| - i
  {
    if i < |s| && len(i) > 0 {
      KeptIncreasing(s, len, i + len(i));
    } else if i < |s| {
      KeptIncreasing(s, len, i + 1);
      var K' := KeptFrom(s, len, i + 1);
      var K := [i] + K';
      forall a, b | 0 <= a < b < |K| ensures K[a] < K[b] {
        assert K[b] == K'[b - 1];
        if a > 0 {
          assert K[a] == K'[a - 1];
        }
      }
    }
  }

  /** A cut at the front of the scanned part ends where `\b` holds. */
  lemma {:induction false} KeptFirst(s: string, len: nat -> nat, i: nat)
    requires Bordered(s, len)
    ensures 0 < |KeptFrom(s, len, i)| && KeptFrom(s, len, i)[0] != i ==> !IsWordChar(s[KeptFrom(s, len, i)[0]])
    decreases |s| - i
  {
    if i < |s| && len(i) > 0 {
      KeptFirst(s, len, i + len(i));
    }
  }

  /** A cut after the last kept character, running to the end of `s`, starts where `\b` holds. */
  predicate EndsAtBorder(s: string, K: seq<nat>)
  {
    0 < |K| && K[|K| - 1] + 1 < |s| ==> !IsWordChar(s[K[|K| - 1]])
  }

  lemma KeptLastStep(s: string, len: nat -> nat, i: nat)
    requires Bordered(s, len) && i < |s| && len(i) == 0
    requires EndsAtBorder(s, KeptFrom(s, len, i + 1))
    ensures EndsAtBorder(s, KeptFrom(s, len, i))
  {
    var K' := KeptFrom(s, len, i + 1);
    var K := [i] + K';
    assert KeptFrom(s, len, i) == K;
    if 0 < |K'| {
      assert K[|K| - 1] == K'[|K'| - 1];
    } else if i + 1 < |s| {
      assert len(i + 1) > 0;
      assert WordStart(s, i + 1);
    }
  }

  lemma {:induction false} KeptLast(s: string, len: nat -> nat, i: nat)
    requires Bordered(s, len)
    ensures EndsAtBorder(s, KeptFrom(s, len, i))
    decreases |s| - i
  {
    if i < |s| && len(i) > 0 {
      KeptLast(s, len, i + len(i));
      assert KeptFrom(s, len, i) == KeptFrom(s, len, i + len(i));
    } else if i < |s| {
      KeptLast(s, len, i + 1);
      KeptLastStep(s, len, i);
    }
  }

  /** A cut between two kept characters has `\b` on both sides. */
  lemma {:induction false} KeptGaps(s: string, len: nat -> nat, i: nat)
    requires Bordered(s, len)
    ensures forall a, b :: 0 <= a && b == a + 1 < |KeptFrom(s, len, i)| && KeptFrom(s, len, i)[b] != KeptFrom(s, len, i)[a] + 1 ==>
              !IsWordChar(s[KeptFrom(s, len, i)[a]]) && !IsWordChar(s[KeptFrom(s, len, i)[b]])
    decreases |s| - i
  {
    if i < |s| && len(i) > 0 {
      KeptGaps(s, len, i + len(i));
    } else if i < |s| {
      KeptGaps(s, len, i + 1);
      KeptFirst(s, len, i + 1);
      var K' := KeptFrom(s, len, i + 1);
      var K := [i] + K';
      forall a, b | 0 <= a && b == a + 1 < |K| && K[b] != K[a] + 1
        ensures !IsWordChar(s[K[a]]) && !IsWordChar(s[K[b]])
      {
        if a > 0 {
          assert K[a] == K'[a - 1] && K[b] == K'[b - 1];
        } else {
          assert K[1] == K'[0] != i + 1;
          assert len(i + 1) > 0;
        }
      }
    }
  }

  /**
   * `out` is `s` with stretches cut out, `K` giving the place in `s` of each
   * character of `out`; every cut, including one at either end, has a
   * non-word character on each side that remains.
   */
  predicate Cuts(s: string, out: string, K: seq<nat>)
  {
    |out| == |K|
    && (forall k :: 0 <= k < |K| ==> K[k] < |s| && out[k] == s[K[k]])
    && (forall a, b :: 0 <= a < b < |K| ==> K[a] < K[b])
    && (forall a, b :: 0 <= a && b == a + 1 < |K| && K[b] != K[a] + 1 ==> !IsWordChar(s[K[a]]) && !IsWordChar(s[K[b]]))
    && (0 < |K| && K[0] != 0 ==> !IsWordChar(s[K[0]]))
    && EndsAtBorder(s, K)
  }

  /** A scan whose matches are all bordered by `\b` cuts `s` in the sense of `Cuts`. */
  lemma ScanCuts(s: string, len: nat -> nat)
    requires Bordered(s, len)
    ensures Cuts(s, CutFrom(s, len, 0), KeptFrom(s, len, 0))
  {
    KeptPlaces(s, len, 0);
    KeptIncreasing(s, len, 0);
    KeptFirst(s, len, 0);
    KeptLast(s, len, 0);
    KeptGaps(s, len, 0);
  }

  lemma LowerKeepsWordChar(c: char)
    ensures IsWordChar(Lower(c)) <==> IsWordChar(c)
  {
  }

  /**
   * A literal that never has two non-word characters in a row, read across
   * what `Cuts` leaves, lies on consecutive positions of `s`: no cut falls
   * inside it.
   */
  lemma OccurrenceContiguous(s: string, out: string, K: seq<nat>, p: nat, w: string)
    requires Cuts(s, out, K)
    requires forall t :: 0 <= t < |w| - 1 ==> IsWordChar(w[t]) || IsWordChar(w[t + 1])
    requires 0 < |w| && p + |w| <= |out| && forall t :: 0 <= t < |w| ==> Lower(out[p + t]) == w[t]
    ensures forall u :: p <= u < p + |w| ==> K[u] == K[p] + (u - p)
  {
    forall q, q' | p <= q && q' == q + 1 < p + |w| ensures K[q'] == K[q] + 1 {
      assert Lower(out[q]) == w[q - p] && Lower(out[q']) == w[q' - p];
      LowerKeepsWordChar(out[q]);
      LowerKeepsWordChar(out[q']);
    }
    var q := p;
    while q + 1 < p + |w|
      invariant p <= q < p + |w|
      invariant forall u :: p <= u <= q ==> K[u] == K[p] + (u - p)
    {
      assert K[q + 1] == K[q] + 1;
      q := q + 1;
    }
  }

  /** A kept word character with `\b` before it in what `Cuts` leaves has `\b` before it in `s`. */
  lemma CutKeepsWordStart(s: string, out: string, K: seq<nat>, p: nat)
    requires Cuts(s, out, K) && p < |out| && IsWordChar(out[p]) && WordStart(out, p)
    ensures WordStart(s, K[p])
  {
    if p > 0 {
      assert K[p - 1] + 1 == K[p];
    }
  }

  /** A kept word character with `\b` after it in what `Cuts` leaves has `\b` after it in `s`. */
  lemma CutKeepsWordEnd(s: string, out: string, K: seq<nat>, e: nat)
    requires Cuts(s, out, K) && 0 < e <= |out| && IsWordChar(out[e - 1]) && WordEnd(out, e)
    ensures WordEnd(s, K[e - 1] + 1)
  {
    if e < |out| {
      assert K[e] == K[e - 1] + 1;
    }
  }

  /** A kept stretch of consecutive positions, word characters at both of its ends, keeps its `\b` on both sides. */
  lemma CutKeepsBorders(s: string, out: string, K: seq<nat>, p: nat, n: nat)
    requires Cuts(s, out, K) && 0 < n && p + n <= |out| && K[p + n - 1] + 1 == K[p] + n
    requires IsWordChar(out[p]) && WordStart(out, p) && IsWordChar(out[p + n - 1]) && WordEnd(out, p + n)
    ensures WordStart(s, K[p]) && WordEnd(s, K[p] + n)
  {
    CutKeepsWordStart(s, out, K, p);
    CutKeepsWordEnd(s, out, K, p + n);
  }

  /** `LowerMatchAt` letter by letter. */
  lemma LowerMatchLetters(t: string, a: nat, w: string)
    requires LowerMatchAt(t, a, w)
    ensures forall u :: 0 <= u < |w| ==> Lower(t[a + u]) == w[u]
  {
    forall u | 0 <= u < |w| ensures Lower(t[a + u]) == w[u] {
      assert LowerString(t[a..a + |w|])[u] == w[u];
    }
  }

  /** A stretch of `out` that lies on consecutive positions of `s` is a copy of them. */
  lemma ContiguousCopy(s: string, out: string, K: seq<nat>, p: nat, n: nat)
    requires Cuts(s, out, K) && 0 < n && p + n <= |out|
    requires forall u :: p <= u < p + n ==> K[u] == K[p] + (u - p)
    ensures K[p] + n <= |s| && s[K[p]..K[p] + n] == out[p..p + n]
  {
    assert K[p + n - 1] == K[p] + n - 1;
    var copy, part := s[K[p]..K[p] + n], out[p..p + n];
    forall u | 0 <= u < n ensures copy[u] == part[u] {
      assert K[p + u] == K[p] + u;
    }
  }

  /**
   * A case-insensitive occurrence of a literal that never has two non-word
   * characters in a row, read across what `Cuts` leaves, was already an
   * occurrence in `s` on consecutive positions from where its first
   * character came from.
   */
  lemma CutKeepsMatch(s: string, out: string, K: seq<nat>, p: nat, w: string)
    requires Cuts(s, out, K)
    requires 0 < |w| && forall t :: 0 <= t < |w| - 1 ==> IsWordChar(w[t]) || IsWordChar(w[t + 1])
    requires LowerMatchAt(out, p, w)
    ensures LowerMatchAt(s, K[p], w) && K[p + |w| - 1] + 1 == K[p] + |w|
  {
    LowerMatchLetters(out, p, w);
    OccurrenceContiguous(s, out, K, p, w);
    ContiguousCopy(s, out, K, p, |w|);
  }

  /**
   * An occurrence of a word-bounded literal in what `Cuts` leaves, for a
   * literal that begins and ends with a word character and never has two
   * non-word characters in a row, was already an occurrence in `s` at the
   * place its first character came from.
   */
  lemma CutKeepsWord(s: string, out: string, K: seq<nat>, p: nat, w: string)
    requires Cuts(s, out, K)
    requires 2 <= |w| && IsWordChar(w[0]) && IsWordChar(w[|w| - 1])
    requires forall t :: 0 <= t < |w| - 1 ==> IsWordChar(w[t]) || IsWordChar(w[t + 1])
    requires p < |out| && WordStart(out, p) && WordAt(out, p, w)
    ensures WordStart(s, K[p]) && WordAt(s, K[p], w)
  {
    var L := |w|;
    CutKeepsMatch(s, out, K, p, w);
    var part := out[p..p + L];
    assert Lower(out[p]) == LowerString(part)[0] == w[0];
    assert Lower(out[p + L - 1]) == LowerString(part)[L - 1] == w[L - 1];
    LowerKeepsWordChar(out[p]);
    LowerKeepsWordChar(out[p + L - 1]);
    CutKeepsBorders(s, out, K, p, L);
  }

  // ---------------------------------------------------------------------------
  // The marker families
  // ---------------------------------------------------------------------------

  /** A marker match fits in `s` and has `\b` on both sides. */
  lemma MarkerBordered(s: string, z: Zone, j: nat)
    requires MarkerLengths(s, z)(j) > 0
    ensures j + MarkerLengths(s, z)(j) <= |s| && WordStart(s, j) && WordEnd(s, j + MarkerLengths(s, z)(j))
  {
    assert MarkerLengths(s, z)(j) == MarkerLength(s, z, j);
    var k := MarkerAt(s, j, z).value;
    assert WordAt(s, j, Markers(z)[k]);
  }

  /** Every marker match is bordered by `\b`. */
  lemma MarkersBordered(s: string, z: Zone)
    ensures Bordered(s, MarkerLengths(s, z))
  {
    var len := MarkerLengths(s, z);
    forall j | 0 <= j < |s| && len(j) > 0
      ensures j + len(j) <= |s| && WordStart(s, j) && WordEnd(s, j + len(j))
    {
      MarkerBordered(s, z, j);
    }
  }

  /** Every marker begins and ends with a letter and has no two non-word characters side by side. */
  lemma MarkerShape(z: Zone, k: nat)
    requires k < |Markers(z)|
    ensures var w := Markers(z)[k];
            2 <= |w| && IsAsciiLetter(w[0]) && IsAsciiLetter(w[|w| - 1])
            && forall t :: 0 <= t < |w| - 1 ==> IsWordChar(w[t]) || IsWordChar(w[t + 1])
  {
  }

  /** Where `re.sub` finds no marker in `s`, none can start at the character kept from there. */
  lemma NoMarkerAtKept(s: string, z: Zone, out: string, K: seq<nat>, p: nat)
    requires Cuts(s, out, K) && p < |out| && MarkerLengths(s, z)(K[p]) == 0 && WordStart(out, p)
    ensures forall k :: 0 <= k < |Markers(z)| ==> !WordAt(out, p, Markers(z)[k])
  {
    assert MarkerLength(s, z, K[p]) == 0;
    forall k | 0 <= k < |Markers(z)| ensures !WordAt(out, p, Markers(z)[k]) {
      if WordAt(out, p, Markers(z)[k]) {
        MarkerShape(z, k);
        CutKeepsWord(s, out, K, p, Markers(z)[k]);
        assert false;
      }
    }
  }

  /** No marker starts anywhere in what `re.sub` leaves. */
  lemma NoMarkerAtOut(s: string, z: Zone, p: nat)
    requires p < |RemoveMarkers(s, z)|
    ensures MarkerAt(RemoveMarkers(s, z), p, z).None?
  {
    var len := MarkerLengths(s, z);
    var out := RemoveMarkers(s, z);
    var K := KeptFrom(s, len, 0);
    MarkersBordered(s, z);
    ScanCuts(s, len);
    KeptPlaces(s, len, 0);
    if WordStart(out, p) {
      NoMarkerAtKept(s, z, out, K, p);
    }
  }

  /**
   * `re.sub` leaves nothing for the same pattern to find: after the markers
   * of a family are removed, searching for that family again finds none.
   */
  lemma NoMarkerLeft(s: string, z: Zone)
    ensures FindMarker(RemoveMarkers(s, z), z).None?
  {
    var out := RemoveMarkers(s, z);
    forall p | 0 <= p < |out| ensures MarkerAt(out, p, z).None? {
      NoMarkerAtOut(s, z, p);
    }
  }

  /** Positions where the scan finds no match are copied through unchanged. */
  lemma {:induction false} CutKeepsPlain(s: string, len: nat -> nat, i: nat, p: nat)
    requires i <= p <= |s| && forall j :: i <= j < p ==> len(j) == 0
    ensures CutFrom(s, len, i) == s[i..p] + CutFrom(s, len, p)
    decreases p - i
  {
    if i < p {
      assert len(i) == 0;
      assert CutFrom(s, len, i) == [s[i]] + CutFrom(s, len, i + 1);
      CutKeepsPlain(s, len, i + 1, p);
      assert s[i..p] == [s[i]] + s[i + 1..p];
    }
  }

  /** The scan copies everything before its first match and resumes after it. */
  lemma CutAtFirst(s: string, len: nat -> nat, i: nat, n: nat)
    requires i < |s| && 0 < n == len(i) && forall j :: 0 <= j < i ==> len(j) == 0
    ensures CutFrom(s, len, 0) == s[..i] + CutFrom(s, len, i + n)
  {
    CutKeepsPlain(s, len, 0, i);
    assert s[0..i] == s[..i];
  }

  /** With no marker of the family in `s`, `re.sub` returns `s` itself. */
  lemma RemoveMarkersWithout(s: string, z: Zone)
    ensures FindMarker(s, z).None? ==> RemoveMarkers(s, z) == s
  {
    if FindMarker(s, z).None? {
      var len := MarkerLengths(s, z);
      var at := (j: nat) => MarkerAt(s, j, z);
      assert FindMarker(s, z) == Leftmost(at, 0, |s|);
      forall j | 0 <= j < |s| ensures len(j) == 0 {
        assert at(j).None?;
        assert MarkerLength(s, z, j) == 0;
      }
      CutKeepsPlain(s, len, 0, |s|);
      assert s[0..|s|] == s;
    }
  }

  /** The leftmost marker has its own length, and nothing matches before it. */
  lemma LeftmostMarkerLengths(s: string, z: Zone, i: nat, k: nat)
    requires FindMarker(s, z) == Some((i, k))
    ensures i < |s| && k < |Markers(z)|
    ensures MarkerLengths(s, z)(i) == |Markers(z)[k]| > 0
    ensures forall j :: 0 <= j < i ==> MarkerLengths(s, z)(j) == 0
  {
    var at := (j: nat) => MarkerAt(s, j, z);
    assert FindMarker(s, z) == Leftmost(at, 0, |s|);
    assert MarkerAt(s, i, z) == at(i) == Some(k);
    forall j | 0 <= j < i ensures MarkerLengths(s, z)(j) == 0 {
      assert at(j).None?;
      assert MarkerLength(s, z, j) == 0;
    }
  }

  /**
   * `re.sub` keeps everything before the leftmost marker, deletes that
   * marker, and carries on scanning right after it.
   */
  lemma RemoveMarkersAtFirst(s: string, z: Zone, i: nat, k: nat)
    requires FindMarker(s, z) == Some((i, k))
    ensures k < |Markers(z)|
    ensures RemoveMarkers(s, z) == s[..i] + CutFrom(s, MarkerLengths(s, z), i + |Markers(z)[k]|)
  {
    LeftmostMarkerLengths(s, z, i, k);
    CutAtFirst(s, MarkerLengths(s, z), i, |Markers(z)[k]|);
  }
}
