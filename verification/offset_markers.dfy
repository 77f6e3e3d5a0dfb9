/**
  Removal of offset markers from caller-supplied date strings: the main
  client rewrites each bound with `replace(/Z|GMT-[0-9]+/g, '')` before
  parsing, so that the literal is read as local wall-clock time. The
  expression scans left to right; at each position it tries `Z` first, then
  `GMT-` followed by the longest run of ASCII digits, and resumes after a
  match.
 */
module OffsetMarkers {
  import opened Sequences

  predicate IsDigit(c: char) {
    '0' <= c <= '9'
  }

  /** The length of the run of digits at the head of `s` (what `[0-9]+` consumes, greedily). */
  function DigitRun(s: string): (n: nat)
    ensures n <= |s|
    ensures forall i :: 0 <= i < n ==> IsDigit(s[i])
    ensures n < |s| ==> !IsDigit(s[n])
  {
    if |s| == 0 || !IsDigit(s[0]) then 0 else 1 + DigitRun(s[1..])
  }

  /** `GMT-` followed by at least one digit starts at the head of `s`. */
  predicate GmtMinusAt(s: string) {
    |s| >= 5 && s[..4] == "GMT-" && IsDigit(s[4])
  }

  /** The length of the marker the expression matches at the head of `s`; 0 when none does. */
  function MarkerLength(s: string): (n: nat)
    ensures n <= |s|
    ensures n > 0 <==> (|s| > 0 && s[0] == 'Z') || GmtMinusAt(s)
  {
    if |s| > 0 && s[0] == 'Z' then 1
    else if GmtMinusAt(s) then 4 + DigitRun(s[4..])
    else 0
  }

  /** No marker starts anywhere in `s`. */
  predicate NoMarkers(s: string) {
    forall i :: 0 <= i < |s| ==> MarkerLength(s[i..]) == 0
  }

  /** `s.replace(/Z|GMT-[0-9]+/g, '')`. */
  function StripOffsets(s: string): (r: string)
    ensures |r| <= |s|
    ensures 'Z' !in r
    decreases |s|
  {
    if |s| == 0 then ""
    else
      var m := MarkerLength(s);
      if m > 0 then StripOffsets(s[m..])
      else [s[0]] + StripOffsets(s[1..])
  }

  /** Every character of the result comes from the input, in the input's order. */
  lemma {:induction false} StripKeepsOrder(s: string)
    ensures IsSubsequence(StripOffsets(s), s)
    decreases |s|
  {
    if |s| > 0 {
      var m := MarkerLength(s);
      if m > 0 {
        StripKeepsOrder(s[m..]);
        DropPrefixKeepsSubsequence(StripOffsets(s[m..]), s, m);
      } else {
        StripKeepsOrder(s[1..]);
      }
    }
  }

  lemma {:induction false} DropPrefixKeepsSubsequence(a: string, s: string, m: nat)
    requires m <= |s|
    requires IsSubsequence(a, s[m..])
    ensures IsSubsequence(a, s)
    decreases m
  {
    if m > 0 {
      assert s[1..][m - 1..] == s[m..];
      DropPrefixKeepsSubsequence(a, s[1..], m - 1);
    }
  }

  /** A string without markers is returned unchanged, and only such a string is. */
  lemma StripUnchangedIff(s: string)
    ensures StripOffsets(s) == s <==> NoMarkers(s)
  {
    if NoMarkers(s) {
      StripIdentity(s);
    } else {
      StripShrinks(s);
    }
  }

  lemma {:induction false} StripIdentity(s: string)
    requires NoMarkers(s)
    ensures StripOffsets(s) == s
    decreases |s|
  {
    if |s| > 0 {
      assert MarkerLength(s[0..]) == 0;
      assert s[0..] == s;
      assert NoMarkers(s[1..]) by {
        forall i | 0 <= i < |s[1..]| ensures MarkerLength(s[1..][i..]) == 0 {
          assert s[1..][i..] == s[i + 1..];
        }
      }
      StripIdentity(s[1..]);
    }
  }

  lemma {:induction false} StripShrinks(s: string)
    requires !NoMarkers(s)
    ensures |StripOffsets(s)| < |s|
    decreases |s|
  {
    var i :| 0 <= i < |s| && MarkerLength(s[i..]) != 0;
    if MarkerLength(s) == 0 {
      assert i > 0 && s[1..][i - 1..] == s[i..];
      StripShrinks(s[1..]);
    }
  }

  lemma {:induction false} DigitRunStopsAt(d: string, t: string)
    requires |t| > 0 && !IsDigit(t[0])
    ensures DigitRun(d + t) == DigitRun(d)
    decreases |d|
  {
    if |d| == 0 {
      assert d + t == t;
    } else if IsDigit(d[0]) {
      assert (d + t)[1..] == d[1..] + t;
      DigitRunStopsAt(d[1..], t);
    }
  }

  /**
    A trailing `Z` is stripped: "2024-01-01T10:00:00Z" and
    "2024-01-01T10:00:00" come out the same.
   */
  lemma {:induction false} TrailingZStripped(s: string)
    ensures StripOffsets(s + "Z") == StripOffsets(s)
    decreases |s|
  {
    var t := s + "Z";
    if |s| == 0 {
      assert t == "Z";
      assert StripOffsets(t) == StripOffsets(t[1..]);
      assert t[1..] == "";
    } else if s[0] == 'Z' {
      assert t[0] == 'Z' && t[1..] == s[1..] + "Z";
      TrailingZStripped(s[1..]);
    } else if GmtMinusAt(s) {
      assert t[..4] == s[..4] && t[4] == s[4];
      assert t[4..] == s[4..] + "Z";
      DigitRunStopsAt(s[4..], "Z");
      var m := MarkerLength(s);
      assert MarkerLength(t) == m;
      assert t[m..] == s[m..] + "Z";
      TrailingZStripped(s[m..]);
    } else {
      assert !GmtMinusAt(t) by {
        if |s| >= 5 {
          assert t[..4] == s[..4] && t[4] == s[4];
        } else if |s| == 4 {
          assert t[4] == 'Z';
        }
      }
      assert t[0] == s[0] && t[1..] == s[1..] + "Z";
      TrailingZStripped(s[1..]);
    }
  }

  predicate AllDigits(d: string) {
    forall i :: 0 <= i < |d| ==> IsDigit(d[i])
  }

  lemma {:induction false} DigitRunAll(d: string)
    requires AllDigits(d)
    ensures DigitRun(d) == |d|
    decreases |d|
  {
    if |d| > 0 {
      DigitRunAll(d[1..]);
    }
  }

  /** A head that matches no marker still matches none once a suffix starting with "GMT-" is appended. */
  lemma NoMarkerAcrossGmtSuffix(s: string, suffix: string)
    requires |s| > 0 && MarkerLength(s) == 0
    requires |suffix| >= 4 && suffix[..4] == "GMT-"
    ensures MarkerLength(s + suffix) == 0
  {
    var t := s + suffix;
    if |s| >= 5 {
      assert t[..4] == s[..4] && t[4] == s[4];
    } else if |s| == 4 {
      assert t[4] == suffix[0] == 'G';
    } else if |s| == 3 {
      assert t[3] == suffix[0] == 'G';
    } else if |s| == 2 {
      assert t[2] == suffix[0] == 'G';
    } else {
      assert t[1] == suffix[0] == 'G';
    }
  }

  /**
    A trailing `GMT-` offset is stripped: appending "GMT-" and a run of
    digits to any string does not change the stripped result.
   */
  lemma TrailingGmtMinusStripped(s: string, d: string)
    requires |d| > 0 && AllDigits(d)
    ensures StripOffsets(s + "GMT-" + d) == StripOffsets(s)
  {
    var suffix := "GMT-" + d;
    GmtMinusVanishes(d);
    TrailingVanishingGmt(s, suffix);
    assert s + "GMT-" + d == s + suffix;
  }

  /** "GMT-" followed by digits is one marker and strips to nothing. */
  lemma GmtMinusVanishes(d: string)
    requires |d| > 0 && AllDigits(d)
    ensures StripOffsets("GMT-" + d) == ""
  {
    var t := "GMT-" + d;
    assert t[..4] == "GMT-" && t[4] == d[0];
    assert t[4..] == d;
    DigitRunAll(d);
    assert t[|t|..] == "";
  }

  /** A suffix that starts with "GMT-" and strips to nothing is stripped whatever precedes it. */
  lemma {:induction false} TrailingVanishingGmt(s: string, suffix: string)
    requires |suffix| >= 4 && suffix[..4] == "GMT-"
    requires StripOffsets(suffix) == ""
    ensures StripOffsets(s + suffix) == StripOffsets(s)
    decreases |s|
  {
    var t := s + suffix;
    if |s| == 0 {
      assert t == suffix;
    } else if MarkerLength(s) > 0 {
      var m := MarkerLength(s);
      MarkerIgnoresGmtSuffix(s, suffix);
      assert t[m..] == s[m..] + suffix;
      TrailingVanishingGmt(s[m..], suffix);
    } else {
      NoMarkerAcrossGmtSuffix(s, suffix);
      assert t[1..] == s[1..] + suffix;
      TrailingVanishingGmt(s[1..], suffix);
    }
  }

  /** The marker at the head of `s` keeps its length when a suffix starting with 'G' is appended. */
  lemma MarkerIgnoresGmtSuffix(s: string, suffix: string)
    requires MarkerLength(s) > 0
    requires |suffix| > 0 && suffix[0] == 'G'
    ensures MarkerLength(s + suffix) == MarkerLength(s)
  {
    var t := s + suffix;
    if s[0] != 'Z' {
      assert t[..4] == s[..4] && t[4] == s[4];
      assert t[4..] == s[4..] + suffix;
      DigitRunStopsAt(s[4..], suffix);
    }
  }

  /**
    A suffix holding neither `Z` nor `-`, and not starting with a digit,
    cannot complete or contain a marker: appended to a marker-free string it
    survives stripping untouched.
   */
  lemma MarkerFreeSuffixSurvives(s: string, u: string)
    requires NoMarkers(s)
    requires 'Z' !in u && '-' !in u
    requires |u| > 0 ==> !IsDigit(u[0])
    ensures StripOffsets(s + u) == s + u
  {
    var t := s + u;
    forall i | 0 <= i < |t| ensures MarkerLength(t[i..]) == 0 {
      if i < |s| {
        assert MarkerLength(s[i..]) == 0;
        assert t[i] == s[i] && s[i..][0] == s[i];
        if i + 4 < |s| {
          assert t[i..][..4] == s[i..][..4];
          assert t[i..][4] == s[i..][4];
        } else if i + 4 == |s| {
          if |u| > 0 {
            assert t[i + 4] == u[0];
          }
        } else if i + 3 < |t| {
          assert t[i + 3] == u[i + 3 - |s|];
        }
      } else if i + 3 < |t| {
        assert t[i] == u[i - |s|];
        assert t[i..][3] == u[i + 3 - |s|];
      } else {
        assert t[i] == u[i - |s|];
      }
    }
    StripIdentity(t);
  }

  /** A positive `GMT+N` offset is not a marker: it reaches the parser intact. */
  lemma PositiveOffsetSurvives(s: string, d: string)
    requires NoMarkers(s)
    requires AllDigits(d)
    ensures StripOffsets(s + "GMT+" + d) == s + "GMT+" + d
  {
    var u := "GMT+" + d;
    assert 'Z' !in u && '-' !in u by {
      forall i | 0 <= i < |u| ensures u[i] != 'Z' && u[i] != '-' {
        if i >= 4 {
          assert u[i] == d[i - 4];
        }
      }
    }
    assert s + "GMT+" + d == s + u;
    MarkerFreeSuffixSurvives(s, u);
  }

  /** Only the upper-case `Z` is a marker: a lower-case `z` survives. */
  lemma LowerCaseZSurvives(s: string)
    requires NoMarkers(s)
    ensures StripOffsets(s + "z") == s + "z"
  {
    MarkerFreeSuffixSurvives(s, "z");
  }

  /**
    The expression makes a single pass, so removing one marker can bring a
    new one together: "GMGMT-1T-1" strips to "GMT-1", which still holds a
    marker. Stripping is therefore not idempotent.
   */
  lemma SinglePassCanLeaveMarker(d: string)
    requires |d| > 0 && AllDigits(d)
    ensures StripOffsets("GM" + ("GMT-" + d) + ("T-" + d)) == "GMT-" + d
    ensures StripOffsets("GMT-" + d) == ""
  {
    var tail := "T-" + d;
    var s2 := "GMT-" + d + tail;
    GmGmtShape(d);
    LeadingGmtMinusStripped(d, tail);
    OffsetTextSurvives(d);
    StripPlainChar('M', s2);
    assert (['M'] + s2)[1] == 'G';
    StripPlainChar('G', ['M'] + s2);
    GmtMinusVanishes(d);
  }

  /** The two strings of the single-pass example, rebuilt one character at a time. */
  lemma GmGmtShape(d: string)
    ensures "GM" + ("GMT-" + d) + ("T-" + d) == ['G'] + (['M'] + ("GMT-" + d + ("T-" + d)))
    ensures ['G'] + (['M'] + ("T-" + d)) == "GMT-" + d
  {
    var gm: string := ['G'] + ['M'];
    assert gm == "GM" && gm + "T-" == "GMT-";
    var g := "GMT-" + d;
    var tail := "T-" + d;
    assert ['G'] + (['M'] + (g + tail)) == gm + (g + tail);
    assert gm + (g + tail) == (gm + g) + tail;
    assert ['G'] + (['M'] + tail) == gm + tail;
    assert gm + ("T-" + d) == (gm + "T-") + d;
  }

  /** "T-" followed by digits holds no marker and survives stripping. */
  lemma OffsetTextSurvives(d: string)
    requires AllDigits(d)
    ensures StripOffsets("T-" + d) == "T-" + d
  {
    var tail := "T-" + d;
    assert "T-"[0] == 'T' && "T-"[1] == '-';
    forall i | 0 <= i < |tail| ensures tail[i] != 'Z' && tail[i] != 'G' {
      if i >= 2 {
        assert tail[i] == d[i - 2];
      }
    }
    NoMarkersWithoutZOrG(tail);
    StripUnchangedIff(tail);
  }

  /** A `GMT-` marker at the head is removed with all its digits, and stripping goes on after it. */
  lemma LeadingGmtMinusStripped(d: string, rest: string)
    requires |d| > 0 && AllDigits(d)
    requires |rest| > 0 ==> !IsDigit(rest[0])
    ensures StripOffsets("GMT-" + d + rest) == StripOffsets(rest)
  {
    var s := "GMT-" + d + rest;
    LeadingGmtMinusLength(d, rest);
    StripSkipsMarker(s);
  }

  /** The marker at the head of "GMT-" + d + rest spans exactly the digits of `d`. */
  lemma LeadingGmtMinusLength(d: string, rest: string)
    requires |d| > 0 && AllDigits(d)
    requires |rest| > 0 ==> !IsDigit(rest[0])
    ensures MarkerLength("GMT-" + d + rest) == 4 + |d|
    ensures ("GMT-" + d + rest)[4 + |d|..] == rest
  {
    var s := "GMT-" + d + rest;
    DigitRunOfDigits(d, rest);
    assert s[..4] == "GMT-" && s[4] == d[0];
    assert s[4..] == d + rest;
  }

  /** A run of digits followed by a non-digit (or nothing) is consumed exactly. */
  lemma DigitRunOfDigits(d: string, rest: string)
    requires AllDigits(d)
    requires |rest| > 0 ==> !IsDigit(rest[0])
    ensures DigitRun(d + rest) == |d|
  {
    DigitRunAll(d);
    if |rest| > 0 {
      DigitRunStopsAt(d, rest);
    } else {
      assert d + rest == d;
    }
  }

  /** A marker at the head is dropped whole and stripping resumes after it. */
  lemma StripSkipsMarker(s: string)
    requires MarkerLength(s) > 0
    ensures StripOffsets(s) == StripOffsets(s[MarkerLength(s)..])
  {
  }

  /** A string without `Z` and without `G` holds no marker. */
  lemma NoMarkersWithoutZOrG(s: string)
    requires forall i :: 0 <= i < |s| ==> s[i] != 'Z' && s[i] != 'G'
    ensures NoMarkers(s)
  {
    forall i | 0 <= i < |s| ensures MarkerLength(s[i..]) == 0 {
      var t := s[i..];
      assert t[0] == s[i];
      assert "GMT-"[0] == 'G';
      assert |t| >= 5 ==> t[..4][0] == s[i];
    }
  }

  /** A character that starts no marker is kept, and stripping goes on after it. */
  lemma StripPlainChar(c: char, rest: string)
    requires c != 'Z' && (c != 'G' || |rest| < 2 || rest[1] != 'T')
    ensures StripOffsets([c] + rest) == [c] + StripOffsets(rest)
  {
    var s := [c] + rest;
    assert !GmtMinusAt(s) by {
      assert "GMT-"[0] == 'G' && "GMT-"[2] == 'T';
      assert |s| >= 5 ==> s[..4][0] == c && s[..4][2] == rest[1];
    }
    assert MarkerLength(s) == 0;
    assert s[1..] == rest;
  }
}
