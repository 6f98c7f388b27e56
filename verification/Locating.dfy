/**
 Where a hunk applies: what a match is, and what the search for the nearest one promises.
 */
module Locating {
  import opened Text
  import opened Hunk
  import opened LooseMatch

  /** Line k of the file and a pattern line agree, word for word or up to whitespace. */
  predicate LineMatches(lines: seq<string>, k: int, text: string, loose: bool) {
    1 <= k <= |lines| && if loose then Alike(lines[k - 1], text) else lines[k - 1] == text
  }

  /** All old lines match from line at on. */
  predicate MatchesAt(olds: seq<Cell>, lines: seq<string>, at: int, loose: bool) {
    forall i :: 0 <= i < |olds| ==> LineMatches(lines, at + i, olds[i].text, loose)
  }

  /** strncmp on text a, which may go on, and pattern b of length n. */
  predicate StrnEq(a: string, b: string, n: nat)
    requires n <= |b|
  {
    n <= |a| && a[..n] == b[..n]
  }

  /** Comparing a whole line with the start of a text compares it with the text's first line. */
  lemma StrnIsLine(a: string, line: string, b: string)
    requires IsLine(b) && (a == "" || (IsLine(line) && line <= a))
    ensures StrnEq(a, b, |b|) <==> a != "" && line == b
    ensures '\n' in a && Alike(FirstLine(a), b) <==> a != "" && Alike(line, b)
  {
    if a != "" {
      FirstLineOf(line, a[|line|..]);
      assert a == line + a[|line|..];
      assert a[|line| - 1] == '\n';
      if StrnEq(a, b, |b|) {
        FirstLineOf(b, a[|b|..]);
        assert a == b + a[|b|..];
      }
    }
  }

  /** Farthest offset the search tries, in both directions. */
  function Reach(lines: seq<string>, guess: int, pat: nat): int {
    |lines| - guess - pat + 1
  }

  predicate InReach(lines: seq<string>, guess: int, pat: nat, d: int) {
    d == 0 || -Reach(lines, guess, pat) <= d <= Reach(lines, guess, pat)
  }

  /** Offset d is tried before offset e: by distance, and forward first. */
  predicate Before(d: int, e: int) {
    (if d < 0 then -d else d) < (if e < 0 then -e else e) || (d == -e && d > 0)
  }

  /** No match among the offsets tried before e. */
  ghost predicate NoneBefore(olds: seq<Cell>, lines: seq<string>, guess: int, loose: bool, e: int) {
    forall d :: Before(d, e) ==> !MatchesAt(olds, lines, guess + d, loose)
  }

  /** What locate_hunk promises for a pattern that is not empty: 0 exactly if there is no match within
      reach, else the match nearest the guess, forward before backward. */
  ghost predicate Located(olds: seq<Cell>, lines: seq<string>, guess: int, loose: bool, where: int) {
    if where == 0 then forall d :: InReach(lines, guess, |olds|, d) ==> !MatchesAt(olds, lines, guess + d, loose)
    else
      && MatchesAt(olds, lines, where, loose) && InReach(lines, guess, |olds|, where - guess)
      && NoneBefore(olds, lines, guess, loose, where - guess)
  }

  /** A match lies inside the file; one at or behind the guess is always within reach. */
  lemma MatchFits(olds: seq<Cell>, lines: seq<string>, at: int, loose: bool, guess: int)
    requires olds != [] && MatchesAt(olds, lines, at, loose)
    ensures 1 <= at && at + |olds| - 1 <= |lines|
    ensures guess <= at ==> InReach(lines, guess, |olds|, at - guess)
  {
    assert LineMatches(lines, at + 0, olds[0].text, loose);
    assert LineMatches(lines, at + (|olds| - 1), olds[|olds| - 1].text, loose);
  }

  /** So the search misses a match exactly when every match lies too far in front of the guess: farther
      than the space the pattern has behind it. */
  lemma MissesExactly(olds: seq<Cell>, lines: seq<string>, guess: int, loose: bool, where: int)
    requires olds != [] && Located(olds, lines, guess, loose, where)
    ensures where == 0 <==>
            forall at :: MatchesAt(olds, lines, at, loose) ==> at < guess && guess - at > |lines| - guess - |olds| + 1
  {
    if where == 0 {
      forall at | MatchesAt(olds, lines, at, loose)
        ensures at < guess && guess - at > |lines| - guess - |olds| + 1
      {
        MatchFits(olds, lines, at, loose, guess);
        assert !MatchesAt(olds, lines, guess + (at - guess), loose) || !InReach(lines, guess, |olds|, at - guess);
      }
    } else {
      MatchFits(olds, lines, where, loose, guess);
    }
  }

  /** What is found matches, and lies in front of the guess only as far as the pattern has space behind it;
      nothing nearer to the guess matches, and nothing as far behind it when it lies in front. */
  lemma FindsNearest(olds: seq<Cell>, lines: seq<string>, guess: int, loose: bool, where: int)
    requires olds != [] && Located(olds, lines, guess, loose, where) && where != 0
    ensures MatchesAt(olds, lines, where, loose) && (where < guess ==> guess - where <= |lines| - guess - |olds| + 1)
    ensures where < guess ==> forall at :: where < at <= guess + (guess - where) ==> !MatchesAt(olds, lines, at, loose)
    ensures where >= guess ==> forall at :: guess - (where - guess) < at < where ==> !MatchesAt(olds, lines, at, loose)
  {
    forall at | Before(at - guess, where - guess) ensures !MatchesAt(olds, lines, at, loose) {
      assert !MatchesAt(olds, lines, guess + (at - guess), loose);
    }
  }

  /** And nothing else keeps the promise. */
  lemma LocatedExactly(olds: seq<Cell>, lines: seq<string>, guess: int, loose: bool, where: int)
    requires olds != []
    requires where == 0 ==> forall at :: MatchesAt(olds, lines, at, loose) ==> at < guess && guess - at > |lines| - guess - |olds| + 1
    requires where != 0 ==> MatchesAt(olds, lines, where, loose) && (where < guess ==> guess - where <= |lines| - guess - |olds| + 1)
    requires where != 0 && where < guess ==> forall at :: where < at <= guess + (guess - where) ==> !MatchesAt(olds, lines, at, loose)
    requires where != 0 && where >= guess ==> forall at :: guess - (where - guess) < at < where ==> !MatchesAt(olds, lines, at, loose)
    ensures Located(olds, lines, guess, loose, where)
  {
    if where != 0 { MatchFits(olds, lines, where, loose, guess); }
  }

  /** A hunk for line 1 of a three-line file, guessed at line 3: there is a match, and it is not found. */
  lemma LocateMisses(a: string, b: string, c: string, where: int)
    requires a != b && a != c && Located([Cell(' ', a, |a|)], [a, b, c], 3, false, where)
    ensures MatchesAt([Cell(' ', a, |a|)], [a, b, c], 1, false) && where == 0
  {
    var olds, lines := [Cell(' ', a, |a|)], [a, b, c];
    forall at | MatchesAt(olds, lines, at, false) ensures at == 1 {
      assert LineMatches(lines, at + 0, olds[0].text, false);
    }
    MissesExactly(olds, lines, 3, false, where);
  }

  /** One line more behind the guess, and a match one line in front of it is in reach; without that line it
      is not. */
  lemma LocateEdge(a: string, b: string, c: string, d: string, where: int, where': int)
    requires a != b && a != c && a != d
    requires Located([Cell(' ', a, |a|)], [b, a, c], 3, false, where)
    requires Located([Cell(' ', a, |a|)], [b, a, c, d], 3, false, where')
    ensures where == 0 && where' == 2
  {
    var olds, lines, lines' := [Cell(' ', a, |a|)], [b, a, c], [b, a, c, d];
    forall at | MatchesAt(olds, lines, at, false) ensures at == 2 { assert LineMatches(lines, at + 0, olds[0].text, false); }
    forall at | MatchesAt(olds, lines', at, false) ensures at == 2 { assert LineMatches(lines', at + 0, olds[0].text, false); }
    MissesExactly(olds, lines, 3, false, where);
    assert MatchesAt(olds, lines', 2, false);
    MissesExactly(olds, lines', 3, false, where');
    FindsNearest(olds, lines', 3, false, where');
  }

  /** Two results that keep the promise are one. */
  lemma LocatedUnique(olds: seq<Cell>, lines: seq<string>, guess: int, loose: bool, v: int, w: int)
    requires olds != [] && Located(olds, lines, guess, loose, v) && Located(olds, lines, guess, loose, w)
    ensures v == w
  {
    assert v != 0 ==> MatchesAt(olds, lines, guess + (v - guess), loose);
    assert w != 0 ==> MatchesAt(olds, lines, guess + (w - guess), loose);
    assert v == w || Before(v - guess, w - guess) || Before(w - guess, v - guess);
  }
}
