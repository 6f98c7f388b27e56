/**
 Text as the patch programs see it: newline-terminated lines, and files as their concatenation.
 */
module Text {

  /** A line: its newline is its last character, and it holds no NUL. */
  predicate IsLine(s: string) {
    && |s| > 0 && s[|s| - 1] == '\n'
    && (forall i :: 0 <= i < |s| - 1 ==> s[i] != '\n')
    && (forall i :: 0 <= i < |s| ==> s[i] != '\0')
  }

  predicate AreLines(ls: seq<string>) {
    forall i :: 0 <= i < |ls| ==> IsLine(ls[i])
  }

  /** The characters of a file given by its lines. */
  function Flat(ls: seq<string>): string {
    if ls == [] then "" else ls[0] + Flat(ls[1..])
  }

  lemma {:induction false} FlatAppend(a: seq<string>, b: seq<string>)
    ensures Flat(a + b) == Flat(a) + Flat(b)
  {
    if a == [] {
      assert a + b == b;
    } else {
      assert (a + b)[1..] == a[1..] + b;
      FlatAppend(a[1..], b);
    }
  }

  lemma FlatOne(l: string)
    ensures Flat([l]) == l
  {
    assert [l][1..] == [];
  }

  /** Length of the first line of s, with its newline; all of s when there is none. */
  function LineLength(s: string): (n: nat)
    ensures n <= |s| && (s != "" ==> n > 0)
  {
    if s == "" then 0 else if s[0] == '\n' then 1 else 1 + LineLength(s[1..])
  }

  function FirstLine(s: string): string {
    s[..LineLength(s)]
  }

  lemma {:induction false} LineLengthExact(s: string)
    ensures forall i :: 0 <= i < LineLength(s) - 1 ==> s[i] != '\n'
    ensures '\n' in s ==> LineLength(s) > 0 && s[LineLength(s) - 1] == '\n'
    ensures '\n' !in s ==> LineLength(s) == |s|
  {
    if s != "" && s[0] != '\n' {
      LineLengthExact(s[1..]);
      assert s == [s[0]] + s[1..];
    }
  }

  /** A text that starts with a line has that line as its first line. */
  lemma {:induction false} FirstLineOf(l: string, rest: string)
    requires |l| > 0 && l[|l| - 1] == '\n' && (forall i :: 0 <= i < |l| - 1 ==> l[i] != '\n')
    ensures LineLength(l + rest) == |l| && FirstLine(l + rest) == l
  {
    if |l| > 1 {
      assert l[0] != '\n' && (l + rest)[1..] == l[1..] + rest;
      FirstLineOf(l[1..], rest);
    }
  }

  /** The lines of a text; a last line without newline counts as a line. */
  function Lines(s: string): seq<string>
    decreases |s|
  {
    if s == "" then [] else [FirstLine(s)] + Lines(s[LineLength(s)..])
  }

  /** Splitting the characters of a file gives back its lines. */
  lemma {:induction false} LinesOfFlat(ls: seq<string>)
    requires AreLines(ls)
    ensures Lines(Flat(ls)) == ls
  {
    if ls != [] {
      FirstLineOf(ls[0], Flat(ls[1..]));
      LinesOfFlat(ls[1..]);
    }
  }

  /** Different lists of lines are different files. */
  lemma FlatInjective(a: seq<string>, b: seq<string>)
    requires AreLines(a) && AreLines(b) && Flat(a) == Flat(b)
    ensures a == b
  {
    LinesOfFlat(a);
    LinesOfFlat(b);
  }

  lemma {:induction false} FlatOfLines(s: string)
    ensures Flat(Lines(s)) == s
    decreases |s|
  {
    if s != "" {
      FlatOfLines(s[LineLength(s)..]);
      assert Lines(s)[1..] == Lines(s[LineLength(s)..]);
    }
  }

  lemma {:induction false} LinesAreLines(s: string)
    requires s == "" || s[|s| - 1] == '\n'
    requires forall i :: 0 <= i < |s| ==> s[i] != '\0'
    ensures AreLines(Lines(s))
    decreases |s|
  {
    if s != "" {
      var n := LineLength(s);
      LineLengthExact(s);
      assert '\n' in s;
      LinesAreLines(s[n..]);
      assert IsLine(FirstLine(s));
    }
  }
}
