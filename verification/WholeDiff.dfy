/**
 A whole printed diff, as a caller of hunk_next and hunk_getc sees it.
 */
module WholeDiff {
  import opened Text
  import opened Decimal
  import opened NormalDiff
  import opened FlikiReader
  import opened Fliki

  /** The answers of hunk_getc on hunk h: its deletions and EOS, then its additions and EOS. */
  function Answers(h: DiffHunk): seq<int> {
    (if h.kind.Append? then [] else Codes(Flat(h.dels)) + [EOS]) + (if h.kind.Delete? then [] else Codes(Flat(h.adds)) + [EOS])
  }

  /** hunk_next and then as many calls of hunk_getc as that, over and over: the diff is read as d, and
      then is at its end. */
  ghost predicate ReadsAs(s: string, st: State, h: Hunk, d: seq<DiffHunk>)
    decreases |d|
  {
    var r := HunkNext(s, st, h);
    if d == [] then r.status == EOF
    else
      var g := Gets(s, r.st, r.h.kind, |Answers(d[0])|);
      r.status == 0 && r.h == HunkOf(d[0]) && g.0 == Answers(d[0]) && ReadsAs(s, g.1, r.h, d[1..])
  }

  lemma {:induction false} GetsMore(s: string, st: State, kind: HunkType, n: nat, k: nat)
    ensures var a, b := Gets(s, st, kind, n), Gets(s, st, kind, n + k); var c := Gets(s, a.1, kind, k); b == (a.0 + c.0, c.1)
    decreases n
  {
    hide HunkGetc;
    if n > 0 {
      var g := HunkGetc(s, st, kind);
      GetsMore(s, g.st, kind, n - 1, k);
      var a, c := Gets(s, g.st, kind, n - 1), Gets(s, Gets(s, st, kind, n).1, kind, k);
      assert [g.c] + a.0 + c.0 == [g.c] + (a.0 + c.0);
    } else {
      assert [] + Gets(s, st, kind, k).0 == Gets(s, st, kind, k).0;
    }
  }

  /** A section and its EOS. */
  lemma SectionAnswers(s: string, st: State, kind: HunkType, mark: char, ls: seq<string>, rest: string)
    requires Within(s, st, mark, "", ls, rest) && Allowed(mark, kind) && Follows(rest, kind)
    ensures var g := Gets(s, st, kind, |Codes(Flat(ls)) + [EOS]|); g.0 == Codes(Flat(ls)) + [EOS] && Ended(s, g.1, rest)
  {
    hide HunkGetc, Within, Flat, Follows, Ended;
    var n := |Flat(ls)|;
    assert "" + Flat(ls) == Flat(ls);
    SectionRead(s, st, kind, mark, "", ls, rest);
    var e := Gets(s, st, kind, n).1;
    GetcEnd(s, e, kind, mark, rest);
    EndedThere(s, e, kind, mark, rest);
    GetsMore(s, st, kind, n, 1);
    OneGet(s, e, kind);
  }

  lemma OneGet(s: string, st: State, kind: HunkType)
    ensures Gets(s, st, kind, 1) == ([HunkGetc(s, st, kind).c], HunkGetc(s, st, kind).st)
  {
    hide HunkGetc;
    var g := HunkGetc(s, st, kind);
    var rest: (seq<int>, State) := Gets(s, g.st, kind, 0);
    assert [g.c] + rest.0 == [g.c];
  }

  lemma EndedThere(s: string, e: State, kind: HunkType, mark: char, rest: string)
    requires Within(s, e, mark, "", [], rest) && Follows(rest, kind)
    ensures Ended(s, HunkGetc(s, e, kind).st, rest)
  {
    GetcEnd(s, e, kind, mark, rest);
    EndText(s, e, mark, rest);
    hide HunkGetc, Within, Flat, Follows;
  }

  /** The reader stands behind the header of h, whose body and then tail lie ahead. */
  ghost predicate BodyAhead(s: string, st: State, h: DiffHunk, tail: string) {
    && st == State(st.pos, NL, 0, FxnNext, 0) && st.pos <= |s| && s[st.pos..] == Flat(BodyLines(h)) + tail
    && Proper(h) && AsciiLines(h.dels) && AsciiLines(h.adds)
  }

  lemma FirstWithin(s: string, st: State, h: DiffHunk, tail: string)
    requires BodyAhead(s, st, h, tail)
    ensures h.kind.Append? ==> Within(s, st, '>', "", h.adds, tail)
    ensures h.kind.Delete? ==> Within(s, st, '<', "", h.dels, tail)
    ensures h.kind.Change? ==> Within(s, st, '<', "", h.dels, "---\n" + (Flat(Marked("> ", h.adds)) + tail))
  {
    hide Flat, Marked, BodyLines;
    BodyFlat(h, tail);
    var m := if h.kind.Append? then Flat(Marked("> ", h.adds)) else Flat(Marked("< ", h.dels));
    assert "" + m == m && ['>', ' '] == "> " && ['<', ' '] == "< ";
  }

  lemma SecondWithin(s: string, st: State, h: DiffHunk, tail: string)
    requires AsciiLines(h.adds) && Ended(s, st, "---\n" + (Flat(Marked("> ", h.adds)) + tail))
    ensures Within(s, st, '>', "", h.adds, tail)
  {
    hide Flat, Marked;
    var m := Flat(Marked("> ", h.adds));
    assert ("---\n" + (m + tail))[4..] == m + tail;
    assert "" + m == m && ['>', ' '] == "> ";
  }

  /** The body of one hunk, up to the next header or the end. */
  lemma HunkAnswers(s: string, st: State, h: DiffHunk, tail: string)
    requires BodyAhead(s, st, h, tail) && (tail == "" || IsDigit(tail[0])) && !("---\n" <= tail)
    ensures var g := Gets(s, st, KindOf(h.kind), |Answers(h)|); g.0 == Answers(h) && g.1.pos <= |s| && s[g.1.pos..] == tail
  {
    hide Flat, Marked, Within, HunkGetc, BodyAhead, Gets, Codes;
    FirstWithin(s, st, h, tail);
    var dels, adds := Codes(Flat(h.dels)) + [EOS], Codes(Flat(h.adds)) + [EOS];
    if h.kind.Append? {
      assert Answers(h) == adds;
      SectionAnswers(s, st, AppendType, '>', h.adds, tail);
    } else if h.kind.Delete? {
      assert Answers(h) == dels;
      SectionAnswers(s, st, DeleteType, '<', h.dels, tail);
    } else {
      var second := "---\n" + (Flat(Marked("> ", h.adds)) + tail);
      DashesFollow(Flat(Marked("> ", h.adds)) + tail);
      SectionAnswers(s, st, ChangeType, '<', h.dels, second);
      var e := Gets(s, st, ChangeType, |dels|).1;
      AddsAscii(s, st, h, tail);
      SecondWithin(s, e, h, tail);
      SectionAnswers(s, e, ChangeType, '>', h.adds, tail);
      GetsMore(s, st, ChangeType, |dels|, |adds|);
    }
  }

  lemma AddsAscii(s: string, st: State, h: DiffHunk, tail: string)
    requires BodyAhead(s, st, h, tail)
    ensures AsciiLines(h.adds)
  {
  }

  /** One hunk, header and body. */
  lemma HunkRead(s: string, st: State, h: Hunk, d: seq<DiffHunk>)
    requires d != [] && AllProper(d) && AsciiLines(d[0].dels) && AsciiLines(d[0].adds)
    requires st.pos <= |s| && s[st.pos..] == Flat(PrintAll(d))
    ensures var r := HunkNext(s, st, h); var g := Gets(s, r.st, r.h.kind, |Answers(d[0])|);
      r.status == 0 && r.h == HunkOf(d[0]) && g.0 == Answers(d[0]) && g.1.pos <= |s| && s[g.1.pos..] == Flat(PrintAll(d[1..]))
  {
    hide HunkNext, Gets, Header, Answers, Proper, BodyLines, HunkOf, Behind, Follows, GoesOn, IsDigit, Flat, PrintAll, AsciiLines;
    var tail := Behind(d, 1, "");
    BehindAll(d);
    FlatFrom(d, 0, "");
    HeaderRead(s, st, h, d[0], Flat(BodyLines(d[0])) + tail);
    TailStart(d);
    KindIs(d[0]);
    HunkAnswers(s, HunkNext(s, st, h).st, d[0], tail);
  }

  /** Whatever was called before: on the print of proper hunks the calls give the hunks of the diff, each
      with its deleted and added text, and then the end of the file. */
  lemma {:induction false} DiffReadWhole(s: string, st: State, h: Hunk, d: seq<DiffHunk>)
    requires AllProper(d) && forall i :: 0 <= i < |d| ==> AsciiLines(d[i].dels) && AsciiLines(d[i].adds)
    requires st.pos <= |s| && s[st.pos..] == Flat(PrintAll(d))
    ensures ReadsAs(s, st, h, d)
    decreases |d|
  {
    hide HunkNext, Gets, Answers, Proper, HunkOf, AsciiLines;
    if d == [] {
      assert |s[st.pos..]| == 0;
      NextAtEnd(s, st, h);
    } else {
      HunkRead(s, st, h, d);
      var r := HunkNext(s, st, h);
      DiffReadWhole(s, Gets(s, r.st, r.h.kind, |Answers(d[0])|).1, r.h, d[1..]);
    }
  }

  lemma KindIs(h: DiffHunk)
    ensures HunkOf(h).kind == KindOf(h.kind)
  {
  }

  lemma BehindAll(d: seq<DiffHunk>)
    requires d != []
    ensures Behind(d, 0, "") == Flat(PrintAll(d)) && Behind(d, 1, "") == Flat(PrintAll(d[1..]))
  {
    assert d[0..] == d;
  }

  lemma TailStart(d: seq<DiffHunk>)
    requires d != [] && AllProper(d)
    ensures var tail := Behind(d, 1, ""); (tail == "" || IsDigit(tail[0])) && !("---\n" <= tail)
  {
    TailFollows(d, 0, "");
    if |d| > 1 {
      FlatFrom(d, 1, "");
      PrintIsLines(d[1]);
    }
  }
}
