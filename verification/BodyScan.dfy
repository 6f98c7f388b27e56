/**
 What hunk_getc makes of any text behind a header: how the sections of the body end.
 */
module BodyScan {
  import opened Text
  import opened Decimal
  import opened FlikiReader

  /** A line that belongs to a section: a mark the kind of the hunk allows, a blank, and a character. */
  predicate Carries(t: string, kind: HunkType) {
    |t| > 2 && t[1] == ' ' && ((t[0] == '<' && !kind.AppendType?) || (t[0] == '>' && !kind.DeleteType?))
  }

  /** An error; or the end, with the text behind it, of a section of so many lines that three dashes follow
      or not. */
  datatype SectionEnd = Refused | EndsAt(rest: string, dashes: bool, lines: nat)

  function OneMore(e: SectionEnd): SectionEnd {
    match e case Refused => e case EndsAt(rest, dashes, n) => EndsAt(rest, dashes, n + 1)
  }

  /** How the section at the start of text t ends, line by line. */
  function SectionEndOf(t: string, kind: HunkType): SectionEnd
    decreases |t|
  {
    if t == "" || IsDigit(t[0]) then EndsAt(t, false, 0)
    else if kind.ChangeType? && "---\n" <= t then EndsAt(t[4..], true, 0)
    else if Carries(t, kind) && FirstLine(t)[LineLength(t) - 1] == '\n' then OneMore(SectionEndOf(t[LineLength(t)..], kind))
    else Refused
  }

  /** The same where the first line is taken for text, mark and all. */
  function SectionEndFrom(t: string, kind: HunkType, over: bool): SectionEnd {
    if !over then SectionEndOf(t, kind)
    else if '\n' in t then OneMore(SectionEndOf(t[LineLength(t)..], kind))
    else Refused
  }

  function OldCount(h: Hunk): int {
    h.oldEnd - h.oldStart + 1
  }

  function NewCount(h: Hunk): int {
    h.newEnd - h.newStart + 1
  }

  /** A body with a line that cannot be in it, or with an unfinished one; with more lines or fewer than the
      header says; or a change without additions. */
  predicate BodyBroken(t: string, h: Hunk, over: bool) {
    match SectionEndFrom(t, h.kind, over)
    case Refused => true
    case EndsAt(rest, dashes, n) =>
      n != (if h.kind.AppendType? then NewCount(h) else OldCount(h)) || (h.kind.ChangeType? && (!dashes || AddsBroken(rest, h)))
  }

  predicate AddsBroken(t: string, h: Hunk) {
    match SectionEndOf(t, h.kind)
    case Refused => true
    case EndsAt(_, _, n) => n != NewCount(h)
  }

  /** The answer of hunk_getc that ends a section, the first one that is no character, and how many newlines
      came in front of it. */
  datatype Final = Final(got: Got, lines: nat)

  function More(f: Final, n: nat): Final {
    Final(f.got, f.lines + n)
  }

  function Course(s: string, st: State, kind: HunkType): Final
    decreases |s| - st.pos
  {
    GetcConsumes(s, st, kind);
    var g := HunkGetc(s, st, kind);
    if g.c > 0 then More(Course(s, g.st, kind), if g.c == NL then 1 else 0) else Final(g, 0)
  }

  lemma CourseStep(s: string, st: State, kind: HunkType)
    ensures var g := HunkGetc(s, st, kind);
      Course(s, st, kind) == if g.c > 0 then More(Course(s, g.st, kind), if g.c == NL then 1 else 0) else Final(g, 0)
  {
    hide HunkGetc;
  }

  lemma {:induction false} RestOfLine(s: string, st: State, kind: HunkType, l: string, rest: string)
    requires !Dead(st) && st.pos <= |s| && s[st.pos..] == l + rest && Ascii(l + rest)
    requires (l == "") == (st.lastChar == NL)
    requires l != "" ==> l[|l| - 1] == '\n' && forall i :: 0 <= i < |l| - 1 ==> l[i] != '\n'
    ensures var st' := State(st.pos + |l|, NL, if l == "" then st.errStatus else 0, if l == "" then st.lastUsed else FxnGetc, st.finished);
      && Course(s, st, kind) == More(Course(s, st', kind), if l == "" then 0 else 1)
      && st'.pos <= |s| && s[st'.pos..] == rest && !Dead(st')
    decreases |l|
  {
    hide HunkGetc;
    if l == "" {
      assert l + rest == rest;
    } else {
      GetcInside(s, st, kind, l + rest);
      assert s[st.pos + 1..] == s[st.pos..][1..] == l[1..] + rest;
      RestOfLine(s, HunkGetc(s, st, kind).st, kind, l[1..], rest);
    }
  }

  lemma {:induction false} Unfinished(s: string, st: State, kind: HunkType, p: string)
    requires !Dead(st) && st.pos <= |s| && st.lastChar != NL && s[st.pos..] == p && Ascii(p) && '\n' !in p
    ensures Course(s, st, kind).got.c == ERR
    decreases |p|
  {
    hide HunkGetc;
    GetcInside(s, st, kind, p);
    if p != "" {
      assert s[st.pos + 1..] == p[1..];
      assert '\n' !in p[1..];
      Unfinished(s, HunkGetc(s, st, kind).st, kind, p[1..]);
    }
  }

  /** Answer g is the end e of a section: an error, or EOS with the text behind the section still to come;
      hunk_getc goes on there only behind three dashes. */
  predicate Reached(s: string, f: Final, e: SectionEnd) {
    var g := f.got;
    match e
    case Refused => g.c == ERR
    case EndsAt(rest, dashes, n) =>
      f.lines == n && g.c == EOS && g.st.pos <= |s| && s[g.st.pos..] == rest && Dead(g.st) == !dashes && (dashes ==> g.st.lastChar == NL)
  }

  /** The reader stands at the start of a line, and t is what comes. */
  predicate LineStart(s: string, st: State, t: string) {
    !Dead(st) && st.lastChar == NL && st.pos <= |s| && t == s[st.pos..] && Ascii(t)
  }

  /** Reading on from the start of a line, hunk_getc comes to the end that the lines tell. */
  lemma {:induction false} CourseExact(s: string, st: State, kind: HunkType, t: string)
    requires LineStart(s, st, t)
    ensures Reached(s, Course(s, st, kind), SectionEndOf(t, kind))
    decreases |t|
  {
    hide LineLength, Course, SectionEndOf, Goes, LineStart, Reached, More, OneMore;
    if Goes(t, kind) {
      CourseLine(s, st, kind, t);
      SectionLine(t, kind);
      var n := LineLength(t);
      if t[n - 1] == '\n' {
        var st' := State(st.pos + n, NL, 0, FxnGetc, st.finished);
        CourseExact(s, st', kind, t[n..]);
        OneReached(s, Course(s, st', kind), SectionEndOf(t[n..], kind));
      } else {
        ErrReached(s, Course(s, st, kind));
      }
    } else {
      CourseStops(s, st, kind, t);
    }
  }

  /** A further line of the section comes. */
  predicate Goes(t: string, kind: HunkType) {
    t != "" && !IsDigit(t[0]) && !(kind.ChangeType? && "---\n" <= t) && Carries(t, kind)
  }

  lemma SectionLine(t: string, kind: HunkType)
    requires Goes(t, kind)
    ensures t != "" && SectionEndOf(t, kind) == if t[LineLength(t) - 1] == '\n' then OneMore(SectionEndOf(t[LineLength(t)..], kind)) else Refused
  {
    hide LineLength;
    assert FirstLine(t)[LineLength(t) - 1] == t[LineLength(t) - 1];
  }

  lemma OneReached(s: string, f: Final, e: SectionEnd)
    requires Reached(s, f, e)
    ensures Reached(s, More(f, 1), OneMore(e))
  {
  }

  lemma ErrReached(s: string, f: Final)
    requires f.got.c == ERR
    ensures Reached(s, f, Refused)
  {
  }

  lemma CourseStops(s: string, st: State, kind: HunkType, t: string)
    requires LineStart(s, st, t) && !Goes(t, kind)
    ensures Reached(s, Course(s, st, kind), SectionEndOf(t, kind))
  {
    hide HunkGetc, LineLength, Course, Ascii;
    CourseStep(s, st, kind);
    GetcExact(s, st, kind, t);
    if "---\n" <= t { assert s[st.pos + 4..] == t[4..]; }
  }

  /** And so it does from where the last character read was no newline. */
  lemma CourseFrom(s: string, st: State, kind: HunkType, t: string)
    requires !Dead(st) && st.pos <= |s| && t == s[st.pos..] && Ascii(t)
    ensures Reached(s, Course(s, st, kind), SectionEndFrom(t, kind, st.lastChar != NL))
  {
    hide LineLength, Course, SectionEndOf, Dead, Reached, Ascii, More, OneMore;
    if st.lastChar == NL {
      CourseExact(s, st, kind, t);
    } else if '\n' in t {
      RestRead(s, st, kind, t);
      var st' := State(st.pos + LineLength(t), NL, 0, FxnGetc, st.finished);
      CourseExact(s, st', kind, t[LineLength(t)..]);
      OneReached(s, Course(s, st', kind), SectionEndOf(t[LineLength(t)..], kind));
    } else {
      Unfinished(s, st, kind, t);
      ErrReached(s, Course(s, st, kind));
    }
  }

  /** The rest of a line is read, and the next one starts. */
  lemma RestRead(s: string, st: State, kind: HunkType, t: string)
    requires !Dead(st) && st.pos <= |s| && t == s[st.pos..] && Ascii(t) && st.lastChar != NL && '\n' in t
    ensures var st' := State(st.pos + LineLength(t), NL, 0, FxnGetc, st.finished);
      Course(s, st, kind) == More(Course(s, st', kind), 1) && LineStart(s, st', t[LineLength(t)..])
  {
    hide LineLength, Course, Dead;
    LineLengthExact(t);
    var n := LineLength(t);
    assert t == t[..n] + t[n..];
    RestOfLine(s, st, kind, t[..n], t[n..]);
  }

  /** In a broken body one of the sections that have to be read ends in an error, or has not the lines that
      the header says. */
  lemma BrokenErrs(s: string, st: State, h: Hunk, t: string)
    requires !Dead(st) && st.pos <= |s| && t == s[st.pos..] && Ascii(t) && BodyBroken(t, h, st.lastChar != NL)
    ensures var f := Course(s, st, h.kind);
      || f.got.c == ERR || f.lines != (if h.kind.AppendType? then NewCount(h) else OldCount(h))
      || (h.kind.ChangeType? && AddsErr(s, f.got.st, h))
  {
    hide LineLength, Course, SectionEndOf, SectionEndFrom, Dead, OldCount, NewCount, AddsErr, AddsBroken;
    CourseFrom(s, st, h.kind, t);
    var f, e := Course(s, st, h.kind), SectionEndFrom(t, h.kind, st.lastChar != NL);
    if e.EndsAt? {
      if e.dashes { RestAscii(t, h.kind, st.lastChar != NL); AddsRead(s, f.got.st, h, e.rest); } else { DeadCourse(s, f.got.st, h); }
    }
  }

  predicate AddsErr(s: string, st: State, h: Hunk) {
    Course(s, st, h.kind).got.c == ERR || Course(s, st, h.kind).lines != NewCount(h)
  }

  lemma AddsRead(s: string, st: State, h: Hunk, t: string)
    requires !Dead(st) && st.lastChar == NL && st.pos <= |s| && t == s[st.pos..] && Ascii(t)
    ensures AddsBroken(t, h) ==> AddsErr(s, st, h)
  {
    hide Course, SectionEndOf, Dead, NewCount;
    CourseExact(s, st, h.kind, t);
  }

  lemma DeadCourse(s: string, st: State, h: Hunk)
    requires Dead(st)
    ensures AddsErr(s, st, h)
  {
  }

  lemma RestAscii(t: string, kind: HunkType, over: bool)
    requires Ascii(t)
    ensures var e := SectionEndFrom(t, kind, over); e.EndsAt? ==> Ascii(e.rest)
  {
    hide SectionEndOf, LineLength;
    EndAscii(t, kind);
    if '\n' in t { EndAscii(t[LineLength(t)..], kind); }
  }

  lemma {:induction false} EndAscii(t: string, kind: HunkType)
    requires Ascii(t)
    ensures var e := SectionEndOf(t, kind); e.EndsAt? ==> Ascii(e.rest)
    decreases |t|
  {
    hide LineLength;
    if t != "" && Carries(t, kind) { EndAscii(t[LineLength(t)..], kind); }
  }

  /** One line of a section. */
  lemma CourseLine(s: string, st: State, kind: HunkType, t: string)
    requires LineStart(s, st, t) && Goes(t, kind)
    ensures t != ""
    ensures var n := LineLength(t);
      if t[n - 1] == '\n' then
        var st' := State(st.pos + n, NL, 0, FxnGetc, st.finished);
        Course(s, st, kind) == More(Course(s, st', kind), 1) && LineStart(s, st', t[n..])
      else Course(s, st, kind).got.c == ERR
  {
    hide HunkGetc, LineLength, Course;
    CourseStep(s, st, kind);
    GetcExact(s, st, kind, t);
    LineLengthExact(t);
    var n, g := LineLength(t), HunkGetc(s, st, kind);
    assert n > 2;
    assert s[st.pos + 3..] == t[3..];
    if t[n - 1] == '\n' {
      assert t[3..] == t[3..n] + t[n..];
      RestOfLine(s, g.st, kind, t[3..n], t[n..]);
    } else {
      Unfinished(s, g.st, kind, t[3..]);
    }
  }
}
