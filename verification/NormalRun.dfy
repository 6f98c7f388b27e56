/**
 The patch program on a normal diff: another_hunk and the main loop together.
 */
module NormalRun {
  import opened Text
  import opened Decimal
  import opened Hunk
  import opened LooseMatch
  import opened Merging
  import opened Defines
  import opened Edits
  import opened Effects
  import opened Locating
  import opened NormalDiff
  import opened UndoDiff
  import opened PatchFile
  import opened Patching

  /** Body lines of the patch hold at least a newline behind their two mark characters. */
  predicate LongMarks(ls: seq<string>) {
    forall j :: 0 <= j < |ls| && (Starts(ls, j, '<') || Starts(ls, j, '>')) ==> |ls[j]| > 2
  }

  lemma ParsedWellFormed(ls: seq<string>, a: nat, r: Parse, h: HunkVal)
    requires AreLines(ls) && LongMarks(ls) && a <= |ls| && Parsed(ls, a, r, h) && r.Hunk?
    ensures WellFormed(h) && LinesOf(ReadHead(ls[a])) >= 1
  {
    hide ReadHead, Dec;
    var hd := ReadHead(ls[a]);
    var len0: nat, len1: nat :| h == NormalHunk(ls, a, hd, len0, len1);
    forall i | 0 <= i < |h.olds| ensures h.olds[i].ch == '-' && IsText(h.olds[i]) {
      assert Starts(ls, a + (i + 1), '<') && h.olds[i] == Entry(ls[a + (i + 1)], '-');
    }
    forall i | 0 <= i < |h.news| ensures h.news[i].ch == '+' && IsText(h.news[i]) {
      assert h.news[i] == NormalCell(ls, a, hd, hd.ptrn + 2 + i, 0);
      assert Starts(ls, a + AddsFrom(hd) + i, '>') && h.news[i] == Entry(ls[a + AddsFrom(hd) + i], '+');
    }
  }

  // ---------------------------------------------------------------- diffs that fit

  lemma {:induction false} TextCellsTexts(ls: seq<string>, ch: char)
    ensures Texts(TextCells(ls, ch)) == ls && Only(TextCells(ls, ch), ch)
  {
    if ls != [] {
      TextCellsTexts(ls[1..], ch);
      assert TextCells(ls, ch)[1..] == TextCells(ls[1..], ch);
    }
  }

  /** A diff hunk that fits the file is a hunk that sits, and makes the diff hunk's edit. */
  lemma StandsSits(h: HunkVal, d: DiffHunk, lines: seq<string>, loose: bool)
    requires Proper(d) && Stands(h, d) && Fits(d, lines)
    ensures Sits(h, lines, loose) && EffectIf(h, lines, h.first - 1) == [EditOf(d)]
  {
    hide Texts, WellFormed, Shape, Patchwork, Alike, Merging.Lead, Closing;
    TextCellsTexts(d.dels, '-');
    TextCellsTexts(d.adds, '+');
    StandsMatches(h, d, lines, loose);
    OnlyClosing(h.olds, h.news);
    ClosingShape(h.olds, h.news);
    NoLead(h);
    PlainEffect(h, lines, h.first - 1);
  }

  lemma StandsMatches(h: HunkVal, d: DiffHunk, lines: seq<string>, loose: bool)
    requires Proper(d) && Stands(h, d) && Fits(d, lines)
    ensures MatchesAt(h.olds, lines, h.first, loose)
  {
    var e := EditOf(d);
    forall i | 0 <= i < |h.olds| ensures LineMatches(lines, h.first + i, h.olds[i].text, loose) {
      assert lines[e.at..e.at + e.drop][i] == d.dels[i];
    }
  }

  /** Swapping the hunk of a diff hunk gives the hunk of its reverse. */
  lemma SwapStands(h: HunkVal, d: DiffHunk)
    requires Proper(d) && Stands(h, d)
    ensures Proper(Rev(d)) && Stands(Swap(h), Rev(d))
  {
    SwapWellFormed(h);
    assert Swap(h).olds == TextCells(d.adds, '-') && Swap(h).news == TextCells(d.dels, '+');
  }

  /** A diff, or its reverse under -R. */
  function Turned(d: seq<DiffHunk>, reverse: bool): seq<DiffHunk> {
    if reverse then RevAll(d) else d
  }

  /** No line of the file or of the diff looks like one of the -D directives. */
  ghost predicate PlainDiff(d: seq<DiffHunk>, lines: seq<string>, dirs: Directives) {
    Distinct(dirs) && AllPlain(lines, dirs) && forall i :: 0 <= i < |d| ==> AllPlain(d[i].dels, dirs) && AllPlain(d[i].adds, dirs)
  }

  lemma {:induction false} PlainTextCells(ls: seq<string>, ch: char, dirs: Directives)
    requires dirs.On? && AllPlain(ls, dirs)
    ensures PlainCells(TextCells(ls, ch), dirs)
  {
  }

  lemma StandsTidy(h: HunkVal, d: DiffHunk, lines: seq<string>, dirs: Directives)
    requires Proper(d) && Stands(h, d) && Fits(d, lines)
    requires Distinct(dirs) && AllPlain(lines, dirs) && AllPlain(d.dels, dirs) && AllPlain(d.adds, dirs)
    ensures TidyIf(h, lines, h.first - 1, dirs)
  {
    hide Texts, WellFormed, Merging.Lead, Closing;
    OnlyClosing(h.olds, h.news);
    NoLead(h);
    TextCellsTexts(d.dels, '-');
    TextCellsTexts(d.adds, '+');
    PlainTextCells(d.dels, '-', dirs);
    PlainTextCells(d.adds, '+', dirs);
  }

  /** A diff whose hunks are few enough lines for the buffer. */
  predicate Small(d: seq<DiffHunk>) {
    forall i :: 0 <= i < |d| ==> |d[i].dels| + |d[i].adds| + 2 < MAX_HUNK_SIZE
  }

  /** The diff fits the file, with its hunks one behind the other, and is small enough. */
  ghost predicate Applies(d: seq<DiffHunk>, lines: seq<string>) {
    AllProper(d) && AllFit(d, lines) && InOrder(EditsOf(d), |lines|) && Small(d)
  }

  /** The first i hunks of diff d have been read, turned into those of t, and applied. */
  ghost predicate Partway(d: seq<DiffHunk>, reverse: bool, lines: seq<string>, patch: seq<string>, at: nat, i: nat, done: seq<Edit<string>>) {
    var t := Turned(d, reverse);
    && AllProper(d) && Applies(t, lines) && i <= |d| && at <= |patch| && patch[at..] == PrintAll(d[i..])
    && AllProper(t[..i]) && done == EditsOf(t[..i])
  }

  lemma SmallAt(d: seq<DiffHunk>, reverse: bool, i: nat)
    requires Small(Turned(d, reverse)) && i < |d|
    ensures |d[i].dels| + |d[i].adds| + 2 < MAX_HUNK_SIZE
  {
    assert Turned(d, reverse)[i] == if reverse then Rev(d[i]) else d[i];
  }

  /** Hunk h, read from the lines up to next and turned, is the next one of the diff and goes where it says. */
  ghost predicate Onward(d: seq<DiffHunk>, reverse: bool, lines: seq<string>, patch: seq<string>, next: int, i: nat, done: seq<Edit<string>>, h: HunkVal, loose: bool) {
    && 0 <= next && Partway(d, reverse, lines, patch, next, i + 1, done + EffectIf(h, lines, h.first - 1))
    && Sits(h, lines, loose) && EditEnd(done) <= h.first - 1
  }

  /** Where the next hunk of the diff is read, and that it goes behind the hunks before it. */
  lemma NextOfDiff(d: seq<DiffHunk>, reverse: bool, lines: seq<string>, patch: seq<string>, at: nat, i: nat, done: seq<Edit<string>>, r: Parse, h: HunkVal, loose: bool, dirs: Directives)
    requires Partway(d, reverse, lines, patch, at, i, done) && AreLines(patch) && Parsed(patch, at, r, h)
    ensures i == |d| ==> r.NoHunk?
    ensures i < |d| ==> r.Hunk? && at < |patch| && Onward(d, reverse, lines, patch, at + LinesOf(ReadHead(patch[at])), i, done, if reverse then Swap(h) else h, loose)
    ensures var s := if reverse then Swap(h) else h; i < |d| && PlainDiff(Turned(d, reverse), lines, dirs) ==> TidyIf(s, lines, s.first - 1, dirs)
  {
    hide Print, Header, ReadHead, EffectIf, Sits, Stands, Parsed, Proper, Fits, EditOf, PrintAll, EditsOf, Rev, Swap, TidyIf, AllPlain, InOrder;
    if i == |d| {
      NothingLeft(patch, at, d, i, r, h);
    } else {
      var c, p, t, s := d[i], Print(d[i]), Turned(d, reverse), if reverse then Swap(h) else h;
      PrintFrom(d, i);
      assert Proper(c);
      SmallAt(d, reverse, i);
      NextPrinted(d, patch, at, i, r, h);
      if reverse { SwapStands(h, c); }
      assert t[i] == if reverse then Rev(c) else c;
      assert Proper(t[i]) && Fits(t[i], lines);
      StandsSits(s, t[i], lines, loose);
      StandsFirst(s, t[i]);
      EditsGrow(t, lines, i);
      if PlainDiff(t, lines, dirs) { StandsTidy(s, t[i], lines, dirs); }
    }
  }

  /** The next printed hunk is read back whole. */
  lemma NextPrinted(d: seq<DiffHunk>, patch: seq<string>, at: nat, i: nat, r: Parse, h: HunkVal)
    requires i < |d| && Proper(d[i]) && at <= |patch| && patch[at..] == PrintAll(d[i..]) && AreLines(patch) && Parsed(patch, at, r, h)
    requires |d[i].dels| + |d[i].adds| + 2 < MAX_HUNK_SIZE
    ensures r.Hunk? && at < |patch| && Stands(h, d[i])
    ensures var next := at + LinesOf(ReadHead(patch[at])); next >= 0 && next <= |patch| && patch[next..] == PrintAll(d[i + 1..])
  {
    hide Print, Header, ReadHead, Stands, Parsed, Proper, PrintAll;
    var c, p, rest := d[i], Print(d[i]), PrintAll(d[i + 1..]);
    PrintFrom(d, i);
    forall k | 0 <= k < |p| ensures patch[at + k] == p[k] { assert patch[at + k] == patch[at..][k] == (p + rest)[k]; }
    assert |patch[at..]| == |p| + |rest|;
    PrintedParses(patch, at, c, r, h);
    assert patch[at + |p|..] == patch[at..][|p|..] == rest;
  }

  lemma NothingLeft(patch: seq<string>, at: nat, d: seq<DiffHunk>, i: nat, r: Parse, h: HunkVal)
    requires i == |d| && at <= |patch| && patch[at..] == PrintAll(d[i..]) && AreLines(patch) && Parsed(patch, at, r, h)
    ensures r.NoHunk?
  {
    assert d[i..] == [] && |patch[at..]| == 0;
  }

  lemma StandsFirst(h: HunkVal, c: DiffHunk)
    requires Proper(c) && Stands(h, c)
    ensures h.first == EditOf(c).at + 1
  {
  }

  lemma EditsGrow(d: seq<DiffHunk>, lines: seq<string>, i: nat)
    requires AllProper(d) && InOrder(EditsOf(d), |lines|) && i < |d|
    ensures AllProper(d[..i]) && AllProper(d[..i + 1]) && EditsOf(d[..i + 1]) == EditsOf(d[..i]) + [EditOf(d[i])]
    ensures EditEnd(EditsOf(d[..i])) <= EditOf(d[i]).at
  {
    hide Proper, EditOf, EditsOf, EditEnd;
    EditsSnoc(d, i);
    InOrderPrefix(d, lines, i + 1);
    InOrderLast(EditsOf(d[..i]), EditOf(d[i]), |lines|);
  }

  lemma InOrderLast(es: seq<Edit<string>>, e: Edit<string>, total: nat)
    requires InOrder(es + [e], total)
    ensures InOrder(es, total) && EditEnd(es) <= e.at
  {
    Snoc(es, e);
  }

  lemma {:induction false} InOrderPrefix(d: seq<DiffHunk>, lines: seq<string>, i: nat)
    requires AllProper(d) && InOrder(EditsOf(d), |lines|) && i <= |d|
    ensures AllProper(d[..i]) && InOrder(EditsOf(d[..i]), |lines|)
    decreases |d| - i
  {
    hide Proper, EditOf, EditsOf, InOrder;
    if i == |d| {
      assert d[..i] == d;
    } else {
      InOrderPrefix(d, lines, i + 1);
      EditsSnoc(d, i);
      InOrderLast(EditsOf(d[..i]), EditOf(d[i]), |lines|);
    }
  }

  // ---------------------------------------------------------------- the run

  /** The run has made the edits of the hunks of diff d that it has read, each where it says. */
  ghost predicate OnTrack(session: Session, reader: HunkReader, lines: seq<string>, d: seq<DiffHunk>, reverse: bool)
    reads session, session.engine, reader
  {
    && session.reverse == reverse && session.engine.lastOffset == 0 && session.failed == 0 && session.hunkCount <= |d|
    && Partway(d, reverse, lines, reader.patch, reader.at, session.hunkCount, session.done)
  }

  /** One round of the main loop: the next hunk is read, and applied or rejected. */
  method NextNormal(session: Session, reader: HunkReader, ghost lines: seq<string>, ghost d: seq<DiffHunk>, ghost known: bool, ghost plain: bool) returns (r: Parse, fate: Fate)
    requires session.Going(lines)
    requires reader.hunk == session.engine.hunk && reader.hunk.cells.Length == MAX_HUNK_SIZE && reader.at <= |reader.patch|
    requires AreLines(reader.patch) && LongMarks(reader.patch)
    requires known ==> OnTrack(session, reader, lines, d, session.reverse)
    requires plain ==> known && session.tidy && PlainDiff(Turned(d, session.reverse), lines, session.engine.defines)
    modifies reader, session, session.engine, session.rejects, session.engine.input`tiline0, session.engine.input`tiline1
    modifies session.engine.input.tibuf0, session.engine.input.tibuf1, session.engine.hunk, session.engine.hunk.cells
    ensures old(reader.at) <= reader.at <= |reader.patch| && (r.Hunk? ==> reader.at > old(reader.at))
    ensures r.NoHunk? || (r.Hunk? && (fate.Applied? || fate.Rejected?)) ==> session.Going(lines)
    ensures r.NoHunk? ==> session.hunkCount == old(session.hunkCount)
    ensures known ==> OnTrack(session, reader, lines, d, old(session.reverse))
    ensures known ==> if old(session.hunkCount) == |d| then r.NoHunk? else r.Hunk? && fate.Applied?
    ensures plain ==> session.tidy
  {
    hide Agrees, Applies, Partway, Parsed, EffectIf, Tidy, TidyIf, Fair, EffectDefined, WellFormed, Sits, Complete, ReadHead, PlainDiff, Turned;
    hide session.Going, session.engine.Readable, session.engine.Written, session.engine.Ready, session.engine.Neutral, session.engine.hunk.Has, PrintAll, EditsOf, Swap, AreLines, LongMarks, AllProper, NewOffset, Printed;
    var engine := session.engine;
    ghost var a, i, frozen, reverse := reader.at, session.hunkCount, engine.lastFrozen, session.reverse;
    session.GoingOn(lines);
    ghost var h;
    r, h := reader.NormalHunkNext();
    fate := Rejected;
    session.GoingOn(lines);
    if known { NextOfDiff(d, reverse, lines, reader.patch, a, i, session.done, r, h, engine.canonicalize, engine.defines); }
    if !r.Hunk? {
      return;
    }
    ParsedWellFormed(reader.patch, a, r, h);
    ghost var s := session.Take(h);
    ghost var turn;
    fate, turn := session.OneHunk(s, lines);
    if known { FitChosen(turn, lines, engine.canonicalize, session.hunkCount, frozen); SameOffset(turn); }
  }

  /** The main loop on a normal diff.  When it finishes, the output is the file with the edits of the
        applied hunks.  For a diff that applies, or under -R one whose reverse applies, it finishes,
        rejects nothing and makes exactly those edits; under -D the output reads both ways. */
  method PatchNormal(session: Session, reader: HunkReader, ghost lines: seq<string>, ghost d: seq<DiffHunk>) returns (ending: Ending)
    requires session.Going(lines) && session.done == [] && session.tidy && session.hunkCount == 0 && session.failed == 0
    requires reader.hunk == session.engine.hunk && reader.hunk.cells.Length == MAX_HUNK_SIZE && reader.at <= |reader.patch|
    requires AreLines(reader.patch) && LongMarks(reader.patch)
    modifies reader, session, session.engine, session.rejects, session.engine.input`tiline0, session.engine.input`tiline1
    modifies session.engine.input.tibuf0, session.engine.input.tibuf1, session.engine.hunk, session.engine.hunk.cells
    ensures ending.Finished? ==> Complete(lines, session.done, session.engine.ofp, session.engine.outLines, session.engine.defines, session.tidy)
    ensures old(session.engine.lastOffset) == 0 && Printed(reader.patch, old(reader.at), d, old(session.reverse), lines) ==>
              ending.Finished? && session.failed == 0 && AllProper(Turned(d, old(session.reverse))) && session.done == EditsOf(Turned(d, old(session.reverse)))
    ensures old(session.engine.lastOffset) == 0 && Printed(reader.patch, old(reader.at), d, old(session.reverse), lines) && PlainDiff(Turned(d, old(session.reverse)), lines, session.engine.defines) ==> session.tidy
  {
    hide Agrees, Applies, Partway, Parsed, EffectIf, Tidy, TidyIf, Fair, EffectDefined, WellFormed, Sits, Complete, ReadHead, PlainDiff, Turned;
    hide session.Going, session.engine.Readable, session.engine.Written, session.engine.Ready, session.engine.Neutral, session.engine.hunk.Has, PrintAll, EditsOf, Swap, AreLines, LongMarks, AllProper, NewOffset, Printed;
    var engine := session.engine;
    ghost var reverse := session.reverse;
    ghost var known := engine.lastOffset == 0 && Printed(reader.patch, reader.at, d, reverse, lines);
    ghost var plain := known && PlainDiff(Turned(d, reverse), lines, engine.defines);
    if known { StartDiff(d, reverse, lines, reader.patch, reader.at); }
    while true
      invariant session.Going(lines) && reader.at <= |reader.patch|
      invariant known ==> OnTrack(session, reader, lines, d, reverse)
      invariant plain ==> session.tidy
      decreases |reader.patch| - reader.at
    {
      var r, fate := NextNormal(session, reader, lines, d, known, plain);
      if r.NoHunk? {
        break;
      }
      if !r.Hunk? {
        return BadPatch;
      }
      if fate.OutOfSync? || fate.Misplaced? {
        return if fate.OutOfSync? then StoppedOutOfSync else StoppedMisplaced;
      }
    }
    if known { EndDiff(d, reverse, lines, reader.patch, reader.at, session.hunkCount, session.done); }
    if session.hunkCount == 0 {
      return NoHunks;
    }
    session.Finish(lines);
    ending := Finished;
  }

  /** The patch file from line at on is the print of d, which has hunks, and d or its reverse applies. */
  ghost predicate Printed(patch: seq<string>, at: nat, d: seq<DiffHunk>, reverse: bool, lines: seq<string>) {
    d != [] && AllProper(d) && Applies(Turned(d, reverse), lines) && at <= |patch| && patch[at..] == PrintAll(d)
  }

  lemma StartDiff(d: seq<DiffHunk>, reverse: bool, lines: seq<string>, patch: seq<string>, at: nat)
    requires Printed(patch, at, d, reverse, lines)
    ensures d != [] && Partway(d, reverse, lines, patch, at, 0, [])
  {
    assert d[0..] == d && Turned(d, reverse)[..0] == [];
  }

  lemma EndDiff(d: seq<DiffHunk>, reverse: bool, lines: seq<string>, patch: seq<string>, at: nat, i: nat, done: seq<Edit<string>>)
    requires Partway(d, reverse, lines, patch, at, i, done)
    ensures AllProper(Turned(d, reverse)) && (i == |d| ==> done == EditsOf(Turned(d, reverse)))
  {
    var t := Turned(d, reverse);
    assert t[..|t|] == t;
  }
}
