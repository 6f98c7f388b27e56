/**
 The two patch programs side by side, and what each promises for a whole diff.
 */
module Programs {
  import opened Text
  import opened Hunk
  import opened Merging
  import opened Defines
  import opened Preprocess
  import opened Edits
  import opened Effects
  import opened InputStore
  import opened Engine
  import opened NormalDiff
  import opened UndoDiff
  import opened PatchFile
  import opened Rejects
  import opened Patching
  import opened NormalRun
  import FlikiReader
  import Fliki

  // ---------------------------------------------------------------- printed diffs as patch files

  predicate LongMark(l: string) {
    l != "" && (l[0] == '<' || l[0] == '>' ==> |l| > 2)
  }

  lemma PrintIsLong(h: DiffHunk)
    requires Proper(h)
    ensures forall i :: 0 <= i < |Print(h)| ==> LongMark(Print(h)[i])
  {
    hide Header;
    PrintIsLines(h);
    forall i | 0 <= i < |Print(h)| ensures LongMark(Print(h)[i]) {
      assert Print(h)[0] == Header(h);
    }
  }

  lemma {:induction false} PrintAllIsLong(d: seq<DiffHunk>)
    requires AllProper(d)
    ensures forall i :: 0 <= i < |PrintAll(d)| ==> LongMark(PrintAll(d)[i])
  {
    if d != [] {
      hide Print, LongMark;
      PrintIsLong(d[0]);
      PrintAllIsLong(d[1..]);
    }
  }

  /** What diff prints is a patch file as the reader needs it. */
  lemma PrintedPatch(d: seq<DiffHunk>)
    requires AllProper(d)
    ensures AreLines(PrintAll(d)) && LongMarks(PrintAll(d))
  {
    PrintAllIsLines(d);
    PrintAllIsLong(d);
    forall j | 0 <= j < |PrintAll(d)| && (Starts(PrintAll(d), j, '<') || Starts(PrintAll(d), j, '>')) ensures |PrintAll(d)[j]| > 2 {
      assert LongMark(PrintAll(d)[j]);
    }
  }

  // ---------------------------------------------------------------- the patch program

  /** A file of lines in memory or, if its lines are short enough, in a temporary file. */
  method OpenInput(lines: seq<string>, inMemory: bool) returns (input: Input)
    requires AreLines(lines) && lines != [] && (inMemory || NoneLonger(lines, MAX_CHUNK))
    ensures fresh(input) && fresh(input.tibuf0) && fresh(input.tibuf1) && input.Valid() && input.lines == lines
  {
    var text := Flat(lines);
    LinesOfFlat(lines);
    EndsWithNewline(lines);
    NoNul(lines);
    input := new Input();
    if inMemory {
      input.PlanA(text);
    } else {
      ChunksAreLines(text, MAX_CHUNK);
      input.PlanB(text);
    }
  }

  lemma {:induction false} EndsWithNewline(lines: seq<string>)
    requires AreLines(lines) && lines != []
    ensures Flat(lines) != "" && Flat(lines)[|Flat(lines)| - 1] == '\n'
  {
    if |lines| > 1 {
      EndsWithNewline(lines[1..]);
    } else {
      assert lines[1..] == [];
      assert Flat(lines) == lines[0] + "";
    }
  }

  lemma {:induction false} NoNul(lines: seq<string>)
    requires AreLines(lines)
    ensures '\0' !in Flat(lines)
  {
    if lines != [] {
      NoNul(lines[1..]);
    }
  }

  lemma NothingDone(lines: seq<string>, d: Directives, tidy: bool)
    ensures Agrees(lines, [], 0, [], d, tidy)
  {
    assert lines[..0] == [];
  }

  /** One run of patch on a file and a normal diff.  On the print of a diff that applies (with -R, one
      whose reverse does), nothing is rejected and the output is the edited file; with -D it reads as
      the original with the symbol undefined and as the edited file with it defined. */
  method RunPatch(lines: seq<string>, inMemory: bool, patch: seq<string>, loose: bool, dirs: Directives, reverse: bool, ghost d: seq<DiffHunk>)
    returns (ending: Ending, output: string, rejected: nat, ghost outs: seq<string>)
    requires AreLines(lines) && lines != [] && (inMemory || NoneLonger(lines, MAX_CHUNK))
    requires AreLines(patch) && LongMarks(patch)
    ensures Printed(patch, 0, d, reverse, lines) ==> ending.Finished? && rejected == 0
    ensures Printed(patch, 0, d, reverse, lines) ==> AllProper(Turned(d, reverse)) && Complete(lines, EditsOf(Turned(d, reverse)), output, outs, dirs, PlainDiff(Turned(d, reverse), lines, dirs))
  {
    hide Printed, PlainDiff, Agrees, PrintAll, Turned;
    var input := OpenInput(lines, inMemory);
    var hunk := new HunkBuffer();
    var engine := new Patcher(input, hunk, loose, dirs);
    var rejects := new RejectFile(hunk);
    var session := new Session(engine, rejects, reverse);
    var reader := new HunkReader(hunk, patch);
    NothingDone(lines, dirs, true);
    assert engine.ofp == Flat(engine.outLines);
    ending := PatchNormal(session, reader, lines, d);
    output, rejected, outs := engine.ofp, session.failed, engine.outLines;
  }

  /** -R undoes: a diff with right line numbers, applied and then applied in reverse to the result,
      gives back the file, by way of the reversed hunks alone. */
  method PatchThenReverse(lines: seq<string>, d: seq<DiffHunk>, loose: bool) returns (patched: string, back: string)
    requires AreLines(lines) && lines != [] && d != [] && AllProper(d) && Applies(d, lines) && Numbered(d, lines)
    requires Splice(lines, EditsOf(d)) != []
    ensures patched == Flat(Splice(lines, EditsOf(d))) && back == Flat(lines)
  {
    hide PlainDiff, PrintAll, Splice, EditsOf, Numbered;
    PrintedPatch(d);
    assert PrintAll(d)[0..] == PrintAll(d);
    var ending, rejected;
    ghost var outs;
    ending, patched, rejected, outs := RunPatch(lines, true, PrintAll(d), loose, Off, false, d);
    ghost var w := Splice(lines, EditsOf(d));
    SpliceIsLines(lines, d);
    LinesOfFlat(w);
    ReverseApplies(d, lines);
    ending, back, rejected, outs := RunPatch(Lines(patched), true, PrintAll(d), loose, Off, true, d);
  }

  lemma {:induction false} SpliceIsLinesUpTo(lines: seq<string>, d: seq<DiffHunk>)
    requires AreLines(lines) && AllProper(d)
    ensures AreLines(SpliceUpTo(lines, EditsOf(d)))
  {
    hide IsLine, SpliceUpTo, Cut;
    if d == [] {
      NothingSpliced(lines);
    } else {
      var c, h := d[..|d| - 1], d[|d| - 1];
      SpliceIsLinesUpTo(lines, c);
      SpliceMore(lines, EditsOf(c), EditOf(h));
      CutIsLines(lines, EditEnd(EditsOf(c)), EditOf(h).at);
      assert Proper(h);
    }
  }

  lemma NothingSpliced(lines: seq<string>)
    ensures SpliceUpTo(lines, []) == []
  {
  }

  lemma CutIsLines(lines: seq<string>, a: nat, b: nat)
    requires AreLines(lines)
    ensures AreLines(Cut(lines, a, b))
  {
    hide IsLine;
  }

  /** Editing a file of lines leaves a file of lines. */
  lemma SpliceIsLines(lines: seq<string>, d: seq<DiffHunk>)
    requires AreLines(lines) && AllProper(d)
    ensures AreLines(Splice(lines, EditsOf(d)))
  {
    hide IsLine, EditsOf, SpliceUpTo;
    SpliceIsLinesUpTo(lines, d);
  }

  lemma ReverseApplies(d: seq<DiffHunk>, lines: seq<string>)
    requires AllProper(d) && Applies(d, lines) && Numbered(d, lines)
    ensures AllProper(RevAll(d)) && Applies(RevAll(d), Splice(lines, EditsOf(d))) && Splice(Splice(lines, EditsOf(d)), EditsOf(RevAll(d))) == lines
  {
    RevFits(d, lines);
  }

  lemma SymbolLines(symbol: string)
    requires '\n' !in symbol && '\0' !in symbol
    ensures LineDirectives(DirectivesFor(symbol))
  {
    var d := DirectivesFor(symbol);
    SymbolLine("#ifdef ", symbol, "\n");
    SymbolLine("#ifndef ", symbol, " \n");
    SymbolLine("#endif ", symbol, "\n");
    assert IsLine(d.els);
  }

  lemma SymbolLine(before: string, symbol: string, after: string)
    requires '\n' !in before + symbol && '\0' !in before + symbol && (after == "\n" || after == " \n")
    ensures IsLine(before + symbol + after)
  {
    var b, l := before + symbol, before + symbol + after;
    forall i | 0 <= i < |l| ensures l[i] != '\0' && (i < |l| - 1 ==> l[i] != '\n') {
      if i < |b| { assert l[i] == b[i]; }
    }
  }

  /** -D on a diff whose lines are none of the four directives: both files can be read out of the output.  If
      no line of them looks like a directive on the symbol, a preprocessor makes of the output the original
      with the symbol undefined, and the edited file with it defined. */
  method BothFilesInOne(lines: seq<string>, d: seq<DiffHunk>, symbol: string) returns (output: string)
    requires AreLines(lines) && lines != [] && d != [] && AllProper(d) && Applies(d, lines) && PlainDiff(d, lines, DirectivesFor(symbol))
    requires '\n' !in symbol && '\0' !in symbol
    ensures Reads(Lines(output), DirectivesFor(symbol), false, lines) && Reads(Lines(output), DirectivesFor(symbol), true, Splice(lines, EditsOf(d)))
    ensures AllOrdinary(lines, symbol) && AllOrdinary(Splice(lines, EditsOf(d)), symbol) ==> Passed(Lines(output), symbol, false, Top) == lines
    ensures AllOrdinary(lines, symbol) && AllOrdinary(Splice(lines, EditsOf(d)), symbol) ==> Passed(Lines(output), symbol, true, Top) == Splice(lines, EditsOf(d))
  {
    hide PrintAll, EditsOf, Read, After, DirectivesFor, LineDirectives, Splice, Passed, Ordinary;
    PrintedPatch(d);
    SymbolLines(symbol);
    assert PrintAll(d)[0..] == PrintAll(d);
    var ending, rejected;
    ghost var outs;
    ending, output, rejected, outs := RunPatch(lines, true, PrintAll(d), false, DirectivesFor(symbol), false, d);
    LinesOfFlat(outs);
    if AllOrdinary(lines, symbol) && AllOrdinary(Splice(lines, EditsOf(d)), symbol) {
      PassedFiles(outs, symbol, lines, Splice(lines, EditsOf(d)));
    }
  }

  // ---------------------------------------------------------------- both programs

  predicate AsciiDiff(d: seq<DiffHunk>, lines: seq<string>) {
    FlikiReader.AsciiLines(lines) && forall i :: 0 <= i < |d| ==> FlikiReader.AsciiLines(d[i].dels) && FlikiReader.AsciiLines(d[i].adds)
  }

  /** The claim that the two programs do the same: on a strictly ordered ASCII diff that fits the file,
      both report success and write the edited file. */
  method SameOutput(lines: seq<string>, d: seq<DiffHunk>, loose: bool, inMemory: bool) returns (ending: Ending, byPatch: string, rejected: nat, rc: int, byFliki: string)
    requires lines != [] && d != [] && AsciiDiff(d, lines) && AllProper(d) && Ordered(d) && AllFit(d, lines) && Small(d)
    requires inMemory || NoneLonger(lines, MAX_CHUNK)
    ensures ending.Finished? && rejected == 0 && rc == 0 && byPatch == byFliki == Flat(Splice(lines, EditsOf(d)))
  {
    hide PlainDiff, PrintAll, Splice, EditsOf, FlikiReader.HunkNext;
    FlikiReady(d, lines);
    OrderedInOrder(d, lines);
    PrintedPatch(d);
    assert PrintAll(d)[0..] == PrintAll(d);
    ghost var outs;
    ending, byPatch, rejected, outs := RunPatch(lines, inMemory, PrintAll(d), loose, Off, false, d);
    var fliki := new Fliki.Applier(Flat(PrintAll(d)), Flat(lines));
    Fliki.NoTail(d);
    assert fliki.Printed(d, "", [], "", lines);
    ghost var last;
    rc, last := fliki.Patch(FlikiReader.Hunk(FlikiReader.NoType, 0, 0, 0, 0), d, "", [], "", lines);
    byFliki := fliki.out;
  }

  lemma FlikiReady(d: seq<DiffHunk>, lines: seq<string>)
    requires AsciiDiff(d, lines) && AllProper(d) && AllFit(d, lines)
    ensures AreLines(lines) && forall i :: 0 <= i < |d| ==> FlikiReader.AsciiLines(d[i].dels) && FlikiReader.AsciiLines(d[i].adds) && EditOf(d[i]).at <= |lines|
  {
    forall i | 0 <= i < |d| ensures EditOf(d[i]).at <= |lines| { assert Fits(d[i], lines); }
  }
}
