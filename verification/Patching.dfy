/**
 A whole run of the patch program: hunks read, located, applied or rejected, and the rest of the file
 copied.
 */
module Patching {
  import opened Text
  import opened Hunk
  import opened Merging
  import opened Defines
  import opened Edits
  import opened Effects
  import opened Locating
  import opened Engine
  import opened Rejects
  import opened Sealing

  /** Where the search puts a hunk; an empty pattern goes where it is guessed. */
  ghost predicate Placed(h: HunkVal, lines: seq<string>, offset: int, loose: bool, where: int) {
    if h.olds == [] then where == h.first + offset else Located(h.olds, lines, h.first + offset, loose, where)
  }

  /** last_offset after the search has put a hunk at where: the distance from the place it was guessed. */
  function NewOffset(g: HunkVal, where: int, offset: int): int {
    if where == 0 || where == g.first + offset then offset else where - g.first - offset
  }

  /** How a hunk ends: applied; rejected; halves out of sync, where the program exits; or with its first
      change placed among lines already copied, or past the end, where it goes on with garbled output. */
  datatype Fate = Applied | Rejected | OutOfSync | Misplaced

  class Session {
    const engine: Patcher
    const rejects: RejectFile
    var reverse: bool
    var hunkCount: nat            // hunk
    var failed: nat
    ghost var done: seq<Edit<string>>
    ghost var tidy: bool

    constructor (engine: Patcher, rejects: RejectFile, reverse: bool)
      ensures this.engine == engine && this.rejects == rejects && this.reverse == reverse
      ensures hunkCount == 0 && failed == 0 && done == [] && tidy
    {
      this.engine, this.rejects, this.reverse := engine, rejects, reverse;
      hunkCount, failed, done, tidy := 0, 0, [], true;
    }

    /** The output so far is the file so far with the edits done; the original lines are in reach. */
    ghost predicate Going(lines: seq<string>)
      reads `done, `tidy, engine, engine.input, engine.input.ptr, engine.input.tibuf0, engine.input.tibuf1
    {
      && rejects.hunk == engine.hunk && engine.Readable() && engine.Written() && engine.input.lines == lines
      && Agrees(lines, done, engine.lastFrozen, engine.outLines, engine.defines, tidy)
    }

    /** Swapping the hunk in the buffer. */
    method Swapped(ghost h: HunkVal) returns (ghost s: HunkVal)
      requires engine.Ready(h) && engine.Neutral()
      modifies engine.hunk, engine.hunk.cells
      ensures s == Swap(h) && engine.Ready(s) && engine.Neutral()
    {
      assert Open(0);
      SwapWellFormed(h);
      s := Swap(h);
      engine.hunk.PchSwap(h);
      assert engine.hunk.Has(s) && WellFormed(s);
    }

    /** locate_hunk, and for the first hunk of all a second try the other way round. */
    method FindPlace(ghost h: HunkVal, ghost lines: seq<string>) returns (where: int, ghost g: HunkVal, ghost flipped: bool)
      requires Going(lines) && engine.Ready(h) && engine.Neutral()
      modifies `reverse, engine`lastOffset, engine.input`tiline0, engine.input`tiline1, engine.input.tibuf0, engine.input.tibuf1, engine.hunk, engine.hunk.cells
      ensures Going(lines) && engine.Ready(g) && engine.Neutral()
      ensures Chosen(h, g, lines, old(engine.lastOffset), engine.canonicalize, where, hunkCount, flipped)
      ensures engine.lastOffset == NewOffset(g, where, old(engine.lastOffset))
      ensures reverse == (old(reverse) != flipped)
    {
      hide Located, Swap, Agrees, engine.Readable, engine.Written, engine.Holds, engine.Neutral;
      ghost var offset := engine.lastOffset;
      g, flipped := h, false;
      where := engine.LocateHunk(h);
      if hunkCount == 1 && where == 0 {
        ghost var s := Swapped(h);
        reverse := !reverse;
        g, flipped := s, true;
        where := engine.LocateHunk(s);
        if where == 0 {
          ghost var t := Swapped(s);
          reverse := !reverse;
          g, flipped := t, false;
        }
      }
    }

    /** apply_hunk where the first change has its place in front of it, or there is none. */
    method Apply(where: int, ghost g: HunkVal, ghost lines: seq<string>) returns (ok: bool)
      requires Going(lines) && engine.Ready(g) && engine.Neutral()
      requires Clear(g, lines, where - 1, engine.lastFrozen) || !Changes(g.olds, g.news)
      modifies this, engine, engine.input`tiline0, engine.input`tiline1, engine.input.tibuf0, engine.input.tibuf1
      ensures reverse == old(reverse) && hunkCount == old(hunkCount) && failed == old(failed) && engine.lastOffset == old(engine.lastOffset)
      ensures engine.Ready(g) && engine.input.lines == lines && ok == InStepAt(g, lines, where - 1)
      ensures ok ==> Going(lines) && done == old(done) + EffectIf(g, lines, where - 1)
      ensures ok ==> tidy == (old(tidy) && TidyIf(g, lines, where - 1, engine.defines))
      ensures !ok ==> done == old(done)
    {
      hide Patchwork, Agrees, Effect, Tidy, EffectIf, TidyIf, InStepAt, Lead;
      ghost var w, f, outs, d := where - 1, engine.lastFrozen, engine.outLines, engine.defines;
      HoldsHas(g);
      ok := engine.ApplyHunk(where, g);
      HunkOutcome(lines, done, f, outs, d, tidy, g, w, ok, engine.lastFrozen, engine.outLines);
      if ok {
        done := done + EffectIf(g, lines, w);
        tidy := tidy && TidyIf(g, lines, w, d);
      }
    }

    /** A hunk for which a place has been found. */
    method ApplyAt(where: int, ghost g: HunkVal, ghost lines: seq<string>) returns (fate: Fate)
      requires Going(lines) && engine.Ready(g) && engine.Neutral() && where != 0
      modifies this, engine, engine.input`tiline0, engine.input`tiline1, engine.input.tibuf0, engine.input.tibuf1
      ensures reverse == old(reverse) && hunkCount == old(hunkCount) && failed == old(failed) && engine.lastOffset == old(engine.lastOffset)
      ensures Outcomes(fate, g, lines, where, old(engine.lastFrozen))
      ensures fate.Applied? ==> Going(lines) && done == old(done) + EffectIf(g, lines, where - 1)
      ensures fate.Applied? ==> tidy == (old(tidy) && TidyIf(g, lines, where - 1, engine.defines))
      ensures !fate.Applied? ==> done == old(done)
    {
      hide EffectIf, TidyIf, InStepAt, Lead, Changes, Agrees;
      var lead, changes := engine.FirstChange(g);
      if changes && (where < 1 || where - 1 + lead < engine.lastFrozen || where - 1 + engine.hunk.ptrnLines > engine.input.inputLines) {
        return Misplaced;
      }
      var ok := Apply(where, g, lines);
      fate := if ok then Applied else OutOfSync;
    }

    /** abort_hunk, and the count of failed hunks. */
    method Reject(ghost g: HunkVal, ghost lines: seq<string>)
      requires Going(lines) && engine.Ready(g)
      modifies `failed, rejects
      ensures Going(lines) && failed == old(failed) + 1 && rejects.rejfp == old(rejects.rejfp) + RejectLines(g, engine.lastOffset)
    {
      hide RejectLines, Agrees, engine.Readable, engine.Written;
      HoldsHas(g);
      rejects.AbortHunk(engine.lastOffset, g);
      failed := failed + 1;
    }

    /** One turn of the main loop: the hunk in the buffer is applied or rejected. */
    method OneHunk(ghost h: HunkVal, ghost lines: seq<string>) returns (fate: Fate, ghost t: Turn)
      requires Going(lines) && engine.Ready(h) && engine.Neutral()
      modifies this, engine, rejects, engine.input`tiline0, engine.input`tiline1, engine.input.tibuf0, engine.input.tibuf1, engine.hunk, engine.hunk.cells
      ensures hunkCount == old(hunkCount) + 1 && reverse == (old(reverse) != t.flipped)
      ensures t.h == h && t.fate == fate && t.offset == old(engine.lastOffset) && Fair(t, lines, engine.canonicalize, hunkCount, old(engine.lastFrozen))
      ensures engine.lastOffset == NewOffset(t.g, t.where, t.offset)
      ensures fate.Applied? || fate.Rejected? ==> Going(lines)
      ensures fate.Applied? ==> done == old(done) + EffectIf(t.g, lines, t.where - 1)
      ensures fate.Applied? ==> tidy == (old(tidy) && TidyIf(t.g, lines, t.where - 1, engine.defines))
      ensures !fate.Rejected? ==> failed == old(failed) && rejects.rejfp == old(rejects.rejfp)
      ensures fate.Rejected? ==> failed == old(failed) + 1 && rejects.rejfp == old(rejects.rejfp) + RejectLines(t.g, t.offset)
      ensures !fate.Applied? ==> done == old(done)
      ensures fate.Rejected? ==> tidy == old(tidy)
    {
      hide Going, EffectIf, TidyIf, InStepAt, Lead, Changes, Clear, Chosen, RejectLines, engine.Ready, engine.Neutral;
      hunkCount := hunkCount + 1;
      ghost var offset := engine.lastOffset;
      var where;
      ghost var g, flipped;
      where, g, flipped := FindPlace(h, lines);
      if where == 0 {
        Reject(g, lines);
        return Rejected, Turn(h, g, Rejected, where, offset, flipped);
      }
      fate := ApplyAt(where, g, lines);
      t := Turn(h, g, fate, where, offset, flipped);
    }

    lemma HoldsHas(g: HunkVal)
      requires engine.Holds(g)
      ensures engine.hunk.Has(g) && WellFormed(g)
    {
      assert Open(0);
    }

    /** spew_output at the end of a run. */
    method Finish(ghost lines: seq<string>)
      requires Going(lines)
      modifies engine, engine.input`tiline0, engine.input`tiline1, engine.input.tibuf0, engine.input.tibuf1
      ensures Complete(lines, done, engine.ofp, engine.outLines, engine.defines, tidy)
    {
      hide Agrees;
      ghost var frozen, outs := engine.lastFrozen, engine.outLines;
      AgreesFrozen(lines, done, frozen, outs, engine.defines, tidy);
      engine.SpewOutput();
      WrittenFlat();
      AgreesLess(lines, done, frozen, outs, engine.defines, tidy);
      AllDone(lines, done, frozen, outs, engine.defines, tidy && (engine.defines.Off? || AllPlain(lines, engine.defines)));
    }

    lemma GoingOn(lines: seq<string>)
      requires Going(lines)
      ensures engine.Readable() && engine.Written() && rejects.hunk == engine.hunk && engine.input.lines == lines
      ensures engine.lastFrozen == EditEnd(done)
    {
    }

    lemma WrittenFlat()
      requires engine.Written()
      ensures engine.ofp == Flat(engine.outLines)
    {
      assert Open(0);
    }

    lemma ReadyBy(h: HunkVal)
      requires engine.Readable() && engine.Written() && engine.hunk.Has(h) && WellFormed(h)
      ensures engine.Ready(h)
    {
    }

    /** another_hunk, with the hunk h already read: it is in the buffer, reversed if need be. */
    method Take(ghost h: HunkVal) returns (ghost s: HunkVal)
      requires engine.Readable() && engine.Written() && engine.hunk.Has(h) && WellFormed(h)
      modifies engine.hunk, engine.hunk.cells
      ensures s == (if reverse then Swap(h) else h) && engine.Ready(s) && engine.Neutral()
    {
      engine.hunk.ClearBehind();
      ReadyBy(h);
      s := h;
      if reverse {
        s := Swapped(h);
      }
    }

    /** A run over hunks in order.  Its story is fixed by the hunks and the file: each hunk, reversed if
        need be, is looked for with the offset the one before has left, and ends as its place calls for.
        The reject file receives the rejected hunks in order, and failed counts them.  When the run
        finishes, the output is the file with the edits of the applied hunks made; it finishes with every
        hunk applied where it says if the hunks fit. */
    method RunHunks(hs: seq<HunkVal>, ghost lines: seq<string>) returns (ending: Ending, ghost trace: seq<Turn>)
      requires Going(lines) && done == [] && tidy && hunkCount == 0 && failed == 0 && engine.hunk.cells.Length == MAX_HUNK_SIZE
      requires forall i :: 0 <= i < |hs| ==> WellFormed(hs[i])
      modifies this, engine, rejects, engine.input`tiline0, engine.input`tiline1, engine.input.tibuf0, engine.input.tibuf1, engine.hunk, engine.hunk.cells
      ensures Told(trace, lines, engine.canonicalize) && done == DoneBy(trace, lines)
      ensures |trace| <= |hs| && Linked(trace, hs, old(reverse), old(engine.lastOffset)) && Ends(trace, ending)
      ensures failed == RejectedIn(trace) && rejects.rejfp == old(rejects.rejfp) + RejectsOf(trace)
      ensures ending.NoHunks? <==> hs == []
      ensures ending.Finished? ==> |trace| == |hs| && Complete(lines, done, engine.ofp, engine.outLines, engine.defines, tidy)
      ensures !old(reverse) && old(engine.lastOffset) == 0 && hs != [] && Fitting(hs, lines, engine.canonicalize) ==> ending.Finished? && failed == 0 && done == EffectsAt(hs, lines)
    {
      hide Agrees, DoneBy, Told, Fitting, EffectsAt, WellFormed, FitsUpTo, Linked, RejectedIn, RejectsOf, Story, Complete;
      ghost var rev, off, rejected := reverse, engine.lastOffset, rejects.rejfp;
      ghost var fits := !reverse && engine.lastOffset == 0 && Fitting(hs, lines, engine.canonicalize);
      trace := [];
      StoryStarts(hs, lines, rev, off, rejected);
      if fits { FitStart(hs, lines, engine.canonicalize); }
      var i := 0;
      while i < |hs|
        invariant 0 <= i <= |hs| && Going(lines) && hunkCount == i && |trace| == i && engine.hunk.cells.Length == MAX_HUNK_SIZE
        invariant Story(trace, hs, lines, rev, off, rejected)
        invariant forall k :: 0 <= k < |trace| ==> trace[k].fate.Applied? || trace[k].fate.Rejected?
        invariant fits ==> !reverse && engine.lastOffset == 0 && failed == 0 && FitsUpTo(hs, lines, engine.canonicalize, i, done)
      {
        var fate;
        ghost var turn;
        fate, turn := NextTurn(hs, i, trace, lines, rev, off, rejected, fits);
        trace := trace + [turn];
        StoryTells(trace, hs, lines, rev, off, rejected);
        if fate.OutOfSync? || fate.Misplaced? {
          ending := if fate.OutOfSync? then StoppedOutOfSync else StoppedMisplaced;
          return;
        }
        i := i + 1;
      }
      StoryTells(trace, hs, lines, rev, off, rejected);
      if hunkCount == 0 {
        return NoHunks, trace;
      }
      if fits { FitEnd(hs, lines, engine.canonicalize, done); }
      Finish(lines);
      ending := Finished;
    }

    /** The run so far is told by its turns. */
    ghost predicate Story(trace: seq<Turn>, hs: seq<HunkVal>, lines: seq<string>, rev: bool, off: int, rejected: seq<string>)
      reads `done, `reverse, `failed, rejects`rejfp, engine`lastOffset
    {
      && Told(trace, lines, engine.canonicalize) && done == DoneBy(trace, lines) && Linked(trace, hs, rev, off)
      && reverse == RevAfter(rev, trace) && engine.lastOffset == OffsetAfter(off, trace)
      && failed == RejectedIn(trace) && rejects.rejfp == rejected + RejectsOf(trace)
    }

    lemma StoryStarts(hs: seq<HunkVal>, lines: seq<string>, rev: bool, off: int, rejected: seq<string>)
      requires done == [] && failed == 0 && rev == reverse && off == engine.lastOffset && rejected == rejects.rejfp
      ensures Story([], hs, lines, rev, off, rejected)
    {
      NothingTold(lines, engine.canonicalize);
      NothingLinked(hs, rev, off, rejected);
    }

    lemma StoryTells(trace: seq<Turn>, hs: seq<HunkVal>, lines: seq<string>, rev: bool, off: int, rejected: seq<string>)
      requires Story(trace, hs, lines, rev, off, rejected)
      ensures Told(trace, lines, engine.canonicalize) && done == DoneBy(trace, lines) && Linked(trace, hs, rev, off)
      ensures failed == RejectedIn(trace) && rejects.rejfp == rejected + RejectsOf(trace)
    {
    }

    /** The next hunk of the patch: loaded, reversed if need be, and applied or rejected. */
    method NextTurn(hs: seq<HunkVal>, i: nat, ghost trace: seq<Turn>, ghost lines: seq<string>, ghost rev: bool, ghost off: int, ghost rejected: seq<string>, ghost fits: bool)
      returns (fate: Fate, ghost turn: Turn)
      requires Going(lines) && i < |hs| && WellFormed(hs[i]) && hunkCount == i == |trace| && engine.hunk.cells.Length == MAX_HUNK_SIZE
      requires Story(trace, hs, lines, rev, off, rejected)
      requires fits ==> !reverse && engine.lastOffset == 0 && failed == 0 && FitsUpTo(hs, lines, engine.canonicalize, i, done)
      modifies this, engine, rejects, engine.input`tiline0, engine.input`tiline1, engine.input.tibuf0, engine.input.tibuf1, engine.hunk, engine.hunk.cells
      ensures Story(trace + [turn], hs, lines, rev, off, rejected) && hunkCount == i + 1 && turn.fate == fate
      ensures fate.Applied? || fate.Rejected? ==> Going(lines)
      ensures fits ==> fate.Applied? && !reverse && engine.lastOffset == 0 && failed == 0 && FitsUpTo(hs, lines, engine.canonicalize, i + 1, done)
    {
      hide Agrees, DoneBy, Told, Fitting, EffectsAt, EffectIf, TidyIf, Fair, EffectDefined, WellFormed, FitsUpTo, Sits, engine.Ready, engine.Neutral, engine.hunk.Has, RejectLines, Linked, NewOffset, RejectedIn, RejectsOf, Swap;
      engine.hunk.Load(hs[i]);
      GoingOn(lines);
      ghost var frozen := engine.lastFrozen;
      AgreesFrozen(lines, done, frozen, engine.outLines, engine.defines, tidy);
      if fits { FitNext(hs, lines, engine.canonicalize, i, done); }
      ghost var h := Take(hs[i]);
      fate, turn := OneHunk(h, lines);
      TellOne(trace, turn, lines, engine.canonicalize, frozen);
      LinkOne(trace, turn, hs, rev, off, rejected);
      if fits { FitChosen(turn, lines, engine.canonicalize, hunkCount, frozen); SameOffset(turn); }
    }
  }

  /** How a run ends: all hunks dealt with; no hunk at all; a patch that cannot be read; or a hunk
      that is out of sync or misplaced. */
  datatype Ending = Finished | NoHunks | BadPatch | StoppedOutOfSync | StoppedMisplaced

  /** One turn of a run: hunk h read, form g of it placed at where when the last offset was offset. */
  datatype Turn = Turn(h: HunkVal, g: HunkVal, fate: Fate, where: int, offset: int, flipped: bool)

  /** What the output is in the end: the edited file; under -D, for a tidy run, what it reads as with
      the symbol defined, and the original file with it undefined. */
  ghost predicate Complete(lines: seq<string>, done: seq<Edit<string>>, ofp: string, outs: seq<string>, d: Directives, tidy: bool) {
    && ofp == Flat(outs)
    && (d.Off? ==> outs == Splice(lines, done))
    && (d.On? && tidy && AllPlain(lines, d) ==> Reads(outs, d, true, Splice(lines, done)) && Reads(outs, d, false, lines))
    && (AreLines(lines) && LineDirectives(d) ==> AreLines(outs))
  }

  lemma AgreesLess(lines: seq<string>, done: seq<Edit<string>>, frozen: nat, outs: seq<string>, d: Directives, tidy: bool)
    requires Agrees(lines, done, frozen, outs, d, tidy)
    ensures forall less: bool {:trigger Agrees(lines, done, frozen, outs, d, less)} :: (less ==> tidy) ==> Agrees(lines, done, frozen, outs, d, less)
  {
  }

  lemma AgreesFrozen(lines: seq<string>, done: seq<Edit<string>>, frozen: nat, outs: seq<string>, d: Directives, tidy: bool)
    requires Agrees(lines, done, frozen, outs, d, tidy)
    ensures frozen == EditEnd(done) <= |lines|
  {
  }

  // ---------------------------------------------------------------- the story of a run

  /** Whether hunks are reversed, and last_offset, after these turns. */
  function RevAfter(rev: bool, trace: seq<Turn>): bool {
    if trace == [] then rev else RevAfter(rev, Init(trace)) != Last(trace).flipped
  }

  function OffsetAfter(off: int, trace: seq<Turn>): int {
    if trace == [] then off else NewOffset(Last(trace).g, Last(trace).where, Last(trace).offset)
  }

  /** Turn by turn: the hunk of the patch, reversed if the turns before have it so, and the offset they
      have left. */
  predicate Linked(trace: seq<Turn>, hs: seq<HunkVal>, rev: bool, off: int) {
    |trace| <= |hs|
    && forall k :: 0 <= k < |trace| ==>
         trace[k].h == (if RevAfter(rev, trace[..k]) then Swap(hs[k]) else hs[k]) && trace[k].offset == OffsetAfter(off, trace[..k])
  }

  function RejectedIn(trace: seq<Turn>): nat {
    if trace == [] then 0 else RejectedIn(Init(trace)) + if Last(trace).fate.Rejected? then 1 else 0
  }

  /** The rejected hunks as they are printed, in order. */
  function RejectsOf(trace: seq<Turn>): seq<string> {
    if trace == [] then [] else RejectsOf(Init(trace)) + if Last(trace).fate.Rejected? then RejectLines(Last(trace).g, Last(trace).offset) else []
  }

  /** How the run ended: with a turn that stops it, or with none. */
  predicate Ends(trace: seq<Turn>, ending: Ending) {
    && (forall k :: 0 <= k < |trace| - 1 ==> trace[k].fate.Applied? || trace[k].fate.Rejected?)
    && match ending
       case StoppedOutOfSync => trace != [] && Last(trace).fate.OutOfSync?
       case StoppedMisplaced => trace != [] && Last(trace).fate.Misplaced?
       case NoHunks => trace == []
       case _ => ending.Finished? && trace != [] && (Last(trace).fate.Applied? || Last(trace).fate.Rejected?)
  }

  /** In words of two turns in a row: the offset stays, unless the first one found its hunk somewhere else
      than guessed, and then it is the distance between the two places. */
  lemma OffsetsLinked(trace: seq<Turn>, hs: seq<HunkVal>, rev: bool, off: int, k: nat)
    requires Linked(trace, hs, rev, off) && k < |trace|
    ensures k == 0 ==> trace[0].offset == off
    ensures k > 0 ==>
      var t := trace[k - 1]; var guess := t.g.first + t.offset;
      trace[k].offset == if t.where == 0 || t.where == guess then t.offset else t.where - guess
  {
    hide Swap;
    assert trace[k].offset == OffsetAfter(off, trace[..k]);
    if k > 0 { assert Last(trace[..k]) == trace[k - 1]; }
  }

  lemma NothingLinked(hs: seq<HunkVal>, rev: bool, off: int, rejected: seq<string>)
    ensures Linked([], hs, rev, off) && RejectedIn([]) == 0 && rejected == rejected + RejectsOf([])
  {
  }

  lemma LinkOne(trace: seq<Turn>, t: Turn, hs: seq<HunkVal>, rev: bool, off: int, rejected: seq<string>)
    requires Linked(trace, hs, rev, off) && |trace| < |hs|
    requires t.h == (if RevAfter(rev, trace) then Swap(hs[|trace|]) else hs[|trace|]) && t.offset == OffsetAfter(off, trace)
    ensures Linked(trace + [t], hs, rev, off) && RevAfter(rev, trace + [t]) == (RevAfter(rev, trace) != t.flipped)
    ensures OffsetAfter(off, trace + [t]) == NewOffset(t.g, t.where, t.offset)
    ensures RejectedIn(trace + [t]) == RejectedIn(trace) + if t.fate.Rejected? then 1 else 0
    ensures rejected + RejectsOf(trace + [t]) == rejected + RejectsOf(trace) + if t.fate.Rejected? then RejectLines(t.g, t.offset) else []
  {
    hide Swap, RejectLines, NewOffset;
    var more := trace + [t];
    assert Init(more) == trace && Last(more) == t;
    forall k | 0 <= k < |more|
      ensures more[k].h == (if RevAfter(rev, more[..k]) then Swap(hs[k]) else hs[k]) && more[k].offset == OffsetAfter(off, more[..k])
    {
      if k < |trace| { assert more[..k] == trace[..k] && more[k] == trace[k]; } else { assert more[..k] == trace; }
    }
  }

  lemma SameOffset(t: Turn)
    requires t.g == t.h && t.where == t.h.first && t.offset == 0
    ensures NewOffset(t.g, t.where, t.offset) == 0
  {
  }

  /** The edits made by the applied hunks. */
  ghost function DoneBy(trace: seq<Turn>, lines: seq<string>): seq<Edit<string>>
  {
    if trace == [] then []
    else
      var t := Last(trace);
      DoneBy(Init(trace), lines) + if t.fate.Applied? then EffectIf(t.g, lines, t.where - 1) else []
  }

  /** The place of the hunk is in the file, and its halves stay in step from the first change on. */
  ghost predicate EffectDefined(h: HunkVal, lines: seq<string>, w: int) {
    && 0 <= w && w + |h.olds| <= |lines|
    && var s, k := Stripped(h), Lead(h.olds, h.news); Bare(s.olds, s.news, lines[w + k..w + |h.olds|]).ok
  }

  /** The edit of a hunk put behind w lines, from its first change on, where it has one. */
  ghost function EffectIf(h: HunkVal, lines: seq<string>, w: int): seq<Edit<string>> {
    if EffectDefined(h, lines, w) then Effect(Stripped(h), lines, w + Lead(h.olds, h.news)) else []
  }

  ghost predicate TidyIf(h: HunkVal, lines: seq<string>, w: int, d: Directives) {
    0 <= w && w + |h.olds| <= |lines| ==> Tidy(Stripped(h), lines, w + Lead(h.olds, h.news), d)
  }

  /** The hunk gets to its end: without a change if its old lines are all context, else as the walk says. */
  ghost predicate InStepAt(h: HunkVal, lines: seq<string>, w: int) {
    if Changes(h.olds, h.news) then EffectDefined(h, lines, w) else Lead(h.olds, h.news) == |h.olds|
  }

  lemma WellFormedChars(h: HunkVal)
    requires WellFormed(h)
    ensures OldChars(h.olds) && NewChars(h.news)
  {
  }

  /** A hunk that changes nothing makes no edit. */
  lemma NoEffect(h: HunkVal, lines: seq<string>, w: int)
    requires WellFormed(h) && !Changes(h.olds, h.news)
    ensures EffectIf(h, lines, w) == []
    ensures EffectDefined(h, lines, w) ==> Lead(h.olds, h.news) == |h.olds|
    ensures Lead(h.olds, h.news) == |h.olds| && 0 <= w && w + |h.olds| <= |lines| ==> EffectDefined(h, lines, w)
  {
    hide Patchwork, Lead, Changes, WellFormed;
    WellFormedChars(h);
    var k := Lead(h.olds, h.news);
    if 0 <= w && w + |h.olds| <= |lines| {
      var win := lines[w..w + |h.olds|];
      assert win[k..] == lines[w + k..w + |h.olds|];
      NoChange(h.olds, h.news, win, Off, []);
    }
  }

  /** After apply_hunk: one more hunk done, or the walk out of step. */
  lemma HunkOutcome(lines: seq<string>, done: seq<Edit<string>>, f: nat, outs: seq<string>, d: Directives, tidy: bool, h: HunkVal, w: int, ok: bool, f': nat, outs': seq<string>)
    requires Agrees(lines, done, f, outs, d, tidy) && WellFormed(h) && (Clear(h, lines, w, f) || !Changes(h.olds, h.news))
    requires Engine.Applied(h, lines, w, f, outs, d, ok, f', outs')
    ensures ok == InStepAt(h, lines, w)
    ensures ok ==> Agrees(lines, done + EffectIf(h, lines, w), f', outs', d, tidy && TidyIf(h, lines, w, d))
  {
    hide Patchwork, Agrees, Effect, Tidy, WellFormed, Lead, Changes;
    if Clear(h, lines, w, f) {
      ClearOutcome(lines, done, f, outs, d, tidy, h, w, ok, f', outs');
    } else {
      NoEffect(h, lines, w);
      AgreesLess(lines, done, f, outs, d, tidy);
      assert done + [] == done;
    }
  }

  lemma ClearOutcome(lines: seq<string>, done: seq<Edit<string>>, f: nat, outs: seq<string>, d: Directives, tidy: bool, h: HunkVal, w: int, ok: bool, f': nat, outs': seq<string>)
    requires Agrees(lines, done, f, outs, d, tidy) && WellFormed(h) && Clear(h, lines, w, f)
    requires Engine.Applied(h, lines, w, f, outs, d, ok, f', outs')
    ensures ok == InStepAt(h, lines, w)
    ensures ok ==> Agrees(lines, done + EffectIf(h, lines, w), f', outs', d, tidy && TidyIf(h, lines, w, d))
  {
    hide Patchwork, Agrees, Effect, Tidy, WellFormed, Lead, Changes;
    var k, s, e := Lead(h.olds, h.news), Stripped(h), w + |h.olds|;
    var win, pend := lines[w + k..e], lines[f..w + k];
    SameKept(s.olds, s.news, win, 0, d, pend);
    OkPend(s.olds, s.news, win, pend, []);
    StrippedWellFormed(h);
    if !Changes(h.olds, h.news) { NoEffect(h, lines, w); }
    if ok { HunkDone(lines, done, f, outs, d, tidy, s, w + k, f', Patchwork(s.olds, s.news, win, 0, d, pend)); }
  }

  /** Every turn of the run did what it should, given the edits made before it. */
  ghost predicate Told(trace: seq<Turn>, lines: seq<string>, loose: bool) {
    trace != [] ==>
      var t := Last(trace);
      Told(Init(trace), lines, loose) && Fair(t, lines, loose, |trace|, EditEnd(DoneBy(Init(trace), lines)))
  }

  /** A turn did what it should: the hunk was looked for, and its fate is the one its place calls for. */
  ghost predicate Fair(t: Turn, lines: seq<string>, loose: bool, count: nat, frozen: nat) {
    Chosen(t.h, t.g, lines, t.offset, loose, t.where, count, t.flipped) && Outcomes(t.fate, t.g, lines, t.where, frozen)
  }

  lemma NothingTold(lines: seq<string>, loose: bool)
    ensures Told([], lines, loose) && DoneBy([], lines) == []
  {
  }

  lemma TellOne(trace: seq<Turn>, t: Turn, lines: seq<string>, loose: bool, frozen: nat)
    requires Told(trace, lines, loose) && Fair(t, lines, loose, |trace| + 1, frozen) && frozen == EditEnd(DoneBy(trace, lines))
    ensures Told(trace + [t], lines, loose)
    ensures t.fate.Applied? ==> DoneBy(trace + [t], lines) == DoneBy(trace, lines) + EffectIf(t.g, lines, t.where - 1)
    ensures !t.fate.Applied? ==> DoneBy(trace + [t], lines) == DoneBy(trace, lines)
  {
    hide Fair, EffectIf;
    assert Init(trace + [t]) == trace && Last(trace + [t]) == t;
    assert DoneBy(trace, lines) + [] == DoneBy(trace, lines);
  }

  // ---------------------------------------------------------------- hunks that fit

  /** Hunk h can be applied exactly where it says. */
  ghost predicate Sits(h: HunkVal, lines: seq<string>, loose: bool) {
    && WellFormed(h) && 1 <= h.first && h.first - 1 + |h.olds| <= |lines|
    && MatchesAt(h.olds, lines, h.first, loose) && Shape(h.olds, false) == Shape(h.news, false)
  }

  lemma SitsEffect(h: HunkVal, lines: seq<string>, loose: bool)
    requires Sits(h, lines, loose)
    ensures EffectDefined(h, lines, h.first - 1) && InStepAt(h, lines, h.first - 1)
  {
    hide WellFormed, Lead, Patchwork, Changes;
    StrippedMeans(h, lines, h.first - 1);
    if !Changes(h.olds, h.news) { NoEffect(h, lines, h.first - 1); }
  }

  /** The edits of hunks applied where they say. */
  ghost function EffectsAt(hs: seq<HunkVal>, lines: seq<string>): seq<Edit<string>> {
    if hs == [] then []
    else EffectsAt(Init(hs), lines) + EffectIf(Last(hs), lines, Last(hs).first - 1)
  }

  /** Every hunk sits, and its first change is behind the last one of the hunks before it; their context
      may overlap. */
  ghost predicate Fitting(hs: seq<HunkVal>, lines: seq<string>, loose: bool) {
    forall i :: 0 <= i < |hs| ==> FitsBehind(hs, i, lines, loose)
  }

  ghost predicate FitsBehind(hs: seq<HunkVal>, i: nat, lines: seq<string>, loose: bool)
    requires i < |hs|
  {
    Sits(hs[i], lines, loose) && InFront(hs[i], EditEnd(EffectsAt(hs[..i], lines)))
  }

  /** With f lines frozen, the first change of the hunk is in front, where it says. */
  predicate InFront(h: HunkVal, f: nat) {
    Changes(h.olds, h.news) ==> f <= h.first - 1 + Lead(h.olds, h.news)
  }

  function TextCell(ch: char, l: string): Cell {
    Cell(ch, l, |l|)
  }

  /** A hunk that removes the first line, a. */
  function DropFirst(a: string): HunkVal {
    HunkVal(1, 1, Cell('*', "", 0), [TextCell('-', a)], [], Cell('=', "", 0), [])
  }

  /** A hunk that removes the third line, c, with two lines of context. */
  function DropThird(a: string, b: string, c: string): HunkVal {
    HunkVal(1, 1, Cell('*', "", 0), [TextCell(' ', a), TextCell(' ', b), TextCell('-', c)], [], Cell('=', "", 0), [TextCell(' ', a), TextCell(' ', b)])
  }

  lemma DropFirstSits(a: string, lines: seq<string>)
    requires IsLine(a) && lines != [] && lines[0] == a
    ensures Sits(DropFirst(a), lines, false) && EffectIf(DropFirst(a), lines, 0) == [Edit(0, 1, [])]
  {
    var h := DropFirst(a);
    hide IsLine, Lead, Patchwork;
    assert Shape(h.olds, false) == [] by { assert h.olds[1..] == []; }
    NoLead(h);
    PlainEffect(h, lines, 0);
  }

  lemma DropThirdSits(a: string, b: string, c: string)
    requires IsLine(a) && IsLine(b) && IsLine(c)
    ensures Sits(DropThird(a, b, c), [a, b, c], false) && Lead(DropThird(a, b, c).olds, DropThird(a, b, c).news) == 2
  {
    var h := DropThird(a, b, c);
    hide IsLine, Shape, Lead;
    OverlapShape(h.olds, h.news);
  }

  /** For example: the second hunk starts with the line the first one removes, and its own change comes
      two lines later.  Both fit, and both are applied. */
  lemma ContextMayOverlap(a: string, b: string, c: string)
    requires IsLine(a) && IsLine(b) && IsLine(c)
    ensures Fitting([DropFirst(a), DropThird(a, b, c)], [a, b, c], false)
  {
    hide Sits, IsLine, Lead, EffectIf, DropFirst;
    var h1, hs, lines := DropFirst(a), [DropFirst(a), DropThird(a, b, c)], [a, b, c];
    DropFirstSits(a, lines);
    DropThirdSits(a, b, c);
    FirstOf(a);
    assert hs[..0] == [] && hs[..1] == [h1] && Init([h1]) == [] && Last([h1]) == h1;
    assert EffectsAt([h1], lines) == [] + [Edit(0, 1, [])] == [Edit(0, 1, [])];
    assert FitsBehind(hs, 0, lines, false) && FitsBehind(hs, 1, lines, false);
  }

  lemma FirstOf(a: string)
    ensures DropFirst(a).first == 1
  {
  }

  /** For example: two hunks that each remove the first line.  The first is applied, and the second has its
      change among the lines passed over: a run over them ends there. */
  lemma RemovedTwice(a: string, b: string, trace: seq<Turn>, ending: Ending)
    requires IsLine(a) && Told(trace, [a, b], false) && Linked(trace, [DropFirst(a), DropFirst(a)], false, 0) && Ends(trace, ending)
    requires !ending.NoHunks? && (ending.Finished? ==> |trace| == 2)
    ensures ending == StoppedMisplaced && |trace| == 2 && trace[0].fate.Applied? && DoneBy(trace, [a, b]) == [Edit(0, 1, [])]
  {
    hide Sits, IsLine, EffectIf, DropFirst, Fair, Swap;
    var lines, t := [a, b], trace[0];
    DropFirstSits(a, lines);
    FirstOf(a);
    assert trace[..0] == [] && trace[..1] == [t] && Init([t]) == [] && Last([t]) == t;
    if |trace| == 1 { assert trace == [t]; } else { assert Init(trace) == [t] && Last(trace) == trace[1]; }
    assert Told([], lines, false) && Fair(t, lines, false, 1, 0) && DoneBy([], lines) == [];
    FitChosen(t, lines, false, 1, 0);
    assert DoneBy([t], lines) == [] + [Edit(0, 1, [])] == [Edit(0, 1, [])];
    SameOffset(t);
    if |trace| == 2 {
      assert Fair(trace[1], lines, false, 2, 1);
      SecondMisplaced(a, lines, trace[1]);
      assert DoneBy(trace, lines) == [Edit(0, 1, [])] + [];
    }
  }

  lemma SecondMisplaced(a: string, lines: seq<string>, t: Turn)
    requires IsLine(a) && lines != [] && lines[0] == a
    requires t.h == DropFirst(a) && t.offset == 0 && Fair(t, lines, false, 2, 1)
    ensures t.fate.Misplaced? && !t.flipped
  {
    hide WellFormed, InStepAt, MatchesAt;
    DropFirstSits(a, lines);
    SitsPlaced(t.h, lines, false, t.where);
    NoLead(t.h);
  }

  lemma OverlapShape(o: seq<Cell>, n: seq<Cell>)
    requires |o| == 3 && |n| == 2 && o[0].ch == ' ' == n[0].ch && o[1].ch == ' ' == n[1].ch && o[2].ch == '-'
    ensures Shape(o, false) == Shape(n, false) && Lead(o, n) == 2
  {
    var o1, o2, n1 := o[1..], o[2..], n[1..];
    assert o1[1..] == o2 && o2[1..] == [] && n1[1..] == [];
    assert Shape(o2, false) == [] && Shape([], false) == [];
    assert Shape(o1, false) == [Keep("")] + [] && Shape(n1, false) == [Keep("")] + [];
    assert Lead(o2, []) == 0 && Lead(o1, n1) == 1;
  }

  ghost predicate FitsUpTo(hs: seq<HunkVal>, lines: seq<string>, loose: bool, i: nat, done: seq<Edit<string>>) {
    i <= |hs| && Fitting(hs, lines, loose) && done == EffectsAt(hs[..i], lines)
  }

  lemma FitStart(hs: seq<HunkVal>, lines: seq<string>, loose: bool)
    requires Fitting(hs, lines, loose)
    ensures FitsUpTo(hs, lines, loose, 0, []) && hs[..|hs|] == hs
  {
    assert hs[..0] == [];
  }

  lemma FitEnd(hs: seq<HunkVal>, lines: seq<string>, loose: bool, done: seq<Edit<string>>)
    requires FitsUpTo(hs, lines, loose, |hs|, done)
    ensures done == EffectsAt(hs, lines)
  {
    assert hs[..|hs|] == hs;
  }

  lemma FitNext(hs: seq<HunkVal>, lines: seq<string>, loose: bool, i: nat, done: seq<Edit<string>>)
    requires i < |hs| && FitsUpTo(hs, lines, loose, i, done)
    ensures Sits(hs[i], lines, loose) && InFront(hs[i], EditEnd(done))
    ensures FitsUpTo(hs, lines, loose, i + 1, done + EffectIf(hs[i], lines, hs[i].first - 1))
  {
    hide Sits, EffectIf, InFront, InStepAt, EffectDefined;
    assert FitsBehind(hs, i, lines, loose);
    SitsEffect(hs[i], lines, loose);
    assert Init(hs[..i + 1]) == hs[..i] && Last(hs[..i + 1]) == hs[i];
  }

  /** A hunk that sits is found where it says, and is applied there. */
  lemma FitChosen(t: Turn, lines: seq<string>, loose: bool, count: nat, frozen: nat)
    requires Sits(t.h, lines, loose) && InFront(t.h, frozen) && t.offset == 0 && Fair(t, lines, loose, count, frozen)
    ensures t.g == t.h && t.where == t.h.first && !t.flipped && t.fate.Applied?
  {
    hide WellFormed, InStepAt, Changes, Lead, MatchesAt, EffectDefined;
    SitsEffect(t.h, lines, loose);
    if Placed(t.h, lines, 0, loose, 0) { SitsPlaced(t.h, lines, loose, 0); }
    if Placed(t.h, lines, 0, loose, t.where) { SitsPlaced(t.h, lines, loose, t.where); }
  }

  lemma SitsPlaced(h: HunkVal, lines: seq<string>, loose: bool, where: int)
    requires Sits(h, lines, loose) && Placed(h, lines, 0, loose, where)
    ensures where == h.first
  {
    hide MatchesAt, WellFormed, Shape;
    if h.olds != [] {
      var guess := h.first + 0;
      assert MatchesAt(h.olds, lines, guess + 0, loose) && InReach(lines, guess, |h.olds|, 0);
      assert where == 0 || where == guess || Before(0, where - guess);
    }
  }

  /** When each fate strikes. */
  ghost predicate Outcomes(fate: Fate, g: HunkVal, lines: seq<string>, where: int, frozen: nat) {
    if where == 0 then fate.Rejected?
    else if Changes(g.olds, g.news) && !Clear(g, lines, where - 1, frozen) then fate.Misplaced?
    else fate == if InStepAt(g, lines, where - 1) then Applied else OutOfSync
  }

  /** Which form of the hunk stands in the buffer after the search, and where it goes. */
  ghost predicate Chosen(h: HunkVal, g: HunkVal, lines: seq<string>, offset: int, loose: bool, where: int, count: nat, flipped: bool) {
    || (!flipped && g == h && Placed(h, lines, offset, loose, where) && (count == 1 ==> where != 0))
    || (flipped && count == 1 && Placed(h, lines, offset, loose, 0) && g == Swap(h) && where != 0 && Placed(Swap(h), lines, offset, loose, where))
    || (!flipped && count == 1 && Placed(h, lines, offset, loose, 0) && g == Swap(Swap(h)) && where == 0 && Placed(Swap(h), lines, offset, loose, 0))
  }

  /** Turn k of a run.  Only the first hunk is ever tried the other way round, and only when it is not found
      as it is; it stays turned exactly if that is found.  A hunk that is not found is rejected; one whose first
      change has no room, or whose place is not in the file, is misplaced; the others are applied, or get out
      of step. */
  lemma {:induction false} TurnExactly(trace: seq<Turn>, lines: seq<string>, loose: bool, k: nat)
    requires Told(trace, lines, loose) && k < |trace|
    ensures var t := trace[k]; t.flipped ==> k == 0 && t.g == Swap(t.h) && t.where != 0 && Placed(t.h, lines, t.offset, loose, 0)
    ensures var t := trace[k]; !t.flipped && (k > 0 || t.where != 0) ==> t.g == t.h
    ensures var t := trace[k]; k == 0 && t.where == 0 ==> Placed(t.h, lines, t.offset, loose, 0) && Placed(Swap(t.h), lines, t.offset, loose, 0)
    ensures var t := trace[k]; k > 0 || t.where != 0 ==> Placed(t.g, lines, t.offset, loose, t.where)
    ensures var t := trace[k]; t.fate.Rejected? <==> t.where == 0
    ensures var t, f := trace[k], EditEnd(DoneBy(trace[..k], lines)); t.fate.Misplaced? <==>
      t.where != 0 && Changes(t.g.olds, t.g.news) && (t.where < 1 || t.where - 1 + Lead(t.g.olds, t.g.news) < f || t.where - 1 + |t.g.olds| > |lines|)
  {
    hide Swap, Placed, Changes, Lead, InStepAt, EffectIf;
    if k < |trace| - 1 {
      TurnExactly(Init(trace), lines, loose, k);
      assert Init(trace)[..k] == trace[..k];
    } else {
      assert trace[..k] == Init(trace) && Last(trace) == trace[k];
    }
  }
}
