/**
 The patch engine: matching, searching, and applying the hunk in the buffer to the input file.
 */
module Engine {
  import opened Text
  import opened Hunk
  import opened Merging
  import opened LooseMatch
  import opened Locating
  import opened Walking
  import opened InputStore
  import opened Sealing

  class Patcher {
    const input: Input
    const hunk: HunkBuffer
    const canonicalize: bool      // -l: compare up to whitespace
    const defines: Directives     // do_defines and its four lines
    var lastFrozen: nat           // last_frozen_line
    var lastOffset: int           // last_offset
    var ofp: string               // the output file
    ghost var outLines: seq<string>

    /** The input file can be read. */
    ghost predicate Readable()
      reads input, input.ptr, input.tibuf0, input.tibuf1
    {
      input.inputLines == |input.lines| && forall k {:trigger Open(k)} :: Open(k) ==> input.Valid() && AreLines(input.lines)
    }

    /** The buffer holds the well-formed hunk h. */
    ghost predicate Holds(h: HunkVal)
      reads hunk, hunk.cells
    {
      && hunk.first == h.first && hunk.ptrnLines == |h.olds|
      && forall k {:trigger Open(k)} :: Open(k) ==> hunk.Has(h) && WellFormed(h)
    }

    /** The output file holds the lines written. */
    ghost predicate Written()
      reads `ofp, `outLines
    {
      forall k {:trigger Open(k)} :: Open(k) ==> ofp == Flat(outLines)
    }

    /** The engine holds hunk h, a readable input file and the output so far. */
    ghost predicate Ready(h: HunkVal)
      reads this, input, input.ptr, input.tibuf0, input.tibuf1, hunk, hunk.cells
    {
      Readable() && Holds(h) && Written()
    }

    /** The entry behind the hunk, where the copying loops look once, is none of the marks. */
    ghost predicate Neutral()
      reads hunk, hunk.cells
    {
      0 <= hunk.end + 1 < hunk.cells.Length && hunk.cells[hunk.end + 1].ch !in {' ', '-', '+', '!', '=', '\n'}
    }

    constructor (input: Input, hunk: HunkBuffer, canonicalize: bool, defines: Directives)
      ensures this.input == input && this.hunk == hunk && this.canonicalize == canonicalize && this.defines == defines
      ensures lastFrozen == 0 && lastOffset == 0 && ofp == "" && outLines == []
    {
      this.input, this.hunk, this.canonicalize, this.defines := input, hunk, canonicalize, defines;
      lastFrozen, lastOffset, ofp, outLines := 0, 0, "", [];
    }

    method Fetch(line: int, whichbuf: nat) returns (text: string)
      requires Readable() && whichbuf < 2
      modifies input`tiline0, input`tiline1, input.tibuf0, input.tibuf1
      ensures Readable()
      ensures if 1 <= line <= |input.lines| then IsLine(input.lines[line - 1]) && input.lines[line - 1] <= text else text == ""
    {
      assert Open(0);
      text := input.Ifetch(line, whichbuf);
    }

    // -------------------------------------------------------------- matching

    /** One line of patch_match. */
    method LineCompare(iline: int, whichbuf: nat, pline: nat, ghost h: HunkVal) returns (same: bool)
      requires Ready(h) && 1 <= pline <= |h.olds| && whichbuf < 2
      modifies input`tiline0, input`tiline1, input.tibuf0, input.tibuf1
      ensures Ready(h) && (same <==> LineMatches(input.lines, iline, h.olds[pline - 1].text, canonicalize))
    {
      assert Open(0);
      var text := Fetch(iline, whichbuf);
      var cell := hunk.cells[pline];
      assert cell == CellAt(h, pline) == h.olds[pline - 1] && IsText(cell);
      ghost var line := if 1 <= iline <= input.inputLines then input.lines[iline - 1] else "";
      StrnIsLine(text, line, cell.text);
      if canonicalize {
        same := Similar(text, cell.text, cell.len);
      } else {
        same := StrnEq(text, cell.text, cell.len);
      }
    }

    /** patch_match: does the pattern match at line base + offset? */
    method PatchMatch(base: int, offset: int, ghost h: HunkVal) returns (matches: bool)
      requires Ready(h)
      modifies input`tiline0, input`tiline1, input.tibuf0, input.tibuf1
      ensures Ready(h) && (matches <==> MatchesAt(h.olds, input.lines, base + offset, canonicalize))
    {
      var pline, iline := 1, base + offset;
      while pline <= hunk.ptrnLines
        invariant Ready(h) && 1 <= pline <= |h.olds| + 1 && iline == base + offset + pline - 1
        invariant forall i :: 0 <= i < pline - 1 ==> LineMatches(input.lines, base + offset + i, h.olds[i].text, canonicalize)
      {
        var same := LineCompare(iline, if offset >= 0 then 1 else 0, pline, h);
        if !same {
          assert !LineMatches(input.lines, base + offset + (pline - 1), h.olds[pline - 1].text, canonicalize);
          return false;
        }
        pline, iline := pline + 1, iline + 1;
      }
      matches := true;
    }

    /** The loop of locate_hunk: one line behind and one line in front of the guess, farther and farther. */
    method SearchAround(guess: int, maxPos: int, ghost h: HunkVal) returns (where: int, ghost e: int)
      requires Ready(h) && h.olds != [] && maxPos == Reach(input.lines, guess, |h.olds|)
      requires NoneNearer(h.olds, input.lines, guess, canonicalize, 1)
      modifies `lastOffset, input`tiline0, input`tiline1, input.tibuf0, input.tibuf1
      ensures Ready(h) && Found(h.olds, input.lines, guess, canonicalize, where, e)
      ensures lastOffset == if where == 0 then old(lastOffset) else where - guess
    {
      hide MatchesAt;
      ghost var olds, lines, loose := h.olds, input.lines, canonicalize;
      var offset := 1;
      while true
        invariant Ready(h) && offset >= 1 && lastOffset == old(lastOffset) && input.lines == lines
        invariant NoneNearer(olds, lines, guess, loose, offset)
        decreases maxPos + 1 - offset
      {
        if offset > maxPos {
          return 0, offset;
        }
        var after := PatchMatch(guess, offset, h);
        if after {
          MatchFits(olds, lines, guess + offset, loose, guess);
          lastOffset := offset;
          return guess + offset, offset;
        }
        var before := PatchMatch(guess, -offset, h);
        if before {
          MatchFits(olds, lines, guess + -offset, loose, guess);
          lastOffset := -offset;
          return guess - offset, -offset;
        }
        NearerStep(olds, lines, guess, loose, offset);
        offset := offset + 1;
      }
    }

    /** locate_hunk: the line where the hunk applies, or 0.  An empty pattern applies at the guess. */
    method LocateHunk(ghost h: HunkVal) returns (where: int)
      requires Ready(h)
      modifies `lastOffset, input`tiline0, input`tiline1, input.tibuf0, input.tibuf1
      ensures Ready(h)
      ensures h.olds == [] ==> where == h.first + old(lastOffset) && lastOffset == old(lastOffset)
      ensures h.olds != [] ==> Located(h.olds, input.lines, h.first + old(lastOffset), canonicalize, where)
      ensures h.olds != [] && where == 0 ==> forall at :: MatchesAt(h.olds, input.lines, at, canonicalize) ==>
        at < h.first + old(lastOffset) && h.first + old(lastOffset) - at > |input.lines| - (h.first + old(lastOffset)) - |h.olds| + 1
      ensures h.olds != [] && where != 0 ==> MatchesAt(h.olds, input.lines, where, canonicalize)
      ensures h.olds != [] && where != 0 && where < h.first + old(lastOffset) ==> h.first + old(lastOffset) - where <= |input.lines| - (h.first + old(lastOffset)) - |h.olds| + 1
      ensures h.olds != [] && where != 0 && where < h.first + old(lastOffset) ==> forall at :: where < at <= 2 * (h.first + old(lastOffset)) - where ==> !MatchesAt(h.olds, input.lines, at, canonicalize)
      ensures h.olds != [] && where != 0 && where >= h.first + old(lastOffset) ==> forall at :: 2 * (h.first + old(lastOffset)) - where < at < where ==> !MatchesAt(h.olds, input.lines, at, canonicalize)
      ensures lastOffset == if where == 0 || where == h.first + old(lastOffset) then old(lastOffset) else where - h.first - old(lastOffset)
    {
      hide Written, MatchesAt, NoneNearer, Found, Located;
      var guess := hunk.first + lastOffset;
      var patLines := hunk.ptrnLines;
      var maxPos := input.inputLines - guess - patLines + 1;
      if patLines == 0 {
        return guess;
      }
      if guess <= input.inputLines {
        var matches := PatchMatch(guess, 0, h);
        if matches {
          NearestStart(h.olds, input.lines, guess, canonicalize);
          LocatedSays(h.olds, input.lines, guess, canonicalize, guess);
          return guess;
        }
      } else {
        OutsideNeverMatches(h.olds, input.lines, guess, canonicalize);
      }
      NotHere(h.olds, input.lines, guess, canonicalize);
      ghost var e;
      where, e := SearchAround(guess, maxPos, h);
      FoundLocated(h.olds, input.lines, guess, canonicalize, where, e);
      LocatedSays(h.olds, input.lines, guess, canonicalize, where);
    }

    // -------------------------------------------------------------- output

    /** fputs on the output file. */
    method Put(line: string)
      requires Written()
      modifies `ofp, `outLines
      ensures Written() && outLines == old(outLines) + [line]
    {
      assert Open(0);
      FlatAppend(outLines, [line]);
      FlatOne(line);
      ofp := ofp + line;
      outLines := outLines + [line];
    }

    method PutIf(on: bool, line: string)
      requires Written()
      modifies `ofp, `outLines
      ensures Written() && outLines == old(outLines) + if on then [line] else []
    {
      if on { Put(line); }
    }

    /** The loop of dump_line: characters are copied up to and including the newline. */
    method PutLine(s: string, ghost l: string)
      requires IsLine(l) && l <= s && Written()
      modifies `ofp, `outLines
      ensures Written() && outLines == old(outLines) + [l]
    {
      assert Open(0);
      var i := 0;
      while s[i] != '\n'
        invariant 0 <= i < |l| && ofp == old(ofp) + l[..i]
        modifies `ofp
        decreases |l| - i
      {
        assert s[i] == l[i] && l[..i + 1] == l[..i] + [l[i]];
        ofp := ofp + [s[i]];
        i := i + 1;
      }
      assert s[i] == l[i] && i == |l| - 1;
      assert l == l[..i] + [l[i]];
      ofp := ofp + [s[i]];
      FlatAppend(outLines, [l]);
      FlatOne(l);
      outLines := outLines + [l];
    }

    /** dump_line */
    method DumpLine(line: nat)
      requires Readable() && 1 <= line <= |input.lines| && Written()
      modifies `ofp, `outLines, input`tiline0, input`tiline1, input.tibuf0, input.tibuf1
      ensures Readable() && Written() && outLines == old(outLines) + [input.lines[line - 1]]
    {
      var s := Fetch(line, 0);
      PutLine(s, input.lines[line - 1]);
    }

    /** copy_till: the file's own lines up to lastline, unless they have been passed already. */
    method CopyTill(lastline: int) returns (misordered: bool)
      requires Readable() && lastline <= |input.lines| && Written()
      modifies `ofp, `outLines, `lastFrozen, input`tiline0, input`tiline1, input.tibuf0, input.tibuf1
      ensures Readable() && Written() && (misordered <==> lastline < old(lastFrozen))
      ensures misordered ==> lastFrozen == old(lastFrozen) && outLines == old(outLines)
      ensures !misordered ==> lastFrozen == lastline && outLines == old(outLines) + input.lines[old(lastFrozen)..lastline]
    {
      misordered := lastFrozen > lastline;
      ghost var lines := input.lines;
      while lastFrozen < lastline
        invariant Readable() && Written()
        invariant misordered ==> lastFrozen == old(lastFrozen) && outLines == old(outLines)
        invariant !misordered ==> old(lastFrozen) <= lastFrozen <= lastline
        invariant !misordered ==> outLines == old(outLines) + lines[old(lastFrozen)..lastFrozen]
      {
        lastFrozen := lastFrozen + 1;
        DumpLine(lastFrozen);
        assert lines[old(lastFrozen)..lastFrozen] == lines[old(lastFrozen)..lastFrozen - 1] + [lines[lastFrozen - 1]];
      }
      assert !misordered && lastFrozen == old(lastFrozen) ==> outLines + [] == outLines;
    }

    /** spew_output: the rest of the file. */
    method SpewOutput()
      requires Readable() && Written()
      modifies `ofp, `outLines, `lastFrozen, input`tiline0, input`tiline1, input.tibuf0, input.tibuf1
      ensures Readable() && Written()
      ensures old(lastFrozen) <= |input.lines| ==> outLines == old(outLines) + input.lines[old(lastFrozen)..]
    {
      var misordered := CopyTill(input.inputLines);
      assert input.lines[..|input.lines|] == input.lines;
    }

    // -------------------------------------------------------------- applying

    /** apply_hunk is at old line oi and new line ni of hunk h, which goes behind the first w lines. */
    ghost predicate At(h: HunkVal, start: seq<string>, w: nat, oi: nat, ni: nat, def: int, r: Outcome)
      reads this, input
    {
      Position(start, outLines, h.olds, oi, h.news, ni, input.lines, w, lastFrozen, def, defines, r)
    }

    /** The same with the leading context: as long as the walk is inside it, nothing has happened.  clear
        says that the first change, if there is one, has its place in front of it. */
    ghost predicate Stands(h: HunkVal, start: seq<string>, f: nat, w: int, oi: nat, ni: nat, def: int, clear: bool, r: Outcome)
      reads this, input
    {
      var k := Lead(h.olds, h.news);
      if clear && oi >= k then 0 <= w && At(h, start, w, oi, ni, def, r)
      else oi == ni <= k && outLines == start && lastFrozen == f && def == 0
    }

    /** At the end of the old lines, the leading context has been passed; if it is all there is, nothing
        has happened and nothing is left to add. */
    lemma StandsEnd(h: HunkVal, start: seq<string>, f: nat, w: int, ni: nat, def: int, clear: bool, r: Outcome)
      requires Stands(h, start, f, w, |h.olds|, ni, def, clear, r) && (clear || !Changes(h.olds, h.news))
      ensures clear ==> lastFrozen <= w + |h.olds| <= |input.lines| && 0 <= w && Position(start, outLines, h.olds, |h.olds|, h.news, ni, input.lines, w, lastFrozen, def, defines, r)
      ensures !clear ==> outLines == start && lastFrozen == f && def == 0 && !NextIsPlus(h, ni)
    {
      hide Sofar;
    }

    /** A line that is removed, added or changed stands behind the leading context. */
    lemma Begun(h: HunkVal, start: seq<string>, f: nat, w: int, oi: nat, ni: nat, def: int, clear: bool, r: Outcome)
      requires Stands(h, start, f, w, oi, ni, def, clear, r) && (clear || !Changes(h.olds, h.news)) && oi < |h.olds|
      requires h.olds[oi].ch == '-' || (ni < |h.news| && (h.news[ni].ch == '+' || h.olds[oi].ch == '!' == h.news[ni].ch))
      ensures clear && 0 <= w && At(h, start, w, oi, ni, def, r)
    {
      hide Position;
    }

    /** The conditional in front of a removed line. */
    method MarkMinus(def: int) returns (def': int)
      requires Written()
      modifies `ofp, `outLines
      ensures Written() && outLines == old(outLines) + MinusMark(defines, def) && def' == MinusDef(defines, def)
    {
      def' := def;
      if defines.On? {
        if def == 0 {
          Put(defines.ifndef);
          def' := -1;
        } else if def == 1 {
          Put(defines.els);
          def' := 2;
        }
      }
    }

    /** A removed line: kept lines before it go out, it is passed over, and under -D shown as undefined text. */
    method WriteMinus(upTo: nat, text: string, def: int) returns (def': int)
      requires Readable() && Written() && lastFrozen <= upTo < |input.lines|
      modifies `ofp, `outLines, `lastFrozen, input`tiline0, input`tiline1, input.tibuf0, input.tibuf1
      ensures Readable() && Written() && lastFrozen == upTo + 1 && def' == MinusDef(defines, def)
      ensures outLines == old(outLines) + input.lines[old(lastFrozen)..upTo] + MinusMark(defines, def) + (if defines.On? then [text] else [])
    {
      var misordered := CopyTill(upTo);
      def' := MarkMinus(def);
      PutIf(defines.On?, text);
      lastFrozen := lastFrozen + 1;
    }

    method Minus(where: nat, op: nat, def: int, ghost h: HunkVal, ghost start: seq<string>, ghost ni: nat, ghost r: Outcome) returns (def': int)
      requires Ready(h) && 1 <= op <= |h.olds| && At(h, start, where, op - 1, ni, def, r) && h.olds[op - 1].ch == '-'
      modifies `ofp, `outLines, `lastFrozen, input`tiline0, input`tiline1, input.tibuf0, input.tibuf1
      ensures Ready(h) && At(h, start, where, op, ni, def', r)
    {
      hide Sofar;
      MinusAt(start, outLines, h.olds, op - 1, h.news, ni, input.lines, where, lastFrozen, def, defines, r);
      var text := OldText(op, h);
      def' := WriteMinus(where + op - 1, text, def);
    }

    /** The conditional in front of an added line. */
    method MarkPlus(def: int) returns (def': int)
      requires Written()
      modifies `ofp, `outLines
      ensures Written() && outLines == old(outLines) + PlusMark(defines, def) && def' == PlusDef(defines, def)
    {
      def' := def;
      if defines.On? {
        if def == -1 {
          Put(defines.els);
          def' := 2;
        } else if def == 0 {
          Put(defines.ifdef);
          def' := 1;
        }
      }
    }

    method WritePlus(upTo: nat, text: string, def: int) returns (def': int)
      requires Readable() && Written() && lastFrozen <= upTo <= |input.lines|
      modifies `ofp, `outLines, `lastFrozen, input`tiline0, input`tiline1, input.tibuf0, input.tibuf1
      ensures Readable() && Written() && lastFrozen == upTo && def' == PlusDef(defines, def)
      ensures outLines == old(outLines) + input.lines[old(lastFrozen)..upTo] + PlusMark(defines, def) + [text]
    {
      var misordered := CopyTill(upTo);
      def' := MarkPlus(def);
      Put(text);
    }

    /** An added line goes out behind the kept lines before it. */
    method Plus(where: nat, op: nat, np: nat, def: int, ghost h: HunkVal, ghost start: seq<string>, ghost r: Outcome) returns (def': int)
      requires Ready(h) && 1 <= op <= |h.olds| && NewIndex(h, 0) <= np < NewIndex(h, |h.news|)
      requires At(h, start, where, op - 1, np - NewIndex(h, 0), def, r)
      requires h.olds[op - 1].ch != '-' && h.news[np - NewIndex(h, 0)].ch == '+'
      modifies `ofp, `outLines, `lastFrozen, input`tiline0, input`tiline1, input.tibuf0, input.tibuf1
      ensures Ready(h) && At(h, start, where, op - 1, np + 1 - NewIndex(h, 0), def', r)
    {
      hide Sofar;
      PlusAt(start, outLines, h.olds, op - 1, h.news, np - NewIndex(h, 0), input.lines, where, lastFrozen, def, defines, r);
      var text := NewText(np, h);
      def' := WritePlus(where + op - 1, text, def);
    }

    /** Changed lines of the old part: passed over, and shown as undefined text under -D. */
    method PassOld(op: nat, ghost h: HunkVal) returns (op': nat)
      requires Holds(h) && Written() && 1 <= op <= |h.olds| && h.olds[op - 1].ch == '!'
      modifies `ofp, `outLines, `lastFrozen
      ensures Written() && op' == op + Run(h.olds[op - 1..], '!') && lastFrozen == old(lastFrozen) + Run(h.olds[op - 1..], '!')
      ensures outLines == old(outLines) + Echo(defines, h.olds[op - 1..][..Run(h.olds[op - 1..], '!')])
    {
      hide Run, Holds, Written, Echo;
      ghost var c, k := h.olds[op - 1..], 0;
      op' := op;
      EchoNone(defines, c);
      OldMark(op', h);
      while hunk.cells[op'].ch == '!'
        invariant Written() && op' == op + k && k <= |c| && lastFrozen == old(lastFrozen) + k
        invariant outLines == old(outLines) + Echo(defines, c[..k])
        invariant OldMarked(op', h) && forall i :: 0 <= i < k ==> c[i].ch == '!'
        decreases |c| - k
      {
        if defines.On? {
          var text := OldText(op', h);
          Put(text);
        }
        EchoMore(defines, c, k);
        lastFrozen := lastFrozen + 1;
        op', k := op' + 1, k + 1;
        OldMark(op', h);
      }
      RunIs(c, '!', k);
    }

    /** Changed lines of the new part are written. */
    method PutNew(np: nat, ghost h: HunkVal, ch: char) returns (np': nat)
      requires Holds(h) && Written() && NewIndex(h, 0) <= np <= NewIndex(h, |h.news|) && ch in {'!', '+'}
      requires Neutral()
      modifies `ofp, `outLines
      ensures Written() && np' == np + Run(h.news[np - NewIndex(h, 0)..], ch)
      ensures outLines == old(outLines) + Texts(h.news[np - NewIndex(h, 0)..][..Run(h.news[np - NewIndex(h, 0)..], ch)])
    {
      hide Run, Holds, Written;
      ghost var c, k := h.news[np - NewIndex(h, 0)..], 0;
      np' := np;
      NewMark(np', h);
      while hunk.cells[np'].ch == ch
        invariant Written() && np' == np + k && k <= |c|
        invariant outLines == old(outLines) + Texts(c[..k])
        invariant NewMarked(np', h) && forall i :: 0 <= i < k ==> c[i].ch == ch
        decreases |c| - k
      {
        var text := NewText(np', h);
        TextsMore(c, k);
        Put(text);
        np', k := np' + 1, k + 1;
        NewMark(np', h);
      }
      RunIs(c, ch, k);
    }

    /** A run of changed lines: old ones passed over, new ones written; under -D both, in a conditional. */
    method WriteChange(upTo: nat, op: nat, np: nat, def: int, ghost h: HunkVal) returns (op': nat, np': nat, def': int)
      requires Ready(h) && Neutral() && 1 <= op <= |h.olds| && NewIndex(h, 0) <= np <= NewIndex(h, |h.news|)
      requires lastFrozen <= upTo <= |input.lines| && h.olds[op - 1].ch == '!'
      modifies `ofp, `outLines, `lastFrozen, input`tiline0, input`tiline1, input.tibuf0, input.tibuf1
      ensures Ready(h) && op' == op + Run(h.olds[op - 1..], '!') && np' == np + Run(h.news[np - NewIndex(h, 0)..], '!')
      ensures lastFrozen == upTo + op' - op && def' == if defines.Off? then def else 0
      ensures outLines == old(outLines) + input.lines[old(lastFrozen)..upTo] + Change(defines, h.olds[op - 1..][..op' - op], h.news[np - NewIndex(h, 0)..][..np' - np])
    {
      hide Run, Texts, Change, Echo, Readable, Written, Holds, Neutral;
      var misordered := CopyTill(upTo);
      ghost var copied := outLines;
      def' := def;
      if defines.On? {
        Put(defines.ifndef);
        def' := -1;
      }
      op' := PassOld(op, h);
      if defines.On? {
        Put(defines.els);
        def' := 2;
      }
      np' := PutNew(np, h, '!');
      if defines.On? {
        Put(defines.end);
        def' := 0;
      }
      ghost var o, n := h.olds[op - 1..][..op' - op], h.news[np - NewIndex(h, 0)..][..np' - np];
      ChangeParts(copied, defines, o, n);
    }

    method Bang(where: nat, op: nat, np: nat, def: int, ghost h: HunkVal, ghost start: seq<string>, ghost r: Outcome) returns (op': nat, np': nat, def': int)
      requires Ready(h) && Neutral() && 1 <= op <= |h.olds| && NewIndex(h, 0) <= np < NewIndex(h, |h.news|)
      requires At(h, start, where, op - 1, np - NewIndex(h, 0), def, r)
      requires h.olds[op - 1].ch == '!' && h.news[np - NewIndex(h, 0)].ch == '!'
      modifies `ofp, `outLines, `lastFrozen, input`tiline0, input`tiline1, input.tibuf0, input.tibuf1
      ensures Ready(h) && op < op' <= |h.olds| + 1 && np <= np' <= NewIndex(h, |h.news|)
      ensures At(h, start, where, op' - 1, np' - NewIndex(h, 0), def', r)
    {
      hide Sofar, Run, Change, Readable, Written, Holds;
      BangAt(start, outLines, h.olds, op - 1, h.news, np - NewIndex(h, 0), input.lines, where, lastFrozen, def, defines, r);
      op', np', def' := WriteChange(where + op - 1, op, np, def, h);
      RunStarts(h.olds[op - 1..], '!');
    }

    /** The trailing new lines, and the end of an open conditional. */
    method Tail(where: int, np: nat, def: int, ghost h: HunkVal, ghost start: seq<string>, ghost f: nat, ghost clear: bool, ghost r: Outcome)
      requires Ready(h) && Neutral() && NewIndex(h, 0) <= np <= NewIndex(h, |h.news|) && (clear || !Changes(h.olds, h.news))
      requires Stands(h, start, f, where, |h.olds|, np - NewIndex(h, 0), def, clear, r)
      modifies `ofp, `outLines, `lastFrozen, input`tiline0, input`tiline1, input.tibuf0, input.tibuf1
      ensures Ready(h)
      ensures clear ==> outLines == start + r.out && r.ok && lastFrozen <= where + |h.olds| && r.pend == input.lines[lastFrozen..where + |h.olds|]
      ensures !clear ==> outLines == start && lastFrozen == f
    {
      hide Position, Stands, Run, Texts, Readable, Written, Changes, PlusMark, PlusDef;
      StandsEnd(h, start, f, where, np - NewIndex(h, 0), def, clear, r);
      if clear {
        FinishAt(start, outLines, h.olds, h.news, np - NewIndex(h, 0), input.lines, where, lastFrozen, def, defines, r);
      }
      var def' := PutRest(where + hunk.ptrnLines, np, def, h);
      assert outLines + [] == outLines;
      if defines.On? && def' != 0 {
        Put(defines.end);
      }
    }

    /** Lines added behind the last old line. */
    method PutRest(upTo: int, np: nat, def: int, ghost h: HunkVal) returns (def': int)
      requires Ready(h) && Neutral() && NewIndex(h, 0) <= np <= NewIndex(h, |h.news|)
      requires NextIsPlus(h, np - NewIndex(h, 0)) ==> lastFrozen <= upTo <= |input.lines|
      modifies `ofp, `outLines, `lastFrozen, input`tiline0, input`tiline1, input.tibuf0, input.tibuf1
      ensures Ready(h) && def' == if NextIsPlus(h, np - NewIndex(h, 0)) then PlusDef(defines, def) else def
      ensures NextIsPlus(h, np - NewIndex(h, 0)) ==> lastFrozen == upTo
      ensures NextIsPlus(h, np - NewIndex(h, 0)) ==> outLines == old(outLines) + input.lines[old(lastFrozen)..upTo] + PlusMark(defines, def) + Texts(h.news[np - NewIndex(h, 0)..][..Run(h.news[np - NewIndex(h, 0)..], '+')])
      ensures !NextIsPlus(h, np - NewIndex(h, 0)) ==> lastFrozen == old(lastFrozen) && outLines == old(outLines)
    {
      hide Run, Texts, Readable, Written, PlusMark, PlusDef;
      NewMark(np, h);
      HunkEnd(h);
      def' := def;
      if np <= hunk.end && hunk.cells[np].ch == '+' {
        var misordered := CopyTill(upTo);
        def' := MarkPlus(def);
        var np' := PutNew(np, h, '+');
      }
    }

    /** Finding the first new line behind the second header. */
    method SkipHeader(ghost h: HunkVal) returns (np: nat)
      requires Holds(h) && Neutral()
      ensures np == NewIndex(h, 0)
    {
      np := hunk.ptrnLines + 1;
      HeaderMarks(h);
      while hunk.cells[np].ch == '=' || hunk.cells[np].ch == '\n'
        invariant |h.olds| + 1 <= np <= NewIndex(h, 0)
        decreases NewIndex(h, 0) - np
      {
        np := np + 1;
      }
    }

    /** How far the leading context of the hunk goes, and whether a change comes behind it. */
    method FirstChange(ghost h: HunkVal) returns (lead: nat, changes: bool)
      requires Holds(h) && Neutral()
      ensures lead == Lead(h.olds, h.news) && changes == Changes(h.olds, h.news)
    {
      hide Holds, Lead, Neutral;
      var np := SkipHeader(h);
      var op, lastline := 1, hunk.ptrnLines;
      PatternLength(h);
      OldMark(op, h);
      NewMark(np, h);
      LeadStart(h.olds, h.news);
      while hunk.cells[op].ch == ' ' && hunk.cells[np].ch == ' '
        invariant 1 <= op <= |h.olds| + 1 && 0 <= np && OldMarked(op, h) && NewMarked(np, h) && op - 1 == np - NewIndex(h, 0)
        invariant LeadFrom(h.olds, h.news, op - 1)
        decreases |h.olds| - op
      {
        LeadMore(h.olds, h.news, op - 1);
        op, np := op + 1, np + 1;
        OldMark(op, h);
        NewMark(np, h);
      }
      LeadEnd(h.olds, h.news, op - 1);
      lead := op - 1;
      changes := hunk.cells[op].ch == '-' || hunk.cells[np].ch == '+' || (hunk.cells[op].ch == '!' && hunk.cells[np].ch == '!');
    }

    lemma PatternLength(h: HunkVal)
      requires Holds(h)
      ensures hunk.ptrnLines == |h.olds|
    {
    }

    /** apply_hunk: hunk h takes the place of its old lines behind the first line - 1 lines of the file.
        It comes out as the walk says, or stops out of sync. */
    method ApplyHunk(line: int, ghost h: HunkVal) returns (ok: bool)
      requires Ready(h) && Neutral()
      requires Clear(h, input.lines, line - 1, lastFrozen) || !Changes(h.olds, h.news)
      modifies `ofp, `outLines, `lastFrozen, input`tiline0, input`tiline1, input.tibuf0, input.tibuf1
      ensures Ready(h)
      ensures Applied(h, input.lines, line - 1, old(lastFrozen), old(outLines), defines, ok, lastFrozen, outLines)
    {
      hide Sofar, Position, Patchwork, Lead, Readable, Written, Changes;
      var where, op, lastline, def := line - 1, 1, hunk.ptrnLines, 0;
      var np := SkipHeader(h);
      ghost var start, f, clear := outLines, lastFrozen, Clear(h, input.lines, where, lastFrozen);
      ghost var r := Whole(h, input.lines, where, f, defines);
      if clear && Lead(h.olds, h.news) == 0 { BeginAt(start, h.olds, h.news, 0, input.lines, where, f, defines); }
      ok := true;
      while ok && op <= lastline
        invariant Ready(h) && 1 <= op <= |h.olds| + 1 && NewIndex(h, 0) <= np <= NewIndex(h, |h.news|)
        invariant ok ==> Stands(h, start, f, where, op - 1, np - NewIndex(h, 0), def, clear, r)
        invariant !ok ==> if clear then !r.ok else outLines == start && lastFrozen == f && Lead(h.olds, h.news) < |h.olds|
        decreases ok, |h.olds| + NewIndex(h, |h.news|) - op - np
      {
        ok, op, np, def := Turn(where, op, np, def, h, start, f, clear, r);
      }
      if ok {
        Tail(where, np, def, h, start, f, clear, r);
      }
    }

    /** One turn of apply_hunk's loop. */
    method Turn(where: int, op: nat, np: nat, def: int, ghost h: HunkVal, ghost start: seq<string>, ghost f: nat, ghost clear: bool, ghost r: Outcome) returns (ok: bool, op': nat, np': nat, def': int)
      requires Ready(h) && Neutral() && 1 <= op <= |h.olds| && NewIndex(h, 0) <= np <= NewIndex(h, |h.news|)
      requires (clear || !Changes(h.olds, h.news)) && (clear ==> Clear(h, input.lines, where, f) && r == Whole(h, input.lines, where, f, defines))
      requires Stands(h, start, f, where, op - 1, np - NewIndex(h, 0), def, clear, r)
      modifies `ofp, `outLines, `lastFrozen, input`tiline0, input`tiline1, input.tibuf0, input.tibuf1
      ensures Ready(h) && op <= op' <= |h.olds| + 1 && np <= np' <= NewIndex(h, |h.news|) && (ok ==> op + np < op' + np')
      ensures ok ==> Stands(h, start, f, where, op' - 1, np' - NewIndex(h, 0), def', clear, r)
      ensures !ok ==> if clear then !r.ok else outLines == start && lastFrozen == f && Lead(h.olds, h.news) < |h.olds|
    {
      hide Sofar, Position, Lead, Changes, Patchwork, Run;
      OldMark(op, h);
      NewMark(np, h);
      OldIsContext(op, h);
      ok, op', np', def' := true, op, np, def;
      ghost var oi, ni := op - 1, np - NewIndex(h, 0);
      if hunk.cells[op].ch == '-' {
        Begun(h, start, f, where, oi, ni, def, clear, r);
        def' := Minus(where, op, def, h, start, ni, r);
        op' := op + 1;
      } else if hunk.cells[np].ch == '+' {
        Begun(h, start, f, where, oi, ni, def, clear, r);
        def' := Plus(where, op, np, def, h, start, r);
        np' := np + 1;
      } else if hunk.cells[np].ch != hunk.cells[op].ch {
        if clear && oi >= Lead(h.olds, h.news) { LostAt(start, outLines, h.olds, oi, h.news, ni, input.lines, where, lastFrozen, def, defines, r); }
        ok := false;
      } else if hunk.cells[np].ch == '!' {
        Begun(h, start, f, where, oi, ni, def, clear, r);
        op', np', def' := Bang(where, op, np, def, h, start, r);
      } else {
        if clear && oi >= Lead(h.olds, h.news) {
          ContextAt(start, outLines, h.olds, oi, h.news, ni, input.lines, where, lastFrozen, def, defines, r);
        } else if clear && oi + 1 == Lead(h.olds, h.news) {
          BeginAt(start, h.olds, h.news, oi + 1, input.lines, where, f, defines);
        }
        op', np' := op + 1, np + 1;
      }
    }

    lemma OldIsContext(op: nat, h: HunkVal)
      requires Holds(h) && 1 <= op <= |h.olds|
      ensures h.olds[op - 1].ch in {' ', '-', '!'}
    {
      assert Open(0);
    }

    lemma HunkEnd(h: HunkVal)
      requires Holds(h)
      ensures hunk.end + 1 == NewIndex(h, |h.news|)
    {
      assert Open(0);
    }

    lemma HeaderMarks(h: HunkVal)
      requires Holds(h) && Neutral()
      ensures NewIndex(h, 0) < hunk.cells.Length && hunk.cells[NewIndex(h, 0)].ch !in {'=', '\n'}
      ensures forall i :: |h.olds| + 1 <= i < NewIndex(h, 0) ==> hunk.cells[i].ch in {'=', '\n'}
    {
      assert Open(0);
      NewMark(NewIndex(h, 0), h);
      forall i | |h.olds| + 1 <= i < NewIndex(h, 0) ensures hunk.cells[i].ch in {'=', '\n'} {
        assert hunk.cells[i] == CellAt(h, i);
      }
    }

    /** pfetch on an old line. */
    method OldText(op: nat, ghost h: HunkVal) returns (text: string)
      requires Holds(h) && 1 <= op <= |h.olds|
      ensures text == h.olds[op - 1].text
    {
      assert Open(0);
      assert hunk.cells[op] == CellAt(h, op);
      text := hunk.cells[op].text;
    }

    /** pfetch on a new line. */
    method NewText(np: nat, ghost h: HunkVal) returns (text: string)
      requires Holds(h) && NewIndex(h, 0) <= np < NewIndex(h, |h.news|)
      ensures text == h.news[np - NewIndex(h, 0)].text
    {
      assert Open(0);
      assert hunk.cells[np] == CellAt(h, np);
      text := hunk.cells[np].text;
    }

    /** What pch_char says at an old position or just behind the old part. */
    ghost predicate OldMarked(op: nat, h: HunkVal)
      reads hunk, hunk.cells
    {
      && op < hunk.cells.Length && 1 <= op <= |h.olds| + 1
      && if op <= |h.olds| then hunk.cells[op].ch == h.olds[op - 1].ch else hunk.cells[op].ch in {'=', '\n'}
    }

    lemma OldMark(op: nat, h: HunkVal)
      requires Holds(h) && 1 <= op <= |h.olds| + 1
      ensures OldMarked(op, h)
    {
      assert Open(0);
      assert hunk.cells[op] == CellAt(h, op);
    }

    /** What pch_char says at a new position or just behind the hunk. */
    ghost predicate NewMarked(np: nat, h: HunkVal)
      reads hunk, hunk.cells
    {
      && np < hunk.cells.Length && NewIndex(h, 0) <= np <= NewIndex(h, |h.news|)
      && if np < NewIndex(h, |h.news|) then hunk.cells[np].ch == h.news[np - NewIndex(h, 0)].ch
         else hunk.cells[np].ch !in {' ', '-', '+', '!', '=', '\n'}
    }

    lemma NewMark(np: nat, h: HunkVal)
      requires Holds(h) && NewIndex(h, 0) <= np <= NewIndex(h, |h.news|)
      requires Neutral()
      ensures NewMarked(np, h)
    {
      assert Open(0);
      if np < NewIndex(h, |h.news|) { assert hunk.cells[np] == CellAt(h, np); }
    }
  }

  /** A hunk put behind the first w lines finds its first change in front of it: f lines are frozen, and
      the leading context may lie among them. */
  predicate Clear(h: HunkVal, lines: seq<string>, w: int, f: nat) {
    0 <= w && f <= w + Lead(h.olds, h.news) && w + |h.olds| <= |lines|
  }

  /** The walk behind the leading context, with what is left of that kept in front. */
  function Whole(h: HunkVal, lines: seq<string>, w: int, f: nat, d: Directives): Outcome {
    var k := Lead(h.olds, h.news);
    if Clear(h, lines, w, f) then Patchwork(h.olds[k..], h.news[k..], lines[w + k..w + |h.olds|], 0, d, lines[f..w + k])
    else Outcome(k == |h.olds|, [], [], [])
  }

  /** What apply_hunk has done, for a hunk put behind the first w lines when f lines were frozen. */
  ghost predicate Applied(h: HunkVal, lines: seq<string>, w: int, f: nat, before: seq<string>, d: Directives, ok: bool, f': nat, after: seq<string>) {
    var r := Whole(h, lines, w, f, d);
    && ok == r.ok
    && (Clear(h, lines, w, f) && ok ==> after == before + r.out && f' <= w + |h.olds| && lines[f'..w + |h.olds|] == r.pend)
    && (!Clear(h, lines, w, f) ==> after == before && f' == f)
  }

  predicate NextIsPlus(h: HunkVal, ni: nat) {
    ni < |h.news| && h.news[ni].ch == '+'
  }

  lemma EchoNone(d: Directives, c: seq<Cell>)
    ensures Echo(d, c[..0]) == []
  {
  }

  lemma EchoMore(d: Directives, c: seq<Cell>, k: nat)
    requires k < |c|
    ensures Echo(d, c[..k + 1]) == Echo(d, c[..k]) + if d.On? then [c[k].text] else []
  {
    TextsMore(c, k);
  }

  /** The first k lines of both halves are leading context. */
  predicate LeadFrom(o: seq<Cell>, n: seq<Cell>, k: nat) {
    k <= |o| && k <= |n| && Lead(o, n) == k + Lead(o[k..], n[k..])
  }

  lemma LeadStart(o: seq<Cell>, n: seq<Cell>)
    ensures LeadFrom(o, n, 0)
  {
    assert o[0..] == o && n[0..] == n;
  }

  lemma LeadMore(o: seq<Cell>, n: seq<Cell>, k: nat)
    requires LeadFrom(o, n, k) && k < |o| && k < |n| && o[k].ch == ' ' == n[k].ch
    ensures LeadFrom(o, n, k + 1)
  {
    assert o[k..][1..] == o[k + 1..] && n[k..][1..] == n[k + 1..];
  }

  lemma LeadEnd(o: seq<Cell>, n: seq<Cell>, k: nat)
    requires LeadFrom(o, n, k) && (k == |o| || k == |n| || o[k].ch != ' ' || n[k].ch != ' ')
    ensures Lead(o, n) == k
  {
    if k < |o| && k < |n| { assert o[k..][0] == o[k] && n[k..][0] == n[k]; }
  }

  lemma ChangeParts(copied: seq<string>, d: Directives, o: seq<Cell>, n: seq<Cell>)
    ensures d.Off? ==> copied + Echo(d, o) + Texts(n) == copied + Change(d, o, n)
    ensures d.On? ==> copied + [d.ifndef] + Echo(d, o) + [d.els] + Texts(n) + [d.end] == copied + Change(d, o, n)
  {
    if d.On? {
      Assoc5(copied, [d.ifndef], Texts(o), [d.els], Texts(n), [d.end]);
    } else {
      assert copied + [] == copied;
    }
  }

  lemma Assoc5(a: seq<string>, b: seq<string>, c: seq<string>, e: seq<string>, f: seq<string>, g: seq<string>)
    ensures a + b + c + e + f + g == a + (b + c + e + f + g)
  {
  }

  lemma RunStarts(c: seq<Cell>, ch: char)
    requires c != [] && c[0].ch == ch
    ensures Run(c, ch) > 0
  {
  }

  /** Entry of the first new line plus i. */
  function NewIndex(h: HunkVal, i: nat): nat {
    2 + |h.olds| + |h.blank| + i
  }

  /** No match at a distance below e from the guess. */
  ghost predicate NoneNearer(olds: seq<Cell>, lines: seq<string>, guess: int, loose: bool, e: int) {
    forall k {:trigger Open(k)} :: Open(k) ==>
      forall at :: guess - e < at < guess + e ==> !MatchesAt(olds, lines, at, loose)
  }

  lemma NearerStep(olds: seq<Cell>, lines: seq<string>, guess: int, loose: bool, e: int)
    requires NoneNearer(olds, lines, guess, loose, e)
    requires !MatchesAt(olds, lines, guess + e, loose) && !MatchesAt(olds, lines, guess + -e, loose)
    ensures NoneNearer(olds, lines, guess, loose, e + 1)
  {
    assert Open(0);
    forall at | guess - (e + 1) < at < guess + (e + 1) ensures !MatchesAt(olds, lines, at, loose) {
      assert at == guess + e || at == guess + -e || guess - e < at < guess + e;
    }
  }

  lemma OutsideNeverMatches(olds: seq<Cell>, lines: seq<string>, at: int, loose: bool)
    requires olds != [] && at > |lines|
    ensures !MatchesAt(olds, lines, at, loose)
  {
    assert !LineMatches(lines, at + 0, olds[0].text, loose);
  }

  /** How the search ends: at a distance out of reach, or with a first match at offset e. */
  ghost predicate Found(olds: seq<Cell>, lines: seq<string>, guess: int, loose: bool, where: int, e: int) {
    if where == 0 then e >= 1 && e > Reach(lines, guess, |olds|) && NoneNearer(olds, lines, guess, loose, e)
    else
      && where == guess + e && e != 0 && MatchesAt(olds, lines, guess + e, loose)
      && -Reach(lines, guess, |olds|) <= e <= Reach(lines, guess, |olds|)
      && NoneNearer(olds, lines, guess, loose, if e < 0 then -e else e)
      && (e < 0 ==> !MatchesAt(olds, lines, guess - e, loose))
  }

  lemma FoundLocated(olds: seq<Cell>, lines: seq<string>, guess: int, loose: bool, where: int, e: int)
    requires Found(olds, lines, guess, loose, where, e)
    ensures Located(olds, lines, guess, loose, where)
  {
    hide MatchesAt;
    assert Open(0);
    if where == 0 {
      forall d | InReach(lines, guess, |olds|, d) ensures !MatchesAt(olds, lines, guess + d, loose) {
        assert guess - e < guess + d < guess + e;
      }
    } else {
      NoneNearerBefore(olds, lines, guess, loose, e);
    }
  }

  lemma NoneNearerBefore(olds: seq<Cell>, lines: seq<string>, guess: int, loose: bool, e: int)
    requires NoneNearer(olds, lines, guess, loose, if e < 0 then -e else e)
    requires e < 0 ==> !MatchesAt(olds, lines, guess - e, loose)
    ensures NoneBefore(olds, lines, guess, loose, e)
  {
    hide MatchesAt;
    assert Open(0);
    var f := if e < 0 then -e else e;
    forall d | Before(d, e) ensures !MatchesAt(olds, lines, guess + d, loose) {
      if d == -e { assert guess + d == guess - e; } else { assert guess - f < guess + d < guess + f; }
    }
  }

  lemma LocatedSays(olds: seq<Cell>, lines: seq<string>, guess: int, loose: bool, where: int)
    requires olds != [] && Located(olds, lines, guess, loose, where)
    ensures where == 0 ==> forall at :: MatchesAt(olds, lines, at, loose) ==> at < guess && guess - at > |lines| - guess - |olds| + 1
    ensures where != 0 ==> MatchesAt(olds, lines, where, loose)
    ensures where != 0 && where < guess ==> guess - where <= |lines| - guess - |olds| + 1
    ensures where != 0 && where < guess ==> forall at :: where < at <= 2 * guess - where ==> !MatchesAt(olds, lines, at, loose)
    ensures where != 0 && where >= guess ==> forall at :: 2 * guess - where < at < where ==> !MatchesAt(olds, lines, at, loose)
  {
    hide MatchesAt, Located;
    MissesExactly(olds, lines, guess, loose, where);
    if where != 0 { FindsNearest(olds, lines, guess, loose, where); }
  }

  lemma NotHere(olds: seq<Cell>, lines: seq<string>, guess: int, loose: bool)
    requires !MatchesAt(olds, lines, guess, loose)
    ensures NoneNearer(olds, lines, guess, loose, 1)
  {
  }

  lemma NearestStart(olds: seq<Cell>, lines: seq<string>, guess: int, loose: bool)
    requires olds != [] && MatchesAt(olds, lines, guess, loose)
    ensures Located(olds, lines, guess, loose, guess)
  {
    MatchFits(olds, lines, guess, loose, guess);
  }
}
