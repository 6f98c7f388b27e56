/**
 Exactly which hunks -D writes so that both readings come out right.  The proof weighs the output: a
 plain line counts once for each of the two readings that let it through.
 */
module Conditionals {
  import opened Hunk
  import opened Sealing
  import opened Merging
  import opened Defines

  function Other(m: Mode): Mode {
    match m
    case Branch(live, alt) => Branch(!live, alt)
    case _ => m
  }

  /** How many lines the two readings let through, undefined from m and defined from the other branch. */
  function Weight(ls: seq<string>, d: Directives, m: Mode): nat
    requires d.On?
  {
    |Read(ls, d, false, m)| + |Read(ls, d, true, Other(m))|
  }

  /** Where the reading with the symbol undefined is behind the lines. */
  function Behind(ls: seq<string>, d: Directives, m: Mode): Mode
    requires d.On?
  {
    After(ls, d, false, m)
  }

  lemma {:induction false} TwoReadings(ls: seq<string>, d: Directives, m: Mode)
    requires Distinct(d)
    ensures After(ls, d, true, Other(m)) == Other(Behind(ls, d, m))
  {
    if ls != [] { TwoReadings(ls[1..], d, Next(ls[0], d, false, m)); }
  }

  lemma WeightAppend(a: seq<string>, b: seq<string>, d: Directives, m: Mode)
    requires Distinct(d)
    ensures Weight(a + b, d, m) == Weight(a, d, m) + Weight(b, d, Behind(a, d, m))
    ensures Behind(a + b, d, m) == Behind(b, d, Behind(a, d, m))
  {
    ReadAppend(a, b, d, false, m);
    ReadAppend(a, b, d, true, Other(m));
    TwoReadings(a, d, m);
  }

  /** Plain lines count twice outside and once inside a conditional. */
  function Factor(m: Mode): nat {
    match m
    case Top => 2
    case Branch(_, _) => 1
    case Lost => 0
  }

  lemma WeightPlain(ls: seq<string>, d: Directives, m: Mode)
    requires Distinct(d) && AllPlain(ls, d)
    ensures Weight(ls, d, m) == Factor(m) * |ls| && Behind(ls, d, m) == m
  {
    ReadPlain(ls, d, false, m);
    ReadPlain(ls, d, true, Other(m));
  }

  lemma WeightMark(l: string, d: Directives, m: Mode)
    requires Distinct(d) && !Plain(l, d)
    ensures Weight([l], d, m) == 0 && Behind([l], d, m) == Next(l, d, false, m)
  {
    ReadOne(l, d, false, m);
    ReadOne(l, d, true, Other(m));
  }

  /** Nothing is read any more once the reader is lost. */
  lemma {:induction false} LostStays(ls: seq<string>, d: Directives)
    requires Distinct(d)
    ensures Weight(ls, d, Lost) == 0 && Behind(ls, d, Lost) == Lost
  {
    if ls != [] { LostStays(ls[1..], d); }
  }

  // ---------------------------------------------------------------- the walk, weighed

  /** The reader's place fits the state of the conditional. */
  predicate Fits(def: int, m: Mode) {
    match def
    case 0 => m.Top?
    case 1 => m == Branch(false, false)
    case -1 => m == Branch(true, false)
    case _ => def == 2 && m.Branch? && m.alt
  }

  function Written(r: Outcome): seq<string> {
    r.out + r.pend
  }

  /** What both readings of a walk that is right let through: the lines kept in front for both, and each
      half of the hunk for one. */
  function Due(o: seq<Cell>, n: seq<Cell>, pend: seq<string>): nat {
    2 * |pend| + |o| + |n|
  }

  ghost predicate Readable(o: seq<Cell>, n: seq<Cell>, win: seq<string>, d: Directives, pend: seq<string>) {
    && Distinct(d) && |win| == |o| && OldChars(o) && NewChars(n) && Shape(o, false) == Shape(n, false)
    && PlainCells(o, d) && PlainCells(n, d) && AllPlain(pend, d) && AllPlain(win, d)
  }

  /** Kept lines, a mark if one is due, and a line of the hunk: the piece x written for it. */
  lemma WeightPiece(pend: seq<string>, mark: seq<string>, t: seq<string>, d: Directives, m: Mode, m2: Mode)
    requires Distinct(d) && AllPlain(pend, d) && AllPlain(t, d)
    requires (mark == [] && m2 == m) || (|mark| == 1 && !Plain(mark[0], d) && m2 == Next(mark[0], d, false, m))
    ensures Weight(pend + mark + t, d, m) == Factor(m) * |pend| + Factor(m2) * |t|
    ensures Behind(pend + mark + t, d, m) == m2
  {
    hide Weight, Behind;
    WeightPlain(pend, d, m);
    WeightAppend(pend, mark, d, m);
    if mark == [] {
      assert pend + mark == pend;
    } else {
      assert mark == [mark[0]];
      WeightMark(mark[0], d, m);
    }
    WeightPlain(t, d, m2);
    WeightAppend(pend + mark, t, d, m);
  }

  lemma WrittenPrefix(x: seq<string>, r: Outcome)
    ensures Written(Prefix(x, r)) == x + Written(r)
  {
    Assoc(x, r.out, r.pend);
  }

  // ---------------------------------------------------------------- one step

  /** The walk from o and n with the lines pend kept: what it writes and keeps, the weight of that, and
      where its reader ends. */
  function Walk(o: seq<Cell>, n: seq<Cell>, win: seq<string>, def: int, d: Directives, pend: seq<string>): seq<string>
    requires |win| == |o|
  {
    Written(Patchwork(o, n, win, def, d, pend))
  }

  lemma BehindPiece(x: seq<string>, y: seq<string>, d: Directives, m: Mode, m2: Mode)
    requires Distinct(d) && Behind(x, d, m) == m2
    ensures Weight(x + y, d, m) == Weight(x, d, m) + Weight(y, d, m2) && Behind(x + y, d, m) == Behind(y, d, m2)
  {
    WeightAppend(x, y, d, m);
  }

  lemma OldStep(o: seq<Cell>, n: seq<Cell>, win: seq<string>, def: int, d: Directives, pend: seq<string>, m: Mode) returns (m2: Mode)
    requires Readable(o, n, win, d, pend) && Fits(def, m) && o != [] && o[0].ch == '-'
    ensures Readable(o[1..], n, win[1..], d, []) && MinusDef(d, def) != 0 && Fits(MinusDef(d, def), m2)
    ensures var w := Walk(o[1..], n, win[1..], MinusDef(d, def), d, []);
      Weight(Walk(o, n, win, def, d, pend), d, m) == Factor(m) * |pend| + 1 + Weight(w, d, m2)
      && Behind(Walk(o, n, win, def, d, pend), d, m) == Behind(w, d, m2)
  {
    hide Weight, Behind, Shape;
    var mark := MinusMark(d, def);
    m2 := if mark == [] then m else Next(mark[0], d, false, m);
    EchoOne(o, d);
    WeightPiece(pend, mark, [o[0].text], d, m, m2);
    var r := Patchwork(o[1..], n, win[1..], MinusDef(d, def), d, []);
    WrittenPrefix(pend + mark + [o[0].text], r);
    BehindPiece(pend + mark + [o[0].text], Written(r), d, m, m2);
    OldReadable(o, n, win, d, pend);
  }

  lemma EchoOne(o: seq<Cell>, d: Directives)
    requires o != [] && d.On?
    ensures Echo(d, o[..1]) == [o[0].text]
  {
    assert o[..1][1..] == [];
    assert Texts(o[..1]) == [o[0].text] + Texts([]);
  }

  lemma OldReadable(o: seq<Cell>, n: seq<Cell>, win: seq<string>, d: Directives, pend: seq<string>)
    requires Readable(o, n, win, d, pend) && o != [] && o[0].ch == '-'
    ensures Readable(o[1..], n, win[1..], d, [])
  {
  }

  lemma NewStep(o: seq<Cell>, n: seq<Cell>, win: seq<string>, def: int, d: Directives, pend: seq<string>, m: Mode) returns (m2: Mode)
    requires Readable(o, n, win, d, pend) && Fits(def, m) && o != [] && o[0].ch != '-' && n != [] && n[0].ch == '+'
    ensures Readable(o, n[1..], win, d, []) && PlusDef(d, def) != 0 && Fits(PlusDef(d, def), m2)
    ensures var w := Walk(o, n[1..], win, PlusDef(d, def), d, []);
      Weight(Walk(o, n, win, def, d, pend), d, m) == Factor(m) * |pend| + 1 + Weight(w, d, m2)
      && Behind(Walk(o, n, win, def, d, pend), d, m) == Behind(w, d, m2)
  {
    hide Weight, Behind, Shape;
    var mark := PlusMark(d, def);
    m2 := if mark == [] then m else Next(mark[0], d, false, m);
    WeightPiece(pend, mark, [n[0].text], d, m, m2);
    var r := Patchwork(o, n[1..], win, PlusDef(d, def), d, []);
    WrittenPrefix(pend + mark + [n[0].text], r);
    BehindPiece(pend + mark + [n[0].text], Written(r), d, m, m2);
    NewReadable(o, n, win, d, pend);
  }

  lemma NewReadable(o: seq<Cell>, n: seq<Cell>, win: seq<string>, d: Directives, pend: seq<string>)
    requires Readable(o, n, win, d, pend) && n != [] && n[0].ch == '+'
    ensures Readable(o, n[1..], win, d, [])
  {
  }

  lemma WeightChange(pend: seq<string>, x: seq<string>, y: seq<string>, d: Directives)
    requires Distinct(d) && AllPlain(pend, d) && AllPlain(x, d) && AllPlain(y, d)
    ensures var t := pend + ([d.ifndef] + x + [d.els] + y + [d.end]); Weight(t, d, Top) == 2 * |pend| + |x| + |y| && Behind(t, d, Top) == Top
  {
    hide Weight, Behind;
    var b := Branch(true, false);
    WeightPiece(pend, [d.ifndef], x, d, Top, b);
    WeightPiece([], [d.els], y, d, b, Branch(false, true));
    var s := [] + [d.els] + y;
    BehindPiece(pend + [d.ifndef] + x, s, d, Top, b);
    WeightMark(d.end, d, Branch(false, true));
    BehindPiece(pend + [d.ifndef] + x + s, [d.end], d, Top, Branch(false, true));
    assert pend + [d.ifndef] + x + s + [d.end] == pend + ([d.ifndef] + x + [d.els] + y + [d.end]);
  }

  /** Changed lines outside any conditional. */
  lemma ChangeStep(o: seq<Cell>, n: seq<Cell>, win: seq<string>, d: Directives, pend: seq<string>)
    requires Readable(o, n, win, d, pend) && o != [] && n != [] && o[0].ch == '!' == n[0].ch
    ensures var a, b := Run(o, '!'), Run(n, '!'); Readable(o[a..], n[b..], win[a..], d, [])
    ensures var a, b := Run(o, '!'), Run(n, '!'); var w := Walk(o[a..], n[b..], win[a..], 0, d, []);
      Weight(Walk(o, n, win, 0, d, pend), d, Top) == 2 * |pend| + a + b + Weight(w, d, Top)
      && Behind(Walk(o, n, win, 0, d, pend), d, Top) == Behind(w, d, Top)
  {
    hide Weight, Behind, Shape;
    var a, b := Run(o, '!'), Run(n, '!');
    var x, y := Texts(o[..a]), Texts(n[..b]);
    PlainTexts(o[..a], d);
    PlainTexts(n[..b], d);
    TextsLength(o[..a]);
    TextsLength(n[..b]);
    WeightChange(pend, x, y, d);
    var r := Patchwork(o[a..], n[b..], win[a..], 0, d, []);
    WrittenPrefix(pend + Change(d, o[..a], n[..b]), r);
    BehindPiece(pend + Change(d, o[..a], n[..b]), Written(r), d, Top, Top);
    ChangeReadable(o, n, win, d, pend);
  }

  lemma ChangeReadable(o: seq<Cell>, n: seq<Cell>, win: seq<string>, d: Directives, pend: seq<string>)
    requires Readable(o, n, win, d, pend) && o != [] && n != [] && o[0].ch == '!' == n[0].ch
    ensures var a, b := Run(o, '!'), Run(n, '!'); Readable(o[a..], n[b..], win[a..], d, [])
  {
    ConsEqual(Bang, Shape(o[Run(o, '!')..], false), Shape(n[Run(n, '!')..], false));
  }

  /** Changed lines inside a conditional open a second one, and the reader is lost. */
  lemma ChangeLost(o: seq<Cell>, n: seq<Cell>, win: seq<string>, def: int, d: Directives, pend: seq<string>, m: Mode)
    requires Readable(o, n, win, d, pend) && Fits(def, m) && def != 0 && o != [] && n != [] && o[0].ch == '!' == n[0].ch
    ensures Behind(Walk(o, n, win, def, d, pend), d, m) == Lost && Weight(Walk(o, n, win, def, d, pend), d, m) == |pend|
  {
    hide Weight, Behind, Shape;
    var a, b := Run(o, '!'), Run(n, '!');
    var r := Patchwork(o[a..], n[b..], win[a..], 0, d, []);
    var rest := Texts(o[..a]) + [d.els] + Texts(n[..b]) + [d.end] + Written(r);
    WeightPiece(pend, [d.ifndef], [], d, m, Lost);
    LostStays(rest, d);
    WrittenPrefix(pend + Change(d, o[..a], n[..b]), r);
    assert Walk(o, n, win, def, d, pend) == (pend + [d.ifndef] + []) + rest;
    BehindPiece(pend + [d.ifndef] + [], rest, d, m, Lost);
  }

  /** A context line is kept. */
  lemma KeepStep(o: seq<Cell>, n: seq<Cell>, win: seq<string>, def: int, d: Directives, pend: seq<string>)
    requires Readable(o, n, win, d, pend) && o != [] && o[0].ch != '-' && !(n != [] && n[0].ch == '+') && !(n != [] && o[0].ch == '!' == n[0].ch)
    ensures n != [] && o[0].ch == ' ' == n[0].ch && Readable(o[1..], n[1..], win[1..], d, pend + [win[0]])
    ensures Walk(o, n, win, def, d, pend) == Walk(o[1..], n[1..], win[1..], def, d, pend + [win[0]])
    ensures Due(o, n, pend) == Due(o[1..], n[1..], pend + [win[0]])
  {
    assert Shape(o, false) != [];
    assert n != [];
    assert Shape(o, false)[0] == Shape(n, false)[0];
    ConsEqual(Keep(""), Shape(o[1..], false), Shape(n[1..], false));
  }

  lemma EndOfBoth(def: int, d: Directives, pend: seq<string>, m: Mode)
    requires Distinct(d) && AllPlain(pend, d) && Fits(def, m)
    ensures var w := Walk([], [], [], def, d, pend); Weight(w, d, m) == 2 * |pend| && Behind(w, d, m) == Top
  {
    hide Weight, Behind;
    WeightPiece([], Close(d, def), pend, d, m, Top);
    assert [] + Close(d, def) + pend == Walk([], [], [], def, d, pend);
  }

  lemma WeightAdds(t: seq<string>, def: int, d: Directives, pend: seq<string>, m: Mode)
    requires Distinct(d) && AllPlain(pend, d) && AllPlain(t, d) && Fits(def, m)
    ensures var w := pend + PlusMark(d, def) + t + [d.end]; Weight(w, d, m) == Factor(m) * |pend| + |t| && Behind(w, d, m) == Top
  {
    hide Weight, Behind, AllPlain;
    var mark := PlusMark(d, def);
    var m2 := if mark == [] then m else Next(mark[0], d, false, m);
    WeightPiece(pend, mark, t, d, m, m2);
    WeightMark(d.end, d, m2);
    BehindPiece(pend + mark + t, [d.end], d, m, m2);
  }

  lemma WalkAdds(n: seq<Cell>, def: int, d: Directives, pend: seq<string>)
    requires d.On? && n != [] && Run(n, '+') == |n| && def in {0, 1, -1, 2}
    ensures Walk([], n, [], def, d, pend) == pend + PlusMark(d, def) + Texts(n) + [d.end]
  {
    assert n[..|n|] == n;
    hide Texts;
    var w := pend + PlusMark(d, def) + Texts(n) + [d.end];
    assert w + [] == w;
  }

  /** The end of the old lines: additions, or nothing. */
  lemma EndStep(n: seq<Cell>, def: int, d: Directives, pend: seq<string>, m: Mode)
    requires Readable([], n, [], d, pend) && Fits(def, m)
    ensures Run(n, '+') == |n|
    ensures var w := Walk([], n, [], def, d, pend);
      Weight(w, d, m) == (if n == [] then 2 else Factor(m)) * |pend| + |n| && Behind(w, d, m) == Top
  {
    hide Weight, Behind, AllPlain, PlainCells, Walk, PlusMark, Texts;
    ShapePlus(n, false);
    if n == [] {
      EndOfBoth(def, d, pend, m);
    } else {
      PlainTexts(n, d);
      TextsLength(n);
      WalkAdds(n, def, d, pend);
      WeightAdds(Texts(n), def, d, pend, m);
    }
  }

  // ---------------------------------------------------------------- never too much, and when enough

  lemma {:induction false} NeverTooMuch(o: seq<Cell>, n: seq<Cell>, win: seq<string>, def: int, d: Directives, pend: seq<string>, m: Mode)
    requires |win| == |o| && Distinct(d) && Readable(o, n, win, d, pend) && Fits(def, m)
    ensures Weight(Walk(o, n, win, def, d, pend), d, m) <= Due(o, n, pend)
    decreases |o| + |n|
  {
    hide Weight, Behind, Readable, Walk;
    if o == [] {
      assert win == [];
      EndStep(n, def, d, pend, m);
    } else if o[0].ch == '-' {
      var m2 := OldStep(o, n, win, def, d, pend, m);
      NeverTooMuch(o[1..], n, win[1..], MinusDef(d, def), d, [], m2);
    } else if n != [] && n[0].ch == '+' {
      var m2 := NewStep(o, n, win, def, d, pend, m);
      NeverTooMuch(o, n[1..], win, PlusDef(d, def), d, [], m2);
    } else if n != [] && o[0].ch == '!' == n[0].ch {
      if def == 0 {
        ChangeStep(o, n, win, d, pend);
        NeverTooMuch(o[Run(o, '!')..], n[Run(n, '!')..], win[Run(o, '!')..], 0, d, [], Top);
      } else {
        ChangeLost(o, n, win, def, d, pend, m);
      }
    } else {
      KeepStep(o, n, win, def, d, pend);
      NeverTooMuch(o[1..], n[1..], win[1..], def, d, pend + [win[0]], m);
    }
  }

  /** Both readings together let through all that is due, and end outside. */
  ghost predicate Full(o: seq<Cell>, n: seq<Cell>, win: seq<string>, def: int, d: Directives, pend: seq<string>, m: Mode)
    requires Distinct(d) && |win| == |o|
  {
    Weight(Walk(o, n, win, def, d, pend), d, m) == Due(o, n, pend) && Behind(Walk(o, n, win, def, d, pend), d, m) == Top
  }

  /** What may be left: outside, a clean hunk; inside a conditional the end of its group; and once a
      context line has been kept inside one, only context. */
  predicate MayRemain(o: seq<Cell>, n: seq<Cell>, def: int, pend: seq<string>) {
    if def == 0 then Clean(o, n) else if pend == [] then Closing(o, n) else Only(o, ' ') && Only(n, ' ')
  }

  lemma {:induction false} FullIsClean(o: seq<Cell>, n: seq<Cell>, win: seq<string>, def: int, d: Directives, pend: seq<string>, m: Mode)
    requires |win| == |o| && Distinct(d) && Readable(o, n, win, d, pend) && Fits(def, m) && Full(o, n, win, def, d, pend, m)
    ensures MayRemain(o, n, def, pend)
    decreases |o| + |n|
  {
    hide Weight, Behind, Readable, Walk, Closing, Clean;
    if o == [] {
      assert win == [];
      EndStep(n, def, d, pend, m);
      EndRemains(n, def, pend);
    } else if o[0].ch == '-' {
      var m2 := OldStep(o, n, win, def, d, pend, m);
      NeverTooMuch(o[1..], n, win[1..], MinusDef(d, def), d, [], m2);
      FullIsClean(o[1..], n, win[1..], MinusDef(d, def), d, [], m2);
      OldRemains(o, n);
    } else if n != [] && n[0].ch == '+' {
      var m2 := NewStep(o, n, win, def, d, pend, m);
      NeverTooMuch(o, n[1..], win, PlusDef(d, def), d, [], m2);
      FullIsClean(o, n[1..], win, PlusDef(d, def), d, [], m2);
      NewRemains(o, n);
    } else if n != [] && o[0].ch == '!' == n[0].ch {
      if def == 0 {
        ChangeStep(o, n, win, d, pend);
        FullIsClean(o[Run(o, '!')..], n[Run(n, '!')..], win[Run(o, '!')..], 0, d, [], Top);
        ChangeRemains(o, n);
      } else {
        ChangeLost(o, n, win, def, d, pend, m);
      }
    } else {
      KeepStep(o, n, win, def, d, pend);
      FullIsClean(o[1..], n[1..], win[1..], def, d, pend + [win[0]], m);
      KeepRemains(o, n, win, d, def, pend);
    }
  }

  lemma EndRemains(n: seq<Cell>, def: int, pend: seq<string>)
    requires Run(n, '+') == |n|
    ensures Closing([], n) && Clean([], n) && (n == [] ==> Only(n, ' '))
  {
  }

  lemma OldRemains(o: seq<Cell>, n: seq<Cell>)
    requires o != [] && o[0].ch == '-' && Closing(o[1..], n)
    ensures Closing(o, n) && Clean(o, n)
  {
    assert o[1..][Run(o, '-') - 1..] == o[Run(o, '-')..];
  }

  lemma NewRemains(o: seq<Cell>, n: seq<Cell>)
    requires n != [] && n[0].ch == '+' && Closing(o, n[1..])
    ensures Closing(o, n) && Clean(o, n)
  {
    assert n[1..][Run(n, '+') - 1..] == n[Run(n, '+')..];
  }

  lemma ChangeRemains(o: seq<Cell>, n: seq<Cell>)
    requires o != [] && n != [] && o[0].ch == '!' == n[0].ch && Clean(o[Run(o, '!')..], n[Run(n, '!')..])
    ensures Clean(o, n)
  {
  }

  lemma KeepRemains(o: seq<Cell>, n: seq<Cell>, win: seq<string>, d: Directives, def: int, pend: seq<string>)
    requires o != [] && n != [] && o[0].ch == ' ' == n[0].ch && |win| == |o| && Readable(o, n, win, d, pend)
    requires MayRemain(o[1..], n[1..], def, pend + [win[0]])
    ensures MayRemain(o, n, def, pend)
  {
    if def != 0 {
      assert o == [o[0]] + o[1..] && n == [n[0]] + n[1..];
      assert o[0..] == o && n[0..] == n;
      ContextLength(o, n);
    }
  }

  lemma {:induction false} ContextLength(o: seq<Cell>, n: seq<Cell>)
    requires Only(o, ' ') && Only(n, ' ') && Shape(o, false) == Shape(n, false)
    ensures |o| == |n|
    decreases |o|
  {
    if o != [] && n != [] {
      ConsEqual(Keep(""), Shape(o[1..], false), Shape(n[1..], false));
      ContextLength(o[1..], n[1..]);
    }
  }

  // ---------------------------------------------------------------- the theorem

  /** The output of the walk reads as one side of the hunk behind the lines kept, and ends outside. */
  ghost predicate ReadsRight(o: seq<Cell>, n: seq<Cell>, win: seq<string>, d: Directives, pend: seq<string>, defined: bool)
    requires d.On? && |win| == |o|
  {
    var r := Patchwork(o, n, win, 0, d, pend);
    After(r.out + r.pend, d, defined, Top) == Top && Read(r.out + r.pend, d, defined, Top) == pend + Side(o, n, win, defined)
  }

  lemma {:induction false} FillLength(c: seq<Cell>, ks: seq<string>)
    ensures |Fill(c, ks)| == |c|
  {
    if c != [] {
      if c[0].ch == ' ' && ks != [] { FillLength(c[1..], ks[1..]); } else { FillLength(c[1..], ks); }
    }
  }

  /** For halves that stay in step, and texts that are no directives: the -D output is right in both
      readings exactly if the hunk is clean. */
  lemma RightExactly(o: seq<Cell>, n: seq<Cell>, win: seq<string>, d: Directives, pend: seq<string>)
    requires Distinct(d) && |win| == |o| && OldChars(o) && NewChars(n) && Shape(o, false) == Shape(n, false)
    requires PlainCells(o, d) && PlainCells(n, d) && AllPlain(pend, d) && AllPlain(win, d)
    ensures ReadsRight(o, n, win, d, pend, false) && ReadsRight(o, n, win, d, pend, true) <==> Clean(o, n)
  {
    hide Patchwork, Read, After, Clean, Shape, Fill, PlainCells, OldChars, NewChars;
    if Clean(o, n) {
      BothWays(o, n, win, d, pend, false);
      BothWays(o, n, win, d, pend, true);
      assert Open(0);
    } else if ReadsRight(o, n, win, d, pend, false) && ReadsRight(o, n, win, d, pend, true) {
      FillLength(o, Kept(o, win));
      FillLength(n, Kept(o, win));
      assert Full(o, n, win, 0, d, pend, Top);
      FullIsClean(o, n, win, 0, d, pend, Top);
    }
  }
}
