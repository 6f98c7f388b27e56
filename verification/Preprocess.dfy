/**
 What a preprocessor makes of the output of -D.  It knows its directives by their characters alone, and
 what it passes on is compared with the two files.
 */
module Preprocess {
  import opened Merging
  import opened Defines

  /** Space to the end of the line. */
  predicate Blank(s: string) {
    forall i :: 0 <= i < |s| ==> s[i] == ' ' || s[i] == '\t' || s[i] == '\n'
  }

  /** The line is keyword word, and this symbol. */
  predicate Asks(l: string, word: string, symbol: string) {
    word + symbol <= l && Blank(l[|word + symbol|..])
  }

  /** A line that is no directive, or a conditional on another symbol. */
  predicate Ordinary(l: string, symbol: string) {
    !Asks(l, "#ifdef ", symbol) && !Asks(l, "#ifndef ", symbol) && !("#else" <= l) && !("#endif" <= l)
  }

  predicate AllOrdinary(ls: seq<string>, symbol: string) {
    forall i :: 0 <= i < |ls| ==> Ordinary(ls[i], symbol)
  }

  /** Where the preprocessor is behind a line. */
  function Behind(l: string, symbol: string, defined: bool, m: Mode): Mode {
    match m
    case Lost => Lost
    case Top =>
      if Asks(l, "#ifdef ", symbol) then Branch(defined, false)
      else if Asks(l, "#ifndef ", symbol) then Branch(!defined, false)
      else if "#else" <= l || "#endif" <= l then Lost
      else Top
    case Branch(live, alt) =>
      if "#endif" <= l then Top
      else if "#else" <= l then if alt then Lost else Branch(!live, true)
      else if Asks(l, "#ifdef ", symbol) || Asks(l, "#ifndef ", symbol) then Lost
      else m
  }

  /** The lines it passes on. */
  function Passed(ls: seq<string>, symbol: string, defined: bool, m: Mode): seq<string> {
    if ls == [] then []
    else
      var rest := Passed(ls[1..], symbol, defined, Behind(ls[0], symbol, defined, m));
      if Ordinary(ls[0], symbol) && (m.Top? || (m.Branch? && m.live)) then [ls[0]] + rest else rest
  }

  /** Where it ends. */
  function Finally(ls: seq<string>, symbol: string, defined: bool, m: Mode): Mode {
    if ls == [] then m else Finally(ls[1..], symbol, defined, Behind(ls[0], symbol, defined, m))
  }

  // ---------------------------------------------------------------- the four lines

  lemma Recognised(symbol: string)
    ensures var d := DirectivesFor(symbol);
      && Asks(d.ifdef, "#ifdef ", symbol) && !Asks(d.ifdef, "#ifndef ", symbol) && !("#else" <= d.ifdef) && !("#endif" <= d.ifdef)
      && Asks(d.ifndef, "#ifndef ", symbol) && !Asks(d.ifndef, "#ifdef ", symbol) && !("#else" <= d.ifndef) && !("#endif" <= d.ifndef)
      && "#else" <= d.els && !("#endif" <= d.els) && !Asks(d.els, "#ifdef ", symbol) && !Asks(d.els, "#ifndef ", symbol)
      && "#endif" <= d.end && !("#else" <= d.end) && !Asks(d.end, "#ifdef ", symbol) && !Asks(d.end, "#ifndef ", symbol)
  {
    var d := DirectivesFor(symbol);
    Differ(d.ifdef, "#ifndef " + symbol, 3);
    Differ(d.ifdef, "#else", 1);
    Differ(d.ifdef, "#endif", 1);
    Differ(d.ifndef, "#ifdef " + symbol, 3);
    Differ(d.ifndef, "#else", 1);
    Differ(d.ifndef, "#endif", 1);
    Differ(d.els, "#endif", 2);
    Differ(d.els, "#ifdef " + symbol, 1);
    Differ(d.els, "#ifndef " + symbol, 1);
    Differ(d.end, "#else", 2);
    Differ(d.end, "#ifdef " + symbol, 1);
    Differ(d.end, "#ifndef " + symbol, 1);
  }

  lemma Differ(l: string, p: string, i: nat)
    requires i < |l| && i < |p| && l[i] != p[i]
    ensures !(p <= l)
  {
  }

  /** A line of the output: one of the four, or ordinary. */
  predicate Known(l: string, symbol: string) {
    !Plain(l, DirectivesFor(symbol)) || Ordinary(l, symbol)
  }

  lemma SameStep(l: string, symbol: string, defined: bool, m: Mode)
    requires Known(l, symbol)
    ensures Behind(l, symbol, defined, m) == Next(l, DirectivesFor(symbol), defined, m)
    ensures Ordinary(l, symbol) == Plain(l, DirectivesFor(symbol))
  {
    Recognised(symbol);
    DirectivesDiffer(symbol);
    hide DirectivesFor, Asks;
  }

  /** On lines it knows, the characters say what the four lines say. */
  lemma {:induction false} SameReading(ls: seq<string>, symbol: string, defined: bool, m: Mode)
    requires forall i :: 0 <= i < |ls| ==> Known(ls[i], symbol)
    ensures Passed(ls, symbol, defined, m) == Read(ls, DirectivesFor(symbol), defined, m)
    ensures Finally(ls, symbol, defined, m) == After(ls, DirectivesFor(symbol), defined, m)
  {
    hide DirectivesFor, Ordinary, Behind, Next, Known, Plain;
    if ls != [] {
      SameStep(ls[0], symbol, defined, m);
      SameReading(ls[1..], symbol, defined, Behind(ls[0], symbol, defined, m));
    }
  }

  // ---------------------------------------------------------------- what the output is made of

  function Other(m: Mode): Mode {
    if m.Branch? then Branch(!m.live, m.alt) else m
  }

  lemma NextOther(l: string, d: Directives, m: Mode)
    requires d.On?
    ensures Next(l, d, true, Other(m)) == Other(Next(l, d, false, m))
  {
  }

  lemma {:induction false} LostStays(ls: seq<string>, d: Directives, defined: bool)
    requires d.On?
    ensures After(ls, d, defined, Lost) == Lost
  {
    if ls != [] { LostStays(ls[1..], d, defined); }
  }

  /** A line that is no directive is read with the symbol undefined or with it defined. */
  lemma {:induction false} PlainIsRead(ls: seq<string>, d: Directives, m: Mode, i: nat)
    requires d.On? && After(ls, d, false, m) != Lost && i < |ls| && Plain(ls[i], d)
    ensures ls[i] in Read(ls, d, false, m) || ls[i] in Read(ls, d, true, Other(m))
  {
    if m == Lost { LostStays(ls, d, false); }
    NextOther(ls[0], d, m);
    if i > 0 {
      PlainIsRead(ls[1..], d, Next(ls[0], d, false, m), i - 1);
    }
  }

  /** If the output of -D reads as two files of ordinary lines, a preprocessor makes those files of it. */
  lemma PassedFiles(outs: seq<string>, symbol: string, before: seq<string>, after: seq<string>)
    requires Reading(outs, symbol, false) == before && Reading(outs, symbol, true) == after
    requires After(outs, DirectivesFor(symbol), false, Top) == Top && After(outs, DirectivesFor(symbol), true, Top) == Top
    requires AllOrdinary(before, symbol) && AllOrdinary(after, symbol)
    ensures Passed(outs, symbol, false, Top) == before && Finally(outs, symbol, false, Top) == Top
    ensures Passed(outs, symbol, true, Top) == after && Finally(outs, symbol, true, Top) == Top
  {
    hide DirectivesFor, Ordinary, Read, After, Passed, Finally;
    var d := DirectivesFor(symbol);
    DirectivesDiffer(symbol);
    forall i | 0 <= i < |outs| ensures Known(outs[i], symbol) {
      if Plain(outs[i], d) {
        PlainIsRead(outs, d, Top, i);
        if outs[i] in before { InOrdinary(before, symbol, outs[i]); } else { InOrdinary(after, symbol, outs[i]); }
      }
    }
    SameReading(outs, symbol, false, Top);
    SameReading(outs, symbol, true, Top);
  }

  function Reading(outs: seq<string>, symbol: string, defined: bool): seq<string> {
    Read(outs, DirectivesFor(symbol), defined, Top)
  }

  lemma InOrdinary(ls: seq<string>, symbol: string, l: string)
    requires AllOrdinary(ls, symbol) && l in ls
    ensures Ordinary(l, symbol)
  {
  }

  /** One conditional as -D writes it, read by its characters. */
  lemma GroupPassed(olds: seq<string>, news: seq<string>, symbol: string, defined: bool)
    requires AllOrdinary(olds, symbol) && AllOrdinary(news, symbol)
    ensures var g := Group(olds, news, DirectivesFor(symbol));
      Passed(g, symbol, defined, Top) == (if defined then news else olds) && Finally(g, symbol, defined, Top) == Top
  {
    OrdinaryPlain(olds, symbol);
    OrdinaryPlain(news, symbol);
    DirectivesDiffer(symbol);
    hide DirectivesFor, Ordinary, Read, After, Passed, Finally, Group, Plain;
    var d := DirectivesFor(symbol);
    ReadGroup(olds, news, d, false);
    ReadGroup(olds, news, d, true);
    PassedFiles(Group(olds, news, d), symbol, olds, news);
  }

  lemma OrdinaryPlain(ls: seq<string>, symbol: string)
    requires AllOrdinary(ls, symbol)
    ensures AllPlain(ls, DirectivesFor(symbol))
  {
    Recognised(symbol);
  }
}
