/**
 The loose comparison of lines: similar().
 */
module LooseMatch {
  import opened Text
  import opened Sealing

  predicate IsSpace(c: char) {
    c == ' ' || c == '\t' || c == '\n' || c == '\U{000B}' || c == '\U{000C}' || c == '\r'
  }

  /** s without its leading whitespace. */
  function SkipSpace(s: string): (r: string)
    ensures |r| <= |s| && (r != "" ==> !IsSpace(r[0]))
    ensures r == s[|s| - |r|..]
    ensures s != "" && IsSpace(s[0]) ==> |r| < |s|
  {
    if s != "" && IsSpace(s[0]) then SkipSpace(s[1..]) else s
  }

  /** s with every run of whitespace replaced by one space and trailing whitespace dropped. */
  function Canon(s: string): string
    decreases |s|
  {
    if s == "" then ""
    else if IsSpace(s[0]) then
      var r := SkipSpace(s);
      if r == "" then "" else " " + Canon(r)
    else [s[0]] + Canon(s[1..])
  }

  /** Canonical text: single spaces between other characters, none at the end. */
  predicate IsCanon(s: string) {
    && (forall i :: 0 <= i < |s| && IsSpace(s[i]) ==> s[i] == ' ' && i + 1 < |s| && !IsSpace(s[i + 1]))
  }

  lemma {:induction false} CanonShape(s: string)
    ensures IsCanon(Canon(s))
    ensures s != "" && !IsSpace(s[0]) ==> Canon(s) != "" && Canon(s)[0] == s[0]
    decreases |s|
  {
    if s != "" {
      if IsSpace(s[0]) {
        CanonShape(SkipSpace(s));
      } else {
        CanonShape(s[1..]);
      }
    }
  }

  lemma CanonTail(s: string)
    requires IsCanon(s) && s != ""
    ensures IsCanon(s[1..]) && (IsSpace(s[0]) ==> s[0] == ' ' && |s| > 1 && !IsSpace(s[1]))
  {
    forall i | 0 <= i < |s[1..]| && IsSpace(s[1..][i])
      ensures s[1..][i] == ' ' && i + 1 < |s[1..]| && !IsSpace(s[1..][i + 1])
    {
      assert s[i + 1] == s[1..][i];
    }
  }

  /** Canonical texts are their own canonical form. */
  lemma {:induction false} CanonFixed(s: string)
    requires IsCanon(s)
    ensures Canon(s) == s
    decreases |s|
  {
    if s != "" {
      CanonTail(s);
      CanonFixed(s[1..]);
      if IsSpace(s[0]) {
        CanonSpaces(s, 1);
      } else {
        CanonHead(s);
      }
      assert s == [s[0]] + s[1..];
    }
  }

  /** The character at position i of a C string. */
  function At(s: string, i: nat): char {
    if i < |s| then s[i] else '\0'
  }

  /** Similarity is what equality of canonical forms makes it: an equivalence on lines. */
  predicate Alike(a: string, b: string) {
    Canon(a) == Canon(b)
  }

  lemma AlikeIsEquivalence(a: string, b: string, c: string)
    ensures Alike(a, a) && (Alike(a, b) ==> Alike(b, a)) && (Alike(a, b) && Alike(b, c) ==> Alike(a, c))
    ensures Alike(a, Canon(a))
  {
    CanonShape(a);
    CanonFixed(Canon(a));
  }

  /** Canonical form of a text with k whitespace characters in front. */
  lemma {:induction false} CanonSpaces(s: string, k: nat)
    requires 0 < k <= |s| && forall i :: 0 <= i < k ==> IsSpace(s[i])
    ensures k == |s| ==> SkipSpace(s) == "" && Canon(s) == ""
    ensures k < |s| && !IsSpace(s[k]) ==> SkipSpace(s) == s[k..] && Canon(s) == " " + Canon(s[k..])
  {
    if k > 1 {
      CanonSpaces(s[1..], k - 1);
      assert k < |s| ==> s[1..][k - 1] == s[k] && s[1..][k - 1..] == s[k..];
    }
  }

  lemma SpaceCode(c: char)
    ensures IsSpace(c) <==> c as int == 32 || 9 <= c as int <= 13
  {
  }

  /** The canonical form, told by the codes of the characters: a run of blanks, tabs, newlines, vertical
      tabs, form feeds and carriage returns is one blank, or nothing at the end, and anything else stays. */
  lemma CanonExactly(run: string, rest: string)
    requires run != "" && forall i :: 0 <= i < |run| ==> run[i] as int == 32 || 9 <= run[i] as int <= 13
    requires rest != "" ==> !(rest[0] as int == 32 || 9 <= rest[0] as int <= 13)
    ensures Canon(run + rest) == if rest == "" then "" else " " + [rest[0]] + Canon(rest[1..])
    ensures rest != "" ==> Canon(rest) == [rest[0]] + Canon(rest[1..])
  {
    hide Canon, SkipSpace, IsSpace;
    var s, k := run + rest, |run|;
    forall i | 0 <= i < k ensures IsSpace(s[i]) {
      assert s[i] == run[i];
      SpaceCode(run[i]);
    }
    if rest != "" {
      SpaceCode(rest[0]);
      CanonHead(rest);
    }
    CanonSpaces(s, k);
    assert s[k..] == rest;
  }

  lemma CanonHead(s: string)
    requires s != ""
    ensures !IsSpace(s[0]) ==> Canon(s) == [s[0]] + Canon(s[1..])
    ensures IsSpace(s[0]) ==> Canon(s) == "" || Canon(s)[0] == ' '
  {
  }

  /** Skips whitespace up to a newline. */
  method SkipBlank(s: string, k: nat) returns (e: nat)
    requires k < |s|
    ensures k <= e <= |s| && (IsSpace(At(s, e)) ==> At(s, e) == '\n')
    ensures forall i :: k <= i < e ==> IsSpace(s[i]) && s[i] != '\n'
  {
    e := k;
    while IsSpace(At(s, e)) && At(s, e) != '\n'
      invariant k <= e <= |s| && forall i :: k <= i < e ==> IsSpace(s[i]) && s[i] != '\n'
      decreases |s| - e
    {
      e := e + 1;
    }
  }

  /** The lines L and b are alike exactly if what is left of them from i and j on is. */
  ghost predicate Facing(L: string, b: string, i: nat, j: nat) {
    forall k {:trigger Open(k)} :: Open(k) ==> i < |L| && j < |b| && (Alike(L, b) <==> Alike(L[i..], b[j..]))
  }

  lemma FaceStart(L: string, b: string)
    requires L != "" && b != ""
    ensures Facing(L, b, 0, 0)
  {
    assert L[0..] == L && b[0..] == b;
  }

  lemma FaceHeads(L: string, b: string, i: nat, j: nat)
    requires Facing(L, b, i, j) && i < |L| && j < |b| && !(IsSpace(L[i]) && IsSpace(b[j]))
    ensures L[i] != b[j] ==> !Alike(L, b)
    ensures L[i] == b[j] && i + 1 < |L| && j + 1 < |b| ==> Facing(L, b, i + 1, j + 1)
  {
    assert Open(0);
    HeadStep(L, i, b, j);
  }

  lemma FaceSpaces(L: string, b: string, i0: nat, i: nat, j0: nat, j: nat)
    requires Facing(L, b, i0, j0) && IsLine(b) && EndsLine(L) && i0 < |L| && j0 < |b|
    requires SpaceTo(L, i0, i) && SpaceTo(b, j0, j)
    ensures L[i] == '\n' || b[j] == '\n' ==> (Alike(L, b) <==> L[i] == b[j])
    ensures L[i] != '\n' && b[j] != '\n' ==> Facing(L, b, i, j)
  {
    assert Open(0);
    SpaceRuns(L, i0, i, b, j0, j);
  }

  predicate EndsLine(L: string) {
    |L| > 0 && L[|L| - 1] == '\n' && (forall k :: 0 <= k < |L| - 1 ==> L[k] != '\n')
  }

  /** The run of whitespace at i0, which is not empty, has been skipped up to i. */
  predicate SpaceTo(s: string, i0: nat, i: nat) {
    i0 <= i < |s| && IsSpace(s[i0]) && (forall k :: i0 <= k < i ==> IsSpace(s[k])) && (IsSpace(s[i]) ==> s[i] == '\n')
  }

  lemma FirstLineEnds(a: string)
    ensures '\n' in a ==> EndsLine(FirstLine(a)) && FirstLine(a) <= a
  {
    LineLengthExact(a);
  }

  lemma Within(a: string, i0: nat, i: nat)
    requires '\n' in a && i0 < |FirstLine(a)| && i0 <= i <= |a| && IsSpace(a[i0])
    requires (forall k :: i0 <= k < i ==> IsSpace(a[k]) && a[k] != '\n') && (IsSpace(At(a, i)) ==> At(a, i) == '\n')
    ensures SpaceTo(FirstLine(a), i0, i)
  {
    FirstLineEnds(a);
    assert a[LineLength(a) - 1] == '\n';
  }

  /** similar: pattern line b of length len against the text at a, which starts with the line to compare
      and may go on.  A text without newline, as for a line outside the file, never matches. */
  method Similar(a: string, b: string, len: nat) returns (same: bool)
    requires IsLine(b) && len == |b|
    ensures same <==> '\n' in a && Alike(FirstLine(a), b)
  {
    ghost var L, found := FirstLine(a), '\n' in a;
    FirstLineEnds(a);
    if found { FaceStart(L, b); }
    var i, j, rest := 0, 0, len;
    while rest > 0
      invariant 0 < rest == |b| - j && i <= |a|
      invariant found ==> i < |L| && Facing(L, b, i, j)
      decreases rest
    {
      if IsSpace(At(b, j)) {
        if !IsSpace(At(a, i)) {
          if found { FaceHeads(L, b, i, j); }
          return false;
        }
        ghost var i0, j0 := i, j;
        j := SkipBlank(b, j);
        rest := len - j;
        i := SkipBlank(a, i);
        if found {
          Within(a, i0, i);
          FaceSpaces(L, b, i0, i, j0, j);
        }
        if At(a, i) == '\n' || At(b, j) == '\n' {
          return At(a, i) == At(b, j);
        }
      } else {
        if found { FaceHeads(L, b, i, j); }
        if At(a, i) != At(b, j) {
          return false;
        }
        i, j, rest := i + 1, j + 1, rest - 1;
      }
    }
    same := true;
  }

  /** What skipping the whitespace runs L[i0..i] and b[j0..j] means for the canonical forms. */
  lemma SpaceRuns(L: string, i0: nat, i: nat, b: string, j0: nat, j: nat)
    requires IsLine(b) && |L| > 0 && L[|L| - 1] == '\n' && (forall k :: 0 <= k < |L| - 1 ==> L[k] != '\n')
    requires i0 <= i < |L| && IsSpace(L[i0]) && (forall k :: i0 <= k < i ==> IsSpace(L[k])) && (IsSpace(L[i]) ==> L[i] == '\n')
    requires j0 <= j < |b| && IsSpace(b[j0]) && (forall k :: j0 <= k < j ==> IsSpace(b[k])) && (IsSpace(b[j]) ==> b[j] == '\n')
    ensures L[i] == '\n' || b[j] == '\n' ==> (Canon(L[i0..]) == Canon(b[j0..]) <==> L[i] == b[j])
    ensures L[i] != '\n' && b[j] != '\n' ==> (Canon(L[i0..]) == Canon(b[j0..]) <==> Canon(L[i..]) == Canon(b[j..]))
  {
    SpaceRun(L, i0, i);
    SpaceRun(b, j0, j);
    SpaceAlgebra(Canon(L[i0..]), Canon(b[j0..]), Canon(L[i..]), Canon(b[j..]), L[i] == '\n', b[j] == '\n');
  }

  lemma SpaceAlgebra(p: string, q: string, u: string, v: string, x: bool, y: bool)
    requires p == if x then "" else " " + u
    requires q == if y then "" else " " + v
    ensures x || y ==> (p == q <==> x == y)
    ensures !x && !y ==> (p == q <==> u == v)
  {
    if !x && !y && p == q { assert u == p[1..] && v == q[1..]; }
  }

  /** One step of the comparison on a non-space pattern character, and on a space facing a non-space. */
  lemma HeadStep(L: string, i: nat, b: string, j: nat)
    requires i < |L| && j < |b| && !(IsSpace(L[i]) && IsSpace(b[j]))
    ensures Canon(L[i..]) == Canon(b[j..]) <==> L[i] == b[j] && Canon(L[i + 1..]) == Canon(b[j + 1..])
  {
    var p, q := L[i..], b[j..];
    assert p[0] == L[i] && q[0] == b[j] && p[1..] == L[i + 1..] && q[1..] == b[j + 1..];
    CanonHead(p);
    CanonHead(q);
    HeadAlgebra(Canon(p), Canon(q), p[0], q[0], Canon(p[1..]), Canon(q[1..]));
  }

  lemma HeadAlgebra(p: string, q: string, x: char, y: char, u: string, v: string)
    requires !(IsSpace(x) && IsSpace(y))
    requires if IsSpace(x) then p == "" || p[0] == ' ' else p == [x] + u
    requires if IsSpace(y) then q == "" || q[0] == ' ' else q == [y] + v
    ensures p == q <==> x == y && u == v
  {
    if p == q && !IsSpace(x) && !IsSpace(y) { assert u == p[1..] && v == q[1..]; }
  }

  lemma SpaceRun(s: string, i0: nat, i: nat)
    requires i0 <= i < |s| && IsSpace(s[i0]) && (forall k :: i0 <= k < i ==> IsSpace(s[k]))
    requires s[|s| - 1] == '\n' && (forall k :: 0 <= k < |s| - 1 ==> s[k] != '\n') && (IsSpace(s[i]) ==> s[i] == '\n')
    ensures s[i] == '\n' ==> Canon(s[i0..]) == ""
    ensures s[i] != '\n' ==> Canon(s[i0..]) == " " + Canon(s[i..])
  {
    var p := s[i0..];
    forall k | 0 <= k < i - i0 ensures IsSpace(p[k]) { assert p[k] == s[i0 + k]; }
    if s[i] == '\n' {
      assert i == |s| - 1 && p[i - i0] == s[i];
      CanonSpaces(p, |p|);
    } else {
      assert p[i - i0] == s[i] && p[i - i0..] == s[i..];
      CanonSpaces(p, i - i0);
    }
  }
}
