/**
 * The Levenshtein distance, computed in a table that is flattened into one array (src/common/string_util.cpp:178-229).
 */
module Levenshtein {
  import opened Common

  /** The recurrence on prefixes. */
  function Lev(a: string, b: string): nat
    decreases |a| + |b|
  {
    if a == [] then |b|
    else if b == [] then |a|
    else
      var a', b' := a[..|a| - 1], b[..|b| - 1];
      Min(Min(Lev(a', b) + 1, Lev(a, b') + 1), Lev(a', b') + if a[|a| - 1] == b[|b| - 1] then 0 else 1)
  }

  /** A row ends before a later one begins. */
  lemma RowsApart(j: nat, k: nat, w: nat)
    requires j < k
    ensures j * w + w <= k * w
  {
    assert (k - (j + 1)) * w >= 0;
    assert k * w == (j + 1) * w + (k - (j + 1)) * w;
  }

  function Cell(i: nat, j: nat, w: nat): nat {
    j * w + i
  }

  /** Different cells of the table are different places of the array. */
  lemma CellsApart(i: nat, j: nat, i': nat, j': nat, w: nat)
    requires i < w && i' < w && Cell(i, j, w) == Cell(i', j', w)
    ensures i == i' && j == j'
  {
    if j < j' {
      RowsApart(j, j', w);
    } else if j' < j {
      RowsApart(j', j, w);
    }
  }

  lemma CellInside(i: nat, j: nat, w: nat, h: nat)
    requires i < w && j < h
    ensures Cell(i, j, w) < h * w
  {
    RowsApart(j, h, w);
  }

  /** The distances of prefixes of two strings, by the lengths of the prefixes. */
  class LevenshteinArray {
    const width: nat
    const height: nat
    const dist: array<nat>

    ghost predicate Valid() {
      dist.Length == height * width
    }

    constructor (len1: nat, len2: nat)
      ensures Valid() && width == len1 && height == len2 && fresh(dist)
    {
      width, height := len1, len2;
      dist := new nat[len2 * len1];
    }

    ghost function At(i: nat, j: nat): nat
      requires Valid() && i < width && j < height
      reads dist
    {
      CellInside(i, j, width, height);
      dist[Cell(i, j, width)]
    }

    method Get(i: nat, j: nat) returns (d: nat)
      requires Valid() && i < width && j < height
      ensures d == At(i, j)
    {
      CellInside(i, j, width, height);
      d := dist[Cell(i, j, width)];
    }

    method Set(i: nat, j: nat, d: nat)
      requires Valid() && i < width && j < height
      modifies dist
      ensures At(i, j) == d
      ensures forall x: nat, y: nat | x < width && y < height && (x, y) != (i, j) :: At(x, y) == old(At(x, y))
    {
      CellInside(i, j, width, height);
      dist[Cell(i, j, width)] := d;
      forall x: nat, y: nat | x < width && y < height && (x, y) != (i, j) ensures At(x, y) == old(At(x, y)) {
        CellInside(x, y, width, height);
        if Cell(x, y, width) == Cell(i, j, width) {
          CellsApart(x, y, i, j, width);
        }
      }
    }
  }

  /** A cell holds the distance of the prefixes it stands for. */
  ghost predicate Filled(t: LevenshteinArray, a: string, b: string, i: nat, j: nat)
    requires t.Valid() && i < t.width && j < t.height && i <= |a| && j <= |b|
    reads t.dist
  {
    t.At(i, j) == Lev(a[..i], b[..j])
  }

  lemma LevStep(a: string, b: string, i: nat, j: nat)
    requires 0 < i <= |a| && 0 < j <= |b|
    ensures Lev(a[..i], b[..j]) ==
            Min(Min(Lev(a[..i - 1], b[..j]) + 1, Lev(a[..i], b[..j - 1]) + 1),
                Lev(a[..i - 1], b[..j - 1]) + if a[i - 1] == b[j - 1] then 0 else 1)
  {
    assert a[..i][..i - 1] == a[..i - 1] && b[..j][..j - 1] == b[..j - 1];
  }

  ghost predicate Shaped(t: LevenshteinArray, a: string, b: string) {
    t.Valid() && t.width == |a| + 1 && t.height == |b| + 1
  }

  /** The first `n` columns of the table are filled, and of the next one the first `m` cells. */
  ghost predicate FilledUpTo(t: LevenshteinArray, a: string, b: string, n: nat, m: nat)
    requires Shaped(t, a, b)
    reads t.dist
  {
    forall i: nat, j: nat | i <= |a| && j <= |b| && (i < n || j == 0 || (i == n && j < m)) :: Filled(t, a, b, i, j)
  }

  method FillBorder(t: LevenshteinArray, a: string, b: string)
    requires Shaped(t, a, b)
    modifies t.dist
    ensures FilledUpTo(t, a, b, 1, 0)
  {
    t.Set(0, 0, 0);
    for i := 0 to |a| + 1
      invariant forall x: nat | x < i :: t.At(x, 0) == x
    {
      t.Set(i, 0, i);
    }
    for j := 0 to |b| + 1
      invariant forall x: nat | x <= |a| :: t.At(x, 0) == x
      invariant forall y: nat | y < j :: t.At(0, y) == y
    {
      t.Set(0, j, j);
    }
    forall i: nat, j: nat | i <= |a| && j <= |b| && (i < 1 || j == 0) ensures Filled(t, a, b, i, j) {
      assert |a[..i]| == i && |b[..j]| == j;
    }
  }

  method FillCell(t: LevenshteinArray, a: string, b: string, i: nat, j: nat)
    requires Shaped(t, a, b) && 0 < i <= |a| && 0 < j <= |b| && FilledUpTo(t, a, b, i, j)
    modifies t.dist
    ensures FilledUpTo(t, a, b, i, j + 1)
  {
    assert Filled(t, a, b, i - 1, j) && Filled(t, a, b, i, j - 1) && Filled(t, a, b, i - 1, j - 1);
    var equal := if a[i - 1] == b[j - 1] then 0 else 1;
    var score1 := t.Get(i - 1, j);
    var score2 := t.Get(i, j - 1);
    var score3 := t.Get(i - 1, j - 1);
    LevStep(a, b, i, j);
    t.Set(i, j, Min(Min(score1 + 1, score2 + 1), score3 + equal));
    hide Lev;
    forall x: nat, y: nat | x <= |a| && y <= |b| && (x < i || y == 0 || (x == i && y < j + 1))
      ensures Filled(t, a, b, x, y)
    {
      if (x, y) != (i, j) {
        assert old(Filled(t, a, b, x, y));
      }
    }
  }

  /** The distance of two strings. */
  method LevenshteinDistance(a: string, b: string) returns (d: nat)
    ensures d == Lev(a, b)
  {
    if |a| == 0 {
      return |b|;
    }
    if |b| == 0 {
      return |a|;
    }
    hide Lev;
    var t := new LevenshteinArray(|a| + 1, |b| + 1);
    FillBorder(t, a, b);
    for i := 1 to |a| + 1
      invariant FilledUpTo(t, a, b, i, 0)
    {
      for j := 1 to |b| + 1
        invariant FilledUpTo(t, a, b, i, j)
      {
        FillCell(t, a, b, i, j);
      }
    }
    assert Filled(t, a, b, |a|, |b|) && a[..|a|] == a && b[..|b|] == b;
    d := t.Get(|a|, |b|);
  }

  datatype Edit = Insert(at: nat, letter: char) | Delete(at: nat) | Substitute(at: nat, letter: char)

  /** One edit anywhere in a string; an edit outside it changes nothing. */
  function Apply(s: string, e: Edit): string {
    match e
    case Insert(at, c) => if at <= |s| then s[..at] + [c] + s[at..] else s
    case Delete(at) => if at < |s| then s[..at] + s[at + 1..] else s
    case Substitute(at, c) => if at < |s| then s[..at] + [c] + s[at + 1..] else s
  }

  function ApplyAll(s: string, es: seq<Edit>): string {
    if es == [] then s else Apply(ApplyAll(s, es[..|es| - 1]), es[|es| - 1])
  }

  /** Two strings that differ in one place, found from the end. */
  ghost predicate OneApart(a: string, b: string)
    decreases |a|
  {
    || (b != [] && b[..|b| - 1] == a)
    || (a != [] && a[..|a| - 1] == b)
    || (a != [] && b != [] && a[..|a| - 1] == b[..|b| - 1])
    || (a != [] && b != [] && a[|a| - 1] == b[|b| - 1] && OneApart(a[..|a| - 1], b[..|b| - 1]))
  }

  lemma LevBelow(a: string, b: string)
    requires a != [] && b != []
    ensures Lev(a, b) <= Lev(a[..|a| - 1], b) + 1 && Lev(a, b) <= Lev(a, b[..|b| - 1]) + 1
    ensures Lev(a, b) <= Lev(a[..|a| - 1], b[..|b| - 1]) + if a[|a| - 1] == b[|b| - 1] then 0 else 1
  {
  }

  lemma {:induction false} OneApartLength(a: string, b: string)
    requires OneApart(a, b)
    ensures |a| <= |b| + 1 && |b| <= |a| + 1
    decreases |a|
  {
    if a != [] && b != [] && a[|a| - 1] == b[|b| - 1] && OneApart(a[..|a| - 1], b[..|b| - 1]) {
      OneApartLength(a[..|a| - 1], b[..|b| - 1]);
    }
  }

  lemma LevEmpty(a: string)
    ensures Lev(a, []) == |a| && Lev([], a) == |a|
  {
  }

  /** Which of the three neighbours a distance comes from. */
  lemma LevFrom(a: string, b: string)
    requires a != [] && b != []
    ensures
      || Lev(a, b) == Lev(a[..|a| - 1], b) + 1
      || Lev(a, b) == Lev(a, b[..|b| - 1]) + 1
      || Lev(a, b) == Lev(a[..|a| - 1], b[..|b| - 1]) + if a[|a| - 1] == b[|b| - 1] then 0 else 1
  {
  }

  /** Dropping the last character costs at most one edit. */
  lemma {:induction false} LevLonger(a: string, b: string)
    requires a != []
    ensures Lev(a[..|a| - 1], b) <= Lev(a, b) + 1
    decreases |b|
  {
    hide Lev;
    var p := a[..|a| - 1];
    if b == [] {
      LevEmpty(a);
      LevEmpty(p);
    } else {
      var q := b[..|b| - 1];
      LevFrom(a, b);
      LevLonger(a, q);
      LevAppend(p, b);
    }
  }

  lemma LevAppend(a: string, b: string)
    requires b != []
    ensures Lev(a, b) <= Lev(a, b[..|b| - 1]) + 1
  {
    if a == [] {
      LevEmpty(b);
      LevEmpty(b[..|b| - 1]);
    }
  }

  /** One edit changes the distance to any string by at most one. */
  lemma {:induction false} EditMovesOne(a: string, a': string, b: string)
    requires OneApart(a, a')
    ensures Lev(a, b) <= Lev(a', b) + 1
    decreases |a| + |a'| + |b|
  {
    hide Lev;
    if b == [] {
      LevEmpty(a);
      LevEmpty(a');
      OneApartLength(a, a');
    } else if a' != [] && a'[..|a'| - 1] == a {
      LevLonger(a', b);
    } else if a != [] && a[..|a| - 1] == a' {
      LevBelow(a, b);
    } else {
      SameOrSubstituted(a, a', b);
    }
  }

  lemma {:induction false} SameOrSubstituted(a: string, a': string, b: string)
    requires a != [] && a' != [] && b != []
    requires a[..|a| - 1] == a'[..|a'| - 1] || (a[|a| - 1] == a'[|a'| - 1] && OneApart(a[..|a| - 1], a'[..|a'| - 1]))
    ensures Lev(a, b) <= Lev(a', b) + 1
    decreases |a| + |a'| + |b|, 0
  {
    hide Lev;
    var p, p', q := a[..|a| - 1], a'[..|a'| - 1], b[..|b| - 1];
    LevBelow(a, b);
    LevFrom(a', b);
    assert OneApart(a, a');
    EditMovesOne(a, a', q);
    if p != p' {
      EditMovesOne(p, p', b);
      EditMovesOne(p, p', q);
    }
  }

  lemma {:induction false} AppliedIsOneApart(s: string, e: Edit)
    ensures Apply(s, e) == s || OneApart(s, Apply(s, e))
    decreases |s|
  {
    var t := Apply(s, e);
    if e.Insert? && e.at == |s| {
      assert t[..|t| - 1] == s;
    } else if !e.Insert? && e.at + 1 == |s| {
      if e.Delete? {
        assert s[..|s| - 1] == t;
      } else {
        assert s[..|s| - 1] == t[..|t| - 1];
      }
    } else if e.at < |s| {
      var rest, last := s[..|s| - 1], s[|s| - 1];
      ApplyInside(rest, [last], e);
      assert s == rest + [last];
      AppliedIsOneApart(rest, e);
      assert t == Apply(rest, e) + [last] && t[..|t| - 1] == Apply(rest, e);
    }
  }

  /** An edit inside a string is not disturbed by what follows the string. */
  lemma ApplyInside(s: string, t: string, e: Edit)
    requires if e.Insert? then e.at <= |s| else e.at < |s|
    ensures Apply(s + t, e) == Apply(s, e) + t
  {
    assert (s + t)[..e.at] == s[..e.at];
    if e.Insert? {
      assert (s + t)[e.at..] == s[e.at..] + t;
    } else {
      assert (s + t)[e.at + 1..] == s[e.at + 1..] + t;
    }
  }

  /** No script is shorter than the distance. */
  lemma {:induction false} NoShorterScript(a: string, b: string, es: seq<Edit>)
    requires ApplyAll(a, es) == b
    ensures Lev(a, b) <= |es|
    decreases |es|
  {
    if es == [] {
      LevSelf(a);
    } else {
      hide Lev;
      var rest, e := es[..|es| - 1], es[|es| - 1];
      var c := ApplyAll(a, rest);
      NoShorterScript(a, c, rest);
      AppliedIsOneApart(c, e);
      LevSymmetric(a, b);
      LevSymmetric(a, c);
      if b != c {
        OneApartSymmetric(c, b);
        EditMovesOne(b, c, a);
      }
    }
  }

  lemma {:induction false} LevSelf(a: string)
    ensures Lev(a, a) == 0
  {
    if a != [] {
      LevSelf(a[..|a| - 1]);
    }
  }

  /** The distance is symmetric. */
  lemma {:induction false} LevSymmetric(a: string, b: string)
    ensures Lev(a, b) == Lev(b, a)
    decreases |a| + |b|
  {
    if a != [] && b != [] {
      LevSymmetric(a[..|a| - 1], b);
      LevSymmetric(a, b[..|b| - 1]);
      LevSymmetric(a[..|a| - 1], b[..|b| - 1]);
    }
  }

  lemma {:induction false} OneApartSymmetric(a: string, b: string)
    requires OneApart(a, b)
    ensures OneApart(b, a)
    decreases |a|
  {
    if a != [] && b != [] && a[|a| - 1] == b[|b| - 1] && OneApart(a[..|a| - 1], b[..|b| - 1]) {
      OneApartSymmetric(a[..|a| - 1], b[..|b| - 1]);
    }
  }

  /** A script all of whose edits are inside the string they are applied to. */
  ghost predicate InsideAll(s: string, es: seq<Edit>) {
    es != [] ==>
      var rest, e := es[..|es| - 1], es[|es| - 1];
      InsideAll(s, rest) && if e.Insert? then e.at <= |ApplyAll(s, rest)| else e.at < |ApplyAll(s, rest)|
  }

  lemma {:induction false} ApplyAllInside(s: string, t: string, es: seq<Edit>)
    requires InsideAll(s, es)
    ensures ApplyAll(s + t, es) == ApplyAll(s, es) + t && InsideAll(s + t, es)
  {
    if es != [] {
      var rest, e := es[..|es| - 1], es[|es| - 1];
      ApplyAllInside(s, t, rest);
      ApplyInside(ApplyAll(s, rest), t, e);
    }
  }

  lemma ScriptAppend(s: string, es: seq<Edit>, e: Edit)
    requires InsideAll(s, es) && if e.Insert? then e.at <= |ApplyAll(s, es)| else e.at < |ApplyAll(s, es)|
    ensures InsideAll(s, es + [e]) && ApplyAll(s, es + [e]) == Apply(ApplyAll(s, es), e)
  {
    assert (es + [e])[..|es|] == es;
  }

  ghost predicate Turns(a: string, es: seq<Edit>, b: string) {
    InsideAll(a, es) && ApplyAll(a, es) == b
  }

  lemma InsertLast(a: string, b: string, es: seq<Edit>) returns (es': seq<Edit>)
    requires b != [] && Turns(a, es, b[..|b| - 1])
    ensures Turns(a, es', b) && |es'| == |es| + 1
  {
    var q := b[..|b| - 1];
    es' := es + [Insert(|q|, b[|b| - 1])];
    ScriptAppend(a, es, Insert(|q|, b[|b| - 1]));
    assert q[..|q|] + [b[|b| - 1]] + q[|q|..] == b;
  }

  lemma DeleteLast(a: string, b: string, es: seq<Edit>) returns (es': seq<Edit>)
    requires a != [] && Turns(a[..|a| - 1], es, b)
    ensures Turns(a, es', b) && |es'| == |es| + 1
  {
    var p, last := a[..|a| - 1], [a[|a| - 1]];
    assert a == p + last;
    ApplyAllInside(p, last, es);
    es' := es + [Delete(|b|)];
    ScriptAppend(a, es, Delete(|b|));
    assert (b + last)[..|b|] + (b + last)[|b| + 1..] == b;
  }

  lemma KeepLast(a: string, b: string, es: seq<Edit>) returns (es': seq<Edit>)
    requires a != [] && b != [] && Turns(a[..|a| - 1], es, b[..|b| - 1])
    ensures Turns(a, es', b) && |es'| == |es| + if a[|a| - 1] == b[|b| - 1] then 0 else 1
  {
    var p, q, last := a[..|a| - 1], b[..|b| - 1], [a[|a| - 1]];
    assert a == p + last && b == q + [b[|b| - 1]];
    ApplyAllInside(p, last, es);
    if a[|a| - 1] == b[|b| - 1] {
      es' := es;
    } else {
      es' := es + [Substitute(|q|, b[|b| - 1])];
      ScriptAppend(a, es, Substitute(|q|, b[|b| - 1]));
      assert (q + last)[..|q|] == q && (q + last)[|q| + 1..] == [];
    }
  }

  /** Some script is as short as the distance. */
  lemma {:induction false} ShortestScript(a: string, b: string) returns (es: seq<Edit>)
    ensures Turns(a, es, b) && |es| == Lev(a, b)
    decreases |a| + |b|
  {
    if a == [] && b == [] {
      es := [];
    } else if b != [] && Lev(a, b) == Lev(a, b[..|b| - 1]) + 1 {
      es := ShortestScript(a, b[..|b| - 1]);
      es := InsertLast(a, b, es);
    } else if a != [] && Lev(a, b) == Lev(a[..|a| - 1], b) + 1 {
      es := ShortestScript(a[..|a| - 1], b);
      es := DeleteLast(a, b, es);
    } else {
      es := ShortestScript(a[..|a| - 1], b[..|b| - 1]);
      es := KeepLast(a, b, es);
    }
  }

  lemma {:induction false} ApplyAllAppend(s: string, a: seq<Edit>, b: seq<Edit>)
    ensures ApplyAll(s, a + b) == ApplyAll(ApplyAll(s, a), b)
    decreases |b|
  {
    if b == [] {
      assert a + b == a;
    } else {
      assert (a + b)[..|a + b| - 1] == a + b[..|b| - 1];
      ApplyAllAppend(s, a, b[..|b| - 1]);
    }
  }

  /** Going through a third string is no shorter. */
  lemma {:induction false} TriangleInequality(a: string, b: string, c: string)
    ensures Lev(a, c) <= Lev(a, b) + Lev(b, c)
  {
    hide Lev;
    var es := ShortestScript(a, b);
    var fs := ShortestScript(b, c);
    ApplyAllAppend(a, es, fs);
    NoShorterScript(a, c, es + fs);
  }

  /** The distance is the length of the shortest script of insertions, deletions and substitutions. */
  lemma LevIsEditDistance(a: string, b: string, n: nat)
    ensures (exists es: seq<Edit> :: |es| <= n && ApplyAll(a, es) == b) <==> Lev(a, b) <= n
  {
    hide Lev;
    if Lev(a, b) <= n {
      var es := ShortestScript(a, b);
      assert |es| <= n && ApplyAll(a, es) == b;
    }
    if es: seq<Edit> :| |es| <= n && ApplyAll(a, es) == b {
      NoShorterScript(a, b, es);
    }
  }
}
