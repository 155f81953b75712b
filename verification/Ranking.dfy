/** The order of search results: lower scores first, ties by identifier. */
module Ranking {

  /** Byte-wise order on identifiers. */
  predicate LexLess(a: string, b: string)
  {
    b != "" && (a == "" || a[0] < b[0] || (a[0] == b[0] && LexLess(a[1..], b[1..])))
  }

  lemma {:induction false} LexTotal(a: string, b: string)
    ensures !LexLess(a, a)
    ensures a == b || LexLess(a, b) || LexLess(b, a)
    ensures !(LexLess(a, b) && LexLess(b, a))
  {
    if a != "" { LexTotal(a[1..], a[1..]); }
    if a != "" && b != "" && a[0] == b[0] {
      LexTotal(a[1..], b[1..]);
      assert a == [a[0]] + a[1..] && b == [b[0]] + b[1..];
    }
  }

  lemma {:induction false} LexTransitive(a: string, b: string, c: string)
    requires LexLess(a, b) && LexLess(b, c)
    ensures LexLess(a, c)
  {
    if a != "" && a[0] == b[0] && b[0] == c[0] { LexTransitive(a[1..], b[1..], c[1..]); }
  }

  datatype Item = Item(id: string, score: real)

  predicate Before(x: Item, y: Item)
  {
    x.score < y.score || (x.score == y.score && LexLess(x.id, y.id))
  }

  lemma BeforeTotal(x: Item, y: Item)
    ensures !Before(x, x)
    ensures x == y || Before(x, y) || Before(y, x)
    ensures !(Before(x, y) && Before(y, x))
  {
    LexTotal(x.id, y.id);
    LexTotal(x.id, x.id);
  }

  lemma BeforeTransitive(x: Item, y: Item, z: Item)
    requires Before(x, y) && Before(y, z)
    ensures Before(x, z)
  {
    if x.score == y.score == z.score { LexTransitive(x.id, y.id, z.id); }
  }

  // ---------------------------------------------------------------- the worst item

  ghost predicate IsWorst(h: multiset<Item>, w: Item)
  {
    w in h && forall x :: x in h ==> x == w || Before(x, w)
  }

  lemma {:induction false} WorstExists(h: multiset<Item>)
    requires h != multiset{}
    ensures exists w :: IsWorst(h, w)
    decreases |h|
  {
    var x :| x in h;
    var rest := h - multiset{x};
    assert h == rest + multiset{x};
    if rest == multiset{} {
      assert IsWorst(h, x);
    } else {
      WorstExists(rest);
      var v :| IsWorst(rest, v);
      BeforeTotal(v, x);
      var w := if Before(v, x) then x else v;
      forall y | y in h
        ensures y == w || Before(y, w)
      {
        if w == x && x != v && y != x && y != v { BeforeTransitive(y, v, x); }
      }
      assert IsWorst(h, w);
    }
  }

  lemma WorstUnique(h: multiset<Item>, v: Item, w: Item)
    requires IsWorst(h, v) && IsWorst(h, w)
    ensures v == w
  {
    BeforeTotal(v, w);
  }

  /** The item a heap with the worst on top would give. */
  ghost function Worst(h: multiset<Item>): (w: Item)
    requires h != multiset{}
    ensures IsWorst(h, w)
  {
    WorstExists(h);
    var w :| IsWorst(h, w);
    w
  }
}
