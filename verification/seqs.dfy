/** Sequence operations the application borrows from JavaScript arrays
    (`filter`, `indexOf`, `splice`) and from the drag-and-drop library
    (`arrayMove`), with the facts the rest of the model relies on. */
module Seqs {

  /** `s.filter(p)`: the elements of `s` satisfying `p`, in their original order. */
  function Filter<T>(s: seq<T>, p: T -> bool): (r: seq<T>)
    ensures |r| <= |s|
  {
    if |s| == 0 then [] else (if p(s[0]) then [s[0]] else []) + Filter(s[1..], p)
  }

  /** What `filter` keeps: exactly the elements satisfying the predicate. */
  lemma {:induction false} FilterMembers<T>(s: seq<T>, p: T -> bool)
    ensures forall i :: 0 <= i < |Filter(s, p)| ==> Filter(s, p)[i] in s && p(Filter(s, p)[i])
    ensures forall i :: 0 <= i < |s| && p(s[i]) ==> s[i] in Filter(s, p)
  {
    if |s| > 0 {
      FilterMembers(s[1..], p);
      var r := Filter(s, p);
      var h := if p(s[0]) then [s[0]] else [];
      assert r == h + Filter(s[1..], p);
      forall i | 0 <= i < |s| && p(s[i]) ensures s[i] in r {
        if i > 0 {
          assert s[i] == s[1..][i - 1];
        }
      }
    }
  }

  /** The predicate `y => y !== x` that `filter` uses to drop one value. */
  function NotEq<T(==)>(x: T): T -> bool {
    y => y != x
  }

  /** Filtering distributes over concatenation: the relative order of the
      kept elements is exactly their order in the input. */
  lemma {:induction false} FilterConcat<T>(a: seq<T>, b: seq<T>, p: T -> bool)
    ensures Filter(a + b, p) == Filter(a, p) + Filter(b, p)
  {
    if |a| == 0 {
      assert a + b == b;
    } else {
      var h := if p(a[0]) then [a[0]] else [];
      assert (a + b)[0] == a[0];
      assert (a + b)[1..] == a[1..] + b;
      assert Filter(a + b, p) == h + Filter(a[1..] + b, p);
      FilterConcat(a[1..], b, p);
      assert Filter(a, p) == h + Filter(a[1..], p);
    }
  }

  lemma {:induction false} FilterSingleton<T>(x: T, p: T -> bool)
    ensures Filter([x], p) == if p(x) then [x] else []
  {
    assert [x][1..] == [];
  }

  /** A list whose first element is kept starts its filtered list. */
  lemma {:induction false} FilterHead<T>(s: seq<T>, p: T -> bool)
    requires |s| > 0 && p(s[0])
    ensures |Filter(s, p)| > 0 && Filter(s, p)[0] == s[0]
  {
  }

  /** Filtering with a predicate every element satisfies changes nothing. */
  lemma {:induction false} FilterKeepsAll<T>(s: seq<T>, p: T -> bool)
    requires forall i :: 0 <= i < |s| ==> p(s[i])
    ensures Filter(s, p) == s
  {
    if |s| > 0 {
      FilterKeepsAll(s[1..], p);
    }
  }

  /** Two filters may be applied in either order. */
  lemma {:induction false} FilterCommutes<T>(s: seq<T>, p: T -> bool, q: T -> bool)
    ensures Filter(Filter(s, p), q) == Filter(Filter(s, q), p)
  {
    if |s| > 0 {
      var head := [s[0]];
      assert s == head + s[1..];
      FilterConcat(head, s[1..], p);
      FilterConcat(head, s[1..], q);
      FilterConcat(Filter(head, p), Filter(s[1..], p), q);
      FilterConcat(Filter(head, q), Filter(s[1..], q), p);
      FilterCommutes(s[1..], p, q);
    }
  }

  /** Filtering counts: an element the predicate keeps occurs as often as
      before, any other element not at all. */
  lemma {:induction false} FilterMultiset<T>(s: seq<T>, p: T -> bool, x: T)
    ensures multiset(Filter(s, p))[x] == if p(x) then multiset(s)[x] else 0
  {
    if |s| > 0 {
      var h := if p(s[0]) then [s[0]] else [];
      FilterMultiset(s[1..], p, x);
      assert s == [s[0]] + s[1..];
      assert multiset(s) == multiset{s[0]} + multiset(s[1..]);
      assert multiset(Filter(s, p)) == multiset(h) + multiset(Filter(s[1..], p));
    }
  }

  /** `s.filter(y => y !== x)` removes every occurrence of `x` and nothing else. */
  lemma {:induction false} RemoveAllMultiset<T>(s: seq<T>, x: T)
    ensures multiset(Filter(s, NotEq(x))) == multiset(s)[x := 0]
  {
    var kept := multiset(Filter(s, NotEq(x)));
    var expected := multiset(s)[x := 0];
    forall y ensures kept[y] == expected[y] {
      FilterMultiset(s, NotEq(x), y);
      assert NotEq(x)(y) <==> y != x;
    }
    MultisetExt(kept, expected);
  }

  /** Multisets with the same count for every element are equal. */
  lemma {:induction false} MultisetExt<T>(a: multiset<T>, b: multiset<T>)
    requires forall y :: a[y] == b[y]
    ensures a == b
  {
  }

  /** `s.indexOf(x)`: the first position of `x`, or -1 when `x` is absent. */
  function IndexOf<T(==)>(s: seq<T>, x: T): (i: int)
    ensures -1 <= i < |s|
    ensures i == -1 <==> x !in s
    ensures 0 <= i ==> s[i] == x && x !in s[..i]
  {
    if |s| == 0 then -1
    else if s[0] == x then 0
    else
      var k := IndexOf(s[1..], x);
      assert s[1..][..if k < 0 then 0 else k] == s[1..if k < 0 then 1 else k + 1];
      if k < 0 then -1 else k + 1
  }

  /** `splice(i, 1)`: the sequence without its element at `i`. */
  function RemoveAt<T>(s: seq<T>, i: nat): (r: seq<T>)
    requires i < |s|
    ensures |r| == |s| - 1
    ensures forall k :: 0 <= k < i ==> r[k] == s[k]
    ensures forall k :: i <= k < |r| ==> r[k] == s[k + 1]
  {
    s[..i] + s[i + 1..]
  }

  /** `splice(i, 0, x)`: the sequence with `x` placed at position `i`. */
  function InsertAt<T>(s: seq<T>, i: nat, x: T): (r: seq<T>)
    requires i <= |s|
    ensures |r| == |s| + 1
    ensures r[i] == x
    ensures forall k :: 0 <= k < i ==> r[k] == s[k]
    ensures forall k :: i < k < |r| ==> r[k] == s[k - 1]
    ensures multiset(r) == multiset(s) + multiset{x}
  {
    assert s == s[..i] + s[i..];
    s[..i] + [x] + s[i..]
  }

  /** Removing what was just inserted gives back the original sequence. */
  lemma {:induction false} RemoveInserted<T>(s: seq<T>, i: nat, x: T)
    requires i <= |s|
    ensures RemoveAt(InsertAt(s, i, x), i) == s
  {
  }

  /** Inserting the removed element where it was gives back the original sequence. */
  lemma {:induction false} InsertRemoved<T>(s: seq<T>, i: nat)
    requires i < |s|
    ensures InsertAt(RemoveAt(s, i), i, s[i]) == s
  {
  }

  lemma {:induction false} RemoveAtMultiset<T>(s: seq<T>, i: nat)
    requires i < |s|
    ensures multiset(RemoveAt(s, i)) == multiset(s) - multiset{s[i]}
  {
    assert s == s[..i] + [s[i]] + s[i + 1..];
  }

  /** The library's `arrayMove(s, from, to)`: take the element at `from` out
      and put it back so that it ends up at index `to`. Every element strictly
      between the two positions shifts by one towards `from`; the rest stay. */
  function ArrayMove<T>(s: seq<T>, from: nat, to: nat): (r: seq<T>)
    requires from < |s| && to < |s|
    ensures |r| == |s|
    ensures multiset(r) == multiset(s)
    ensures r[to] == s[from]
    ensures forall k :: 0 <= k < |s| && k < from && k < to ==> r[k] == s[k]
    ensures forall k :: 0 <= k < |s| && k > from && k > to ==> r[k] == s[k]
    ensures forall k :: from <= k < to ==> r[k] == s[k + 1]
    ensures forall k :: to < k <= from ==> r[k] == s[k - 1]
  {
    RemoveAtMultiset(s, from);
    MoveKeepsOutside(s, from, to);
    MoveShiftsDown(s, from, to);
    MoveShiftsUp(s, from, to);
    InsertAt(RemoveAt(s, from), to, s[from])
  }

  /** Elements before or after both positions stay where they are. */
  lemma {:induction false} MoveKeepsOutside<T>(s: seq<T>, from: nat, to: nat)
    requires from < |s| && to < |s|
    ensures forall k :: 0 <= k < |s| && k < from && k < to ==> InsertAt(RemoveAt(s, from), to, s[from])[k] == s[k]
    ensures forall k :: 0 <= k < |s| && k > from && k > to ==> InsertAt(RemoveAt(s, from), to, s[from])[k] == s[k]
  {
    var rest := RemoveAt(s, from);
    var r := InsertAt(rest, to, s[from]);
    forall k | 0 <= k < |s| && k > from && k > to ensures r[k] == s[k] {
      assert r[k] == rest[k - 1];
    }
  }

  /** Elements between an earlier `from` and a later `to` move one place down. */
  lemma {:induction false} MoveShiftsDown<T>(s: seq<T>, from: nat, to: nat)
    requires from < |s| && to < |s|
    ensures forall k :: from <= k < to ==> InsertAt(RemoveAt(s, from), to, s[from])[k] == s[k + 1]
  {
    var rest := RemoveAt(s, from);
    var r := InsertAt(rest, to, s[from]);
    forall k | from <= k < to ensures r[k] == s[k + 1] {
      assert r[k] == rest[k];
    }
  }

  /** Elements between a later `from` and an earlier `to` move one place up. */
  lemma {:induction false} MoveShiftsUp<T>(s: seq<T>, from: nat, to: nat)
    requires from < |s| && to < |s|
    ensures forall k :: to < k <= from ==> InsertAt(RemoveAt(s, from), to, s[from])[k] == s[k - 1]
  {
    var rest := RemoveAt(s, from);
    var r := InsertAt(rest, to, s[from]);
    forall k | to < k <= from ensures r[k] == s[k - 1] {
      assert r[k] == rest[k - 1];
    }
  }

  /** Moving an element back to where it came from undoes the move. */
  lemma {:induction false} ArrayMoveUndo<T>(s: seq<T>, from: nat, to: nat)
    requires from < |s| && to < |s|
    ensures ArrayMove(ArrayMove(s, from, to), to, from) == s
  {
    var rest := RemoveAt(s, from);
    var m := ArrayMove(s, from, to);
    assert m == InsertAt(rest, to, s[from]);
    RemoveInserted(rest, to, s[from]);
    InsertRemoved(s, from);
  }

  /** Dropping an element onto its right-hand neighbour swaps the two. */
  lemma {:induction false} ArrayMoveNeighbours<T>(s: seq<T>, i: nat)
    requires i + 1 < |s|
    ensures ArrayMove(s, i, i + 1) == s[..i] + [s[i + 1], s[i]] + s[i + 2..]
  {
    var m := ArrayMove(s, i, i + 1);
    var w := s[..i] + [s[i + 1], s[i]] + s[i + 2..];
    assert forall k :: 0 <= k < |s| ==> m[k] == w[k];
  }

  /** Putting the same prefix in front keeps sequences apart. */
  lemma {:induction false} PrefixCancels<T>(p: seq<T>, a: seq<T>, b: seq<T>)
    requires p + a == p + b
    ensures a == b
  {
    assert a == (p + a)[|p|..];
    assert b == (p + b)[|p|..];
  }

  /** Moving an element onto its own position changes nothing. */
  lemma {:induction false} ArrayMoveStays<T>(s: seq<T>, i: nat)
    requires i < |s|
    ensures ArrayMove(s, i, i) == s
  {
    InsertRemoved(s, i);
  }

  /** Filtering out a value that occurs exactly once removes it at its index. */
  lemma {:induction false} RemoveSingle<T>(s: seq<T>, x: T)
    requires multiset(s)[x] == 1
    ensures Filter(s, NotEq(x)) == RemoveAt(s, IndexOf(s, x))
  {
    assert s == [s[0]] + s[1..];
    if s[0] == x {
      assert x !in s[1..];
      FilterKeepsAll(s[1..], NotEq(x));
    } else {
      RemoveSingle(s[1..], x);
      assert Filter(s, NotEq(x)) == [s[0]] + Filter(s[1..], NotEq(x));
    }
  }
}
