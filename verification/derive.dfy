/** Deriving the board from the application list (`initialBoard`): sort the
    applications by application date, newest first, with a stable sort, then
    push each id onto the column of its status. */
module Derive {
  import opened Records
  import opened Board
  import opened Strings
  import opened Seqs
  import opened Wrappers

  /** Newest first: no application is preceded by one with an earlier date. */
  predicate SortedByDateDesc(s: seq<JobApplication>) {
    forall i, j :: 0 <= i < j < |s| ==> LexLe(s[j].dateApplied, s[i].dateApplied)
  }

  /** Stable insertion of `x` in front of a list of applications that came
      after it in the input: `x` goes before the first element whose date is
      not later than its own. */
  function InsertByDate(x: JobApplication, s: seq<JobApplication>): (r: seq<JobApplication>)
    ensures multiset(r) == multiset(s) + multiset{x}
    ensures |r| == |s| + 1
  {
    if |s| == 0 then [x]
    else if LexLe(s[0].dateApplied, x.dateApplied) then [x] + s
    else
      assert s == [s[0]] + s[1..];
      [s[0]] + InsertByDate(x, s[1..])
  }

  /** Inserting into a newest-first list keeps it newest first. */
  lemma {:induction false} InsertByDateSorted(x: JobApplication, s: seq<JobApplication>)
    requires SortedByDateDesc(s)
    ensures SortedByDateDesc(InsertByDate(x, s))
  {
    if |s| == 0 {
    } else if LexLe(s[0].dateApplied, x.dateApplied) {
      InsertFrontSorted(x, s);
    } else {
      var rest := InsertByDate(x, s[1..]);
      InsertByDateSorted(x, s[1..]);
      LexLeTotal(x.dateApplied, s[0].dateApplied);
      forall k | 0 <= k < |rest| ensures LexLe(rest[k].dateApplied, s[0].dateApplied) {
        assert rest[k] in multiset(s[1..]) + multiset{x};
        if rest[k] != x {
          assert rest[k] in s[1..];
        }
      }
      ConsSorted(s[0], rest);
    }
  }

  /** A newest-first list stays newest first under a head no earlier than
      any of its elements. */
  lemma {:induction false} ConsSorted(h: JobApplication, rest: seq<JobApplication>)
    requires SortedByDateDesc(rest)
    requires forall k :: 0 <= k < |rest| ==> LexLe(rest[k].dateApplied, h.dateApplied)
    ensures SortedByDateDesc([h] + rest)
  {
    var r := [h] + rest;
    forall i, j | 0 <= i < j < |r| ensures LexLe(r[j].dateApplied, r[i].dateApplied) {
      if i > 0 {
        assert r[i] == rest[i - 1] && r[j] == rest[j - 1];
      }
    }
  }

  lemma {:induction false} InsertFrontSorted(x: JobApplication, s: seq<JobApplication>)
    requires |s| > 0 && LexLe(s[0].dateApplied, x.dateApplied)
    ensures SortedByDateDesc(s) ==> SortedByDateDesc([x] + s)
  {
    if SortedByDateDesc(s) {
      forall j | 0 < j < |s| ensures LexLe(s[j].dateApplied, x.dateApplied) {
        LexLeTransitive(s[j].dateApplied, s[0].dateApplied, x.dateApplied);
      }
    }
  }

  /** `[...apps].sort((a, b) => b.dateApplied.localeCompare(a.dateApplied))`:
      the same applications, newest first, applications with equal dates in
      their input order. */
  function SortByDateDesc(apps: seq<JobApplication>): (r: seq<JobApplication>)
    ensures multiset(r) == multiset(apps)
    ensures |r| == |apps|
    ensures SortedByDateDesc(r)
  {
    if |apps| == 0 then []
    else
      assert apps == [apps[0]] + apps[1..];
      InsertByDateSorted(apps[0], SortByDateDesc(apps[1..]));
      InsertByDate(apps[0], SortByDateDesc(apps[1..]))
  }

  /** Inserting `x` only ever passes applications with a strictly later date,
      so among applications of one date `x` lands in front. */
  lemma {:induction false} InsertByDateStable(x: JobApplication, s: seq<JobApplication>, d: string)
    ensures Filter(InsertByDate(x, s), HasDate(d))
            == (if x.dateApplied == d then [x] else []) + Filter(s, HasDate(d))
  {
    if |s| == 0 {
      assert [x][1..] == [];
    } else if LexLe(s[0].dateApplied, x.dateApplied) {
      assert ([x] + s)[1..] == s;
    } else {
      var rest := InsertByDate(x, s[1..]);
      InsertByDateStable(x, s[1..], d);
      assert InsertByDate(x, s) == [s[0]] + rest;
      PassOverStable(x, s, rest, d);
    }
  }

  /** The step of `InsertByDateStable` where `x` passes a strictly later head. */
  lemma {:induction false} PassOverStable(x: JobApplication, s: seq<JobApplication>, rest: seq<JobApplication>, d: string)
    requires |s| > 0 && !LexLe(s[0].dateApplied, x.dateApplied)
    requires Filter(rest, HasDate(d)) == (if x.dateApplied == d then [x] else []) + Filter(s[1..], HasDate(d))
    ensures Filter([s[0]] + rest, HasDate(d))
            == (if x.dateApplied == d then [x] else []) + Filter(s, HasDate(d))
  {
    var p := HasDate(d);
    var pre := if x.dateApplied == d then [x] else [];
    assert ([s[0]] + rest)[1..] == rest;
    assert Filter([s[0]] + rest, p) == (if p(s[0]) then [s[0]] else []) + Filter(rest, p);
    assert Filter(s, p) == (if p(s[0]) then [s[0]] else []) + Filter(s[1..], p);
    if p(s[0]) {
      LexLeReflexive(x.dateApplied);
      assert pre == [];
    } else {
      assert Filter([s[0]] + rest, p) == pre + Filter(s[1..], p);
    }
  }

  /** The sort is stable: for every date, the applications of that date come
      out in the order they went in. */
  lemma {:induction false} SortStable(apps: seq<JobApplication>, d: string)
    ensures Filter(SortByDateDesc(apps), HasDate(d)) == Filter(apps, HasDate(d))
  {
    if |apps| > 0 {
      SortStable(apps[1..], d);
      InsertByDateStable(apps[0], SortByDateDesc(apps[1..]), d);
    }
  }

  /** The head of a newest-first list carries the latest date. */
  lemma {:induction false} HeadIsLatest(r: seq<JobApplication>, x: JobApplication)
    requires SortedByDateDesc(r) && x in r
    ensures LexLe(x.dateApplied, r[0].dateApplied)
  {
    LexLeReflexive(r[0].dateApplied);
  }

  /** An element that occurs in the date-`d` part of a list occurs in the list. */
  lemma {:induction false} InDateFilter(r: seq<JobApplication>, d: string, x: JobApplication)
    requires x in Filter(r, HasDate(d))
    ensures x in r
  {
    FilterMembers(r, HasDate(d));
  }

  /** The head of the second of two lists that agree date by date is no
      later than the head of the first. */
  lemma {:induction false} AgreeingHeadNotLater(r1: seq<JobApplication>, r2: seq<JobApplication>)
    requires |r1| > 0 && |r2| > 0 && SortedByDateDesc(r1)
    requires Filter(r1, HasDate(r2[0].dateApplied)) == Filter(r2, HasDate(r2[0].dateApplied))
    ensures LexLe(r2[0].dateApplied, r1[0].dateApplied)
  {
    var d := r2[0].dateApplied;
    assert Filter(r2, HasDate(d)) == [r2[0]] + Filter(r2[1..], HasDate(d));
    InDateFilter(r1, d, r2[0]);
    HeadIsLatest(r1, r2[0]);
  }

  /** Two lists that agree date by date have the same latest element. */
  lemma {:induction false} AgreeingHeads(r1: seq<JobApplication>, r2: seq<JobApplication>)
    requires |r1| > 0 && |r2| > 0
    requires SortedByDateDesc(r1) && SortedByDateDesc(r2)
    requires forall d :: Filter(r1, HasDate(d)) == Filter(r2, HasDate(d))
    ensures r1[0] == r2[0]
  {
    var d1, d2 := r1[0].dateApplied, r2[0].dateApplied;
    AgreeingHeadNotLater(r1, r2);
    AgreeingHeadNotLater(r2, r1);
    LexLeAntisymmetric(d1, d2);
    FilterHead(r1, HasDate(d1));
    FilterHead(r2, HasDate(d1));
  }

  /** Lists that agree date by date and share their head agree after it too. */
  lemma {:induction false} AgreeingTails(r1: seq<JobApplication>, r2: seq<JobApplication>, d: string)
    requires |r1| > 0 && |r2| > 0 && r1[0] == r2[0]
    requires Filter(r1, HasDate(d)) == Filter(r2, HasDate(d))
    ensures Filter(r1[1..], HasDate(d)) == Filter(r2[1..], HasDate(d))
  {
    var h := if HasDate(d)(r1[0]) then [r1[0]] else [];
    assert Filter(r1, HasDate(d)) == h + Filter(r1[1..], HasDate(d));
    assert Filter(r2, HasDate(d)) == h + Filter(r2[1..], HasDate(d));
    PrefixCancels(h, Filter(r1[1..], HasDate(d)), Filter(r2[1..], HasDate(d)));
  }

  /** Two newest-first lists that agree date by date are the same list. */
  lemma {:induction false} SortedAgreeingByDateEqual(r1: seq<JobApplication>, r2: seq<JobApplication>)
    requires |r1| == |r2|
    requires SortedByDateDesc(r1) && SortedByDateDesc(r2)
    requires forall d :: Filter(r1, HasDate(d)) == Filter(r2, HasDate(d))
    ensures r1 == r2
  {
    if |r1| > 0 {
      AgreeingHeads(r1, r2);
      forall d ensures Filter(r1[1..], HasDate(d)) == Filter(r2[1..], HasDate(d)) {
        AgreeingTails(r1, r2, d);
      }
      SortedAgreeingByDateEqual(r1[1..], r2[1..]);
      assert r1 == [r1[0]] + r1[1..];
      assert r2 == [r2[0]] + r2[1..];
    }
  }

  /** The sort's result is THE stable descending sort: any permutation of the
      input that is newest first and keeps equal dates in input order equals
      it, so the model agrees with any stable sort the runtime uses. */
  lemma {:induction false} SortIsTheStableSort(apps: seq<JobApplication>, r: seq<JobApplication>)
    requires multiset(r) == multiset(apps)
    requires SortedByDateDesc(r)
    requires forall d :: Filter(r, HasDate(d)) == Filter(apps, HasDate(d))
    ensures r == SortByDateDesc(apps)
  {
    forall d ensures Filter(r, HasDate(d)) == Filter(SortByDateDesc(apps), HasDate(d)) {
      SortStable(apps, d);
    }
    assert |r| == |multiset(apps)|;
    SortedAgreeingByDateEqual(r, SortByDateDesc(apps));
  }

  /** `cols[s].push(id)`. */
  function Push(b: Board, s: Status, id: string): (r: Board)
    ensures r.Col(s) == b.Col(s) + [id]
    ensures forall t :: t != s ==> r.Col(t) == b.Col(t)
  {
    b.With(s, b.Col(s) + [id])
  }

  /** A push adds its id to the board once. */
  lemma {:induction false} PushIds(b: Board, s: Status, id: string)
    ensures Push(b, s, id).Ids() == b.Ids() + multiset{id}
  {
    var r := Push(b, s, id);
    assert multiset(r.Col(s)) == multiset(b.Col(s)) + multiset{id};
    IdsWith(b, s, r.Col(s));
    assert r == b.With(s, r.Col(s));
  }

  lemma {:induction false} IdsOfConcat(a: seq<JobApplication>, b: seq<JobApplication>)
    ensures IdsOf(a + b) == IdsOf(a) + IdsOf(b)
  {
    var l, r := IdsOf(a + b), IdsOf(a) + IdsOf(b);
    forall i | 0 <= i < |l| ensures l[i] == r[i] {
      if i < |a| {
        assert (a + b)[i] == a[i];
      } else {
        assert (a + b)[i] == b[i - |a|];
      }
    }
  }

  /** `s.forEach(a => cols[a.status].push(a.id))` applied to the columns `b`. */
  function PushAll(b: Board, s: seq<JobApplication>): Board
    decreases |s|
  {
    if |s| == 0 then b else PushAll(Push(b, s[0].status, s[0].id), s[1..])
  }

  /** Pushing a list of applications appends to each column, in order, the
      ids of the applications with that column's status. */
  lemma {:induction false} PushAllColumns(b: Board, s: seq<JobApplication>, st: Status)
    ensures PushAll(b, s).Col(st) == b.Col(st) + IdsOf(Filter(s, HasStatus(st)))
    decreases |s|
  {
    if |s| > 0 {
      var b' := Push(b, s[0].status, s[0].id);
      PushAllColumns(b', s[1..], st);
      var h := if s[0].status == st then [s[0].id] else [];
      assert b'.Col(st) == b.Col(st) + h;
      var rest := Filter(s[1..], HasStatus(st));
      assert Filter(s, HasStatus(st)) == (if HasStatus(st)(s[0]) then [s[0]] else []) + rest;
      IdsOfConcat(if HasStatus(st)(s[0]) then [s[0]] else [], rest);
    }
  }

  /** Pushing a list of applications adds each of their ids once. */
  lemma {:induction false} PushAllIds(b: Board, s: seq<JobApplication>)
    ensures PushAll(b, s).Ids() == b.Ids() + multiset(IdsOf(s))
    decreases |s|
  {
    if |s| > 0 {
      var b' := Push(b, s[0].status, s[0].id);
      PushAllIds(b', s[1..]);
      PushIds(b, s[0].status, s[0].id);
      assert multiset(IdsOf(s)) == multiset{s[0].id} + multiset(IdsOf(s[1..]));
    }
  }

  /** `initialBoard`: the board derived from the application list. */
  function InitialBoard(apps: seq<JobApplication>): Board {
    PushAll(Empty, SortByDateDesc(apps))
  }

  /** Filtering keeps a newest-first list newest first. */
  lemma {:induction false} FilterSorted(s: seq<JobApplication>, p: JobApplication -> bool)
    requires SortedByDateDesc(s)
    ensures SortedByDateDesc(Filter(s, p))
  {
    if |s| > 0 {
      FilterSorted(s[1..], p);
      var rest := Filter(s[1..], p);
      FilterMembers(s[1..], p);
      assert forall k :: 0 <= k < |rest| ==> rest[k] in s[1..];
    }
  }

  /** Filtering two permutations of each other gives permutations of each other. */
  lemma {:induction false} FilterPermutation(a: seq<JobApplication>, b: seq<JobApplication>, p: JobApplication -> bool)
    requires multiset(a) == multiset(b)
    ensures multiset(Filter(a, p)) == multiset(Filter(b, p))
  {
    forall x ensures multiset(Filter(a, p))[x] == multiset(Filter(b, p))[x] {
      FilterMultiset(a, p, x);
      FilterMultiset(b, p, x);
    }
  }

  /** Inserting an application adds its id. */
  lemma {:induction false} IdsOfInsert(x: JobApplication, s: seq<JobApplication>)
    ensures multiset(IdsOf(InsertByDate(x, s))) == multiset(IdsOf(s)) + multiset{x.id}
  {
    if |s| == 0 {
    } else if LexLe(s[0].dateApplied, x.dateApplied) {
      assert ([x] + s)[1..] == s;
      assert IdsOf([x] + s) == [x.id] + IdsOf(s);
    } else {
      var rest := InsertByDate(x, s[1..]);
      IdsOfInsert(x, s[1..]);
      assert ([s[0]] + rest)[1..] == rest;
      assert IdsOf([s[0]] + rest) == [s[0].id] + IdsOf(rest);
      assert IdsOf(s) == [s[0].id] + IdsOf(s[1..]);
    }
  }

  /** Sorting permutes the ids. */
  lemma {:induction false} IdsOfSort(apps: seq<JobApplication>)
    ensures multiset(IdsOf(SortByDateDesc(apps))) == multiset(IdsOf(apps))
  {
    if |apps| > 0 {
      var rest := SortByDateDesc(apps[1..]);
      IdsOfSort(apps[1..]);
      IdsOfInsert(apps[0], rest);
      assert SortByDateDesc(apps) == InsertByDate(apps[0], rest);
      assert IdsOf(apps) == [apps[0].id] + IdsOf(apps[1..]);
    }
  }

  /** Each column of the derived board lists the ids of exactly the
      applications with that status, newest first, applications of one date
      in the order of the application list. */
  lemma {:induction false} InitialBoardColumn(apps: seq<JobApplication>, st: Status)
    ensures var c := Filter(SortByDateDesc(apps), HasStatus(st));
            && InitialBoard(apps).Col(st) == IdsOf(c)
            && multiset(c) == multiset(Filter(apps, HasStatus(st)))
            && SortedByDateDesc(c)
            && forall d :: Filter(c, HasDate(d)) == Filter(Filter(apps, HasStatus(st)), HasDate(d))
  {
    var sorted := SortByDateDesc(apps);
    var c := Filter(sorted, HasStatus(st));
    PushAllColumns(Empty, sorted, st);
    FilterPermutation(sorted, apps, HasStatus(st));
    FilterSorted(sorted, HasStatus(st));
    forall d ensures Filter(c, HasDate(d)) == Filter(Filter(apps, HasStatus(st)), HasDate(d)) {
      FilterCommutes(sorted, HasStatus(st), HasDate(d));
      SortStable(apps, d);
      FilterCommutes(apps, HasDate(d), HasStatus(st));
    }
  }

  /** An id is in a column of the derived board exactly when some application
      with that id has that column's status. */
  lemma {:induction false} InitialBoardMembership(apps: seq<JobApplication>, id: string, st: Status)
    ensures id in InitialBoard(apps).Col(st)
            <==> exists i :: 0 <= i < |apps| && apps[i].id == id && apps[i].status == st
  {
    var sorted := SortByDateDesc(apps);
    var c := Filter(sorted, HasStatus(st));
    PushAllColumns(Empty, sorted, st);
    FilterMembers(sorted, HasStatus(st));
    if id in InitialBoard(apps).Col(st) {
      OnBoardFromApp(apps, sorted, c, id, st);
    }
    if exists i :: 0 <= i < |apps| && apps[i].id == id && apps[i].status == st {
      var i :| 0 <= i < |apps| && apps[i].id == id && apps[i].status == st;
      AppOnBoard(apps, sorted, c, i, st);
    }
  }

  /** The "only if" half of `InitialBoardMembership`. */
  lemma {:induction false} OnBoardFromApp(apps: seq<JobApplication>, sorted: seq<JobApplication>, c: seq<JobApplication>,
                       id: string, st: Status)
    requires multiset(sorted) == multiset(apps)
    requires forall k :: 0 <= k < |c| ==> c[k] in sorted && HasStatus(st)(c[k])
    requires id in IdsOf(c)
    ensures exists i :: 0 <= i < |apps| && apps[i].id == id && apps[i].status == st
  {
    var k :| 0 <= k < |c| && IdsOf(c)[k] == id;
    assert c[k] in multiset(apps);
    var i :| 0 <= i < |apps| && apps[i] == c[k];
  }

  /** The "if" half of `InitialBoardMembership`. */
  lemma {:induction false} AppOnBoard(apps: seq<JobApplication>, sorted: seq<JobApplication>, c: seq<JobApplication>,
                   i: int, st: Status)
    requires multiset(sorted) == multiset(apps)
    requires forall k :: 0 <= k < |sorted| && HasStatus(st)(sorted[k]) ==> sorted[k] in c
    requires 0 <= i < |apps| && apps[i].status == st
    ensures apps[i].id in IdsOf(c)
  {
    assert apps[i] in multiset(sorted);
    var k :| 0 <= k < |sorted| && sorted[k] == apps[i];
    assert HasStatus(st)(sorted[k]);
    var m :| 0 <= m < |c| && c[m] == apps[i];
    assert IdsOf(c)[m] == apps[i].id;
  }

  /** The board holds every application id once per application holding it. */
  lemma {:induction false} InitialBoardIds(apps: seq<JobApplication>)
    ensures InitialBoard(apps).Ids() == multiset(IdsOf(apps))
  {
    PushAllIds(Empty, SortByDateDesc(apps));
    IdsOfSort(apps);
  }

  /** Distinct ids have multiplicity one. */
  lemma {:induction false} UniqueIdsOnce(apps: seq<JobApplication>)
    requires UniqueIds(apps)
    ensures forall id :: id in multiset(IdsOf(apps)) ==> multiset(IdsOf(apps))[id] == 1
  {
    if |apps| > 0 {
      UniqueIdsOnce(apps[1..]);
      assert apps == [apps[0]] + apps[1..];
      IdsOfConcat([apps[0]], apps[1..]);
      assert apps[0].id !in IdsOf(apps[1..]);
    }
  }

  /** With distinct ids the derived board satisfies the partition invariant,
      and the one column holding each application is the one of its status. */
  lemma {:induction false} InitialBoardPartitioned(apps: seq<JobApplication>, i: nat)
    requires UniqueIds(apps) && i < |apps|
    ensures InitialBoard(apps).Partitioned()
    ensures FindContainer(InitialBoard(apps), apps[i].id) == Some(apps[i].status)
  {
    InitialBoardIds(apps);
    UniqueIdsOnce(apps);
    InitialBoardMembership(apps, apps[i].id, apps[i].status);
    FindContainerExact(InitialBoard(apps), apps[i].id, apps[i].status);
  }
}
