/** The round trip between the board and the record store: a drop the board
    reports as a status change, once the page applies it to the records and
    the board is derived again, puts the card where the drop put it; and a
    delete, once the board is derived again, takes out only that card. */
module EndToEnd {
  import opened Wrappers
  import opened Seqs
  import opened Records
  import opened Board
  import opened Derive
  import opened Drag
  import opened Store

  /** The status change keeps ids, so it keeps them unique. */
  lemma {:induction false} SetStatusKeepsUniqueIds(apps: seq<JobApplication>, id: string, s: Status)
    requires UniqueIds(apps)
    ensures UniqueIds(SetStatus(apps, id, s))
  {
    var r := SetStatus(apps, id, s);
    forall i, j | 0 <= i < j < |r| ensures r[i].id != r[j].id {
      assert r[i].id == apps[i].id && r[j].id == apps[j].id;
    }
  }

  /** After a drop reports `(id, s)` and the page sets that status, the
      board derived from the records has the card in column `s` and nowhere
      else. */
  lemma {:induction false} StatusChangeLands(b: Board, apps: seq<JobApplication>, activeId: string,
                                             over: Option<string>, id: string, s: Status)
    requires UniqueIds(apps)
    requires DragEnd(b, apps, activeId, over).change == Some(StatusChange(id, s))
    ensures var derived := InitialBoard(SetStatus(apps, id, s));
            derived.Partitioned() && FindContainer(derived, id) == Some(s)
            && id in derived.Col(s) && forall t :: t != s ==> id !in derived.Col(t)
  {
    DragEndChangeEligible(b, apps, activeId, over);
    var k :| 0 <= k < |apps| && apps[k] == FindApp(apps, activeId).value && apps[k].id == activeId
             && forall j :: k < j < |apps| ==> apps[j].id != activeId;
    var updated := SetStatus(apps, id, s);
    SetStatusKeepsUniqueIds(apps, id, s);
    assert updated[k].id == id && updated[k].status == s;
    InitialBoardPartitioned(updated, k);
    var derived := InitialBoard(updated);
    FindContainerExact(derived, id, s);
    forall t | t != s ensures id !in derived.Col(t) {
      if id in derived.Col(t) {
        PartitionedUnique(derived, id, s, t);
      }
    }
  }

  /** Which column a card sits in, read from the records: the status of a
      record with that id, which a status change for another id leaves alone. */
  lemma {:induction false} RecordsAfterChange(apps: seq<JobApplication>, r: seq<JobApplication>, id: string, s: Status,
                                              x: string, t: Status)
    requires r == SetStatus(apps, id, s) && x != id
    ensures (exists i :: 0 <= i < |r| && r[i].id == x && r[i].status == t)
            <==> (exists i :: 0 <= i < |apps| && apps[i].id == x && apps[i].status == t)
  {
    if exists i :: 0 <= i < |r| && r[i].id == x && r[i].status == t {
      var i :| 0 <= i < |r| && r[i].id == x && r[i].status == t;
      assert apps[i] == r[i];
    }
    if exists i :: 0 <= i < |apps| && apps[i].id == x && apps[i].status == t {
      var i :| 0 <= i < |apps| && apps[i].id == x && apps[i].status == t;
      assert r[i] == apps[i];
    }
  }

  /** A move between columns changes where the moved card is and nothing else. */
  lemma {:induction false} MoveMembership(b: Board, from: Status, to: Status, id: string, over: string, x: string, t: Status)
    requires from != to && x != id
    ensures x in Move(b, from, to, id, over).Col(t) <==> x in b.Col(t)
  {
    var m := Move(b, from, to, id, over);
    if t == from {
      FilterMembers(b.Col(from), NotEq(id));
      if x in b.Col(from) {
        var i :| 0 <= i < |b.Col(from)| && b.Col(from)[i] == x;
      }
      if x in m.Col(from) {
        var i :| 0 <= i < |m.Col(from)| && m.Col(from)[i] == x;
      }
    } else if t == to {
      assert x in multiset(m.Col(to)) <==> x in multiset(b.Col(to));
    }
  }

  /** A board shows the records when every id sits in the same columns as on
      the board derived from them. The board on screen may differ from the
      derived one in the order within a column, since a same-column drop
      reorders it and nothing derives it again until the records change. */
  ghost predicate ShowsRecords(b: Board, apps: seq<JobApplication>) {
    forall t, x :: x in b.Col(t) <==> x in InitialBoard(apps).Col(t)
  }

  /** The freshly derived board is partitioned and shows the records. */
  lemma {:induction false} DerivedShowsRecords(apps: seq<JobApplication>)
    requires UniqueIds(apps)
    ensures InitialBoard(apps).Partitioned() && ShowsRecords(InitialBoard(apps), apps)
  {
    InitialBoardIds(apps);
    UniqueIdsOnce(apps);
  }

  /** A drop that reports nothing, such as a reorder within a column, keeps
      the board partitioned and showing the records, so a later drop starts
      from a board that still satisfies the agreement's hypotheses. */
  lemma {:induction false} QuietDropKeepsShowing(b: Board, apps: seq<JobApplication>, activeId: string,
                                                 over: Option<string>)
    requires b.Partitioned() && ShowsRecords(b, apps)
    requires DragEnd(b, apps, activeId, over).change.None?
    ensures var r := DragEnd(b, apps, activeId, over).board;
            r.Partitioned() && ShowsRecords(r, apps)
  {
    var r := DragEnd(b, apps, activeId, over).board;
    DragEndKeepsIds(b, apps, activeId, over);
    forall t, x ensures x in r.Col(t) <==> x in InitialBoard(apps).Col(t) {
      assert x in multiset(r.Col(t)) <==> x in multiset(b.Col(t));
    }
  }

  /** The agreement below, for the moved card. */
  lemma {:induction false} AgreeOnMoved(b: Board, apps: seq<JobApplication>, activeId: string, over: Option<string>,
                                        id: string, s: Status, t: Status)
    requires UniqueIds(apps) && b.Partitioned()
    requires DragEnd(b, apps, activeId, over).change == Some(StatusChange(id, s))
    ensures id in DragEnd(b, apps, activeId, over).board.Col(t)
            <==> id in InitialBoard(SetStatus(apps, id, s)).Col(t)
  {
    var r := DragEnd(b, apps, activeId, over);
    DropLandsOnBoard(b, apps, activeId, over, id, s);
    StatusChangeLands(b, apps, activeId, over, id, s);
    if id in r.board.Col(t) {
      PartitionedUnique(r.board, id, s, t);
    }
  }

  /** The board a drop leaves on screen keeps the partition invariant and
      has the moved card in its new column. */
  lemma {:induction false} DropLandsOnBoard(b: Board, apps: seq<JobApplication>, activeId: string, over: Option<string>,
                                            id: string, s: Status)
    requires b.Partitioned()
    requires DragEnd(b, apps, activeId, over).change == Some(StatusChange(id, s))
    ensures var r := DragEnd(b, apps, activeId, over).board;
            r.Partitioned() && id in r.Col(s)
  {
    DragEndKeepsIds(b, apps, activeId, over);
  }

  /** The agreement below, for every other card. */
  lemma {:induction false} AgreeOnOthers(b: Board, apps: seq<JobApplication>, activeId: string, over: Option<string>,
                                         id: string, s: Status, x: string, t: Status)
    requires x != id && ShowsRecords(b, apps)
    requires DragEnd(b, apps, activeId, over).change == Some(StatusChange(id, s))
    ensures x in DragEnd(b, apps, activeId, over).board.Col(t)
            <==> x in InitialBoard(SetStatus(apps, id, s)).Col(t)
  {
    var r := DragEnd(b, apps, activeId, over);
    DragEndChangeEligible(b, apps, activeId, over);
    var from := FindContainer(b, activeId).value;
    assert r.board == Move(b, from, s, id, over.value);
    MoveMembership(b, from, s, id, over.value, x, t);
    InitialBoardMembership(apps, x, t);
    InitialBoardMembership(SetStatus(apps, id, s), x, t);
    RecordsAfterChange(apps, SetStatus(apps, id, s), id, s, x, t);
  }

  /** The board the drag leaves on screen, which the board computes before
      the page has applied the change, agrees column by column with the
      board the page derives once it has: every id is in the same column on
      both. The drag may start from any partitioned board showing the
      records: the freshly derived one (`DerivedShowsRecords`) or one a
      series of reorders has left (`QuietDropKeepsShowing`). */
  lemma {:induction false} OptimisticBoardAgrees(b: Board, apps: seq<JobApplication>, activeId: string,
                                                 over: Option<string>, id: string, s: Status)
    requires UniqueIds(apps) && b.Partitioned() && ShowsRecords(b, apps)
    requires DragEnd(b, apps, activeId, over).change == Some(StatusChange(id, s))
    ensures forall t, x :: x in DragEnd(b, apps, activeId, over).board.Col(t)
                           <==> x in InitialBoard(SetStatus(apps, id, s)).Col(t)
  {
    forall t, x ensures x in DragEnd(b, apps, activeId, over).board.Col(t)
                        <==> x in InitialBoard(SetStatus(apps, id, s)).Col(t) {
      if x == id {
        AgreeOnMoved(b, apps, activeId, over, id, s, t);
      } else {
        AgreeOnOthers(b, apps, activeId, over, id, s, x, t);
      }
    }
  }

  // ---------------------------------------------------------------------
  // Deleting a record, then deriving the board again
  // ---------------------------------------------------------------------

  /** Deleting commutes with the newest-first sort: the sort of the shortened
      list is the sorted list with that id's records taken out. */
  lemma {:induction false} DeleteThenSort(apps: seq<JobApplication>, id: string)
    ensures SortByDateDesc(DeleteApplication(apps, id)) == Filter(SortByDateDesc(apps), IdIsNot(id))
  {
    var p := IdIsNot(id);
    var sorted := SortByDateDesc(apps);
    var r := Filter(sorted, p);
    FilterPermutation(sorted, apps, p);
    FilterSorted(sorted, p);
    forall d ensures Filter(r, HasDate(d)) == Filter(DeleteApplication(apps, id), HasDate(d)) {
      FilterCommutes(sorted, p, HasDate(d));
      SortStable(apps, d);
      FilterCommutes(apps, HasDate(d), p);
    }
    SortIsTheStableSort(DeleteApplication(apps, id), r);
  }

  /** Dropping the records with an id drops that id from their ids. */
  lemma {:induction false} IdsOfDelete(s: seq<JobApplication>, id: string)
    ensures IdsOf(Filter(s, IdIsNot(id))) == Filter(IdsOf(s), NotEq(id))
  {
    if |s| > 0 {
      var h := if IdIsNot(id)(s[0]) then [s[0]] else [];
      IdsOfDelete(s[1..], id);
      IdsOfConcat(h, Filter(s[1..], IdIsNot(id)));
      assert IdsOf(s)[1..] == IdsOf(s[1..]);
    }
  }

  /** After a delete, each column of the derived board is the old column
      with the id taken out: the card leaves the board and every other card
      keeps its column and its place relative to the others. */
  lemma {:induction false} DeleteFromBoard(apps: seq<JobApplication>, id: string, st: Status)
    ensures InitialBoard(DeleteApplication(apps, id)).Col(st) == Filter(InitialBoard(apps).Col(st), NotEq(id))
  {
    var sorted := SortByDateDesc(apps);
    var column := Filter(sorted, HasStatus(st));
    DeleteThenSort(apps, id);
    InitialBoardColumn(DeleteApplication(apps, id), st);
    InitialBoardColumn(apps, st);
    FilterCommutes(sorted, IdIsNot(id), HasStatus(st));
    IdsOfDelete(column, id);
  }

  /** After a delete the id is in no column of the derived board, and every
      other id is in a column exactly when it was before. */
  lemma {:induction false} DeleteLeavesBoard(apps: seq<JobApplication>, id: string, st: Status, x: string)
    ensures id !in InitialBoard(DeleteApplication(apps, id)).Col(st)
    ensures x != id ==> (x in InitialBoard(DeleteApplication(apps, id)).Col(st) <==> x in InitialBoard(apps).Col(st))
  {
    var before := InitialBoard(apps).Col(st);
    DeleteFromBoard(apps, id, st);
    FilterMembers(before, NotEq(id));
  }
}
