/** The drop-eligibility rule and the drag-end reconciler of the kanban board
    (`isOfferApp`, `canDropTo`, `handleDragEnd`). */
module Drag {
  import opened Wrappers
  import opened Records
  import opened Board
  import opened Seqs

  /** An application counts as an offer when its status says so or when any
      offer-detail field has been filled in. */
  predicate IsOfferApp(app: JobApplication)
  {
    var o := app.offerDetails;
    app.status == Offer
      || o.salary != "" || o.equity != "" || o.bonus != ""
      || o.location != "" || o.startDate != "" || o.deadline != ""
  }

  /** Offer-like applications may only go to the offer, accepted and rejected
      columns; every other application may go anywhere. */
  predicate CanDropTo(app: JobApplication, to: Status)
  {
    if IsOfferApp(app) then to == Offer || to == Accepted || to == Rejected
    else true
  }

  /** `appById[id]` with `appById = Object.fromEntries(apps.map(a => [a.id, a]))`:
      when several applications share an id, the later entry overwrites the
      earlier one, so the last application with that id is found. */
  function FindApp(apps: seq<JobApplication>, id: string): (r: Option<JobApplication>)
    ensures r.Some? ==> exists k :: 0 <= k < |apps| && apps[k] == r.value && apps[k].id == id
                                   && forall j :: k < j < |apps| ==> apps[j].id != id
    ensures r.None? <==> forall k :: 0 <= k < |apps| ==> apps[k].id != id
  {
    var k := LastIndexOf(apps, id);
    if k < 0 then None else Some(apps[k])
  }

  /** The index of the last application with the id, or -1 if there is none. */
  function LastIndexOf(apps: seq<JobApplication>, id: string): (k: int)
    ensures -1 <= k < |apps|
    ensures k >= 0 ==> apps[k].id == id
    ensures forall j :: k < j < |apps| ==> apps[j].id != id
  {
    if |apps| == 0 then -1
    else if apps[|apps| - 1].id == id then |apps| - 1
    else
      var init := apps[..|apps| - 1];
      assert forall j :: 0 <= j < |init| ==> init[j] == apps[j];
      LastIndexOf(init, id)
  }

  /** The status change a successful cross-column drop reports upstream. */
  datatype StatusChange = StatusChange(id: string, status: Status)

  /** The board after a drag ends, and the status change reported, if any. */
  datatype DragResult = DragResult(board: Board, change: Option<StatusChange>)

  /** The column a drop target names: a column id names itself, a card id
      names the first column holding the card. */
  function DropColumn(b: Board, overId: string): (r: Option<Status>)
    ensures IsStatusName(overId) ==> r.Some? && Name(r.value) == overId
    ensures !IsStatusName(overId) ==> (r.Some? <==> exists s :: overId in b.Col(s))
    ensures !IsStatusName(overId) && r.Some? ==> overId in b.Col(r.value)
  {
    if IsStatusName(overId) then StatusOfName(overId) else FindContainer(b, overId)
  }

  /** A drop in the card's own column: with `arrayMove` when released over
      another card of the column, not at all when released over the column
      itself (the target index is then the card's own index). */
  function Reorder(b: Board, col: Status, activeId: string, overId: string): (r: Board)
    requires activeId in b.Col(col)
    ensures forall s :: multiset(r.Col(s)) == multiset(b.Col(s))
    ensures r.Ids() == b.Ids()
  {
    var c := b.Col(col);
    var fromIdx := IndexOf(c, activeId);
    var toIdx := if IsStatusName(overId) then fromIdx else IndexOf(c, overId);
    if toIdx >= 0 && fromIdx != toIdx then
      var moved := ArrayMove(c, fromIdx, toIdx);
      IdsWith(b, col, moved);
      b.With(col, moved)
    else b
  }

  /** A drop in another column: the card leaves `from` and enters `to`,
      before the card it was released over or at the end. On a board
      satisfying the partition invariant no id is gained or lost. */
  function Move(b: Board, from: Status, to: Status, activeId: string, overId: string): (r: Board)
    requires from != to
    ensures r.Col(from) == Filter(b.Col(from), NotEq(activeId))
    ensures multiset(r.Col(to)) == multiset(b.Col(to)) + multiset{activeId}
    ensures forall s :: s != from && s != to ==> r.Col(s) == b.Col(s)
  {
    var fromList := Filter(b.Col(from), NotEq(activeId));
    var target := b.Col(to);
    var insertIndex := if IsStatusName(overId) then |target| else IndexOf(target, overId);
    var toList := if insertIndex >= 0 then InsertAt(target, insertIndex, activeId)
                  else target + [activeId];
    b.With(from, fromList).With(to, toList)
  }

  /** `handleDragEnd`. `over` is the id of the element the card was released
      over (a column id or a card id), or None when it was released elsewhere.
      A rejected drop leaves the board as it was and reports nothing. A drop in
      the card's own column reorders that column with `arrayMove`. A drop in
      another column moves the card there, in front of the card it was dropped
      on or at the end when dropped on the column itself, and reports the new
      status. */
  function DragEnd(b: Board, apps: seq<JobApplication>, activeId: string, over: Option<string>): (r: DragResult)
    ensures r.change.Some? ==> r.change.value.id == activeId && activeId in r.board.Col(r.change.value.status)
    ensures r.change.None? ==> forall s :: multiset(r.board.Col(s)) == multiset(b.Col(s))
  {
    if over.None? then DragResult(b, None)
    else
      var overId := over.value;
      match FindContainer(b, activeId)
      case None => DragResult(b, None)
      case Some(from) =>
        match DropColumn(b, overId)
        case None => DragResult(b, None)
        case Some(to) =>
          match FindApp(apps, activeId)
          case None => DragResult(b, None)
          case Some(app) =>
            if !CanDropTo(app, to) then DragResult(b, None)
            else if from == to then DragResult(Reorder(b, from, activeId, overId), None)
            else DragResult(Move(b, from, to, activeId, overId), Some(StatusChange(activeId, to)))
  }

  /** A reported status change always comes from an eligible drop: the card
      is on the board, its application is known and may go to the new
      column, and the column differs from the one it left. */
  lemma {:induction false} DragEndChangeEligible(b: Board, apps: seq<JobApplication>, activeId: string, over: Option<string>)
    requires DragEnd(b, apps, activeId, over).change.Some?
    ensures var to := DragEnd(b, apps, activeId, over).change.value.status;
            && over.Some? && FindContainer(b, activeId).Some? && FindContainer(b, activeId).value != to
            && DropColumn(b, over.value) == Some(to)
            && FindApp(apps, activeId).Some? && CanDropTo(FindApp(apps, activeId).value, to)
  {
  }

  /** The offer rule in full: an offer-like application may go only to the
      offer, accepted and rejected columns; any other application anywhere. */
  lemma {:induction false} CanDropToRule(app: JobApplication, to: Status)
    ensures CanDropTo(app, to) <==> !IsOfferApp(app) || to in {Offer, Accepted, Rejected}
    ensures IsOfferApp(app) <==> app.status == Offer || exists f :: f in app.offerDetails.Fields() && f != ""
  {
    var o := app.offerDetails;
    if o.salary != "" { assert o.salary in o.Fields(); }
    if o.equity != "" { assert o.equity in o.Fields(); }
    if o.bonus != "" { assert o.bonus in o.Fields(); }
    if o.location != "" { assert o.location in o.Fields(); }
    if o.startDate != "" { assert o.startDate in o.Fields(); }
    if o.deadline != "" { assert o.deadline in o.Fields(); }
  }

  /** With distinct ids the lookup finds the one application carrying the id. */
  lemma {:induction false} FindAppUnique(apps: seq<JobApplication>, i: nat)
    requires UniqueIds(apps) && i < |apps|
    ensures FindApp(apps, apps[i].id) == Some(apps[i])
  {
    var r := FindApp(apps, apps[i].id);
    var k :| 0 <= k < |apps| && apps[k] == r.value && apps[k].id == apps[i].id
             && forall j :: k < j < |apps| ==> apps[j].id != apps[i].id;
    assert k == i;
  }

  /** Dropping on a column resolves to that column. */
  lemma {:induction false} DropOnColumn(b: Board, to: Status)
    ensures DropColumn(b, Name(to)) == Some(to)
  {
    NameRoundTrip(to);
  }

  /** Under the partition invariant, dropping on a card resolves to the one
      column holding the card. */
  lemma {:induction false} DropOnCard(b: Board, overId: string, to: Status)
    requires b.Partitioned() && !IsStatusName(overId) && overId in b.Col(to)
    ensures DropColumn(b, overId) == Some(to)
  {
    FindContainerExact(b, overId, to);
  }

  /** A drag that ends outside every drop target, or whose card is on no
      column, or whose target names no column, or whose card has no
      application, changes nothing and reports nothing. */
  lemma {:induction false} DragEndIgnored(b: Board, apps: seq<JobApplication>, activeId: string, over: Option<string>)
    requires || over.None?
             || (forall s :: activeId !in b.Col(s))
             || (over.Some? && !IsStatusName(over.value) && forall s :: over.value !in b.Col(s))
             || (forall k :: 0 <= k < |apps| ==> apps[k].id != activeId)
    ensures DragEnd(b, apps, activeId, over) == DragResult(b, None)
  {
  }

  /** A drop the offer rule forbids changes nothing and reports nothing. */
  lemma {:induction false} DragEndIneligible(b: Board, apps: seq<JobApplication>, i: nat, over: string, to: Status)
    requires b.Partitioned() && UniqueIds(apps) && i < |apps|
    requires over == Name(to) || (!IsStatusName(over) && over in b.Col(to))
    requires !CanDropTo(apps[i], to)
    ensures DragEnd(b, apps, apps[i].id, Some(over)) == DragResult(b, None)
  {
    FindAppUnique(apps, i);
    if over == Name(to) {
      DropOnColumn(b, to);
    } else {
      DropOnCard(b, over, to);
    }
  }

  /** An offer-like card dropped on the applied or interviewing column, or on
      a card in one of them, stays where it was. */
  lemma {:induction false} OfferNeverMovesBack(b: Board, apps: seq<JobApplication>, i: nat, over: string, to: Status)
    requires b.Partitioned() && UniqueIds(apps) && i < |apps|
    requires IsOfferApp(apps[i]) && (to == Applied || to == Interviewing)
    requires over == Name(to) || (!IsStatusName(over) && over in b.Col(to))
    ensures DragEnd(b, apps, apps[i].id, Some(over)) == DragResult(b, None)
  {
    DragEndIneligible(b, apps, i, over, to);
  }

  /** Dropping a card on its own column's background keeps it where it was:
      `toIdx` is set to `fromIdx`, so `arrayMove` is skipped. */
  lemma {:induction false} DragEndOwnColumnBackground(b: Board, apps: seq<JobApplication>, activeId: string, from: Status)
    requires b.Partitioned() && activeId in b.Col(from)
    ensures DragEnd(b, apps, activeId, Some(Name(from))) == DragResult(b, None)
  {
    FindContainerExact(b, activeId, from);
    DropOnColumn(b, from);
  }

  /** Dropping a card on a card of its own column moves it to that card's
      position with `arrayMove`; the other columns stay and nothing is
      reported. */
  lemma {:induction false} DragEndReorder(b: Board, apps: seq<JobApplication>, i: nat, overId: string, col: Status)
    requires b.Partitioned() && UniqueIds(apps) && i < |apps|
    requires apps[i].id in b.Col(col) && overId in b.Col(col) && !IsStatusName(overId)
    requires CanDropTo(apps[i], col)
    ensures var r := DragEnd(b, apps, apps[i].id, Some(overId));
            var c := b.Col(col);
            && r.change.None?
            && r.board.Col(col) == ArrayMove(c, IndexOf(c, apps[i].id), IndexOf(c, overId))
            && forall s :: s != col ==> r.board.Col(s) == b.Col(s)
  {
    var id := apps[i].id;
    FindAppUnique(apps, i);
    FindContainerExact(b, id, col);
    DropOnCard(b, overId, col);
    assert DragEnd(b, apps, id, Some(overId)) == DragResult(Reorder(b, col, id, overId), None);
    ReorderShape(b, col, id, overId);
  }

  /** The columns `Reorder` produces for a drop on a card of the column. */
  lemma {:induction false} ReorderShape(b: Board, col: Status, id: string, overId: string)
    requires id in b.Col(col) && overId in b.Col(col) && !IsStatusName(overId)
    ensures var r, c := Reorder(b, col, id, overId), b.Col(col);
            && r.Col(col) == ArrayMove(c, IndexOf(c, id), IndexOf(c, overId))
            && forall s :: s != col ==> r.Col(s) == b.Col(s)
  {
    var c := b.Col(col);
    ArrayMoveStays(c, IndexOf(c, id));
  }

  /** Dropping a card on its lower neighbour swaps the two. */
  lemma {:induction false} DragEndSwapsNeighbours(b: Board, apps: seq<JobApplication>, i: nat, col: Status, k: nat)
    requires b.Partitioned() && UniqueIds(apps) && i < |apps|
    requires k + 1 < |b.Col(col)| && b.Col(col)[k] == apps[i].id
    requires !IsStatusName(b.Col(col)[k + 1]) && CanDropTo(apps[i], col)
    ensures var c := b.Col(col);
            var r := DragEnd(b, apps, apps[i].id, Some(c[k + 1]));
            r.change.None? && r.board.Col(col) == c[..k] + [c[k + 1], c[k]] + c[k + 2..]
  {
    var c := b.Col(col);
    DragEndReorder(b, apps, i, c[k + 1], col);
    PartitionedUnique(b, c[k], col, col);
    PartitionedUnique(b, c[k + 1], col, col);
    FirstIndexOfSingle(c, k);
    FirstIndexOfSingle(c, k + 1);
    ArrayMoveNeighbours(c, k);
  }

  /** An element occurring once is found at its position. */
  lemma {:induction false} FirstIndexOfSingle(s: seq<string>, k: nat)
    requires k < |s| && multiset(s)[s[k]] == 1
    ensures IndexOf(s, s[k]) == k
  {
    assert s == s[..k] + [s[k]] + s[k + 1..];
    assert s[k] !in s[..k] && s[k] !in s[k + 1..];
    assert forall t :: 0 <= t < k ==> s[..k][t] == s[t];
    assert forall t :: k < t < |s| ==> s[k + 1..][t - k - 1] == s[t];
  }

  /** Moving a card to another column takes it out of its old column,
      inserts it in front of the card it was dropped on, or appends it when
      dropped on the column itself, leaves the other three columns alone,
      and reports exactly the card and its new status. */
  lemma {:induction false} DragEndMove(b: Board, apps: seq<JobApplication>, i: nat, over: string, from: Status, to: Status)
    requires b.Partitioned() && UniqueIds(apps) && i < |apps|
    requires apps[i].id in b.Col(from) && from != to
    requires over == Name(to) || (!IsStatusName(over) && over in b.Col(to))
    requires CanDropTo(apps[i], to)
    ensures var r := DragEnd(b, apps, apps[i].id, Some(over));
            var src, dst := b.Col(from), b.Col(to);
            && r.change == Some(StatusChange(apps[i].id, to))
            && r.board.Col(from) == RemoveAt(src, IndexOf(src, apps[i].id))
            && (over == Name(to) ==> r.board.Col(to) == dst + [apps[i].id])
            && (over != Name(to) ==> r.board.Col(to) == InsertAt(dst, IndexOf(dst, over), apps[i].id))
            && forall s :: s != from && s != to ==> r.board.Col(s) == b.Col(s)
  {
    DragEndIsMove(b, apps, i, over, from, to);
    PartitionedUnique(b, apps[i].id, from, from);
    MoveShape(b, from, to, apps[i].id, over);
  }

  /** Under the conditions of `DragEndMove` the drop takes the cross-column branch. */
  lemma {:induction false} DragEndIsMove(b: Board, apps: seq<JobApplication>, i: nat, over: string, from: Status, to: Status)
    requires b.Partitioned() && UniqueIds(apps) && i < |apps|
    requires apps[i].id in b.Col(from) && from != to
    requires over == Name(to) || (!IsStatusName(over) && over in b.Col(to))
    requires CanDropTo(apps[i], to)
    ensures DragEnd(b, apps, apps[i].id, Some(over))
            == DragResult(Move(b, from, to, apps[i].id, over), Some(StatusChange(apps[i].id, to)))
  {
    FindAppUnique(apps, i);
    FindContainerExact(b, apps[i].id, from);
    if over == Name(to) {
      DropOnColumn(b, to);
    } else {
      DropOnCard(b, over, to);
    }
  }

  /** The columns `Move` produces, position by position. */
  lemma {:induction false} MoveShape(b: Board, from: Status, to: Status, id: string, over: string)
    requires from != to && multiset(b.Col(from))[id] == 1
    requires over == Name(to) || (!IsStatusName(over) && over in b.Col(to))
    ensures var r := Move(b, from, to, id, over);
            var src, dst := b.Col(from), b.Col(to);
            && r.Col(from) == RemoveAt(src, IndexOf(src, id))
            && (over == Name(to) ==> r.Col(to) == dst + [id])
            && (over != Name(to) ==> r.Col(to) == InsertAt(dst, IndexOf(dst, over), id))
  {
    RemoveSingle(b.Col(from), id);
    MoveShapeTo(b, from, to, id, over);
  }

  /** The target column `Move` produces. */
  lemma {:induction false} MoveShapeTo(b: Board, from: Status, to: Status, id: string, over: string)
    requires from != to
    requires over == Name(to) || (!IsStatusName(over) && over in b.Col(to))
    ensures var r := Move(b, from, to, id, over);
            && (over == Name(to) ==> r.Col(to) == b.Col(to) + [id])
            && (over != Name(to) ==> r.Col(to) == InsertAt(b.Col(to), IndexOf(b.Col(to), over), id))
  {
    if over == Name(to) {
      NameRoundTrip(to);
      assert IsStatusName(over);
    } else {
      assert IndexOf(b.Col(to), over) >= 0;
    }
  }

  /** A card that is not offer-like can be dropped on any other column, and
      the new column is reported. */
  lemma {:induction false} NonOfferGoesAnywhere(b: Board, apps: seq<JobApplication>, i: nat, from: Status, to: Status)
    requires b.Partitioned() && UniqueIds(apps) && i < |apps|
    requires !IsOfferApp(apps[i]) && apps[i].id in b.Col(from) && from != to
    ensures DragEnd(b, apps, apps[i].id, Some(Name(to))).change == Some(StatusChange(apps[i].id, to))
  {
    DragEndMove(b, apps, i, Name(to), from, to);
  }

  /** A drag never adds, loses or duplicates a card: on a board satisfying
      the partition invariant the ids on the board are the same afterwards,
      so the invariant holds again. */
  lemma {:induction false} DragEndKeepsIds(b: Board, apps: seq<JobApplication>, activeId: string, over: Option<string>)
    requires b.Partitioned()
    ensures DragEnd(b, apps, activeId, over).board.Ids() == b.Ids()
    ensures DragEnd(b, apps, activeId, over).board.Partitioned()
  {
    var r := DragEnd(b, apps, activeId, over);
    if r.change.Some? {
      var from := FindContainer(b, activeId).value;
      MoveKeepsIds(b, from, r.change.value.status, activeId, over.value);
    }
  }

  /** On a board satisfying the partition invariant, moving a card between
      columns neither gains nor loses an id. */
  lemma {:induction false} MoveKeepsIds(b: Board, from: Status, to: Status, id: string, overId: string)
    requires from != to && b.Partitioned() && id in b.Col(from)
    ensures Move(b, from, to, id, overId).Ids() == b.Ids()
  {
    var r := Move(b, from, to, id, overId);
    var fromList := Filter(b.Col(from), NotEq(id));
    assert r == b.With(from, fromList).With(to, r.Col(to));
    TransferKeepsIds(b, from, to, id, fromList, r.Col(to));
  }

  /** Taking every occurrence of a card out of one column and adding it once
      to another keeps the board's ids, when the card was there once. */
  lemma {:induction false} TransferKeepsIds(b: Board, from: Status, to: Status, id: string, fromList: seq<string>, toList: seq<string>)
    requires from != to && b.Partitioned() && id in b.Col(from)
    requires fromList == Filter(b.Col(from), NotEq(id))
    requires multiset(toList) == multiset(b.Col(to)) + multiset{id}
    ensures b.With(from, fromList).With(to, toList).Ids() == b.Ids()
  {
    var b1 := b.With(from, fromList);
    var r := b1.With(to, toList);
    IdsWith(b, from, fromList);
    IdsWith(b1, to, toList);
    PartitionedUnique(b, id, from, from);
    RemoveAllMultiset(b.Col(from), id);
    Exchange(b.Ids(), b1.Ids(), r.Ids(), multiset(b.Col(from)), multiset(fromList),
             multiset(b1.Col(to)), multiset(toList), id);
  }

  /** Taking `id` out of one part of a total and adding it to another part
      leaves the total unchanged. */
  lemma {:induction false} Exchange(total: multiset<string>, mid: multiset<string>, after: multiset<string>,
                 src: multiset<string>, src': multiset<string>,
                 dst: multiset<string>, dst': multiset<string>, id: string)
    requires mid + src == total + src'
    requires after + dst == mid + dst'
    requires src'[id := 0] == src' && src == src'[id := src[id]] && src[id] == 1
    requires dst' == dst + multiset{id}
    ensures after == total
  {
    forall x ensures after[x] == total[x] {
      assert (after + dst)[x] == (mid + dst')[x];
      assert (mid + src)[x] == (total + src')[x];
    }
  }
}
