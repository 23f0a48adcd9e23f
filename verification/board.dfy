/** The kanban board state: five ordered columns of application ids, one per
    status, and the lookup from an id to the column holding it. */
module Board {
  import opened Wrappers
  import opened Records

  /** `BoardState`: one ordered id sequence per status. Being a record with a
      field per status, every status has a column. */
  datatype Board = Board(
    applied: seq<string>,
    interviewing: seq<string>,
    offer: seq<string>,
    rejected: seq<string>,
    accepted: seq<string>)
  {
    /** `board[s]`. */
    function Col(s: Status): seq<string> {
      match s
      case Applied => applied
      case Interviewing => interviewing
      case Offer => offer
      case Rejected => rejected
      case Accepted => accepted
    }

    /** `{ ...board, [s]: col }`: column `s` replaced, the other four kept. */
    function With(s: Status, col: seq<string>): (r: Board)
      ensures r.Col(s) == col
      ensures forall t :: t != s ==> r.Col(t) == Col(t)
    {
      match s
      case Applied => this.(applied := col)
      case Interviewing => this.(interviewing := col)
      case Offer => this.(offer := col)
      case Rejected => this.(rejected := col)
      case Accepted => this.(accepted := col)
    }

    /** Every id on the board, counted with multiplicity. */
    function Ids(): multiset<string> {
      multiset(applied) + multiset(interviewing) + multiset(offer)
        + multiset(rejected) + multiset(accepted)
    }

    /** The partition invariant: no id is on the board twice, neither in two
        columns nor twice in one column. */
    predicate Partitioned() {
      forall id :: id in Ids() ==> Ids()[id] == 1
    }
  }

  /** `{ applied: [], interviewing: [], offer: [], rejected: [], accepted: [] }`. */
  const Empty := Board([], [], [], [], [])

  /** How many times `id` occurs on the board is the sum over the columns. */
  lemma {:induction false} IdsCount(b: Board, id: string)
    ensures b.Ids()[id] == multiset(b.Col(Applied))[id] + multiset(b.Col(Interviewing))[id]
                           + multiset(b.Col(Offer))[id] + multiset(b.Col(Rejected))[id]
                           + multiset(b.Col(Accepted))[id]
  {
  }

  /** Under the partition invariant an id on the board sits in exactly one
      column, and only once in it. */
  lemma {:induction false} PartitionedUnique(b: Board, id: string, s: Status, t: Status)
    requires b.Partitioned()
    requires id in b.Col(s) && id in b.Col(t)
    ensures s == t
    ensures multiset(b.Col(s))[id] == 1
  {
    assert b.Ids()[id] <= 1;
    IdsCount(b, id);
  }

  /** The position of a status in `StatusOrder`. */
  function Rank(s: Status): (k: nat)
    ensures k < |StatusOrder| && StatusOrder[k] == s
  {
    match s
    case Applied => 0
    case Interviewing => 1
    case Offer => 2
    case Rejected => 3
    case Accepted => 4
  }

  /** `order.find(col => board[col].includes(id))`. */
  function FindIn(b: Board, order: seq<Status>, id: string): (r: Option<Status>)
    ensures r.Some? ==> exists k :: 0 <= k < |order| && order[k] == r.value
                                   && id in b.Col(r.value)
                                   && forall j :: 0 <= j < k ==> id !in b.Col(order[j])
    ensures r.None? <==> forall k :: 0 <= k < |order| ==> id !in b.Col(order[k])
  {
    if |order| == 0 then None
    else if id in b.Col(order[0]) then Some(order[0])
    else
      var r := FindIn(b, order[1..], id);
      assert r.Some? ==> exists k :: 1 <= k < |order| && order[k] == r.value
                                     && forall j :: 1 <= j < k ==> id !in b.Col(order[j]);
      r
  }

  lemma {:induction false} FindInCovers(b: Board, id: string)
    ensures FindIn(b, StatusOrder, id).None? <==> forall s :: id !in b.Col(s)
  {
    var r := FindIn(b, StatusOrder, id);
    if r.None? {
      forall s ensures id !in b.Col(s) {
        assert StatusOrder[Rank(s)] == s;
      }
    } else {
      assert id in b.Col(r.value);
    }
  }

  /** `findContainerByItem`: the first column in board order that holds `id`. */
  function FindContainer(b: Board, id: string): (r: Option<Status>)
    ensures r.Some? ==> id in b.Col(r.value)
                        && forall t :: Rank(t) < Rank(r.value) ==> id !in b.Col(t)
    ensures r.None? <==> forall s :: id !in b.Col(s)
  {
    FindInCovers(b, id);
    FindIn(b, StatusOrder, id)
  }

  /** Under the partition invariant the first column holding `id` is the
      only one: lookup and membership agree in both directions. */
  lemma {:induction false} FindContainerExact(b: Board, id: string, s: Status)
    requires b.Partitioned()
    ensures FindContainer(b, id) == Some(s) <==> id in b.Col(s)
  {
    var r := FindContainer(b, id);
    if id in b.Col(s) {
      PartitionedUnique(b, id, s, r.value);
    }
  }

  /** Replacing one column trades that column's ids for the new column's. */
  lemma {:induction false} IdsWith(b: Board, s: Status, col: seq<string>)
    ensures b.With(s, col).Ids() + multiset(b.Col(s)) == b.Ids() + multiset(col)
  {
    match s
    case Applied =>
    case Interviewing =>
    case Offer =>
    case Rejected =>
    case Accepted =>
  }
}
