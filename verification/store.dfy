/** The record store of the tracker page: the list of applications and the
    operations the page performs on it (add, update by id, delete by id, the
    status change reported by the board), the company autocomplete list, the
    grouping by status behind the statistics, and the follow-up reminder. */
module Store {
  import opened Wrappers
  import opened Seqs
  import opened Records

  // ---------------------------------------------------------------------
  // Follow-up reminder
  // ---------------------------------------------------------------------

  /** The default reminder interval, in days. */
  const DefaultFollowUpDays := 14

  /** `lastFollowUp || dateApplied`: the date a reminder is measured from. An
      empty follow-up date is falsy and falls back like a missing one. */
  function FollowUpAnchor(app: JobApplication): string {
    match app.lastFollowUp
    case Some(d) => if d != "" then d else app.dateApplied
    case None => app.dateApplied
  }

  /** `needsFollowUp`. The clock is a parameter: `daysSince(d)` is the number of
      whole days elapsed since date `d`. Closed applications never need one. */
  predicate NeedsFollowUp(app: JobApplication, days: int, daysSince: string -> int) {
    if app.status == Rejected || app.status == Accepted then false
    else daysSince(FollowUpAnchor(app)) >= days
  }

  /** The reminder rule spelled out case by case: never for a rejected or
      accepted application; otherwise measured from the last follow-up when
      there is a non-empty one, else from the application date. */
  lemma {:induction false} FollowUpRule(app: JobApplication, days: int, daysSince: string -> int)
    ensures app.status == Rejected || app.status == Accepted ==> !NeedsFollowUp(app, days, daysSince)
    ensures app.status in {Applied, Interviewing, Offer} && app.lastFollowUp.Some? && app.lastFollowUp.value != "" ==>
              (NeedsFollowUp(app, days, daysSince) <==> daysSince(app.lastFollowUp.value) >= days)
    ensures app.status in {Applied, Interviewing, Offer} && (app.lastFollowUp.None? || app.lastFollowUp.value == "") ==>
              (NeedsFollowUp(app, days, daysSince) <==> daysSince(app.dateApplied) >= days)
  {
  }

  /** A shorter interval flags at least the applications a longer one flags. */
  lemma {:induction false} FollowUpMonotone(app: JobApplication, shorter: int, longer: int, daysSince: string -> int)
    requires shorter <= longer && NeedsFollowUp(app, longer, daysSince)
    ensures NeedsFollowUp(app, shorter, daysSince)
  {
  }

  /** The predicate `app => needsFollowUp(app, days)` used to count reminders. */
  function FollowUpDue(days: int, daysSince: string -> int): JobApplication -> bool {
    (a: JobApplication) => NeedsFollowUp(a, days, daysSince)
  }

  // ---------------------------------------------------------------------
  // Add, update, delete, status change
  // ---------------------------------------------------------------------

  /** `addApplication`: the draft, given the fresh id (a clock reading in the
      page), is appended after every existing record. */
  function AddApplication(apps: seq<JobApplication>, draft: Draft, freshId: string): (r: seq<JobApplication>)
    ensures |r| == |apps| + 1
    ensures r[..|apps|] == apps
    ensures r[|apps|].id == freshId && r[|apps|] == draft.WithId(freshId)
  {
    apps + [draft.WithId(freshId)]
  }

  /** `{ ...newApplication, id: editingId }` for the record being edited, every
      other record as it was. */
  function ReplaceById(apps: seq<JobApplication>, id: string, draft: Draft): (r: seq<JobApplication>)
    ensures |r| == |apps|
    ensures forall i :: 0 <= i < |apps| && apps[i].id == id ==> r[i] == draft.WithId(id)
    ensures forall i :: 0 <= i < |apps| && apps[i].id != id ==> r[i] == apps[i]
  {
    if |apps| == 0 then []
    else [if apps[0].id == id then draft.WithId(id) else apps[0]] + ReplaceById(apps[1..], id, draft)
  }

  /** `updateApplication`. `editingId` is None when no record is being edited;
      the empty id is falsy and is ignored the same way. */
  function UpdateApplication(apps: seq<JobApplication>, editingId: Option<string>, draft: Draft): (r: seq<JobApplication>)
    ensures |r| == |apps|
    ensures editingId.None? || editingId.value == "" ==> r == apps
    ensures IdsOf(r) == IdsOf(apps)
  {
    match editingId
    case None => apps
    case Some(id) => if id == "" then apps else ReplaceById(apps, id, draft)
  }

  /** An update with an edit session open replaces exactly the records
      carrying that id, keeps their id, and leaves every other record alone. */
  lemma {:induction false} UpdateOnlyMatching(apps: seq<JobApplication>, id: string, draft: Draft, i: nat)
    requires id != "" && i < |apps|
    ensures var r := UpdateApplication(apps, Some(id), draft);
            && (apps[i].id == id ==> r[i].id == id && r[i] == draft.WithId(id))
            && (apps[i].id != id ==> r[i] == apps[i])
  {
  }

  /** Since no id changes, an update keeps ids unique. */
  lemma {:induction false} UpdateKeepsUniqueIds(apps: seq<JobApplication>, editingId: Option<string>, draft: Draft)
    requires UniqueIds(apps)
    ensures UniqueIds(UpdateApplication(apps, editingId, draft))
  {
    var r := UpdateApplication(apps, editingId, draft);
    forall i, j | 0 <= i < j < |r| ensures r[i].id != r[j].id {
      assert IdsOf(r)[i] == IdsOf(apps)[i] && IdsOf(r)[j] == IdsOf(apps)[j];
    }
  }

  /** `deleteApplication`: every record with the id goes, the rest stay in
      their original order. */
  function DeleteApplication(apps: seq<JobApplication>, id: string): (r: seq<JobApplication>)
    ensures |r| <= |apps|
  {
    Filter(apps, IdIsNot(id))
  }

  /** What deletion keeps: exactly the records with another id. */
  lemma {:induction false} DeleteMembers(apps: seq<JobApplication>, id: string)
    ensures forall a :: a in DeleteApplication(apps, id) <==> a in apps && a.id != id
  {
    FilterMembers(apps, IdIsNot(id));
    forall a | a in apps && a.id != id ensures a in DeleteApplication(apps, id) {
      var i :| 0 <= i < |apps| && apps[i] == a;
    }
    forall a | a in DeleteApplication(apps, id) ensures a in apps && a.id != id {
      var r := DeleteApplication(apps, id);
      var i :| 0 <= i < |r| && r[i] == a;
    }
  }

  /** Deletion preserves relative order: it works piecewise on any split of the list. */
  lemma {:induction false} DeleteKeepsOrder(a: seq<JobApplication>, b: seq<JobApplication>, id: string)
    ensures DeleteApplication(a + b, id) == DeleteApplication(a, id) + DeleteApplication(b, id)
  {
    FilterConcat(a, b, IdIsNot(id));
  }

  /** Deleting twice is deleting once. */
  lemma {:induction false} DeleteIdempotent(apps: seq<JobApplication>, id: string)
    ensures DeleteApplication(DeleteApplication(apps, id), id) == DeleteApplication(apps, id)
  {
    var r := DeleteApplication(apps, id);
    FilterMembers(apps, IdIsNot(id));
    FilterKeepsAll(r, IdIsNot(id));
  }

  /** Deleting an id nobody has changes nothing. */
  lemma {:induction false} DeleteAbsent(apps: seq<JobApplication>, id: string)
    requires id !in IdsOf(apps)
    ensures DeleteApplication(apps, id) == apps
  {
    forall i | 0 <= i < |apps| ensures IdIsNot(id)(apps[i]) {
      assert IdsOf(apps)[i] == apps[i].id;
    }
    FilterKeepsAll(apps, IdIsNot(id));
  }

  /** Deleting the record just added under a fresh id gives back the list. */
  lemma {:induction false} AddThenDelete(apps: seq<JobApplication>, draft: Draft, freshId: string)
    requires freshId !in IdsOf(apps)
    ensures DeleteApplication(AddApplication(apps, draft, freshId), freshId) == apps
  {
    DeleteKeepsOrder(apps, [draft.WithId(freshId)], freshId);
    DeleteAbsent(apps, freshId);
    FilterSingleton(draft.WithId(freshId), IdIsNot(freshId));
  }

  /** The `onStatusChange` callback: the record with the id gets the new
      status and nothing else about it or any other record changes. */
  function SetStatus(apps: seq<JobApplication>, id: string, s: Status): (r: seq<JobApplication>)
    ensures |r| == |apps|
    ensures forall i :: 0 <= i < |apps| && apps[i].id == id ==> r[i] == apps[i].(status := s)
    ensures forall i :: 0 <= i < |apps| && apps[i].id != id ==> r[i] == apps[i]
  {
    if |apps| == 0 then []
    else [if apps[0].id == id then apps[0].(status := s) else apps[0]] + SetStatus(apps[1..], id, s)
  }

  /** The status change as an edit: it is the update that saves the record's
      own fields with only the status replaced. */
  lemma {:induction false} SetStatusIsUpdate(apps: seq<JobApplication>, i: nat, s: Status)
    requires UniqueIds(apps) && i < |apps| && apps[i].id != ""
    ensures var a := apps[i];
            SetStatus(apps, a.id, s) == UpdateApplication(apps, Some(a.id), DraftOf(a).(status := s))
  {
    var a := apps[i];
    var l := SetStatus(apps, a.id, s);
    var r := UpdateApplication(apps, Some(a.id), DraftOf(a).(status := s));
    forall k | 0 <= k < |apps| ensures l[k] == r[k] {
      if apps[k].id == a.id {
        assert k == i;
      }
    }
  }

  /** Setting a status and then setting back the old one restores the list,
      when the id is unique. */
  lemma {:induction false} SetStatusUndo(apps: seq<JobApplication>, i: nat, s: Status)
    requires UniqueIds(apps) && i < |apps|
    ensures SetStatus(SetStatus(apps, apps[i].id, s), apps[i].id, apps[i].status) == apps
  {
    var id := apps[i].id;
    var r := SetStatus(SetStatus(apps, id, s), id, apps[i].status);
    forall k | 0 <= k < |apps| ensures r[k] == apps[k] {
      if apps[k].id == id {
        assert k == i;
      }
    }
  }

  // ---------------------------------------------------------------------
  // Company autocomplete list
  // ---------------------------------------------------------------------

  /** No string occurs twice. */
  predicate NoDuplicates(xs: seq<string>) {
    forall i, j :: 0 <= i < j < |xs| ==> xs[i] != xs[j]
  }

  /** The company bookkeeping shared by add and update: a non-empty company
      not yet in the list is appended. */
  function RememberCompany(companies: seq<string>, company: string): (r: seq<string>)
    ensures |companies| <= |r| <= |companies| + 1 && r[..|companies|] == companies
  {
    if company != "" && company !in companies then companies + [company] else companies
  }

  /** The list only grows, never holds the empty string it did not hold
      before, never acquires a duplicate, and afterwards contains every
      non-empty company saved. */
  lemma {:induction false} RememberCompanyRule(companies: seq<string>, company: string)
    ensures var r := RememberCompany(companies, company);
            && (forall c :: c in r <==> c in companies || (c == company && c != ""))
            && (NoDuplicates(companies) ==> NoDuplicates(r))
  {
  }

  /** Saving companies one after another, as a sequence of adds and updates does. */
  function RememberAll(companies: seq<string>, saved: seq<string>): seq<string>
    decreases |saved|
  {
    if |saved| == 0 then companies
    else RememberAll(RememberCompany(companies, saved[0]), saved[1..])
  }

  /** From a list without duplicates, the list ends up holding each company
      it held and each non-empty saved company, each exactly once, and
      nothing else. */
  lemma {:induction false} RememberAllRule(companies: seq<string>, saved: seq<string>)
    requires NoDuplicates(companies)
    ensures NoDuplicates(RememberAll(companies, saved))
    ensures forall c :: c in RememberAll(companies, saved) <==> c in companies || (c in saved && c != "")
    decreases |saved|
  {
    if |saved| > 0 {
      var next := RememberCompany(companies, saved[0]);
      RememberCompanyRule(companies, saved[0]);
      RememberAllRule(next, saved[1..]);
      forall c ensures c in saved <==> c == saved[0] || c in saved[1..] {
        assert saved == [saved[0]] + saved[1..];
      }
    }
  }

  // ---------------------------------------------------------------------
  // Grouping and statistics
  // ---------------------------------------------------------------------

  /** `groupedApplications`: the `reduce` that creates a group the first time
      a status is seen and pushes each application onto its status's group.
      Written over the list's last element, matching the left fold. */
  function Group(apps: seq<JobApplication>): (g: map<Status, seq<JobApplication>>)
    decreases |apps|
  {
    if |apps| == 0 then map[]
    else
      var prev := Group(apps[..|apps| - 1]);
      var a := apps[|apps| - 1];
      prev[a.status := (if a.status in prev then prev[a.status] else []) + [a]]
  }

  /** A group exists exactly for the statuses whose filter is non-empty, and
      each group is the applications of that status in input order. */
  lemma {:induction false} GroupIsFilter(apps: seq<JobApplication>)
    ensures forall s :: s in Group(apps) <==> |Filter(apps, HasStatus(s))| > 0
    ensures forall s :: s in Group(apps) ==> Group(apps)[s] == Filter(apps, HasStatus(s))
    decreases |apps|
  {
    if |apps| > 0 {
      var init := apps[..|apps| - 1];
      var a := apps[|apps| - 1];
      GroupIsFilter(init);
      assert apps == init + [a];
      forall s
        ensures Filter(apps, HasStatus(s)) == Filter(init, HasStatus(s)) + Filter([a], HasStatus(s))
        ensures Filter([a], HasStatus(s)) == if a.status == s then [a] else []
      {
        FilterConcat(init, [a], HasStatus(s));
        FilterSingleton(a, HasStatus(s));
      }
    }
  }

  /** The keys of the grouping are the statuses that occur in the list. */
  lemma {:induction false} GroupKeys(apps: seq<JobApplication>, s: Status)
    ensures s in Group(apps) <==> exists i :: 0 <= i < |apps| && apps[i].status == s
  {
    GroupIsFilter(apps);
    FilterMembers(apps, HasStatus(s));
    var f := Filter(apps, HasStatus(s));
    if |f| > 0 {
      var i :| 0 <= i < |apps| && apps[i] == f[0];
    }
    if exists i :: 0 <= i < |apps| && apps[i].status == s {
      var i :| 0 <= i < |apps| && apps[i].status == s;
      assert apps[i] in f;
    }
  }

  /** `groupedApplications[s]?.length || 0`. */
  function GroupCount(g: map<Status, seq<JobApplication>>, s: Status): nat {
    if s in g then |g[s]| else 0
  }

  /** Each group's size is the number of applications with that status. */
  lemma {:induction false} GroupCountIsCount(apps: seq<JobApplication>, s: Status)
    ensures GroupCount(Group(apps), s) == |Filter(apps, HasStatus(s))|
  {
    GroupIsFilter(apps);
  }

  /** The five status counts of a list. */
  function CountsSum(apps: seq<JobApplication>): nat {
    |Filter(apps, HasStatus(Applied))| + |Filter(apps, HasStatus(Interviewing))|
    + |Filter(apps, HasStatus(Offer))| + |Filter(apps, HasStatus(Rejected))|
    + |Filter(apps, HasStatus(Accepted))|
  }

  lemma {:induction false} CountsSumLength(apps: seq<JobApplication>)
    ensures CountsSum(apps) == |apps|
  {
    if |apps| > 0 {
      CountsSumLength(apps[1..]);
    }
  }

  /** Every application sits in exactly one group: the group sizes add up to
      the number of applications. */
  lemma {:induction false} GroupSizesSum(apps: seq<JobApplication>)
    ensures var g := Group(apps);
            GroupCount(g, Applied) + GroupCount(g, Interviewing) + GroupCount(g, Offer)
            + GroupCount(g, Rejected) + GroupCount(g, Accepted) == |apps|
  {
    GroupCountIsCount(apps, Applied);
    GroupCountIsCount(apps, Interviewing);
    GroupCountIsCount(apps, Offer);
    GroupCountIsCount(apps, Rejected);
    GroupCountIsCount(apps, Accepted);
    CountsSumLength(apps);
  }

  /** The dashboard figures. */
  datatype Statistics = Statistics(total: nat, interviewing: nat, rejected: nat, followUps: nat)

  /** The statistics block: total, the interviewing and rejected group sizes,
      and the number of applications due a reminder at the default interval. */
  function Stats(apps: seq<JobApplication>, daysSince: string -> int): (r: Statistics)
    ensures r.interviewing + r.rejected <= r.total == |apps|
    ensures r.followUps <= r.total
  {
    var g := Group(apps);
    GroupSizesSum(apps);
    Statistics(|apps|, GroupCount(g, Interviewing), GroupCount(g, Rejected),
               |Filter(apps, FollowUpDue(DefaultFollowUpDays, daysSince))|)
  }

  /** The counts are counts: of the applications with each status, and of
      those needing a reminder. */
  lemma {:induction false} StatsCount(apps: seq<JobApplication>, daysSince: string -> int)
    ensures Stats(apps, daysSince).interviewing == |Filter(apps, HasStatus(Interviewing))|
    ensures Stats(apps, daysSince).rejected == |Filter(apps, HasStatus(Rejected))|
    ensures Stats(apps, daysSince).followUps == |Filter(apps, FollowUpDue(DefaultFollowUpDays, daysSince))|
    ensures forall a :: a in Filter(apps, FollowUpDue(DefaultFollowUpDays, daysSince)) <==>
                        a in apps && NeedsFollowUp(a, DefaultFollowUpDays, daysSince)
  {
    GroupCountIsCount(apps, Interviewing);
    GroupCountIsCount(apps, Rejected);
    var p := FollowUpDue(DefaultFollowUpDays, daysSince);
    var f := Filter(apps, p);
    FilterMembers(apps, p);
    forall a | a in apps && NeedsFollowUp(a, DefaultFollowUpDays, daysSince) ensures a in f {
      var i :| 0 <= i < |apps| && apps[i] == a;
    }
    forall a | a in f ensures a in apps && NeedsFollowUp(a, DefaultFollowUpDays, daysSince) {
      var i :| 0 <= i < |f| && f[i] == a;
    }
  }
}
