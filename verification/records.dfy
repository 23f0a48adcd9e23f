/** The records the tracker keeps: applications with their nested interviews
    and offer details, and the closed set of statuses an application moves
    through. */
module Records {
  import opened Wrappers

  /** The five statuses; a closed variant, so every map over statuses is complete. */
  datatype Status = Applied | Interviewing | Offer | Rejected | Accepted

  /** The string each status is stored and compared as. */
  function Name(s: Status): string {
    match s
    case Applied => "applied"
    case Interviewing => "interviewing"
    case Offer => "offer"
    case Rejected => "rejected"
    case Accepted => "accepted"
  }

  /** The column order of the board. */
  const StatusOrder: seq<Status> := [Applied, Interviewing, Offer, Rejected, Accepted]

  /** `STATUS_ORDER.find(s => s === name)`: the status spelled `name`, if any. */
  function StatusOfName(name: string): (r: Option<Status>)
    ensures r.Some? ==> Name(r.value) == name
    ensures r.None? <==> forall s :: Name(s) != name
  {
    if name == "applied" then Some(Applied)
    else if name == "interviewing" then Some(Interviewing)
    else if name == "offer" then Some(Offer)
    else if name == "rejected" then Some(Rejected)
    else if name == "accepted" then Some(Accepted)
    else None
  }

  /** True when `name` is one of the five status strings. */
  predicate IsStatusName(name: string) {
    StatusOfName(name).Some?
  }

  /** A status is recovered from its name, so distinct statuses have distinct names. */
  lemma {:induction false} NameRoundTrip(s: Status)
    ensures StatusOfName(Name(s)) == Some(s)
  {
  }

  /** One scheduled interview; `kind` is the interview's `type`, a reserved word in Dafny. */
  datatype Interview = Interview(id: string, kind: string, date: string, time: string, notes: string)

  /** Offer details: six free-text fields, each possibly empty. */
  datatype OfferDetails = OfferDetails(
    salary: string, equity: string, bonus: string,
    location: string, startDate: string, deadline: string)
  {
    /** The six fields in declaration order. */
    function Fields(): seq<string> {
      [salary, equity, bonus, location, startDate, deadline]
    }
  }

  const NoOffer := OfferDetails("", "", "", "", "", "")

  datatype JobApplication = JobApplication(
    id: string,
    company: string,
    role: string,
    status: Status,
    dateApplied: string,
    jobUrl: string,
    notes: string,
    interviews: seq<Interview>,
    offerDetails: OfferDetails,
    lastFollowUp: Option<string>)

  /** The form's working copy of an application: every field but the id. */
  datatype Draft = Draft(
    company: string,
    role: string,
    status: Status,
    dateApplied: string,
    jobUrl: string,
    notes: string,
    interviews: seq<Interview>,
    offerDetails: OfferDetails,
    lastFollowUp: Option<string>)
  {
    /** `{ ...draft, id }`. */
    function WithId(id: string): (a: JobApplication)
      ensures a.id == id && a.company == company && a.role == role && a.status == status
      ensures a.dateApplied == dateApplied && a.jobUrl == jobUrl && a.notes == notes
      ensures a.interviews == interviews && a.offerDetails == offerDetails
      ensures a.lastFollowUp == lastFollowUp
    {
      JobApplication(id, company, role, status, dateApplied, jobUrl, notes,
                     interviews, offerDetails, lastFollowUp)
    }
  }

  /** Every field of an application but its id, as the edit form holds it. */
  function DraftOf(a: JobApplication): (d: Draft)
    ensures d.WithId(a.id) == a
  {
    Draft(a.company, a.role, a.status, a.dateApplied, a.jobUrl, a.notes,
          a.interviews, a.offerDetails, a.lastFollowUp)
  }

  /** The ids of a list of applications, in order. */
  function IdsOf(apps: seq<JobApplication>): (ids: seq<string>)
    ensures |ids| == |apps|
    ensures forall i :: 0 <= i < |apps| ==> ids[i] == apps[i].id
  {
    if |apps| == 0 then [] else [apps[0].id] + IdsOf(apps[1..])
  }

  /** No two applications share an id (ids come from a millisecond clock). */
  predicate UniqueIds(apps: seq<JobApplication>) {
    forall i, j :: 0 <= i < j < |apps| ==> apps[i].id != apps[j].id
  }

  function HasStatus(s: Status): JobApplication -> bool {
    (a: JobApplication) => a.status == s
  }

  function HasDate(d: string): JobApplication -> bool {
    (a: JobApplication) => a.dateApplied == d
  }

  function IdIsNot(id: string): JobApplication -> bool {
    (a: JobApplication) => a.id != id
  }
}
