/** The application form: the draft's interview list edits, the role
    templates that fill the interview list and the reverse lookup that
    recognises a template when an application is opened for editing. */
module Form {
  import opened Wrappers
  import opened Seqs
  import opened Strings
  import opened Records
  import opened Store

  // ---------------------------------------------------------------------
  // Interview list edits
  // ---------------------------------------------------------------------

  /** `keyof Interview`: the field an edit writes. */
  datatype Field = IdField | KindField | DateField | TimeField | NotesField

  /** The value of one field. */
  function Get(iv: Interview, f: Field): string {
    match f
    case IdField => iv.id
    case KindField => iv.kind
    case DateField => iv.date
    case TimeField => iv.time
    case NotesField => iv.notes
  }

  /** `{ ...interview, [field]: value }`. */
  function SetField(iv: Interview, f: Field, value: string): (r: Interview)
    ensures Get(r, f) == value
    ensures forall g :: g != f ==> Get(r, g) == Get(iv, g)
  {
    match f
    case IdField => iv.(id := value)
    case KindField => iv.(kind := value)
    case DateField => iv.(date := value)
    case TimeField => iv.(time := value)
    case NotesField => iv.(notes := value)
  }

  /** Writing a field with the value it already holds changes nothing, and a
      second write of the same field overrides the first. */
  lemma {:induction false} SetFieldLaws(iv: Interview, f: Field, v: string, w: string)
    ensures SetField(iv, f, Get(iv, f)) == iv
    ensures SetField(SetField(iv, f, v), f, w) == SetField(iv, f, w)
  {
  }

  /** The interview list with the field written on every interview whose id matches. */
  function UpdateIn(ivs: seq<Interview>, id: string, f: Field, value: string): (r: seq<Interview>)
    ensures |r| == |ivs|
    ensures forall i :: 0 <= i < |ivs| && ivs[i].id == id ==> r[i] == SetField(ivs[i], f, value)
    ensures forall i :: 0 <= i < |ivs| && ivs[i].id != id ==> r[i] == ivs[i]
  {
    if |ivs| == 0 then []
    else [if ivs[0].id == id then SetField(ivs[0], f, value) else ivs[0]] + UpdateIn(ivs[1..], id, f, value)
  }

  /** `updateInterview`: only the draft's interview list changes. */
  function UpdateInterview(d: Draft, id: string, f: Field, value: string): (r: Draft)
    ensures r == d.(interviews := r.interviews)
    ensures |r.interviews| == |d.interviews|
  {
    d.(interviews := UpdateIn(d.interviews, id, f, value))
  }

  /** In the updated list each matching interview holds the new value in the
      edited field and keeps every other field; other interviews are as they
      were, and an id nobody has leaves the list alone. */
  lemma {:induction false} UpdateInterviewRule(d: Draft, id: string, f: Field, value: string, i: nat)
    requires i < |d.interviews|
    ensures var iv, r := d.interviews[i], UpdateInterview(d, id, f, value).interviews[i];
            && (iv.id == id ==> Get(r, f) == value && forall g :: g != f ==> Get(r, g) == Get(iv, g))
            && (iv.id != id ==> r == iv)
  {
  }

  /** An update of an id no interview has is a no-op. */
  lemma {:induction false} UpdateInterviewAbsent(d: Draft, id: string, f: Field, value: string)
    requires forall i :: 0 <= i < |d.interviews| ==> d.interviews[i].id != id
    ensures UpdateInterview(d, id, f, value) == d
  {
    var r := UpdateInterview(d, id, f, value);
    assert r.interviews == d.interviews;
  }

  function InterviewIdIsNot(id: string): Interview -> bool {
    (iv: Interview) => iv.id != id
  }

  /** `deleteInterview`: every interview with the id goes, the rest stay in order. */
  function DeleteInterview(d: Draft, id: string): (r: Draft)
    ensures r == d.(interviews := r.interviews)
    ensures |r.interviews| <= |d.interviews|
  {
    d.(interviews := Filter(d.interviews, InterviewIdIsNot(id)))
  }

  /** Deletion keeps exactly the interviews with another id, and works
      piecewise on a split of the list, so their relative order is kept. */
  lemma {:induction false} DeleteInterviewRule(d: Draft, id: string, a: seq<Interview>, b: seq<Interview>)
    requires d.interviews == a + b
    ensures forall iv :: iv in DeleteInterview(d, id).interviews <==> iv in d.interviews && iv.id != id
    ensures DeleteInterview(d, id).interviews == Filter(a, InterviewIdIsNot(id)) + Filter(b, InterviewIdIsNot(id))
  {
    var p := InterviewIdIsNot(id);
    var s := d.interviews;
    var r := Filter(s, p);
    FilterMembers(s, p);
    forall iv | iv in s && iv.id != id ensures iv in r {
      var i :| 0 <= i < |s| && s[i] == iv;
    }
    forall iv | iv in r ensures iv in s && iv.id != id {
      var i :| 0 <= i < |r| && r[i] == iv;
    }
    FilterConcat(a, b, p);
  }

  /** `addInterview`: a blank interview is appended; its id is built from a
      clock reading, here a parameter. */
  function AddInterview(d: Draft, stamp: string): (r: Draft)
    ensures r == d.(interviews := r.interviews)
    ensures r.interviews == d.interviews + [Interview("interview-" + stamp, "", "", "", "")]
  {
    d.(interviews := d.interviews + [Interview("interview-" + stamp, "", "", "", "")])
  }

  /** Deleting the interview just added, under an id nobody had, gives back the draft. */
  lemma {:induction false} AddThenDeleteInterview(d: Draft, stamp: string)
    requires forall i :: 0 <= i < |d.interviews| ==> d.interviews[i].id != "interview-" + stamp
    ensures DeleteInterview(AddInterview(d, stamp), "interview-" + stamp) == d
  {
    var id := "interview-" + stamp;
    var p := InterviewIdIsNot(id);
    var blank := Interview(id, "", "", "", "");
    FilterConcat(d.interviews, [blank], p);
    FilterKeepsAll(d.interviews, p);
    FilterSingleton(blank, p);
  }

  // ---------------------------------------------------------------------
  // Role templates
  // ---------------------------------------------------------------------

  /** The distinct interview lists of the role templates. */
  const SoftwareTemplate: seq<string> := ["Technical", "System Design", "Behavioral"]
  const ProductTemplate: seq<string> := ["Product Sense", "Behavioral", "Case Study"]
  const DesignerTemplate: seq<string> := ["Portfolio Review", "Design Exercise", "Behavioral"]
  const DataTemplate: seq<string> := ["Technical", "Statistics", "Behavioral"]
  const SalesTemplate: seq<string> := ["Sales Pitch", "Role Play", "Behavioral"]
  const DesignReviewTemplate: seq<string> := ["Technical", "Design Review", "Behavioral"]
  const ProjectReviewTemplate: seq<string> := ["Technical", "Project Review", "Behavioral"]
  const ProcessReviewTemplate: seq<string> := ["Technical", "Process Review", "Behavioral"]

  /** `ROLE_TEMPLATES`, in key order: each role's interview types. */
  const RoleTemplates: seq<(string, seq<string>)> := [
    ("software_engineer", SoftwareTemplate),
    ("product_manager", ProductTemplate),
    ("designer", DesignerTemplate),
    ("data_scientist", DataTemplate),
    ("sales", SalesTemplate),
    ("electrical_engineer", DesignReviewTemplate),
    ("mechanical_engineer", DesignReviewTemplate),
    ("civil_engineer", ProjectReviewTemplate),
    ("chemical_engineer", ProcessReviewTemplate),
    ("aerospace_engineer", DesignReviewTemplate),
    ("biomedical_engineer", DesignReviewTemplate),
    ("industrial_engineer", ProcessReviewTemplate),
    ("environmental_engineer", ProjectReviewTemplate)
  ]

  /** The keys of a template table, in order. */
  function Keys(table: seq<(string, seq<string>)>): (ks: seq<string>)
    ensures |ks| == |table|
    ensures forall i :: 0 <= i < |table| ==> ks[i] == table[i].0
  {
    if |table| == 0 then [] else [table[0].0] + Keys(table[1..])
  }

  /** `ROLE_TEMPLATES[key]`: the types of the first entry with that key. */
  function Lookup(table: seq<(string, seq<string>)>, key: string): (r: Option<seq<string>>)
    ensures r.None? <==> key !in Keys(table)
    ensures r.Some? ==> exists i :: 0 <= i < |table| && table[i] == (key, r.value)
  {
    if |table| == 0 then None
    else if table[0].0 == key then Some(table[0].1)
    else Lookup(table[1..], key)
  }

  /** The `type` of each interview, in order. */
  function Kinds(ivs: seq<Interview>): (ks: seq<string>)
    ensures |ks| == |ivs|
    ensures forall i :: 0 <= i < |ivs| ==> ks[i] == ivs[i].kind
  {
    if |ivs| == 0 then [] else [ivs[0].kind] + Kinds(ivs[1..])
  }

  /** The interviews a template expands to: one per type, in order, with id
      `interview-<index>` and empty date, time and notes. */
  function Expand(types: seq<string>): (r: seq<Interview>)
    ensures |r| == |types|
  {
    seq(|types|, i requires 0 <= i < |types| => Interview("interview-" + NatToString(i), types[i], "", "", ""))
  }

  /** Expanding keeps the types in order, gives the interview at index `i`
      the id `interview-<i>`, so every id is distinct, and leaves date, time
      and notes blank. */
  lemma {:induction false} ExpandRule(types: seq<string>)
    ensures Kinds(Expand(types)) == types
    ensures forall i :: 0 <= i < |types| ==> Expand(types)[i].id == "interview-" + NatToString(i)
    ensures forall i, j :: 0 <= i < j < |types| ==> Expand(types)[i].id != Expand(types)[j].id
    ensures forall i :: 0 <= i < |types| ==> Expand(types)[i].date == Expand(types)[i].time == Expand(types)[i].notes == ""
  {
    var r := Expand(types);
    forall i, j | 0 <= i < j < |types| ensures r[i].id != r[j].id {
      var p := "interview-";
      if r[i].id == r[j].id {
        assert r[i].id[|p|..] == NatToString(i);
        assert r[j].id[|p|..] == NatToString(j);
        NatToStringInjective(i, j);
      }
    }
  }

  /** The form fields `handleRoleSelect` and `startEditing` write: the draft,
      the id being edited and the selected role. */
  datatype EditForm = EditForm(draft: Draft, editingId: Option<string>, selectedRole: string)

  /** `handleRoleSelect`: the role is always recorded; when it has a template
      the draft's interviews are replaced by its expansion, otherwise the
      draft is left alone. */
  function RoleSelect(form: EditForm, key: string): (r: EditForm)
    ensures r.selectedRole == key && r.editingId == form.editingId
    ensures r.draft == form.draft.(interviews := r.draft.interviews)
    ensures key !in Keys(RoleTemplates) ==> r.draft == form.draft
  {
    match Lookup(RoleTemplates, key)
    case None => form.(selectedRole := key)
    case Some(types) => form.(draft := form.draft.(interviews := Expand(types)), selectedRole := key)
  }

  /** Selecting a role from the table replaces the interviews by the
      expansion of its template: the template's types in order, ids
      `interview-<index>`, blank date, time and notes; no other draft field
      changes. */
  lemma {:induction false} RoleSelectFills(form: EditForm, i: nat)
    requires i < |RoleTemplates|
    ensures var (key, types) := RoleTemplates[i];
            var r := RoleSelect(form, key);
            && r.draft.interviews == Expand(types)
            && Kinds(r.draft.interviews) == types
            && (forall k :: 0 <= k < |types| ==> r.draft.interviews[k].id == "interview-" + NatToString(k))
            && (forall k :: 0 <= k < |types| ==>
                  r.draft.interviews[k].date == r.draft.interviews[k].time == r.draft.interviews[k].notes == "")
            && r.draft == form.draft.(interviews := r.draft.interviews)
  {
    var (key, types) := RoleTemplates[i];
    RoleKeysDistinct();
    LookupAt(RoleTemplates, key, i);
    ExpandRule(types);
  }

  /** No key appears twice in the template table. */
  lemma {:induction false} RoleKeysDistinct()
    ensures forall i, j :: 0 <= i < j < |RoleTemplates| ==> RoleTemplates[i].0 != RoleTemplates[j].0
  {
  }

  /** The first key whose types, joined with commas, equal `joined`. */
  function FindKey(table: seq<(string, seq<string>)>, joined: string): (r: Option<string>)
    ensures r.Some? ==> exists i :: 0 <= i < |table| && table[i].0 == r.value && Join(table[i].1) == joined
    ensures r.None? <==> forall i :: 0 <= i < |table| ==> Join(table[i].1) != joined
  {
    if |table| == 0 then None
    else if Join(table[0].1) == joined then Some(table[0].0)
    else FindKey(table[1..], joined)
  }

  /** The template lookup in `startEditing`: the first role whose template,
      joined with commas, equals the interview types joined the same way. */
  function TemplateKey(ivs: seq<Interview>): Option<string> {
    FindKey(RoleTemplates, Join(Kinds(ivs)))
  }

  /** Every template is non-empty and no type contains a comma. */
  predicate CommaFreeTable(table: seq<(string, seq<string>)>) {
    forall i :: 0 <= i < |table| ==> |table[i].1| > 0 && AllCommaFree(table[i].1)
  }

  /** The role table satisfies it, so comparing joins is comparing lists for
      interview lists whose types are comma-free. */
  lemma {:induction false} TemplatesCommaFree()
    ensures CommaFreeTable(RoleTemplates)
  {
    CommaFreeLists1();
    CommaFreeLists2();
    CommaFreeLists3();
  }

  lemma {:induction false} CommaFreeLists1()
    ensures AllCommaFree(SoftwareTemplate) && AllCommaFree(ProductTemplate) && AllCommaFree(DesignerTemplate)
  {
  }

  lemma {:induction false} CommaFreeLists2()
    ensures AllCommaFree(DataTemplate) && AllCommaFree(SalesTemplate) && AllCommaFree(DesignReviewTemplate)
  {
  }

  lemma {:induction false} CommaFreeLists3()
    ensures AllCommaFree(ProjectReviewTemplate) && AllCommaFree(ProcessReviewTemplate)
  {
  }

  /** In a comma-free table, the key found for a non-empty comma-free list
      names an entry with exactly that list. */
  lemma {:induction false} FindKeySound(table: seq<(string, seq<string>)>, kinds: seq<string>)
    requires CommaFreeTable(table) && |kinds| > 0 && AllCommaFree(kinds)
    requires FindKey(table, Join(kinds)).Some?
    ensures exists i :: 0 <= i < |table| && table[i] == (FindKey(table, Join(kinds)).value, kinds)
  {
    var i :| 0 <= i < |table| && table[i].0 == FindKey(table, Join(kinds)).value
                              && Join(table[i].1) == Join(kinds);
    JoinInjective(table[i].1, kinds);
  }

  /** In a comma-free table, a list equal to entry `i`'s, and to no earlier
      entry's, is found as entry `i`'s key. */
  lemma {:induction false} FindKeyAt(table: seq<(string, seq<string>)>, kinds: seq<string>, i: nat)
    requires CommaFreeTable(table) && i < |table| && table[i].1 == kinds
    requires forall j :: 0 <= j < i ==> table[j].1 != kinds
    ensures FindKey(table, Join(kinds)) == Some(table[i].0)
  {
    if i > 0 {
      if Join(table[0].1) == Join(kinds) {
        JoinInjective(table[0].1, kinds);
      }
      assert CommaFreeTable(table[1..]) by {
        forall j | 0 <= j < |table| - 1 ensures table[1..][j] == table[j + 1] { }
      }
      FindKeyAt(table[1..], kinds, i - 1);
    }
  }

  /** A recognised role has exactly the interview types of the list, provided
      the list is non-empty and no type contains a comma. */
  lemma {:induction false} TemplateKeySound(ivs: seq<Interview>)
    requires |ivs| > 0 && AllCommaFree(Kinds(ivs))
    requires TemplateKey(ivs).Some?
    ensures exists i :: 0 <= i < |RoleTemplates| && RoleTemplates[i] == (TemplateKey(ivs).value, Kinds(ivs))
  {
    TemplatesCommaFree();
    FindKeySound(RoleTemplates, Kinds(ivs));
  }

  /** Interviews whose types are a template's are recognised, as the first
      role with that template. */
  lemma {:induction false} TemplateKeyComplete(ivs: seq<Interview>, i: nat)
    requires i < |RoleTemplates| && Kinds(ivs) == RoleTemplates[i].1
    requires forall j :: 0 <= j < i ==> RoleTemplates[j].1 != RoleTemplates[i].1
    ensures TemplateKey(ivs) == Some(RoleTemplates[i].0)
  {
    TemplatesCommaFree();
    FindKeyAt(RoleTemplates, Kinds(ivs), i);
  }

  /** Selecting a role and then opening the result for editing recognises
      the role when its template is its own. */
  lemma {:induction false} RoleSelectThenLookup(form: EditForm)
    ensures TemplateKey(RoleSelect(form, "software_engineer").draft.interviews) == Some("software_engineer")
  {
    var ivs := RoleSelect(form, "software_engineer").draft.interviews;
    assert Lookup(RoleTemplates, "software_engineer") == Some(SoftwareTemplate);
    ExpandRule(SoftwareTemplate);
    TemplateKeyComplete(ivs, 0);
  }

  /** Four engineering roles share one template, so a mechanical engineer's
      interviews are recognised as the electrical engineer's template: the
      role shown when the application is reopened differs from the one chosen. */
  lemma {:induction false} SharedTemplateCollapses(form: EditForm)
    ensures TemplateKey(RoleSelect(form, "mechanical_engineer").draft.interviews) == Some("electrical_engineer")
  {
    MechanicalTemplate();
    DesignReviewFirstAt();
    TemplateKeyAfterSelect(form, "mechanical_engineer", 5);
  }

  /** Selecting a role whose template is first listed at entry `i` and
      reopening the result recognises entry `i`'s role. */
  lemma {:induction false} TemplateKeyAfterSelect(form: EditForm, key: string, i: nat)
    requires i < |RoleTemplates| && Lookup(RoleTemplates, key) == Some(RoleTemplates[i].1)
    requires forall j :: 0 <= j < i ==> RoleTemplates[j].1 != RoleTemplates[i].1
    ensures TemplateKey(RoleSelect(form, key).draft.interviews) == Some(RoleTemplates[i].0)
  {
    var ivs := RoleSelect(form, key).draft.interviews;
    assert ivs == Expand(RoleTemplates[i].1);
    ExpandRule(RoleTemplates[i].1);
    TemplateKeyComplete(ivs, i);
  }

  lemma {:induction false} MechanicalTemplate()
    ensures Lookup(RoleTemplates, "mechanical_engineer") == Some(DesignReviewTemplate)
  {
    assert forall j :: 0 <= j < 6 ==> RoleTemplates[j].0 != "mechanical_engineer";
    LookupAt(RoleTemplates, "mechanical_engineer", 6);
  }

  /** The entry found for a key is the first entry with that key. */
  lemma {:induction false} LookupAt(table: seq<(string, seq<string>)>, key: string, i: nat)
    requires i < |table| && table[i].0 == key
    requires forall j :: 0 <= j < i ==> table[j].0 != key
    ensures Lookup(table, key) == Some(table[i].1)
  {
    if i > 0 {
      LookupAt(table[1..], key, i - 1);
    }
  }

  lemma {:induction false} DesignReviewFirstAt()
    ensures RoleTemplates[5] == ("electrical_engineer", DesignReviewTemplate)
    ensures forall j :: 0 <= j < 5 ==> RoleTemplates[j].1 != DesignReviewTemplate
  {
  }

  /** The joined comparison also recognises a list whose types contain
      commas and so differ from every template. */
  lemma {:induction false} TemplateKeyCommaCollision()
    ensures var ivs := [Interview("a", "Technical,System Design", "", "", ""), Interview("b", "Behavioral", "", "", "")];
            TemplateKey(ivs) == Some("software_engineer") && Kinds(ivs) != RoleTemplates[0].1
  {
    var ivs := [Interview("a", "Technical,System Design", "", "", ""), Interview("b", "Behavioral", "", "", "")];
    assert RoleTemplates[0] == ("software_engineer", ["Technical", "System Design", "Behavioral"]);
    MergedTypesCollide(RoleTemplates, ivs, "Technical", "System Design", "Behavioral");
  }

  /** Two interviews whose types are `a,b` and `c` join like the three-type
      template `a`, `b`, `c` at the head of a table. */
  lemma {:induction false} MergedTypesCollide(table: seq<(string, seq<string>)>, ivs: seq<Interview>,
                                              a: string, b: string, c: string)
    requires |table| > 0 && table[0].1 == [a, b, c]
    requires |ivs| == 2 && ivs[0].kind == a + "," + b && ivs[1].kind == c
    ensures FindKey(table, Join(Kinds(ivs))) == Some(table[0].0) && Kinds(ivs) != table[0].1
  {
    var kinds := Kinds(ivs);
    assert kinds == [a + "," + b, c];
    Join2(a + "," + b, c);
    Join3(a, b, c);
    FindKeyHead(table, Join(kinds));
  }

  /** The lookup stops at a first entry that matches. */
  lemma {:induction false} FindKeyHead(table: seq<(string, seq<string>)>, joined: string)
    requires |table| > 0 && Join(table[0].1) == joined
    ensures FindKey(table, joined) == Some(table[0].0)
  {
  }

  /** Joining two parts puts one comma between them. */
  lemma {:induction false} Join2(a: string, b: string)
    ensures Join([a, b]) == a + "," + b
  {
    assert [a, b][1..] == [b];
  }

  /** Joining three parts puts one comma between each neighbouring pair. */
  lemma {:induction false} Join3(a: string, b: string, c: string)
    ensures Join([a, b, c]) == a + "," + b + "," + c
  {
    assert [a, b, c][1..] == [b, c];
    Join2(b, c);
  }

  // ---------------------------------------------------------------------
  // Opening an application for editing
  // ---------------------------------------------------------------------

  /** `startEditing` as written: the draft copies every field but the
      follow-up date, which is left unset. */
  function StartEditingAsWritten(app: JobApplication): (r: EditForm)
    ensures r.editingId == Some(app.id) && r.draft.lastFollowUp.None?
    ensures r.draft.WithId(app.id) == app.(lastFollowUp := None)
    ensures r.selectedRole == "" <==> TemplateKey(app.interviews).None? || TemplateKey(app.interviews).value == ""
    ensures r.selectedRole != "" ==> TemplateKey(app.interviews) == Some(r.selectedRole)
  {
    EditForm(DraftOf(app).(lastFollowUp := None), Some(app.id), TemplateKey(app.interviews).GetOr(""))
  }

  /** Saving an application opened with `startEditing` as written, without
      touching the form, clears its follow-up date. */
  lemma {:induction false} StartEditingAsWrittenLosesFollowUp()
    ensures var app := JobApplication("1", "Acme", "Engineer", Applied, "2024-01-02", "", "", [], NoOffer, Some("2024-02-01"));
            var f := StartEditingAsWritten(app);
            UpdateApplication([app], f.editingId, f.draft) != [app]
  {
    var app := JobApplication("1", "Acme", "Engineer", Applied, "2024-01-02", "", "", [], NoOffer, Some("2024-02-01"));
    var f := StartEditingAsWritten(app);
    assert UpdateApplication([app], f.editingId, f.draft)[0].lastFollowUp.None?;
  }

  /** `startEditing` with the follow-up date carried over: the draft holds
      every field of the application, the form edits its id, and the role is
      the recognised template or none. */
  function StartEditing(app: JobApplication): (r: EditForm)
    ensures r.editingId == Some(app.id) && r.draft.WithId(app.id) == app
    ensures r.selectedRole == "" <==> TemplateKey(app.interviews).None? || TemplateKey(app.interviews).value == ""
    ensures r.selectedRole != "" ==> TemplateKey(app.interviews) == Some(r.selectedRole)
  {
    EditForm(DraftOf(app), Some(app.id), TemplateKey(app.interviews).GetOr(""))
  }

  /** Opening an application for editing and saving the form unchanged leaves
      the list as it was. */
  lemma {:induction false} SaveUnchangedEdit(apps: seq<JobApplication>, i: nat)
    requires UniqueIds(apps) && i < |apps| && apps[i].id != ""
    ensures var f := StartEditing(apps[i]);
            UpdateApplication(apps, f.editingId, f.draft) == apps
  {
    var f := StartEditing(apps[i]);
    var r := UpdateApplication(apps, f.editingId, f.draft);
    forall k | 0 <= k < |apps| ensures r[k] == apps[k] {
      if apps[k].id == apps[i].id {
        assert k == i;
      }
    }
  }
}
