/** The resume preview: which parts of the stored record are shown, and in
    what order. */
module Preview {
  import opened Options
  import opened Text
  import opened Resume

  /** `s.some(x => key(x))`: some entry has a non-empty key field. */
  predicate AnyPresent<T>(s: seq<T>, key: T -> string) {
    exists k :: 0 <= k < |s| && key(s[k]) != ""
  }

  /** `s.map(x => key(x) && ...)`: the entries React renders, those whose key
      field is non-empty, in their original order. */
  function Present<T>(s: seq<T>, key: T -> string): (r: seq<T>)
    ensures |r| <= |s|
    ensures forall k :: 0 <= k < |r| ==> key(r[k]) != ""
  {
    if s == [] then []
    else if key(s[0]) != "" then [s[0]] + Present(s[1..], key)
    else Present(s[1..], key)
  }

  /** A section is shown exactly when it has entries to render. */
  lemma {:induction false} PresentNonEmptyIff<T>(s: seq<T>, key: T -> string)
    ensures Present(s, key) != [] <==> AnyPresent(s, key)
  {
    if s != [] {
      PresentNonEmptyIff(s[1..], key);
      if AnyPresent(s[1..], key) {
        var k :| 0 <= k < |s[1..]| && key(s[1..][k]) != "";
        assert key(s[k + 1]) != "";
      }
      if key(s[0]) == "" && AnyPresent(s, key) {
        var k :| 0 <= k < |s| && key(s[k]) != "";
        assert key(s[1..][k - 1]) != "";
      }
    }
  }

  /** Selection keeps order: selecting from a + b is selecting from a, then from b. */
  lemma {:induction false} PresentConcat<T>(a: seq<T>, b: seq<T>, key: T -> string)
    ensures Present(a + b, key) == Present(a, key) + Present(b, key)
  {
    if a == [] {
      assert a + b == b;
    } else {
      assert (a + b)[1..] == a[1..] + b;
      PresentConcat(a[1..], b, key);
    }
  }

  /** Every entry with a non-empty key field is rendered, as often as it occurs. */
  lemma {:induction false} PresentKeepsEntries<T>(s: seq<T>, key: T -> string, x: T)
    requires key(x) != ""
    ensures multiset(Present(s, key))[x] == multiset(s)[x]
  {
    if s != [] {
      PresentKeepsEntries(s[1..], key, x);
      assert s == [s[0]] + s[1..];
    }
  }

  /** No entry with an empty key field is rendered. */
  lemma {:induction false} PresentDropsBlank<T>(s: seq<T>, key: T -> string, x: T)
    requires key(x) == ""
    ensures x !in Present(s, key)
  {
    if s != [] {
      PresentDropsBlank(s[1..], key, x);
    }
  }

  /** The header's contact items, in their order on the page. */
  datatype Contact = Email(text: string) | Phone(text: string) | Location(text: string)
                   | GitHub(url: string) | LinkedIn(url: string)

  /** Each contact item appears exactly when its text is non-empty, and no
      other item appears. */
  function Contacts(p: PersonalInfo, l: Links): (cs: seq<Contact>)
    ensures Email(p.email) in cs <==> p.email != ""
    ensures Phone(p.phone) in cs <==> p.phone != ""
    ensures Location(p.location) in cs <==> p.location != ""
    ensures GitHub(l.github) in cs <==> l.github != ""
    ensures LinkedIn(l.linkedin) in cs <==> l.linkedin != ""
    ensures forall c :: c in cs ==> ContactOf(c, p, l)
    ensures |cs| <= 5
  {
    var a, b, c, d, e :=
      ShownIf(Email(p.email), p.email), ShownIf(Phone(p.phone), p.phone),
      ShownIf(Location(p.location), p.location), ShownIf(GitHub(l.github), l.github),
      ShownIf(LinkedIn(l.linkedin), l.linkedin);
    assert Email(p.email) in a + b + c + d + e <==> Email(p.email) in a;
    assert Phone(p.phone) in a + b + c + d + e <==> Phone(p.phone) in b;
    assert Location(p.location) in a + b + c + d + e <==> Location(p.location) in c;
    assert GitHub(l.github) in a + b + c + d + e <==> GitHub(l.github) in d;
    assert LinkedIn(l.linkedin) in a + b + c + d + e <==> LinkedIn(l.linkedin) in e;
    a + b + c + d + e
  }

  /** c is one of the record's five contact items, and its text is non-empty. */
  predicate ContactOf(c: Contact, p: PersonalInfo, l: Links) {
    (c == Email(p.email) && p.email != "") || (c == Phone(p.phone) && p.phone != "") ||
    (c == Location(p.location) && p.location != "") ||
    (c == GitHub(l.github) && l.github != "") || (c == LinkedIn(l.linkedin) && l.linkedin != "")
  }

  /** `text && <item>`: the item alone when the text is non-empty, nothing otherwise. */
  function ShownIf(c: Contact, text: string): (cs: seq<Contact>)
    ensures c in cs <==> text != ""
    ensures forall x :: x in cs ==> x == c
  {
    if text != "" then [c] else []
  }

  /** A rendered project: its link icon appears only for a non-empty link. */
  datatype ProjectItem = ProjectItem(title: string, link: Option<string>, description: string)

  function ProjectView(p: Project): (v: ProjectItem)
    ensures v.title == p.title && v.description == p.description
    ensures v.link.Some? <==> p.link != ""
    ensures v.link.Some? ==> v.link.value == p.link
  {
    ProjectItem(p.title, if p.link != "" then Some(p.link) else None, p.description)
  }

  /** `personalInfo.name || 'Your Name'`. */
  function DisplayName(p: PersonalInfo): (name: string)
    ensures name != ""
    ensures p.name != "" ==> name == p.name
    ensures p.name == "" ==> name == "Your Name"
  {
    if p.name != "" then p.name else "Your Name"
  }

  /** `pieces.map(s => s.trim())`. */
  function TrimAll(pieces: seq<string>): (chips: seq<string>)
    ensures |chips| == |pieces|
    ensures forall k :: 0 <= k < |pieces| ==> chips[k] == Trim(pieces[k])
  {
    seq(|pieces|, k requires 0 <= k < |pieces| => Trim(pieces[k]))
  }

  /** `skills.split(',').map(s => s.trim())`. */
  function SkillChips(skills: string): seq<string> {
    TrimAll(Split(skills, ','))
  }

  /** A skill chip as the page shows it: no white space at either end and
      no comma inside. */
  predicate IsChip(chip: string) {
    ',' !in chip && (chip == [] || (!IsSpace(chip[0]) && !IsSpace(chip[|chip| - 1])))
  }

  /** Trimming pieces that hold no comma gives chips. */
  lemma TrimmedChips(pieces: seq<string>)
    requires forall k :: 0 <= k < |pieces| ==> ',' !in pieces[k]
    ensures forall k :: 0 <= k < |pieces| ==> IsChip(TrimAll(pieces)[k])
  {
    forall k | 0 <= k < |pieces| ensures IsChip(Trim(pieces[k])) {
      TrimEnds(pieces[k]);
      TrimFree(pieces[k], ',');
    }
  }

  /** There is one chip per comma-separated piece, empty pieces included, so
      one more chip than commas; each chip is its piece trimmed, so none
      starts or ends with white space or holds a comma. */
  lemma SkillChipsShape(skills: string)
    ensures |SkillChips(skills)| == Count(skills, ',') + 1
    ensures forall k :: 0 <= k < |SkillChips(skills)| ==>
      SkillChips(skills)[k] == Trim(Split(skills, ',')[k]) && IsChip(SkillChips(skills)[k])
  {
    SplitCount(skills, ',');
    SplitPiecesFree(skills, ',');
    TrimmedChips(Split(skills, ','));
  }

  /** What the preview page shows. Each optional section is None when it is
      not rendered at all. */
  datatype Page =
    | NoDataFound
    | ResumePage(
        name: string,
        contacts: seq<Contact>,
        summary: Option<string>,
        experience: Option<seq<Experience>>,
        projects: Option<seq<ProjectItem>>,
        education: Option<seq<Education>>,
        skills: Option<seq<string>>)

  function Company(e: Experience): string { e.company }
  function ProjectTitle(p: Project): string { p.title }
  function School(e: Education): string { e.school }

  /** The page for the stored record, or "No Data Found" when nothing is stored. */
  function PreviewOf(saved: Option<ResumeData>): (page: Page)
    ensures page.NoDataFound? <==> saved.None?
  {
    match saved
    case None => NoDataFound
    case Some(d) =>
      var shownProjects := Present(d.projects, ProjectTitle);
      ResumePage(
        DisplayName(d.personalInfo),
        Contacts(d.personalInfo, d.links),
        if d.summary != "" then Some(d.summary) else None,
        if AnyPresent(d.experience, Company) then Some(Present(d.experience, Company)) else None,
        if AnyPresent(d.projects, ProjectTitle)
        then Some(seq(|shownProjects|, k requires 0 <= k < |shownProjects| => ProjectView(shownProjects[k])))
        else None,
        if AnyPresent(d.education, School) then Some(Present(d.education, School)) else None,
        if d.skills != "" then Some(SkillChips(d.skills)) else None)
  }

  /** For a stored record: the experience, project and education sections are
      shown exactly when some entry has a non-empty company, title or school,
      and then never as an empty list; the summary and skills sections are
      shown exactly when their text is non-empty. */
  lemma PreviewSections(d: ResumeData)
    ensures var page := PreviewOf(Some(d));
      && page.ResumePage?
      && (page.summary.Some? <==> d.summary != "")
      && (page.experience.Some? <==> AnyPresent(d.experience, Company))
      && (page.experience.Some? ==> page.experience.value != [])
      && (page.projects.Some? <==> AnyPresent(d.projects, ProjectTitle))
      && (page.projects.Some? ==> page.projects.value != [])
      && (page.education.Some? <==> AnyPresent(d.education, School))
      && (page.education.Some? ==> page.education.value != [])
      && (page.skills.Some? <==> d.skills != "")
  {
    PresentNonEmptyIff(d.experience, Company);
    PresentNonEmptyIff(d.projects, ProjectTitle);
    PresentNonEmptyIff(d.education, School);
  }

  /** What a shown section holds: the entries with a non-empty key field in
      their order (projects as their rendered view), the skill chips, and
      the header's name and contact items. */
  lemma PreviewContents(d: ResumeData)
    ensures var page := PreviewOf(Some(d));
      && page.ResumePage?
      && page.name == DisplayName(d.personalInfo)
      && page.contacts == Contacts(d.personalInfo, d.links)
      && (page.summary.Some? ==> page.summary.value == d.summary)
      && (page.experience.Some? ==> page.experience.value == Present(d.experience, Company))
      && (page.projects.Some? ==> |page.projects.value| == |Present(d.projects, ProjectTitle)|)
      && (page.projects.Some? ==> forall k :: 0 <= k < |page.projects.value| ==>
            page.projects.value[k] == ProjectView(Present(d.projects, ProjectTitle)[k]))
      && (page.education.Some? ==> page.education.value == Present(d.education, School))
      && (page.skills.Some? ==> page.skills.value == SkillChips(d.skills))
  {
  }

  /** The blank initial record, once stored, shows only the name placeholder:
      no contact item and no section. */
  lemma PreviewOfInitialRecord()
    ensures PreviewOf(Some(InitialResume())) == ResumePage("Your Name", [], None, None, None, None, None)
  {
    var d := InitialResume();
    assert !AnyPresent(d.experience, Company);
    assert !AnyPresent(d.projects, ProjectTitle);
    assert !AnyPresent(d.education, School);
  }
}
