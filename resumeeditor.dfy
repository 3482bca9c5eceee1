/** The resume editor: one record, edited field by field, with entries
    appended to and removed from its three lists, a sample record, and a
    "saved" flag. */
module ResumeEditor {
  import opened Options
  import opened Resume
  import opened Storage

  /** The `section` argument of `handleInputChange`. */
  datatype Section =
    | PersonalInfoSection | SummarySection | EducationSection | ExperienceSection
    | ProjectsSection | SkillsSection | LinksSection

  /** The `section` argument of `addItem` and `removeItem`: a list section. */
  datatype ListSection = EducationList | ExperienceList | ProjectList

  /** The record the updater of `handleInputChange` returns, or Rejected when
      JavaScript would throw (an index into something that is not a list, an
      index outside the list) or would put a string where a list belongs. */
  datatype Edit = Applied(record: ResumeData) | Rejected

  /** Sets the field named `field` of an entry; a name the entry does not
      have (`null` among them) adds a property outside the record. */
  function SetEducationField(e: Education, field: Option<string>, value: string): Education {
    if field == Some("school") then e.(school := value)
    else if field == Some("degree") then e.(degree := value)
    else if field == Some("year") then e.(year := value)
    else e
  }

  function SetExperienceField(e: Experience, field: Option<string>, value: string): Experience {
    if field == Some("company") then e.(company := value)
    else if field == Some("role") then e.(role := value)
    else if field == Some("period") then e.(period := value)
    else if field == Some("description") then e.(description := value)
    else e
  }

  function SetProjectField(p: Project, field: Option<string>, value: string): Project {
    if field == Some("title") then p.(title := value)
    else if field == Some("link") then p.(link := value)
    else if field == Some("description") then p.(description := value)
    else p
  }

  function SetPersonalField(p: PersonalInfo, field: string, value: string): PersonalInfo {
    if field == "name" then p.(name := value)
    else if field == "email" then p.(email := value)
    else if field == "phone" then p.(phone := value)
    else if field == "location" then p.(location := value)
    else p
  }

  function SetLinkField(l: Links, field: string, value: string): Links {
    if field == "github" then l.(github := value)
    else if field == "linkedin" then l.(linkedin := value)
    else l
  }

  /** Everything outside section s is the same in a and b. */
  predicate SameOutside(a: ResumeData, b: ResumeData, s: Section) {
    (s != PersonalInfoSection ==> a.personalInfo == b.personalInfo) &&
    (s != SummarySection ==> a.summary == b.summary) &&
    (s != EducationSection ==> a.education == b.education) &&
    (s != ExperienceSection ==> a.experience == b.experience) &&
    (s != ProjectsSection ==> a.projects == b.projects) &&
    (s != SkillsSection ==> a.skills == b.skills) &&
    (s != LinksSection ==> a.links == b.links)
  }

  /** The updater of `handleInputChange(section, field, value, index)`;
      `field` None stands for any non-string field (the form passes `null`),
      `index` None for the default `null`. */
  function InputChange(r: ResumeData, section: Section, field: Option<string>, value: string, index: Option<int>): (e: Edit)
    ensures e.Applied? ==> SameOutside(r, e.record, section)
    ensures index.None? && field.None? ==> e == Applied(r)
    ensures index.Some? && e.Applied? ==>
      e.record.personalInfo == r.personalInfo && e.record.summary == r.summary &&
      e.record.skills == r.skills && e.record.links == r.links
  {
    if index.Some? then
      var i := index.value;
      match section
      case EducationSection =>
        if 0 <= i < |r.education|
        then Applied(r.(education := r.education[i := SetEducationField(r.education[i], field, value)]))
        else Rejected
      case ExperienceSection =>
        if 0 <= i < |r.experience|
        then Applied(r.(experience := r.experience[i := SetExperienceField(r.experience[i], field, value)]))
        else Rejected
      case ProjectsSection =>
        if 0 <= i < |r.projects|
        then Applied(r.(projects := r.projects[i := SetProjectField(r.projects[i], field, value)]))
        else Rejected
      case _ => Rejected
    else if field.Some? then
      match section
      case PersonalInfoSection => Applied(r.(personalInfo := SetPersonalField(r.personalInfo, field.value, value)))
      case LinksSection => Applied(r.(links := SetLinkField(r.links, field.value, value)))
      case SummarySection => Applied(r.(summary := value))
      case SkillsSection => Applied(r.(skills := value))
      case _ => Rejected
    else
      Applied(r)
  }

  /** The summary text area and the skills input pass a `null` field and no
      index, so what they send never reaches the record. */
  lemma SummaryAndSkillsEditsDropped(r: ResumeData, value: string)
    ensures InputChange(r, SummarySection, None, value, None) == Applied(r)
    ensures InputChange(r, SkillsSection, None, value, None) == Applied(r)
  {
  }

  /** An indexed edit of entry i of a list changes that entry's named field
      and nothing else: the list keeps its length, the other entries and the
      other fields of entry i are untouched. */
  lemma IndexedEducationEdit(r: ResumeData, field: string, value: string, i: int)
    requires 0 <= i < |r.education|
    requires field in {"school", "degree", "year"}
    ensures var e := InputChange(r, EducationSection, Some(field), value, Some(i));
      && e.Applied? && SameOutside(r, e.record, EducationSection)
      && |e.record.education| == |r.education|
      && (forall j :: 0 <= j < |r.education| && j != i ==> e.record.education[j] == r.education[j])
      && var before, after := r.education[i], e.record.education[i];
         && (if field == "school" then after.school == value else after.school == before.school)
         && (if field == "degree" then after.degree == value else after.degree == before.degree)
         && (if field == "year" then after.year == value else after.year == before.year)
  {
  }

  lemma IndexedExperienceEdit(r: ResumeData, field: string, value: string, i: int)
    requires 0 <= i < |r.experience|
    requires field in {"company", "role", "period", "description"}
    ensures var e := InputChange(r, ExperienceSection, Some(field), value, Some(i));
      && e.Applied? && SameOutside(r, e.record, ExperienceSection)
      && |e.record.experience| == |r.experience|
      && (forall j :: 0 <= j < |r.experience| && j != i ==> e.record.experience[j] == r.experience[j])
      && var before, after := r.experience[i], e.record.experience[i];
         && (if field == "company" then after.company == value else after.company == before.company)
         && (if field == "role" then after.role == value else after.role == before.role)
         && (if field == "period" then after.period == value else after.period == before.period)
         && (if field == "description" then after.description == value else after.description == before.description)
  {
  }

  lemma IndexedProjectEdit(r: ResumeData, field: string, value: string, i: int)
    requires 0 <= i < |r.projects|
    requires field in {"title", "link", "description"}
    ensures var e := InputChange(r, ProjectsSection, Some(field), value, Some(i));
      && e.Applied? && SameOutside(r, e.record, ProjectsSection)
      && |e.record.projects| == |r.projects|
      && (forall j :: 0 <= j < |r.projects| && j != i ==> e.record.projects[j] == r.projects[j])
      && var before, after := r.projects[i], e.record.projects[i];
         && (if field == "title" then after.title == value else after.title == before.title)
         && (if field == "link" then after.link == value else after.link == before.link)
         && (if field == "description" then after.description == value else after.description == before.description)
  {
  }

  /** An indexed edit outside the list, or of a section that is not a list,
      throws in the updater, so the record stays as it was. */
  lemma IndexedEditRejected(r: ResumeData, section: Section, field: Option<string>, value: string, i: int)
    requires section !in {EducationSection, ExperienceSection, ProjectsSection}
      || (section == EducationSection && !(0 <= i < |r.education|))
      || (section == ExperienceSection && !(0 <= i < |r.experience|))
      || (section == ProjectsSection && !(0 <= i < |r.projects|))
    ensures InputChange(r, section, field, value, Some(i)) == Rejected
  {
  }

  /** The same for a nested edit of the personal details: only the named
      field changes. */
  lemma NestedPersonalEdit(r: ResumeData, field: string, value: string)
    requires field in {"name", "email", "phone", "location"}
    ensures var e := InputChange(r, PersonalInfoSection, Some(field), value, None);
      && e.Applied? && SameOutside(r, e.record, PersonalInfoSection)
      && var before, after := r.personalInfo, e.record.personalInfo;
         && (if field == "name" then after.name == value else after.name == before.name)
         && (if field == "email" then after.email == value else after.email == before.email)
         && (if field == "phone" then after.phone == value else after.phone == before.phone)
         && (if field == "location" then after.location == value else after.location == before.location)
  {
  }

  /** And for a nested edit of the profile links. */
  lemma NestedLinksEdit(r: ResumeData, field: string, value: string)
    requires field in {"github", "linkedin"}
    ensures var e := InputChange(r, LinksSection, Some(field), value, None);
      && e.Applied? && SameOutside(r, e.record, LinksSection)
      && var before, after := r.links, e.record.links;
         && (if field == "github" then after.github == value else after.github == before.github)
         && (if field == "linkedin" then after.linkedin == value else after.linkedin == before.linkedin)
  {
  }

  /** A string section edited with a non-null field and no index takes the
      value as its whole text. */
  lemma TextSectionEdit(r: ResumeData, field: string, value: string)
    ensures var e := InputChange(r, SummarySection, Some(field), value, None);
      e.Applied? && e.record == r.(summary := value)
    ensures var e := InputChange(r, SkillsSection, Some(field), value, None);
      e.Applied? && e.record == r.(skills := value)
  {
  }

  /** `prev.filter((_, i) => i !== index)`, walking the list by position. */
  function KeepOthers<T>(s: seq<T>, index: int): (r: seq<T>)
    ensures |r| <= |s|
  {
    if s == [] then []
    else KeepOthers(s[..|s| - 1], index) + (if |s| - 1 != index then [s[|s| - 1]] else [])
  }

  /** Removing by position drops exactly entry `index` and keeps the order of
      the rest; an index outside the list leaves it as it was. */
  lemma {:induction false} KeepOthersIsRemoval<T>(s: seq<T>, index: int)
    ensures KeepOthers(s, index) == if 0 <= index < |s| then s[..index] + s[index + 1..] else s
  {
    if s != [] {
      var init := s[..|s| - 1];
      KeepOthersIsRemoval(init, index);
      if 0 <= index < |s| - 1 {
        assert init[..index] + init[index + 1..] + [s[|s| - 1]] == s[..index] + s[index + 1..];
      } else if index == |s| - 1 {
        assert init == s[..index];
        assert s[index + 1..] == [];
      } else {
        assert init + [s[|s| - 1]] == s;
      }
    }
  }

  /** The record after `removeItem(section, index)`. */
  function Removed(r: ResumeData, s: ListSection, index: int): ResumeData {
    match s
    case EducationList => r.(education := KeepOthers(r.education, index))
    case ExperienceList => r.(experience := KeepOthers(r.experience, index))
    case ProjectList => r.(projects := KeepOthers(r.projects, index))
  }

  /** The record after `addItem(section)`. */
  function Appended(r: ResumeData, s: ListSection): ResumeData {
    match s
    case EducationList => r.(education := r.education + [BlankEducation])
    case ExperienceList => r.(experience := r.experience + [BlankExperience])
    case ProjectList => r.(projects := r.projects + [BlankProject])
  }

  /** The section that `addItem` and `removeItem` name. */
  function AsSection(s: ListSection): Section {
    match s
    case EducationList => EducationSection
    case ExperienceList => ExperienceSection
    case ProjectList => ProjectsSection
  }

  /** Number of entries in a list section. */
  function EntryCount(r: ResumeData, s: ListSection): nat {
    match s
    case EducationList => |r.education|
    case ExperienceList => |r.experience|
    case ProjectList => |r.projects|
  }

  /** Appending grows the list by one blank entry at its end and keeps every
      earlier entry and every other section. */
  lemma AppendedShape(r: ResumeData, s: ListSection)
    ensures var a := Appended(r, s);
      && SameOutside(r, a, AsSection(s))
      && EntryCount(a, s) == EntryCount(r, s) + 1
      && (s == EducationList ==> a.education[..|r.education|] == r.education && a.education[|r.education|] == BlankEducation)
      && (s == ExperienceList ==> a.experience[..|r.experience|] == r.experience && a.experience[|r.experience|] == BlankExperience)
      && (s == ProjectList ==> a.projects[..|r.projects|] == r.projects && a.projects[|r.projects|] == BlankProject)
  {
  }

  /** Removing shrinks the list by one exactly when the index is inside it,
      keeps every other section, and keeps the other entries in order. */
  lemma RemovedShape(r: ResumeData, s: ListSection, index: int)
    ensures var d := Removed(r, s, index);
      && SameOutside(r, d, AsSection(s))
      && EntryCount(d, s) == (if 0 <= index < EntryCount(r, s) then EntryCount(r, s) - 1 else EntryCount(r, s))
      && (s == EducationList ==> d.education == if 0 <= index < |r.education| then r.education[..index] + r.education[index + 1..] else r.education)
      && (s == ExperienceList ==> d.experience == if 0 <= index < |r.experience| then r.experience[..index] + r.experience[index + 1..] else r.experience)
      && (s == ProjectList ==> d.projects == if 0 <= index < |r.projects| then r.projects[..index] + r.projects[index + 1..] else r.projects)
  {
    KeepOthersIsRemoval(r.education, index);
    KeepOthersIsRemoval(r.experience, index);
    KeepOthersIsRemoval(r.projects, index);
  }

  class Builder {
    const local: Local
    var formData: ResumeData
    var isSaved: bool

    /** Mounting the editor: the initial record, replaced by the stored one
        when there is one. */
    constructor (local: Local)
      ensures this.local == local && !isSaved
      ensures formData == local.resumeData.GetOr(InitialResume())
    {
      this.local := local;
      formData := InitialResume();
      isSaved := false;
      if local.resumeData.Some? {
        formData := local.resumeData.value;
      }
    }

    /** `handleInputChange`: the record the updater returns (unchanged when
        it would throw), and the saved flag cleared. */
    method HandleInputChange(section: Section, field: Option<string>, value: string, index: Option<int>)
      modifies this
      ensures !isSaved
      ensures formData == match InputChange(old(formData), section, field, value, index)
                          case Applied(r) => r
                          case Rejected => old(formData)
    {
      var e := InputChange(formData, section, field, value, index);
      if e.Applied? {
        formData := e.record;
      }
      isSaved := false;
    }

    /** `addItem(section)`. */
    method AddItem(s: ListSection)
      modifies this
      ensures formData == Appended(old(formData), s) && isSaved == old(isSaved)
    {
      match s
      case EducationList => formData := formData.(education := formData.education + [BlankEducation]);
      case ExperienceList => formData := formData.(experience := formData.experience + [BlankExperience]);
      case ProjectList => formData := formData.(projects := formData.projects + [BlankProject]);
    }

    /** `removeItem(section, index)`. */
    method RemoveItem(s: ListSection, index: int)
      modifies this
      ensures formData == Removed(old(formData), s, index) && isSaved == old(isSaved)
    {
      formData := Removed(formData, s, index);
    }

    /** `loadSampleData`: the whole record is replaced. */
    method LoadSampleData()
      modifies this
      ensures formData == SampleResume() && isSaved == old(isSaved)
    {
      formData := SampleResume();
    }

    /** `saveToLocal`: the record is stored and the saved flag set. */
    method SaveToLocal()
      modifies this, local
      ensures local.resumeData == Some(formData) && isSaved
      ensures formData == old(formData)
      ensures local.items == old(local.items) && local.finalLinks == old(local.finalLinks)
    {
      local.resumeData := Some(formData);
      isSaved := true;
    }
  }
}
