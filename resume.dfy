/** The resume record the editor builds and the preview shows. */
module Resume {

  datatype PersonalInfo = PersonalInfo(name: string, email: string, phone: string, location: string)

  datatype Education = Education(school: string, degree: string, year: string)

  datatype Experience = Experience(company: string, role: string, period: string, description: string)

  datatype Project = Project(title: string, link: string, description: string)

  datatype Links = Links(github: string, linkedin: string)

  datatype ResumeData = ResumeData(
    personalInfo: PersonalInfo,
    summary: string,
    education: seq<Education>,
    experience: seq<Experience>,
    projects: seq<Project>,
    skills: string,
    links: Links)

  /** The entry templates `addItem` appends. */
  const BlankEducation := Education("", "", "")
  const BlankExperience := Experience("", "", "", "")
  const BlankProject := Project("", "", "")

  /** Every text field of the record outside its lists is empty. */
  predicate NoScalarText(r: ResumeData) {
    r.personalInfo == PersonalInfo("", "", "", "") && r.summary == "" &&
    r.skills == "" && r.links == Links("", "")
  }

  /** The record the editor starts with: one blank entry in each list and
      empty text everywhere else. */
  function InitialResume(): (r: ResumeData)
    ensures NoScalarText(r)
    ensures r.education == [BlankEducation] && r.experience == [BlankExperience] && r.projects == [BlankProject]
  {
    ResumeData(PersonalInfo("", "", "", ""), "",
      [Education("", "", "")], [Experience("", "", "", "")], [Project("", "", "")],
      "", Links("", ""))
  }

  const SampleSummary: string :=
    "Ambitious Software Engineer with a focus on building premium web applications and AI-driven systems. Expert in React and modern CSS architectures."
  const SampleExperienceText: string :=
    "Leading the implementation of the AI-powered builder rail and premium design systems."
  const SampleProjectText: string :=
    "A comprehensive system for tracking student preparation and interview readiness."
  const SampleSkills: string := "React, Node.js, Tailwind CSS, Python, Git, UI/UX Design"

  /** The fixed record the "Load Sample" button installs. */
  function SampleResume(): ResumeData {
    ResumeData(
      PersonalInfo("Gagan Sogasu", "gagan@example.com", "+91 98765 43210", "Bengaluru, India"),
      SampleSummary,
      [Education("KodNest Institute", "Full Stack Development", "2024")],
      [Experience("TechFlow Solutions", "Frontend Developer", "2023 - Present", SampleExperienceText)],
      [Project("Placement Readiness Platform", "https://github.com/prp", SampleProjectText)],
      SampleSkills,
      Links("https://github.com/gagansogasu", "https://linkedin.com/in/gagansogasu"))
  }
}
