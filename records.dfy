/** The record shapes of src/types: only the fields the modelled code reads. */
module Records {
  import opened Common

  /** `"interviewer" | "candidate"` */
  datatype Speaker = Interviewer | Candidate

  datatype Turn = Turn(speaker: Speaker, section: string, topic: string, content: string)

  /** An interview row; a NULL `technologies` column is the empty sequence
      (the source reads it as `row.technologies || []`). */
  datatype Interview = Interview(id: int, title: string, position: string,
                                 technologies: seq<string>, turns: seq<Turn>)

  datatype Section = Section(id: string, title: string, level: int, content: string)

  datatype Guide = Guide(id: int, title: string, techStack: Option<string>, sections: seq<Section>)

  /** A question of the local deck; the id type is left abstract. */
  datatype Question<Id> = Question(id: Id, topic: string, subtopic: Option<string>)

  /** The interview filter: `{ position?, technology? }`, compared by value. */
  datatype InterviewFilter = InterviewFilter(position: Option<string>, technology: Option<string>)

  /** The guide filter: `{ techStack? }`. */
  datatype GuideFilter = GuideFilter(techStack: Option<string>)
}
