/**
 The test document: sections hold tasks, tasks hold questions. Only the
 fields the modelled logic reads are kept (ids, the owner, and the answer
 key of each question).
 */
module TestContent {

  datatype Question = Question(id: string, answers: seq<string>, acceptableAnswers: seq<string>)

  datatype Task = Task(id: string, questions: seq<Question>)

  datatype Section = Section(id: string, tasks: seq<Task>)

  datatype Test = Test(id: string, ownerId: string, sections: seq<Section>)

  function SectionId(s: Section): string { s.id }
  function TaskId(t: Task): string { t.id }
  function QuestionId(q: Question): string { q.id }

  /** The question sits in the tree under a section and a task with the given ids. */
  ghost predicate InTree(test: Test, sid: string, tid: string, q: Question) {
    exists i, j, k ::
      && 0 <= i < |test.sections| && test.sections[i].id == sid
      && 0 <= j < |test.sections[i].tasks| && test.sections[i].tasks[j].id == tid
      && 0 <= k < |test.sections[i].tasks[j].questions|
      && test.sections[i].tasks[j].questions[k] == q
  }

  /** Ids are unique among siblings at every level of the tree. */
  ghost predicate UniqueIds(test: Test) {
    && (forall i, i' :: 0 <= i < i' < |test.sections| ==> test.sections[i].id != test.sections[i'].id)
    && (forall i :: 0 <= i < |test.sections| ==> UniqueTaskIds(test.sections[i]))
  }

  ghost predicate UniqueTaskIds(s: Section) {
    && (forall j, j' :: 0 <= j < j' < |s.tasks| ==> s.tasks[j].id != s.tasks[j'].id)
    && (forall j :: 0 <= j < |s.tasks| ==> UniqueQuestionIds(s.tasks[j]))
  }

  ghost predicate UniqueQuestionIds(t: Task) {
    forall k, k' :: 0 <= k < k' < |t.questions| ==> t.questions[k].id != t.questions[k'].id
  }
}
