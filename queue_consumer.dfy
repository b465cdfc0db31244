/**
 * The queue workers (queue.consumer.ts): the PDF queue consumer that
 * dispatches a job to the parse or the mark worker by its name, and the
 * scheduler processor that opens a scheduled exam.
 *
 * Jobs run one at a time. The workers' oracles (PDF tools, AI replies, JSON
 * parser, rendering, upload URL, clock) are passed through unchanged.
 */
module QueueConsumer {
  import opened Wrappers
  import opened Errors
  import opened ExamModel
  import opened ProcessService

  // ================================================================ job dispatch

  /** The job names of the PDF queue. */
  const ProcessJobName := "process-pdf"
  const MarkJobName := "mark-pdf"

  /** Which worker a job goes to. */
  datatype Worker = ParseWorker | MarkWorker

  /**
   * The consumer's `switch`: the two known names pick their worker, and any
   * other name is an error naming the job.
   */
  function Route(name: string): (r: Result<Worker, Failure>)
    ensures r == Ok(ParseWorker) <==> name == ProcessJobName
    ensures r == Ok(MarkWorker) <==> name == MarkJobName
    ensures r.Err? <==> name != ProcessJobName && name != MarkJobName
    ensures r.Err? ==> r.error == PlainError("Unknown job name: " + name)
  {
    if name == ProcessJobName then Ok(ParseWorker)
    else if name == MarkJobName then Ok(MarkWorker)
    else Err(PlainError("Unknown job name: " + name))
  }

  /** The data a PDF job carries, for either worker. */
  datatype JobData = JobData(examKey: string, email: string, studentAnswer: string, timeSpent: int)

  /** A job as the consumer receives it: its name, data and retry counters. */
  datatype QueueJob = QueueJob(name: string, data: JobData, attemptsMade: nat, attempts: Option<int>)

  /** What the parse worker reads from the job. */
  function AsParseJob(job: QueueJob): (p: ParseJob)
    ensures p.examKey == job.data.examKey && p.attemptsMade == job.attemptsMade && p.attempts == job.attempts
  {
    ParseJob(job.data.examKey, job.attemptsMade, job.attempts)
  }

  /** What the mark worker reads from the job's data. */
  function AsMarkJob(data: JobData): (m: MarkJob)
    ensures m.examKey == data.examKey && m.email == data.email
    ensures m.studentAnswer == data.studentAnswer && m.timeSpent == data.timeSpent
  {
    MarkJob(data.examKey, data.email, data.studentAnswer, data.timeSpent)
  }

  /** What a worker hands back: the parsed value or the score text. */
  datatype Processed = Parsed(value: JsonValue) | Marked(scoreText: string)

  /**
   * `PdfQueueConsumer.process(job)`. `exam` is the exam stored under the
   * job's key, if any. A parse job returns what the parse worker returns, a
   * mark job what the mark worker returns, and an unknown name is rejected
   * before anything runs. `logged` is whether the consumer's own `catch`
   * logs: the workers' promises are returned without being awaited, so only
   * the unknown-name error reaches it.
   */
  method Process(job: QueueJob, exam: Exam?, tools: PdfTools, ai: nat -> CallOutcome,
                 jsonParse: string -> Option<JsonValue>, rendered: Result<(), Failure>,
                 transcriptUrl: string, now: string)
    returns (result: Result<Processed, Failure>, logged: bool, tempDeleted: bool)
    requires exam != null ==> exam.examKey == job.data.examKey
    modifies exam
    ensures logged <==> Route(job.name).Err?
    ensures Route(job.name).Err? ==>
      result == Err(Route(job.name).error) && !tempDeleted
      && (exam != null ==> (exam.questions == old(exam.questions) && exam.submissions == old(exam.submissions)))
    ensures Route(job.name) == Ok(ParseWorker) ==>
      var parsed := ParseOutcome(Extraction(tools).0, ai, jsonParse);
      tempDeleted == DeletesTempFile(AsParseJob(job))
      && (parsed.Ok? ==> result == Ok(Parsed(parsed.value)))
      && (parsed.Err? ==> result == Err(parsed.error))
      && (exam != null ==> exam.submissions == old(exam.submissions))
      && (exam != null && parsed.Ok? && job.data.examKey != "" ==> exam.questions == QuestionList(parsed.value))
      && (exam != null && (parsed.Err? || job.data.examKey == "") ==> exam.questions == old(exam.questions))
    ensures Route(job.name) == Ok(MarkWorker) ==>
      var outcome := MarkOutcome(exam != null, Extraction(tools).0, ai, rendered);
      (outcome.Ok? ==>
         result == Ok(Marked(outcome.value)) && tempDeleted && exam != null
         && exam.submissions == Upserted(old(exam.submissions),
                                         MarkedSubmission(AsMarkJob(job.data), outcome.value, transcriptUrl, now)))
      && (outcome.Err? ==>
         result == Err(MarkFailure(outcome.error)) && !tempDeleted
         && (exam != null ==> exam.submissions == old(exam.submissions)))
      && (exam != null ==> exam.questions == old(exam.questions))
    ensures exam != null ==>
      exam.access == old(exam.access) && exam.invites == old(exam.invites) && exam.Details() == old(exam.Details())
  {
    var worker := Route(job.name);
    if worker.Err? {
      return Err(worker.error), true, false;
    }
    logged := false;
    if worker.value == ParseWorker {
      var parsed;
      parsed, tempDeleted := ParsePdfWorker(AsParseJob(job), exam, tools, ai, jsonParse);
      if parsed.Err? {
        result := Err(parsed.error);
      } else {
        result := Ok(Parsed(parsed.value));
      }
    } else {
      var marked;
      marked, tempDeleted := MarkPdfWorker(AsMarkJob(job.data), exam, tools, ai, rendered, transcriptUrl, now);
      if marked.Err? {
        result := Err(marked.error);
      } else {
        result := Ok(Marked(marked.value));
      }
    }
  }

  // ================================================================ opening a scheduled exam

  /** The update `{ access: SCHEDULED } -> { access: OPEN }`: only a scheduled exam opens. */
  function Opened(access: ExamAccessType): (r: ExamAccessType)
    ensures r == OPEN <==> access == SCHEDULED || access == OPEN
    ensures access != SCHEDULED ==> r == access
    ensures r != SCHEDULED
  {
    if access == SCHEDULED then OPEN else access
  }

  /** Opening an exam twice is the same as opening it once. */
  lemma {:induction false} OpenedIdempotent(access: ExamAccessType)
    ensures Opened(Opened(access)) == Opened(access)
  {
  }

  /**
   * `ExamSchedulerProcessor.handleOpenExam(job)`. `exam` is the exam with the
   * job's id, or null when there is none, and then nothing happens.
   */
  method HandleOpenExam(exam: Exam?)
    modifies exam
    ensures exam != null ==> exam.access == Opened(old(exam.access))
    ensures exam != null ==>
      exam.invites == old(exam.invites) && exam.questions == old(exam.questions)
      && exam.submissions == old(exam.submissions) && exam.Details() == old(exam.Details())
  {
    if exam != null && exam.access == SCHEDULED {
      exam.access := OPEN;
    }
  }
}
