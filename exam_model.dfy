/**
 * The exam aggregate as the services see it: its access state, the invite
 * list, the stored question list and the submissions keyed by e-mail.
 */
module ExamModel {
  import opened Wrappers
  import opened Text

  /** ExamAccessType, including the SCHEDULED state that scheduling writes and opening reads. */
  datatype ExamAccessType = OPEN | PRIVATE | RESTRICTED | SCHEDULED

  datatype QuestionType = MultipleChoice | Theory

  /** One question as the parser prompt asks the AI service to describe it. */
  datatype ParsedQuestion = ParsedQuestion(
    kind: QuestionType,
    question: string,
    options: Option<seq<string>>,
    answer: Option<string>)

  /** A value as `JSON.parse` yields it (numbers kept to integers). */
  datatype JsonValue =
    | JNull
    | JBool(b: bool)
    | JNumber(n: int)
    | JString(s: string)
    | JArray(items: seq<JsonValue>)
    | JObject(fields: seq<(string, JsonValue)>)

  /** One student's graded submission. */
  datatype Submission = Submission(
    email: string,
    studentAnswer: string,
    score: int,
    timeSubmitted: string,
    timeSpent: int,
    transcript: Option<string>)

  /** The e-mail addresses of a list of submissions, in order. */
  function Emails(subs: seq<Submission>): (r: seq<string>)
    ensures |r| == |subs| && forall i :: 0 <= i < |subs| ==> r[i] == subs[i].email
  {
    if subs == [] then [] else [subs[0].email] + Emails(subs[1..])
  }

  /** Every address is lower-case and no address occurs twice. */
  predicate EmailsKeyed(emails: seq<string>) {
    (forall i :: 0 <= i < |emails| ==> IsLowerCase(emails[i]))
    && (forall i, j :: 0 <= i < j < |emails| ==> emails[i] != emails[j])
  }

  /** How many submissions carry `email`. */
  function CountEmail(subs: seq<Submission>, email: string): nat {
    if subs == [] then 0
    else (if subs[0].email == email then 1 else 0) + CountEmail(subs[1..], email)
  }

  /** With distinct e-mails there is one entry per e-mail present and none for an absent one. */
  lemma {:induction false} CountDistinct(subs: seq<Submission>, email: string)
    requires forall i, j :: 0 <= i < j < |subs| ==> subs[i].email != subs[j].email
    ensures CountEmail(subs, email) == if email in Emails(subs) then 1 else 0
  {
    if subs != [] {
      CountDistinct(subs[1..], email);
      assert Emails(subs) == [subs[0].email] + Emails(subs[1..]);
      if subs[0].email == email {
        assert email !in Emails(subs[1..]);
      }
    }
  }

  /** In keyed submissions an e-mail is carried by one entry when present and by none otherwise. */
  lemma {:induction false} CountKeyed(subs: seq<Submission>, email: string)
    requires EmailsKeyed(Emails(subs))
    ensures CountEmail(subs, email) == if email in Emails(subs) then 1 else 0
  {
    assert forall i :: 0 <= i < |subs| ==> Emails(subs)[i] == subs[i].email;
    CountDistinct(subs, email);
  }

  /** Replacing an entry by one with the same e-mail keeps the list of e-mails. */
  lemma {:induction false} EmailsOfReplace(subs: seq<Submission>, i: nat, s: Submission)
    requires i < |subs| && s.email == subs[i].email
    ensures Emails(subs[i := s]) == Emails(subs)
  {
    assert forall k :: 0 <= k < |subs| ==> Emails(subs[i := s])[k] == Emails(subs)[k];
  }

  /** Appending an entry appends its e-mail. */
  lemma {:induction false} EmailsOfAppend(subs: seq<Submission>, s: Submission)
    ensures Emails(subs + [s]) == Emails(subs) + [s.email]
  {
    assert forall k :: 0 <= k < |subs| + 1 ==> Emails(subs + [s])[k] == (Emails(subs) + [s.email])[k];
  }

  /** Adding a lower-case address not yet listed keeps a list keyed. */
  lemma {:induction false} KeyedAppend(emails: seq<string>, e: string)
    requires EmailsKeyed(emails) && IsLowerCase(e) && e !in emails
    ensures EmailsKeyed(emails + [e])
  {
    var r := emails + [e];
    assert forall i :: 0 <= i < |emails| ==> r[i] == emails[i];
    assert r[|emails|] == e;
  }

  /**
   * `subs.findIndex(s => s.email === email)`: the first index whose entry
   * carries `email`, or -1 when none does.
   */
  function IndexOfEmail(subs: seq<Submission>, email: string): (r: int)
    ensures -1 <= r < |subs|
    ensures r >= 0 ==> subs[r].email == email
    ensures forall i :: 0 <= i < |subs| && (r < 0 || i < r) ==> subs[i].email != email
  {
    if subs == [] then -1
    else if subs[0].email == email then 0
    else
      var r := IndexOfEmail(subs[1..], email);
      if r < 0 then -1 else r + 1
  }

  /** The exam document the services load, change and save. */
  class Exam {
    const id: string
    var examKey: string
    var examName: string
    var lecturer: string
    var link: string
    var access: ExamAccessType
    var invites: seq<string>
    var questions: seq<JsonValue>
    var submissions: seq<Submission>

    /** A newly created exam: no invites, no questions, no submissions. */
    constructor (id: string, examKey: string, examName: string, lecturer: string, access: ExamAccessType)
      ensures this.id == id && this.examKey == examKey && this.examName == examName
      ensures this.lecturer == lecturer && this.access == access && link == ""
      ensures invites == [] && questions == [] && submissions == []
    {
      this.id := id;
      this.examKey := examKey;
      this.examName := examName;
      this.lecturer := lecturer;
      this.access := access;
      link := "";
      invites := [];
      questions := [];
      submissions := [];
    }

    /** The fields only the CRUD surface edits: key, name, owning lecturer and link. */
    function Details(): (string, string, string, string)
      reads this
    {
      (examKey, examName, lecturer, link)
    }

    /** The submissions are keyed by lower-case e-mail: one per student. */
    ghost predicate SubmissionsKeyed()
      reads this
    {
      EmailsKeyed(Emails(submissions))
    }

    /** The invites are lower-case addresses, each listed once. */
    ghost predicate InvitesKeyed()
      reads this
    {
      EmailsKeyed(invites)
    }
  }
}
