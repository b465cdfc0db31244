/**
 * The exam operations that change or read an exam's invites and
 * submissions (exam.service.ts): recording a transcript, inviting students,
 * the student login gate with its shuffle, mailing transcripts back,
 * scheduling and removing an invite.
 *
 * `exam` is what the lookup by id or key finds (null when none); the mailer
 * is an oracle `mail(i)`, the error the i-th send throws or None; the
 * shuffle's random picks are an oracle `pick(i)`; `now` is the clock.
 */
module ExamService {
  import opened Wrappers
  import opened Errors
  import opened Text
  import opened ExamModel
  import opened ExamUtils

  // ================================================================ recording a transcript

  /**
   * What `updateSubmission` leaves in `submissions`: the first entry with the
   * lower-cased e-mail gets the transcript; with none, a blank submission
   * carrying it is appended.
   */
  function WithTranscript(subs: seq<Submission>, email: string, transcript: string, now: string): seq<Submission> {
    var key := Lower(email);
    var i := IndexOfEmail(subs, key);
    if i >= 0 then subs[i := subs[i].(transcript := Some(transcript))]
    else subs + [Submission(key, "", 0, now, 0, Some(transcript))]
  }

  /**
   * Recording a transcript keeps the submissions keyed and leaves exactly one
   * entry for the lower-cased e-mail, which carries the transcript.
   */
  lemma {:induction false} WithTranscriptKeyed(subs: seq<Submission>, email: string, transcript: string, now: string)
    requires EmailsKeyed(Emails(subs))
    ensures var r := WithTranscript(subs, email, transcript, now);
      EmailsKeyed(Emails(r)) && CountEmail(r, Lower(email)) == 1
      && exists k :: 0 <= k < |r| && r[k].email == Lower(email) && r[k].transcript == Some(transcript)
  {
    var key := Lower(email);
    var r := WithTranscript(subs, email, transcript, now);
    var i := IndexOfEmail(subs, key);
    if i >= 0 {
      EmailsOfReplace(subs, i, subs[i].(transcript := Some(transcript)));
      assert Emails(r)[i] == key && r[i].transcript == Some(transcript);
    } else {
      var s := Submission(key, "", 0, now, 0, Some(transcript));
      EmailsOfAppend(subs, s);
      assert key !in Emails(subs) by {
        assert forall a :: 0 <= a < |subs| ==> Emails(subs)[a] == subs[a].email;
      }
      LowerIsLowerCase(email);
      KeyedAppend(Emails(subs), key);
      assert Emails(r)[|subs|] == key && r[|subs|].transcript == Some(transcript);
    }
    CountKeyed(r, key);
  }

  /**
   * An existing entry keeps its answer, score and times and only its
   * transcript changes; no other entry changes; with no entry for the
   * address a blank submission is appended.
   */
  lemma {:induction false} WithTranscriptShape(subs: seq<Submission>, email: string, transcript: string, now: string)
    ensures var r := WithTranscript(subs, email, transcript, now);
      |subs| <= |r| <= |subs| + 1
      && forall k :: 0 <= k < |subs| ==>
        r[k] == (if subs[k].email == Lower(email) && k == IndexOfEmail(subs, Lower(email))
                 then subs[k].(transcript := Some(transcript)) else subs[k])
    ensures (forall k :: 0 <= k < |subs| ==> subs[k].email != Lower(email)) ==>
      WithTranscript(subs, email, transcript, now) == subs + [Submission(Lower(email), "", 0, now, 0, Some(transcript))]
  {
  }

  /** `updateSubmission(id, { email, transcript })` */
  method UpdateSubmission(exam: Exam?, email: string, transcript: string, now: string) returns (result: Result<string, Failure>)
    modifies exam
    ensures exam == null ==> result == Err(NotFound("Exam not found"))
    ensures exam != null ==>
      (result == Ok("Submission updated")
       && exam.submissions == WithTranscript(old(exam.submissions), email, transcript, now)
       && exam.invites == old(exam.invites) && exam.questions == old(exam.questions) && exam.access == old(exam.access)
       && exam.Details() == old(exam.Details()))
    ensures exam != null && old(exam.SubmissionsKeyed()) ==> exam.SubmissionsKeyed()
  {
    if exam == null {
      return Err(NotFound("Exam not found"));
    }
    if exam.SubmissionsKeyed() {
      WithTranscriptKeyed(exam.submissions, email, transcript, now);
    }
    var key := Lower(email);
    var i := IndexOfEmail(exam.submissions, key);
    if i >= 0 {
      exam.submissions := exam.submissions[i := exam.submissions[i].(transcript := Some(transcript))];
    } else {
      exam.submissions := exam.submissions + [Submission(key, "", 0, now, 0, Some(transcript))];
    }
    result := Ok("Submission updated");
  }

  // ================================================================ inviting students

  /** No value occurs twice. */
  predicate Distinct(s: seq<string>) {
    forall i, j :: 0 <= i < j < |s| ==> s[i] != s[j]
  }

  /** `Array.from(new Set(s))`: each value once, at its first occurrence, in order. */
  function Dedup(s: seq<string>): (r: seq<string>)
    ensures Distinct(r)
    ensures forall x :: x in r <==> x in s
  {
    if s == [] then []
    else
      var d := Dedup(s[..|s| - 1]);
      assert forall x :: x in s <==> x in s[..|s| - 1] || x == s[|s| - 1] by {
        assert s == s[..|s| - 1] + [s[|s| - 1]];
      }
      if s[|s| - 1] in d then d else d + [s[|s| - 1]]
  }

  /** Deduplicating an extended list keeps the deduplicated list as its prefix. */
  lemma {:induction false} DedupExtends(a: seq<string>, b: seq<string>)
    ensures Dedup(a) <= Dedup(a + b)
    decreases |b|
  {
    if b == [] {
      assert a + b == a;
    } else {
      var c := a + b[..|b| - 1];
      DedupExtends(a, b[..|b| - 1]);
      assert (a + b)[..|a + b| - 1] == c;
    }
  }

  /** A list without repeats is its own deduplication. */
  lemma {:induction false} DedupOfDistinct(s: seq<string>)
    requires Distinct(s)
    ensures Dedup(s) == s
  {
    if s != [] {
      var init := s[..|s| - 1];
      DedupOfDistinct(init);
      assert s[|s| - 1] !in init;
      assert init + [s[|s| - 1]] == s;
    }
  }

  /** `.map(e => e.toLowerCase())` */
  function LowerAll(ss: seq<string>): (r: seq<string>)
    ensures |r| == |ss| && forall i :: 0 <= i < |ss| ==> r[i] == Lower(ss[i])
  {
    if ss == [] then [] else [Lower(ss[0])] + LowerAll(ss[1..])
  }

  /**
   * The invite list `sendInvites` saves: the old invites followed by the new
   * lower-cased addresses, deduplicated, then lower-cased again by the save
   * hook.
   */
  function MergedInvites(invites: seq<string>, lowered: seq<string>): seq<string> {
    LowerAll(Dedup(invites + lowered))
  }

  /** Every lower-cased address is lower-case. */
  lemma {:induction false} LowerAllIsLowerCase(emails: seq<string>)
    ensures forall x :: x in LowerAll(emails) ==> IsLowerCase(x)
  {
    forall x | x in LowerAll(emails) ensures IsLowerCase(x) {
      var i :| 0 <= i < |emails| && LowerAll(emails)[i] == x;
      LowerIsLowerCase(emails[i]);
    }
  }

  /** Lower-casing a list of lower-case addresses changes nothing. */
  lemma {:induction false} LowerAllOfLowerCase(s: seq<string>)
    requires forall x :: x in s ==> IsLowerCase(x)
    ensures LowerAll(s) == s
  {
    forall i | 0 <= i < |s| ensures LowerAll(s)[i] == s[i] {
      LowerIsLowerCase(s[i]);
    }
  }

  /** The addresses in `LowerAll(emails)` are the lower-cased given ones. */
  lemma {:induction false} InLowerAll(emails: seq<string>, x: string)
    ensures x in LowerAll(emails) <==> exists i :: 0 <= i < |emails| && x == Lower(emails[i])
  {
    if exists i :: 0 <= i < |emails| && x == Lower(emails[i]) {
      var i :| 0 <= i < |emails| && x == Lower(emails[i]);
      assert LowerAll(emails)[i] == x;
    }
  }

  /**
   * Merging into keyed invites keeps them keyed, keeps every old invite in
   * its place, and adds exactly the new addresses not yet invited, each
   * once, in the order of their first occurrence; the save hook's second
   * lower-casing changes nothing.
   */
  lemma {:induction false} MergedInvitesKeyed(invites: seq<string>, emails: seq<string>)
    requires EmailsKeyed(invites)
    ensures var r := MergedInvites(invites, LowerAll(emails));
      EmailsKeyed(r) && invites <= r && r == Dedup(invites + LowerAll(emails))
      && forall x :: x in r <==> x in invites || exists i :: 0 <= i < |emails| && x == Lower(emails[i])
  {
    var lowered := LowerAll(emails);
    LowerAllIsLowerCase(emails);
    DedupKeyed(invites, lowered);
    forall x ensures x in Dedup(invites + lowered) <==> x in invites || exists i :: 0 <= i < |emails| && x == Lower(emails[i]) {
      InLowerAll(emails, x);
    }
  }

  /** Keyed invites followed by lower-case addresses dedupe to keyed invites that extend the old ones. */
  lemma {:induction false} DedupKeyed(invites: seq<string>, lowered: seq<string>)
    requires EmailsKeyed(invites)
    requires forall x :: x in lowered ==> IsLowerCase(x)
    ensures var d := Dedup(invites + lowered); EmailsKeyed(d) && LowerAll(d) == d && invites <= d
  {
    var d := Dedup(invites + lowered);
    DedupOfDistinct(invites);
    DedupExtends(invites, lowered);
    assert forall x :: x in d ==> IsLowerCase(x);
    LowerAllOfLowerCase(d);
    assert EmailsKeyed(d) by {
      assert forall i :: 0 <= i < |d| ==> d[i] in d;
    }
  }

  /** The part of MergedInvitesKeyed the invite operation needs. */
  lemma {:induction false} MergeKeepsKeyed(invites: seq<string>, emails: seq<string>)
    requires EmailsKeyed(invites)
    ensures EmailsKeyed(MergedInvites(invites, LowerAll(emails)))
  {
    MergedInvitesKeyed(invites, emails);
  }

  /** `names[idx] || 'Student'`: the name given for that position, when there is one and it is not empty. */
  function NameAt(names: seq<string>, idx: nat): (r: string)
    ensures r != []
    ensures idx < |names| && names[idx] != [] ==> r == names[idx]
  {
    if idx < |names| && names[idx] != [] then names[idx] else "Student"
  }

  /** `emails.map((email, idx) => ({ email, name: names[idx] || 'Student' }))` */
  function Recipients(lowered: seq<string>, names: seq<string>): (r: seq<Recipient>)
    ensures |r| == |lowered|
    ensures forall i :: 0 <= i < |lowered| ==> r[i] == Recipient(lowered[i], NameAt(names, i))
  {
    seq(|lowered|, i requires 0 <= i < |lowered| => Recipient(lowered[i], NameAt(names, i)))
  }

  /** What the request adds: the roster's entries (when a file came) followed by the listed ones. */
  function InviteLists(csv: Option<string>, dtoEmails: seq<string>, dtoNames: seq<string>): Result<(seq<string>, seq<string>), Failure> {
    if csv.None? then Ok((dtoEmails, dtoNames))
    else
      var emails := ReturnEmails(csv.value, true);
      if emails.Err? then Err(emails.error)
      else
        ReturnNamesNeverFails(csv.value, true);
        Ok((emails.value + dtoEmails, ReturnNames(csv.value, true).value + dtoNames))
  }

  /**
   * `sendInvites(id, dto, lecturer, file)`. The exam must exist and belong
   * to `lecturer`, and the roster must parse, before anything changes. The
   * invites become the merged list and each new address is mailed with its
   * paired name; the exam document's save hook, which mails the invites
   * itself and can fail the save, is not part of this model.
   */
  method SendInvites(exam: Exam?, lecturer: string, csv: Option<string>, dtoEmails: seq<string>, dtoNames: seq<string>,
                     deliver: nat -> Option<string>)
    returns (result: Result<string, Failure>, recipients: seq<Recipient>)
    modifies exam
    ensures exam == null ==> result == Err(NotFound("Exam not found")) && recipients == []
    ensures exam != null && exam.lecturer != lecturer ==>
      result == Err(BadRequest("User does not own this exam")) && recipients == [] && exam.invites == old(exam.invites)
    ensures exam != null && exam.lecturer == lecturer && InviteLists(csv, dtoEmails, dtoNames).Err? ==>
      result == Err(InviteLists(csv, dtoEmails, dtoNames).error) && recipients == [] && exam.invites == old(exam.invites)
    ensures exam != null && exam.lecturer == lecturer && InviteLists(csv, dtoEmails, dtoNames).Ok? ==>
      exam.invites == MergedInvites(old(exam.invites), LowerAll(InviteLists(csv, dtoEmails, dtoNames).value.0))
      && recipients == Recipients(LowerAll(InviteLists(csv, dtoEmails, dtoNames).value.0),
                                  InviteLists(csv, dtoEmails, dtoNames).value.1)
      && (result.Ok? <==> forall i :: 0 <= i < |recipients| ==> deliver(i).None?)
      && (result.Ok? ==> result.value == "Invites sent")
      && (result.Err? ==> result.error == InviteFailure(FailedSends(recipients, deliver, |recipients|), |recipients|))
    ensures exam != null ==>
      (exam.submissions == old(exam.submissions) && exam.questions == old(exam.questions)
       && exam.access == old(exam.access) && exam.Details() == old(exam.Details()))
    ensures exam != null && old(exam.InvitesKeyed()) ==> exam.InvitesKeyed()
  {
    recipients := [];
    if exam == null {
      return Err(NotFound("Exam not found")), [];
    }
    if exam.lecturer != lecturer {
      return Err(BadRequest("User does not own this exam")), [];
    }
    var lists := InviteLists(csv, dtoEmails, dtoNames);
    if lists.Err? {
      return Err(lists.error), [];
    }
    result, recipients := MergeAndMail(exam, lists.value.0, lists.value.1, deliver);
  }

  /** Once the request is accepted: the lowered e-mails are merged into the invites, then mailed. */
  method MergeAndMail(exam: Exam, emails: seq<string>, names: seq<string>, deliver: nat -> Option<string>)
    returns (result: Result<string, Failure>, recipients: seq<Recipient>)
    modifies exam
    ensures exam.invites == MergedInvites(old(exam.invites), LowerAll(emails))
    ensures recipients == Recipients(LowerAll(emails), names)
    ensures result.Ok? <==> forall i :: 0 <= i < |recipients| ==> deliver(i).None?
    ensures result.Ok? ==> result.value == "Invites sent"
    ensures result.Err? ==> result.error == InviteFailure(FailedSends(recipients, deliver, |recipients|), |recipients|)
    ensures exam.submissions == old(exam.submissions) && exam.questions == old(exam.questions)
      && exam.access == old(exam.access) && exam.Details() == old(exam.Details())
    ensures old(exam.InvitesKeyed()) ==> exam.InvitesKeyed()
  {
    var lowered := LowerAll(emails);
    if exam.InvitesKeyed() {
      MergeKeepsKeyed(exam.invites, emails);
    }
    exam.invites := MergedInvites(exam.invites, lowered);
    recipients := Recipients(lowered, names);
    result := MailInvites(recipients, deliver);
  }

  /** The mailing step of `sendInvites`: one attempt per recipient, failing at the end if any send failed. */
  method MailInvites(recipients: seq<Recipient>, deliver: nat -> Option<string>) returns (result: Result<string, Failure>)
    ensures result.Ok? <==> forall i :: 0 <= i < |recipients| ==> deliver(i).None?
    ensures result.Ok? ==> result.value == "Invites sent"
    ensures result.Err? ==> result.error == InviteFailure(FailedSends(recipients, deliver, |recipients|), |recipients|)
  {
    var sent, _ := SendInvite(recipients, deliver);
    if sent.Err? {
      return Err(sent.error);
    }
    result := Ok("Invites sent");
  }

  // ================================================================ student login

  /** The access gate: an exam that is not OPEN admits only invited addresses, compared lower-cased. */
  function LoginGate(access: ExamAccessType, invites: seq<string>, email: string): (r: Result<(), Failure>)
    ensures r.Ok? <==> access == OPEN || Lower(email) in invites
    ensures r.Err? ==> r.error == BadRequest("Student not invited for this exam")
  {
    if access != OPEN && Lower(email) !in invites then Err(BadRequest("Student not invited for this exam")) else Ok(())
  }

  /** `[s[i], s[j]] = [s[j], s[i]]` */
  function Swap(s: seq<JsonValue>, i: nat, j: nat): (r: seq<JsonValue>)
    requires i < |s| && j < |s|
    ensures |r| == |s|
  {
    s[i := s[j]][j := s[i]]
  }

  /** Swapping two places permutes the list. */
  lemma {:induction false} SwapPermutes(s: seq<JsonValue>, i: nat, j: nat)
    requires i < |s| && j < |s|
    ensures multiset(Swap(s, i, j)) == multiset(s)
  {
    var t := s[i := s[j]];
    assert multiset(t) == multiset(s) - multiset{s[i]} + multiset{s[j]};
    assert t[j] == (if i == j then s[j] else s[j]);
  }

  /** The Fisher–Yates pass from position `i` down to 1, swapping position k with `pick(k)`. */
  function Shuffled(s: seq<JsonValue>, pick: nat -> nat, i: nat): (r: seq<JsonValue>)
    requires i < |s|
    requires forall k :: 0 < k <= i ==> pick(k) <= k
    ensures |r| == |s|
    decreases i
  {
    if i == 0 then s else Shuffled(Swap(s, i, pick(i)), pick, i - 1)
  }

  /** The shuffle is a permutation, for any picks within range. */
  lemma {:induction false} ShuffledPermutes(s: seq<JsonValue>, pick: nat -> nat, i: nat)
    requires i < |s|
    requires forall k :: 0 < k <= i ==> pick(k) <= k
    ensures multiset(Shuffled(s, pick, i)) == multiset(s)
    decreases i
  {
    if i > 0 {
      SwapPermutes(s, i, pick(i));
      ShuffledPermutes(Swap(s, i, pick(i)), pick, i - 1);
    }
  }

  /** What `studentLogin` returns: the exam's id, name and key and its questions in shuffled order. */
  datatype LoginView = LoginView(id: string, examName: string, examKey: string, questions: seq<JsonValue>)

  /** The swap loop of `studentLogin`, in place on the copied array. */
  method ShuffleInPlace(questions: array<JsonValue>, pick: nat -> nat)
    requires forall k :: 0 < k ==> pick(k) <= k
    modifies questions
    ensures questions.Length > 0 ==> questions[..] == Shuffled(old(questions[..]), pick, questions.Length - 1)
    ensures questions.Length == 0 ==> questions[..] == old(questions[..])
  {
    if questions.Length == 0 {
      return;
    }
    var i := questions.Length - 1;
    while i > 0
      invariant 0 <= i < questions.Length
      invariant Shuffled(questions[..], pick, i) == Shuffled(old(questions[..]), pick, questions.Length - 1)
      decreases i
    {
      var j := pick(i);
      assert Swap(questions[..], i, j) == questions[..][i := questions[j]][j := questions[i]];
      questions[i], questions[j] := questions[j], questions[i];
      i := i - 1;
    }
  }

  /** The returned order: the stored questions shuffled by the picks. */
  function ShuffledQuestions(stored: seq<JsonValue>, pick: nat -> nat): (r: seq<JsonValue>)
    requires forall k :: 0 < k ==> pick(k) <= k
  {
    if |stored| == 0 then [] else Shuffled(stored, pick, |stored| - 1)
  }

  /** Whatever the picks, the returned questions are a permutation of the stored ones. */
  lemma {:induction false} ShuffledQuestionsPermute(stored: seq<JsonValue>, pick: nat -> nat)
    requires forall k :: 0 < k ==> pick(k) <= k
    ensures multiset(ShuffledQuestions(stored, pick)) == multiset(stored)
  {
    if |stored| > 0 {
      ShuffledPermutes(stored, pick, |stored| - 1);
    }
  }

  /**
   * `studentLogin(examKey, email)`. `pick(i)` is `Math.floor(Math.random() *
   * (i + 1))` at step i. The questions returned are a shuffled copy, a
   * permutation of the stored list; the exam is not changed.
   */
  method StudentLogin(exam: Exam?, email: string, pick: nat -> nat) returns (result: Result<LoginView, Failure>)
    requires forall k :: 0 < k ==> pick(k) <= k
    ensures exam == null ==> result == Err(NotFound("Exam not found"))
    ensures exam != null && LoginGate(exam.access, exam.invites, email).Err? ==>
      result == Err(LoginGate(exam.access, exam.invites, email).error)
    ensures exam != null && LoginGate(exam.access, exam.invites, email).Ok? ==>
      result == Ok(LoginView(exam.id, exam.examName, exam.examKey, ShuffledQuestions(exam.questions, pick)))
      && multiset(result.value.questions) == multiset(exam.questions)
  {
    if exam == null {
      return Err(NotFound("Exam not found"));
    }
    var gate := LoginGate(exam.access, exam.invites, email);
    if gate.Err? {
      return Err(gate.error);
    }
    var stored := exam.questions;
    var questions := new JsonValue[|stored|](k requires 0 <= k < |stored| => stored[k]);
    assert questions[..] == stored;
    ShuffleInPlace(questions, pick);
    ShuffledQuestionsPermute(stored, pick);
    result := Ok(LoginView(exam.id, exam.examName, exam.examKey, questions[..]));
  }

  // ================================================================ mailing transcripts back

  /** The transcript link for one address, looked up lower-cased; a missing or empty one is an error naming the address. */
  function TranscriptFor(subs: seq<Submission>, addr: string): Result<string, Failure> {
    var i := IndexOfEmail(subs, Lower(addr));
    if i < 0 then Err(BadRequest("No submission for email " + addr))
    else if subs[i].transcript.None? || subs[i].transcript.value == [] then
      Err(BadRequest("Transcript not yet generated for " + addr))
    else Ok(subs[i].transcript.value)
  }

  /**
   * The link found is a non-empty transcript of the submission stored under
   * the lower-cased address; with no such submission the error names the
   * address as given, and with no transcript yet it says so.
   */
  lemma {:induction false} TranscriptLookup(subs: seq<Submission>, addr: string)
    ensures var r := TranscriptFor(subs, addr);
      r.Ok? ==> r.value != [] && exists k :: 0 <= k < |subs| && subs[k].email == Lower(addr) && subs[k].transcript == Some(r.value)
    ensures (forall k :: 0 <= k < |subs| ==> subs[k].email != Lower(addr)) ==>
      TranscriptFor(subs, addr) == Err(BadRequest("No submission for email " + addr))
    ensures EmailsKeyed(Emails(subs)) && (exists k :: 0 <= k < |subs| && subs[k].email == Lower(addr)
                                           && (subs[k].transcript == None || subs[k].transcript == Some(""))) ==>
      TranscriptFor(subs, addr) == Err(BadRequest("Transcript not yet generated for " + addr))
  {
    var key := Lower(addr);
    if EmailsKeyed(Emails(subs)) && (exists k :: 0 <= k < |subs| && subs[k].email == key
                                       && (subs[k].transcript == None || subs[k].transcript == Some(""))) {
      var k :| 0 <= k < |subs| && subs[k].email == key && (subs[k].transcript == None || subs[k].transcript == Some(""));
      IndexOfKeyed(subs, key, k);
    }
  }

  /** In a keyed submission list, the search finds the one submission with that e-mail. */
  lemma {:induction false} IndexOfKeyed(subs: seq<Submission>, key: string, k: nat)
    requires EmailsKeyed(Emails(subs)) && k < |subs| && subs[k].email == key
    ensures IndexOfEmail(subs, key) == k
  {
    var i := IndexOfEmail(subs, key);
    assert i >= 0;
    assert Emails(subs)[i] == key == Emails(subs)[k];
  }

  /** A transcript mailed: the address as given and the link. */
  datatype Mailed = Mailed(to: string, link: string)

  /** The transcript lookup of every address, in order. */
  function Lookups(subs: seq<Submission>, emails: seq<string>): (r: seq<Result<string, Failure>>)
    ensures |r| == |emails| && forall k :: 0 <= k < |emails| ==> r[k] == TranscriptFor(subs, emails[k])
  {
    seq(|emails|, k requires 0 <= k < |emails| => TranscriptFor(subs, emails[k]))
  }

  /**
   * The loop of `sendExamBack` from position i, given each address's lookup:
   * each transcript is checked and mailed in turn, and the first check or
   * send that fails ends it.
   */
  function ExamBackFrom(checks: seq<Result<string, Failure>>, emails: seq<string>, mail: nat -> Option<string>, i: nat)
    : (Result<(), Failure>, seq<Mailed>)
    requires |checks| == |emails| && i <= |emails|
    decreases |emails| - i
  {
    if i == |emails| then (Ok(()), [])
    else if checks[i].Err? then (Err(checks[i].error), [])
    else if mail(i).Some? then (Err(PlainError(mail(i).value)), [Mailed(emails[i], checks[i].value)])
    else
      var rest := ExamBackFrom(checks, emails, mail, i + 1);
      (rest.0, [Mailed(emails[i], checks[i].value)] + rest.1)
  }

  /** `sent` mails, in order, the transcripts of the addresses from position i, each of which passed its check. */
  predicate MailedInOrder(checks: seq<Result<string, Failure>>, emails: seq<string>, i: nat, sent: seq<Mailed>) {
    |checks| == |emails| && i + |sent| <= |emails|
    && forall k :: i <= k < i + |sent| ==> checks[k].Ok? && sent[k - i] == Mailed(emails[k], checks[k].value)
  }

  /** The mails sent are, in order, the transcripts of the addresses from position i, each of which passed its check. */
  lemma {:induction false} ExamBackMailsInOrder(checks: seq<Result<string, Failure>>, emails: seq<string>,
                                                mail: nat -> Option<string>, i: nat)
    requires |checks| == |emails| && i <= |emails|
    ensures MailedInOrder(checks, emails, i, ExamBackFrom(checks, emails, mail, i).1)
    decreases |emails| - i
  {
    var sent := ExamBackFrom(checks, emails, mail, i).1;
    if i < |emails| && checks[i].Ok? {
      var m := Mailed(emails[i], checks[i].value);
      if mail(i).Some? {
        assert sent == [m];
      } else {
        var rest := ExamBackFrom(checks, emails, mail, i + 1).1;
        ExamBackMailsInOrder(checks, emails, mail, i + 1);
        assert sent == [m] + rest;
        forall k | i < k < i + |sent|
          ensures checks[k].Ok? && sent[k - i] == Mailed(emails[k], checks[k].value)
        {
          assert sent[k - i] == rest[k - (i + 1)];
        }
      }
    }
  }

  /** Success means every address from position i was checked and mailed. */
  lemma {:induction false} ExamBackSuccess(checks: seq<Result<string, Failure>>, emails: seq<string>,
                                           mail: nat -> Option<string>, i: nat)
    requires |checks| == |emails| && i <= |emails|
    ensures ExamBackFrom(checks, emails, mail, i).0.Ok? <==>
      forall k :: i <= k < |emails| ==> checks[k].Ok? && mail(k).None?
    ensures ExamBackFrom(checks, emails, mail, i).0.Ok? ==> |ExamBackFrom(checks, emails, mail, i).1| == |emails| - i
    decreases |emails| - i
  {
    if i < |emails| && checks[i].Ok? && mail(i).None? {
      ExamBackSuccess(checks, emails, mail, i + 1);
    }
  }

  /**
   * A failure is either the check of the first address not mailed, or the
   * send of the last address mailed; every earlier send went through.
   */
  lemma {:induction false} ExamBackFailure(checks: seq<Result<string, Failure>>, emails: seq<string>,
                                           mail: nat -> Option<string>, i: nat)
    requires |checks| == |emails| && i <= |emails|
    ensures var (r, sent) := ExamBackFrom(checks, emails, mail, i);
      r.Err? ==>
        (i + |sent| < |emails| && checks[i + |sent|] == Err(r.error)
         && forall k :: i <= k < i + |sent| ==> mail(k).None?)
        || (|sent| > 0 && mail(i + |sent| - 1) == Some(r.error.message) && r.error == PlainError(r.error.message)
            && forall k :: i <= k < i + |sent| - 1 ==> mail(k).None?)
    decreases |emails| - i
  {
    if i < |emails| && checks[i].Ok? && mail(i).None? {
      var (r, sent) := ExamBackFrom(checks, emails, mail, i);
      var (r1, sent1) := ExamBackFrom(checks, emails, mail, i + 1);
      ExamBackFailure(checks, emails, mail, i + 1);
      assert r == r1 && |sent| == |sent1| + 1;
      assert i + |sent| == (i + 1) + |sent1|;
    }
  }

  /** `Transcript sent to N student(s) successfully`, plural exactly when more than one. */
  function ExamBackMessage(n: nat): (r: string)
    ensures n > 1 <==> r == "Transcript sent to " + NatToString(n) + " students successfully"
    ensures n <= 1 ==> r == "Transcript sent to " + NatToString(n) + " student successfully"
  {
    "Transcript sent to " + NatToString(n) + " student" + (if n > 1 then "s" else "") + " successfully"
  }

  /** `sendExamBack(id, email)` with `email` already a list. */
  method SendExamBack(exam: Exam?, emails: seq<string>, mail: nat -> Option<string>)
    returns (result: Result<string, Failure>, sent: seq<Mailed>)
    ensures exam == null ==> result == Err(NotFound("Exam not found")) && sent == []
    ensures exam != null ==>
      var (r, mailed) := ExamBackFrom(Lookups(exam.submissions, emails), emails, mail, 0);
      sent == mailed && (r.Ok? ==> result == Ok(ExamBackMessage(|emails|))) && (r.Err? ==> result == Err(r.error))
  {
    sent := [];
    if exam == null {
      return Err(NotFound("Exam not found")), [];
    }
    var subs := exam.submissions;
    ghost var checks := Lookups(subs, emails);
    ghost var whole := ExamBackFrom(checks, emails, mail, 0);
    assert sent + whole.1 == whole.1;
    var i := 0;
    while i < |emails|
      invariant 0 <= i <= |emails|
      invariant whole == (ExamBackFrom(checks, emails, mail, i).0, sent + ExamBackFrom(checks, emails, mail, i).1)
    {
      ghost var here := ExamBackFrom(checks, emails, mail, i);
      var t := TranscriptFor(subs, emails[i]);
      assert t == checks[i];
      if t.Err? {
        assert here == (Err(t.error), []);
        assert sent + [] == sent;
        return Err(t.error), sent;
      }
      ghost var before := sent;
      sent := sent + [Mailed(emails[i], t.value)];
      if mail(i).Some? {
        assert here == (Err(PlainError(mail(i).value)), [Mailed(emails[i], t.value)]);
        return Err(PlainError(mail(i).value)), sent;
      }
      ghost var next := ExamBackFrom(checks, emails, mail, i + 1);
      assert here == (next.0, [Mailed(emails[i], t.value)] + next.1);
      assert before + ([Mailed(emails[i], t.value)] + next.1) == sent + next.1;
      i := i + 1;
    }
    assert sent + [] == sent;
    result := Ok(ExamBackMessage(|emails|));
  }

  /** `Array.isArray(email) ? email : [email]` */
  datatype EmailArg = One(address: string) | Many(addresses: seq<string>)

  function EmailList(arg: EmailArg): (r: seq<string>)
    ensures arg.One? ==> r == [arg.address]
    ensures arg.Many? ==> r == arg.addresses
  {
    match arg
    case One(a) => [a]
    case Many(s) => s
  }

  // ================================================================ scheduling

  /** `Math.max(start - now, 0)`: the wait before the exam opens, never negative. */
  function ScheduleDelay(start: int, now: int): (delay: nat)
    ensures now + delay == if start > now then start else now
  {
    if start - now > 0 then start - now else 0
  }

  /** The job `scheduleExam` enqueues. */
  datatype OpenExamJob = OpenExamJob(name: string, examId: string, delay: nat)

  /** A start in the past is not refused: the job is queued to run at once. */
  lemma {:induction false} PastStartClamped(start: int, now: int)
    requires start <= now
    ensures ScheduleDelay(start, now) == 0
  {
  }

  /**
   * `scheduleExam(id, date)`: the exam becomes SCHEDULED, an `open-exam` job
   * is queued to wait until the start, and "Exam scheduled" is returned.
   */
  method ScheduleExam(exam: Exam?, start: int, now: int) returns (result: Result<string, Failure>, queued: Option<OpenExamJob>)
    modifies exam
    ensures exam == null ==> result == Err(NotFound("Exam not found")) && queued == None
    ensures exam != null ==>
      (exam.access == SCHEDULED && result == Ok("Exam scheduled")
       && queued == Some(OpenExamJob("open-exam", exam.id, ScheduleDelay(start, now)))
       && exam.invites == old(exam.invites) && exam.submissions == old(exam.submissions)
       && exam.questions == old(exam.questions) && exam.Details() == old(exam.Details()))
  {
    if exam == null {
      return Err(NotFound("Exam not found")), None;
    }
    exam.access := SCHEDULED;
    queued := Some(OpenExamJob("open-exam", exam.id, ScheduleDelay(start, now)));
    result := Ok("Exam scheduled");
  }

  // ================================================================ removing an invite

  /** `$pull`: every occurrence of `e` removed, the rest in order. */
  function RemoveAll(s: seq<string>, e: string): (r: seq<string>)
    ensures forall x :: x in r <==> x in s && x != e
    ensures |r| <= |s|
  {
    if s == [] then []
    else (if s[0] == e then [] else [s[0]]) + RemoveAll(s[1..], e)
  }

  /** Removal works piecewise, so the others keep their order; a list without `e` is unchanged. */
  lemma {:induction false} RemoveAllOrder(a: seq<string>, b: seq<string>, e: string)
    ensures RemoveAll(a + b, e) == RemoveAll(a, e) + RemoveAll(b, e)
    ensures e !in a ==> RemoveAll(a, e) == a
  {
    if a != [] {
      var h := if a[0] == e then [] else [a[0]];
      assert (a + b)[0] == a[0] && (a + b)[1..] == a[1..] + b;
      RemoveAllOrder(a[1..], b, e);
      assert RemoveAll(a + b, e) == h + RemoveAll(a[1..] + b, e);
      assert h + (RemoveAll(a[1..], e) + RemoveAll(b, e)) == (h + RemoveAll(a[1..], e)) + RemoveAll(b, e);
      if e !in a {
        assert e !in a[1..] && a == [a[0]] + a[1..];
      }
    } else {
      assert a + b == b;
    }
  }

  /** Removing an invite keeps the invites keyed. */
  lemma {:induction false} RemoveAllKeyed(s: seq<string>, e: string)
    requires EmailsKeyed(s)
    ensures EmailsKeyed(RemoveAll(s, e))
  {
    if s != [] {
      RemoveAllKeyed(s[1..], e);
      var rest := RemoveAll(s[1..], e);
      assert s[0] !in rest by { assert s[0] !in s[1..]; }
    }
  }

  /** `dropEmailFromInvite(email, key)`: a missing exam is left alone and the reply is the same. */
  method DropEmailFromInvite(exam: Exam?, email: string) returns (message: string)
    modifies exam
    ensures message == "Email removed"
    ensures exam != null ==>
      (exam.invites == RemoveAll(old(exam.invites), Lower(email))
       && exam.submissions == old(exam.submissions) && exam.questions == old(exam.questions)
       && exam.access == old(exam.access) && exam.Details() == old(exam.Details()))
    ensures exam != null && old(exam.InvitesKeyed()) ==> exam.InvitesKeyed()
  {
    if exam != null {
      if exam.InvitesKeyed() {
        RemoveAllKeyed(exam.invites, Lower(email));
      }
      exam.invites := RemoveAll(exam.invites, Lower(email));
    }
    message := "Email removed";
  }
}
