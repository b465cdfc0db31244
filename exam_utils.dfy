/**
 * The invite helpers (exam.utils.ts): reading e-mails and names from an
 * uploaded CSV roster, and sending invitations while collecting failures.
 *
 * The CSV is given as its decoded text; the mailer is an oracle argument
 * `deliver(i)`, the error message the i-th send throws, or None when it is
 * delivered.
 */
module ExamUtils {
  import opened Wrappers
  import opened Errors
  import opened Text

  // ================================================================ CSV rows and cells

  /** `.map(x => x.trim())` */
  function TrimAll(ss: seq<string>): (r: seq<string>)
    ensures |r| == |ss| && forall i :: 0 <= i < |ss| ==> r[i] == Trim(ss[i])
  {
    if ss == [] then [] else [Trim(ss[0])] + TrimAll(ss[1..])
  }

  /** `.filter(Boolean)`: the non-empty strings, in order. */
  function DropEmpty(ss: seq<string>): (r: seq<string>)
    ensures forall x :: x in r <==> x in ss && x != []
    ensures |r| <= |ss|
  {
    if ss == [] then []
    else (if ss[0] != [] then [ss[0]] else []) + DropEmpty(ss[1..])
  }

  /**
   * Filtering works piece by piece, so the kept strings stay in their input
   * order, repeats included, and a list without empty strings is kept whole.
   */
  lemma {:induction false} DropEmptyOrder(a: seq<string>, b: seq<string>)
    ensures DropEmpty(a + b) == DropEmpty(a) + DropEmpty(b)
    ensures (forall i :: 0 <= i < |a| ==> a[i] != []) ==> DropEmpty(a) == a
  {
    if a != [] {
      assert (a + b)[0] == a[0] && (a + b)[1..] == a[1..] + b;
      DropEmptyOrder(a[1..], b);
    } else {
      assert a + b == b;
    }
  }

  /**
   * The data rows of a roster: the text trimmed, split into lines, each line
   * trimmed, blank lines dropped, and the first remaining row dropped as the
   * header when `skipHeader` (the default) is set.
   */
  function Rows(content: string, skipHeader: bool): seq<string> {
    var rows := DropEmpty(TrimAll(Split(Trim(content), '\n')));
    if skipHeader then (if rows == [] then [] else rows[1..]) else rows
  }

  /** `row.split(',').map(c => c.trim())` */
  function Cells(row: string): (cells: seq<string>)
    ensures |cells| >= 1
  {
    TrimAll(Split(row, ','))
  }

  /** Trimming keeps only characters of the string. */
  lemma {:induction false} TrimKeepsCharacters(s: string, c: char)
    requires c in Trim(s)
    ensures c in s
  {
    TrimParts(s);
    var k := |s| - |TrimStart(s)|;
    var r := Trim(s);
    assert r == s[k..k + |r|];
    var i :| 0 <= i < |r| && r[i] == c;
    assert s[k + i] == c;
  }

  /** Every row is a non-blank line of the roster, trimmed. */
  lemma {:induction false} RowsAreTrimmedLines(content: string, skipHeader: bool)
    ensures forall r :: r in Rows(content, skipHeader) ==>
      r != [] && '\n' !in r && exists line :: line in Split(Trim(content), '\n') && Trim(line) == r
  {
    var lines := Split(Trim(content), '\n');
    var trimmed := TrimAll(lines);
    var all := DropEmpty(trimmed);
    assert forall r :: r in Rows(content, skipHeader) ==> r in all;
    forall r | r in all
      ensures r != [] && '\n' !in r && exists line :: line in lines && Trim(line) == r
    {
      var i :| 0 <= i < |trimmed| && trimmed[i] == r;
      assert lines[i] in lines && Trim(lines[i]) == r;
      if '\n' in r {
        TrimKeepsCharacters(lines[i], '\n');
        assert false;
      }
    }
  }

  /** Every non-blank line of the roster is a row unless it is the header. */
  lemma {:induction false} LinesAreRows(content: string)
    ensures forall line :: line in Split(Trim(content), '\n') && Trim(line) != [] ==> Trim(line) in Rows(content, false)
    ensures Rows(content, false) != [] ==> Rows(content, true) == Rows(content, false)[1..]
    ensures Rows(content, false) == [] ==> Rows(content, true) == []
  {
    var lines := Split(Trim(content), '\n');
    var trimmed := TrimAll(lines);
    forall line | line in lines && Trim(line) != []
      ensures Trim(line) in Rows(content, false)
    {
      var i :| 0 <= i < |lines| && lines[i] == line;
      assert trimmed[i] == Trim(line);
    }
  }

  // ================================================================ e-mails and names

  /** The second cell of every row, or None when some row has fewer than two cells. */
  function SecondCells(rows: seq<string>): (r: Option<seq<string>>)
    ensures r.Some? <==> forall i :: 0 <= i < |rows| ==> |Cells(rows[i])| >= 2
    ensures r.Some? ==> |r.value| == |rows| && forall i :: 0 <= i < |rows| ==> r.value[i] == Cells(rows[i])[1]
  {
    if rows == [] then Some([])
    else
      var cells := Cells(rows[0]);
      var rest := SecondCells(rows[1..]);
      if |cells| < 2 || rest.None? then
        assert |cells| >= 2 ==> exists i :: 0 <= i < |rows[1..]| && |Cells(rows[1..][i])| < 2;
        None
      else Some([cells[1]] + rest.value)
  }

  /** `returnEmails(file, skipHeader)`: the trimmed second cell of each data row. */
  function ReturnEmails(content: string, skipHeader: bool): Result<seq<string>, Failure> {
    var emails := SecondCells(Rows(content, skipHeader));
    if emails.None? then Err(PlainError("Invalid CSV: cannot extract emails")) else Ok(emails.value)
  }

  /** The first cell of every row, or None when a row has no cell at all. */
  function FirstCells(rows: seq<string>): Option<seq<string>> {
    if rows == [] then Some([])
    else
      var cells := Cells(rows[0]);
      var rest := FirstCells(rows[1..]);
      if |cells| < 1 || rest.None? then None else Some([cells[0]] + rest.value)
  }

  /** `returnNames(file, skipHeader)`: the trimmed first cell of each data row. */
  function ReturnNames(content: string, skipHeader: bool): Result<seq<string>, Failure> {
    var names := FirstCells(Rows(content, skipHeader));
    if names.None? then Err(PlainError("Invalid CSV: cannot extract names")) else Ok(names.value)
  }

  /** A split always has a first part, so every row has a name cell. */
  lemma {:induction false} FirstCellsTotal(rows: seq<string>)
    ensures FirstCells(rows).Some?
    ensures |FirstCells(rows).value| == |rows|
    ensures forall i :: 0 <= i < |rows| ==> FirstCells(rows).value[i] == Cells(rows[i])[0]
  {
    if rows != [] {
      FirstCellsTotal(rows[1..]);
    }
  }

  /** `returnNames` never fails: its error branch cannot be reached. */
  lemma {:induction false} ReturnNamesNeverFails(content: string, skipHeader: bool)
    ensures ReturnNames(content, skipHeader).Ok?
    ensures |ReturnNames(content, skipHeader).value| == |Rows(content, skipHeader)|
  {
    FirstCellsTotal(Rows(content, skipHeader));
  }

  /**
   * `returnEmails` fails exactly when a data row has fewer than two cells;
   * when it succeeds it pairs with `returnNames` row by row: the i-th e-mail
   * and the i-th name are the second and first cell of the same row.
   */
  lemma {:induction false} EmailsAndNamesAligned(content: string, skipHeader: bool)
    ensures ReturnEmails(content, skipHeader).Err? <==>
      exists i :: 0 <= i < |Rows(content, skipHeader)| && |Cells(Rows(content, skipHeader)[i])| < 2
    ensures ReturnEmails(content, skipHeader).Err? ==>
      ReturnEmails(content, skipHeader).error == PlainError("Invalid CSV: cannot extract emails")
    ensures ReturnNames(content, skipHeader).Ok?
    ensures ReturnEmails(content, skipHeader).Ok? ==>
      var rows, emails, names := Rows(content, skipHeader), ReturnEmails(content, skipHeader).value,
                                 ReturnNames(content, skipHeader).value;
      |emails| == |names| == |rows|
      && forall i :: 0 <= i < |rows| ==> emails[i] == Cells(rows[i])[1] && names[i] == Cells(rows[i])[0]
  {
    var rows := Rows(content, skipHeader);
    CellsAligned(rows);
  }

  /** Row by row, the second cells (when every row has one) sit beside the first cells. */
  lemma {:induction false} CellsAligned(rows: seq<string>)
    ensures SecondCells(rows).None? <==> exists i :: 0 <= i < |rows| && |Cells(rows[i])| < 2
    ensures FirstCells(rows).Some? && |FirstCells(rows).value| == |rows|
    ensures SecondCells(rows).Some? ==>
      |SecondCells(rows).value| == |rows|
      && forall i :: 0 <= i < |rows| ==>
           SecondCells(rows).value[i] == Cells(rows[i])[1] && FirstCells(rows).value[i] == Cells(rows[i])[0]
  {
    FirstCellsTotal(rows);
  }

  // ================================================================ sending invitations

  /** Who an invitation goes to and the name it greets. */
  datatype Recipient = Recipient(email: string, name: string)

  /** `parts.join(sep)` for a separator of several characters. */
  function JoinWith(parts: seq<string>, sep: string): string {
    if |parts| == 0 then []
    else if |parts| == 1 then parts[0]
    else parts[0] + sep + JoinWith(parts[1..], sep)
  }

  /** The `email: error` entries for the sends among the first `n` that threw, in order. */
  function FailedSends(recipients: seq<Recipient>, deliver: nat -> Option<string>, n: nat): (r: seq<string>)
    requires n <= |recipients|
    ensures |r| <= n
    ensures r == [] <==> forall i :: 0 <= i < n ==> deliver(i).None?
  {
    if n == 0 then []
    else
      var earlier := FailedSends(recipients, deliver, n - 1);
      if deliver(n - 1).Some? then earlier + [recipients[n - 1].email + ": " + deliver(n - 1).value]
      else earlier
  }

  /** The error `sendInvite` throws once every recipient has been tried. */
  function InviteFailure(failed: seq<string>, total: nat): Failure {
    PlainError("Failed to send " + NatToString(|failed|) + "/" + NatToString(total) + " invite(s): "
               + JoinWith(failed, "; "))
  }

  /**
   * `sendInvite(recipients, ...)`: every recipient is sent to, in order,
   * whatever happened to the earlier ones; it throws once at the end,
   * exactly when some send failed, reporting the failures over the total.
   */
  method SendInvite(recipients: seq<Recipient>, deliver: nat -> Option<string>)
    returns (result: Result<(), Failure>, sentTo: seq<string>)
    ensures |sentTo| == |recipients| && forall i :: 0 <= i < |recipients| ==> sentTo[i] == recipients[i].email
    ensures result.Err? <==> exists i :: 0 <= i < |recipients| && deliver(i).Some?
    ensures result.Err? ==> result.error == InviteFailure(FailedSends(recipients, deliver, |recipients|), |recipients|)
  {
    var errors: seq<string> := [];
    sentTo := [];
    var i := 0;
    while i < |recipients|
      invariant 0 <= i <= |recipients|
      invariant |sentTo| == i && forall k :: 0 <= k < i ==> sentTo[k] == recipients[k].email
      invariant errors == FailedSends(recipients, deliver, i)
    {
      sentTo := sentTo + [recipients[i].email];
      var outcome := deliver(i);
      if outcome.Some? {
        errors := errors + [recipients[i].email + ": " + outcome.value];
      }
      i := i + 1;
    }
    if |errors| > 0 {
      result := Err(InviteFailure(errors, |recipients|));
    } else {
      result := Ok(());
    }
  }

  /** The failure count in the message never exceeds the total, and counts exactly the failed sends. */
  lemma {:induction false} FailedSendsCount(recipients: seq<Recipient>, deliver: nat -> Option<string>, n: nat)
    requires n <= |recipients|
    ensures |FailedSends(recipients, deliver, n)| == |set i | 0 <= i < n && deliver(i).Some?|
  {
    if n > 0 {
      FailedSendsCount(recipients, deliver, n - 1);
      FailedSetStep(deliver, n);
    }
  }

  /** Extending the range by one index adds that index to the failed ones exactly when it failed. */
  lemma FailedSetStep(deliver: nat -> Option<string>, n: nat)
    requires n > 0
    ensures |set i | 0 <= i < n && deliver(i).Some?|
      == |set i | 0 <= i < n - 1 && deliver(i).Some?| + (if deliver(n - 1).Some? then 1 else 0)
  {
    var before := set i | 0 <= i < n - 1 && deliver(i).Some?;
    var now := set i | 0 <= i < n && deliver(i).Some?;
    if deliver(n - 1).Some? {
      assert now == before + {n - 1};
    } else {
      assert now == before;
    }
  }
}
