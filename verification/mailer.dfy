/**
 * The report mailer: it reads the JSON report the check runner wrote and,
 * when the run failed, mails the commit author a reformulated summary with
 * the raw check output attached, falling back to the administrator address.
 *
 * Reading files, the spreadsheet, the remote model and the mail server are
 * not modelled: the report arrives as a value, the profile sheet as its rows
 * (`None` when the file does not exist), the remote model as a function
 * from the profile and summary to its reply, and the mail as a `Decision`.
 */
module Mailer {
  import opened Common
  import opened Text
  import Checks
  import Profiles

  /** The report as read back from JSON; a key the file lacks is `None`. */
  datatype StoredReport = StoredReport(failed: Option<bool>, checks: Option<seq<Checks.Entry>>, author: Option<string>)

  /** The exceptions the script can stop on. */
  datatype MailError =
    | TooManyValues  // the author holds more than one "<", so the two-way unpack fails
    | UnboundFound   // the recipient rule reads `found`, which is bound only when the sheet exists

  datatype Author = Author(name: string, email: string)

  /** The profile the mail prompt is written for. */
  datatype MailProfile = MailProfile(level: string, tone: string)

  /** How the remote reformulation ended: its text, or the message of the exception raised. */
  datatype AiReply = Answered(text: string) | Errored(message: string)

  datatype Mail = Mail(to: string, subject: string, body: string)

  /** What the script does with a report: nothing, or send one mail. */
  datatype Decision = NothingToSend | Send(mail: Mail)

  const Unknown := "unknown"
  const DefaultProfile := MailProfile("intermediate", "neutral")
  const Subject := "Votre code n’a pas passé les checks automatiques"
  const MailIntro := "Bonjour,\n\nLe pipeline CI a détecté des problèmes sur votre push.\n\nAI reformulation:\n\n"
  const RawMarker := "\n\n---\nRapport brut:\n"

  /** The report as the check runner writes it to JSON. */
  function Stored(r: Checks.Report): StoredReport {
    StoredReport(Some(r.failed), Some(r.checks), Some(r.author))
  }

  /**
   * The author split: with no "<", the whole string is the name and the email
   * is "unknown"; with exactly one, the name is what precedes it and the email
   * what follows, cleared of ">" and then of whitespace at both ends ("unknown"
   * when nothing follows); with more than one the unpack fails.
   */
  function ParseAuthor(author: string): (r: Result<Author, MailError>)
    ensures r.Failure? <==> Count(author, '<') > 1
    ensures '<' !in author ==> r == Success(Author(author, Unknown))
    ensures r.Success? && '<' in author ==>
              '<' !in r.value.name && StartsWith(author, r.value.name + "<")
              && (r.value.email == Unknown || Trimmed(r.value.email, Whitespace))
    ensures r.Success? && '<' in author ==>
              |r.value.name| < |author| && author[|r.value.name|] == '<'
              && var after := author[|r.value.name| + 1..];
                 r.value.email == (if after == "" then Unknown else Strip(StripChars(after, {'>'})))
  {
    match IndexOf(author, '<')
    case None => Success(Author(author, Unknown))
    case Some(i) =>
      var before := author[..i];
      var after := author[i + 1..];
      assert author == before + ['<'] + after;
      assert multiset(author)['<'] == multiset(before)['<'] + 1 + multiset(after)['<'];
      assert author[..i + 1] == before + "<";
      if '<' in after then Failure(TooManyValues)
      else Success(Author(before, if after == "" then Unknown else Strip(StripChars(after, {'>'}))))
  }

  /** What `git log` prints for a name and a clean email splits back into that name and email. */
  lemma ParseGitIdentity(name: string, email: string)
    requires '<' !in name && '<' !in email
    requires |email| > 0 && email[0] != '>' && email[|email| - 1] != '>'
    requires Trimmed(email, Whitespace)
    ensures ParseAuthor(name + "<" + email + ">") == Success(Author(name, email))
  {
    var author := name + "<" + email + ">";
    assert author[..|name|] == name;
    IndexOfFirst(author, '<', |name|);
    var after := author[|name| + 1..];
    assert after == email + ">";
    assert StripChars(after, {'>'}) == email by {
      assert TrimStart(after, {'>'}) == after;
      assert after[..|after| - 1] == email;
      assert TrimEnd(email, {'>'}) == email;
    }
    StripCharsTrimmed(email, Whitespace);
  }

  /** The sheet row holds an email equal to `email` once both are lower-cased. */
  predicate RowMatches(row: Profiles.Row, email: string) {
    "email" in row && Lower(row["email"]) == Lower(email)
  }

  /** The index of the first row that matches `email`. */
  function FirstMatch(rows: seq<Profiles.Row>, email: string): (r: Option<nat>)
    ensures r.Some? ==> r.value < |rows| && RowMatches(rows[r.value], email)
    ensures r.Some? ==> forall j :: 0 <= j < r.value ==> !RowMatches(rows[j], email)
    ensures r.None? <==> forall j :: 0 <= j < |rows| ==> !RowMatches(rows[j], email)
  {
    if |rows| == 0 then None
    else if RowMatches(rows[0], email) then Some(0)
    else
      match FirstMatch(rows[1..], email)
      case None => None
      case Some(i) => Some(i + 1)
  }

  /** The author's row in the sheet, if the sheet exists and some row matches. */
  function MatchIn(sheet: Option<seq<Profiles.Row>>, email: string): Option<nat> {
    match sheet
    case None => None
    case Some(rows) => FirstMatch(rows, email)
  }

  /**
   * The profile the prompt uses: the default unless the sheet exists and a row
   * matches, in which case the first matching row's level and tone, with the
   * default's values for a missing column.
   */
  function ChooseProfile(sheet: Option<seq<Profiles.Row>>, email: string): (p: MailProfile)
    ensures MatchIn(sheet, email).None? ==> p == DefaultProfile
    ensures MatchIn(sheet, email).Some? ==>
              var row := sheet.value[MatchIn(sheet, email).value];
              p == MailProfile(Profiles.Cell(row, "level", "intermediate"), Profiles.Cell(row, "tone", "neutral"))
  {
    match MatchIn(sheet, email)
    case None => DefaultProfile
    case Some(i) =>
      var row := sheet.value[i];
      MailProfile(Profiles.Cell(row, "level", "intermediate"), Profiles.Cell(row, "tone", "neutral"))
  }

  /** One check as the summary shows it. */
  function Render(e: Checks.Entry): string {
    e.name + " output:\n" + e.output
  }

  function Renders(es: seq<Checks.Entry>): (r: seq<string>)
    ensures |r| == |es|
    ensures forall i :: 0 <= i < |es| ==> r[i] == Render(es[i])
  {
    seq(|es|, i requires 0 <= i < |es| => Render(es[i]))
  }

  /**
   * The raw summary: every check rendered, in report order, separated by a
   * blank line; it ends with the last check's rendering.
   */
  function Summary(es: seq<Checks.Entry>): (r: string)
    ensures |es| == 0 ==> r == ""
    ensures |es| == 1 ==> r == Render(es[0])
    ensures |es| > 0 ==> EndsWith(r, Render(es[|es| - 1]))
  {
    if |es| == 0 then ""
    else
      JoinEndsWithLast(Renders(es), "\n\n");
      Join(Renders(es), "\n\n")
  }

  /**
   * The summary is empty for no checks, is the one rendering for one check,
   * grows by a blank line and the new rendering for each check appended,
   * and always ends with the last check's output.
   */
  lemma SummaryShape(es: seq<Checks.Entry>, e: Checks.Entry)
    ensures Summary([]) == ""
    ensures Summary([e]) == Render(e)
    ensures |es| > 0 ==> Summary(es + [e]) == Summary(es) + "\n\n" + Render(e)
    ensures EndsWith(Summary(es + [e]), e.output)
  {
    assert Renders([e]) == [Render(e)];
    assert Renders(es + [e]) == Renders(es) + [Render(e)];
    if |es| > 0 {
      JoinSnoc(Renders(es), Render(e), "\n\n");
    }
    JoinEndsWithLast(Renders(es + [e]), "\n\n");
    assert Render(e) == (e.name + " output:\n") + e.output;
  }

  /** The script's own `ai_rephrase`: the remote text, or an error line followed by the raw summary. */
  function Rephrase(reply: AiReply, summary: string): (r: string)
    ensures reply.Answered? ==> r == reply.text
    ensures reply.Errored? ==> StartsWith(r, "Error with AI: " + reply.message)
    ensures reply.Errored? ==> EndsWith(r, "\nRaw report: " + summary)
    ensures reply.Errored? ==> |r| == |"Error with AI: "| + |reply.message| + |"\nRaw report: "| + |summary|
  {
    match reply
    case Answered(text) => text
    case Errored(msg) =>
      var r := "Error with AI: " + msg + ("\nRaw report: " + summary);
      assert r == ("Error with AI: " + msg) + ("\nRaw report: " + summary);
      r
  }

  /** Both the error message and the raw summary can be read back from the error text. */
  lemma RephraseErrorKeepsBoth(message: string, summary: string)
    ensures var r := Rephrase(Errored(message), summary);
            && r[|"Error with AI: "|..|"Error with AI: "| + |message|] == message
            && r[|r| - |summary|..] == summary
  {
  }

  /** The mail body: greeting, the reformulation, then the raw summary after the "Rapport brut:" marker. */
  function Body(aiText: string, summary: string): (r: string)
    ensures StartsWith(r, MailIntro + aiText)
    ensures EndsWith(r, RawMarker + summary)
    ensures |r| == |MailIntro| + |aiText| + |RawMarker| + |summary|
  {
    var r := MailIntro + aiText + RawMarker + summary;
    assert r == (MailIntro + aiText) + (RawMarker + summary);
    r
  }

  /** Both the reformulation and the raw summary can be read back from the body. */
  lemma BodyKeepsBoth(aiText: string, summary: string)
    ensures var b := Body(aiText, summary);
            b[|MailIntro|..|MailIntro| + |aiText|] == aiText && b[|b| - |summary|..] == summary
  {
  }

  /**
   * Where the mail goes, as the script means it: the author's email unless it
   * is "unknown"; the administrator when the sheet exists but has no row for
   * the author.
   */
  function Recipient(email: string, sheetExists: bool, matched: bool, admin: string): (to: string)
    ensures to == admin || (to == email && email != Unknown)
    ensures sheetExists && !matched ==> to == admin
    ensures email == Unknown ==> to == admin
    ensures !(sheetExists && !matched) && email != Unknown ==> to == email
  {
    if sheetExists && !matched then admin
    else if email != Unknown then email
    else admin
  }

  /**
   * Where the mail goes, as the script is written: `found.empty` is read
   * before the sheet's existence is checked, and `found` is only bound when
   * the sheet exists, so a missing sheet stops the script.
   */
  function RecipientAsWritten(email: string, sheetExists: bool, matched: bool, admin: string): (r: Result<string, MailError>)
    ensures r.Failure? <==> !sheetExists
    ensures r.Failure? ==> r.error == UnboundFound
    ensures r.Success? ==> r.value == Recipient(email, sheetExists, matched, admin)
  {
    var to := if email != Unknown then email else admin;
    if !sheetExists then Failure(UnboundFound)
    else if !matched then Success(admin)
    else Success(to)
  }

  /** The mail for a failed report whose author parsed, given the recipient rule's answer. */
  function Compose(report: StoredReport, a: Author, sheet: Option<seq<Profiles.Row>>,
                   ai: (MailProfile, string) -> AiReply, to: string): (r: Decision)
    ensures r.Send? && r.mail.to == to && r.mail.subject == Subject
    ensures var summary := Summary(report.checks.GetOr([]));
            && EndsWith(r.mail.body, RawMarker + summary)
            && StartsWith(r.mail.body, MailIntro + Rephrase(ai(ChooseProfile(sheet, a.email), summary), summary))
    ensures var summary := Summary(report.checks.GetOr([]));
            r.mail.body == Body(Rephrase(ai(ChooseProfile(sheet, a.email), summary), summary), summary)
  {
    var summary := Summary(report.checks.GetOr([]));
    var aiText := Rephrase(ai(ChooseProfile(sheet, a.email), summary), summary);
    Send(Mail(to, Subject, Body(aiText, summary)))
  }

  /**
   * `main` as the script means it: nothing when the report did not fail;
   * otherwise one mail to the recipient the rule picks, whose body ends
   * with the raw summary; the author split is the one way to fail.
   */
  function SendReport(report: StoredReport, sheet: Option<seq<Profiles.Row>>,
                      ai: (MailProfile, string) -> AiReply, admin: string): (r: Result<Decision, MailError>)
    ensures r == Success(NothingToSend) <==> !report.failed.GetOr(false)
    ensures report.failed.GetOr(false) ==> (r.Failure? <==> Count(report.author.GetOr(Unknown), '<') > 1)
    ensures r.Failure? ==> r.error == TooManyValues
    ensures r.Success? && r.value.Send? ==>
              && r.value.mail.subject == Subject
              && EndsWith(r.value.mail.body, RawMarker + Summary(report.checks.GetOr([])))
              && var a := ParseAuthor(report.author.GetOr(Unknown)).value;
                 r.value.mail.to == Recipient(a.email, sheet.Some?, MatchIn(sheet, a.email).Some?, admin)
    ensures r.Success? && r.value.Send? ==>
              var a := ParseAuthor(report.author.GetOr(Unknown)).value;
              var s := Summary(report.checks.GetOr([]));
              StartsWith(r.value.mail.body, MailIntro + Rephrase(ai(ChooseProfile(sheet, a.email), s), s))
    ensures r.Success? && r.value.Send? ==>
              var a := ParseAuthor(report.author.GetOr(Unknown)).value;
              var s := Summary(report.checks.GetOr([]));
              r.value.mail.body == Body(Rephrase(ai(ChooseProfile(sheet, a.email), s), s), s)
  {
    if !report.failed.GetOr(false) then Success(NothingToSend)
    else
      match ParseAuthor(report.author.GetOr(Unknown))
      case Failure(e) => Failure(e)
      case Success(a) =>
        Success(Compose(report, a, sheet, ai, Recipient(a.email, sheet.Some?, MatchIn(sheet, a.email).Some?, admin)))
  }

  /** `main` as the script is written: as `SendReport`, except that a missing sheet stops it. */
  function SendReportAsWritten(report: StoredReport, sheet: Option<seq<Profiles.Row>>,
                               ai: (MailProfile, string) -> AiReply, admin: string): (r: Result<Decision, MailError>)
    ensures sheet.Some? ==> r == SendReport(report, sheet, ai, admin)
    ensures !report.failed.GetOr(false) ==> r == Success(NothingToSend)
    ensures report.failed.GetOr(false) && Count(report.author.GetOr(Unknown), '<') > 1 ==> r == Failure(TooManyValues)
    ensures r == Failure(UnboundFound) <==>
              sheet.None? && report.failed.GetOr(false) && Count(report.author.GetOr(Unknown), '<') <= 1
  {
    if !report.failed.GetOr(false) then Success(NothingToSend)
    else
      match ParseAuthor(report.author.GetOr(Unknown))
      case Failure(e) => Failure(e)
      case Success(a) =>
        match RecipientAsWritten(a.email, sheet.Some?, MatchIn(sheet, a.email).Some?, admin)
        case Failure(e) => Failure(e)
        case Success(to) => Success(Compose(report, a, sheet, ai, to))
  }

  /**
   * A failed report whose author splits into a known email, with no profile
   * sheet: the script as written stops on the unbound `found`, where the
   * intended rule mails the author.
   */
  lemma MissingSheetStopsScript(report: StoredReport, ai: (MailProfile, string) -> AiReply, admin: string)
    requires report.failed == Some(true)
    requires ParseAuthor(report.author.GetOr(Unknown)).Success?
    requires ParseAuthor(report.author.GetOr(Unknown)).value.email != Unknown
    ensures SendReportAsWritten(report, None, ai, admin) == Failure(UnboundFound)
    ensures var r := SendReport(report, None, ai, admin);
            r.Success? && r.value.Send? && r.value.mail.to == ParseAuthor(report.author.GetOr(Unknown)).value.email
  {
  }

  /** The concrete input: author "Ann <ann@example.org>", a failed report, no sheet. */
  lemma MissingSheetExample(ai: (MailProfile, string) -> AiReply, admin: string)
    ensures var report := StoredReport(Some(true), Some([]), Some("Ann " + "<" + "ann@example.org" + ">"));
            var r := SendReport(report, None, ai, admin);
            && SendReportAsWritten(report, None, ai, admin) == Failure(UnboundFound)
            && r.Success? && r.value.Send? && r.value.mail.to == "ann@example.org"
  {
    var email := "ann@example.org";
    var report := StoredReport(Some(true), Some([]), Some("Ann " + "<" + email + ">"));
    SampleAuthorSplits();
    assert email != Unknown by { assert email[0] != Unknown[0]; }
    MissingSheetStopsScript(report, ai, admin);
  }

  /** The author of the concrete input splits into "Ann " and "ann@example.org". */
  lemma SampleAuthorSplits()
    ensures ParseAuthor("Ann " + "<" + "ann@example.org" + ">") == Success(Author("Ann ", "ann@example.org"))
  {
    var email := "ann@example.org";
    assert email[0] == 'a' && email[|email| - 1] == 'g';
    ParseGitIdentity("Ann ", email);
  }

  /** A run whose exit status is 0 leads to no mail. */
  lemma PassingRunSendsNothing(names: Option<seq<string>>, run: string -> Checks.Outcome, identity: Option<string>,
                               sheet: Option<seq<Profiles.Row>>, ai: (MailProfile, string) -> AiReply, admin: string)
    requires Checks.ExitCode(Checks.BuildReport(names, run, identity)) == 0
    ensures SendReport(Stored(Checks.BuildReport(names, run, identity)), sheet, ai, admin) == Success(NothingToSend)
  {
  }

  /**
   * A run whose exit status is 1 leads to a mail carrying every check's raw
   * output, unless the author string cannot be split.
   */
  lemma FailingRunSendsRawReport(names: Option<seq<string>>, run: string -> Checks.Outcome, identity: Option<string>,
                                 sheet: Option<seq<Profiles.Row>>, ai: (MailProfile, string) -> AiReply, admin: string)
    requires Checks.ExitCode(Checks.BuildReport(names, run, identity)) == 1
    requires Count(Checks.BuildReport(names, run, identity).author, '<') <= 1
    ensures var report := Checks.BuildReport(names, run, identity);
            var r := SendReport(Stored(report), sheet, ai, admin);
            r.Success? && r.value.Send? && EndsWith(r.value.mail.body, RawMarker + Summary(report.checks))
  {
  }

  /** When the git identity could not be read and there is no sheet, the administrator gets the mail. */
  lemma UnknownAuthorGoesToAdmin(report: StoredReport, ai: (MailProfile, string) -> AiReply, admin: string)
    requires report.failed == Some(true) && report.author == Some(Unknown)
    ensures SendReport(report, None, ai, admin) == Success(Compose(report, Author(Unknown, Unknown), None, ai, admin))
  {
    assert '<' !in Unknown;
  }
}
