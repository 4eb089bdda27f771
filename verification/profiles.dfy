/**
 * The profile table of the back end: spreadsheet rows folded into a
 * dictionary keyed by normalised email. Reading the spreadsheet is not
 * modelled: the file is `None` when it does not exist, else its rows.
 */
module Profiles {
  import opened Common
  import opened Text

  /** One spreadsheet row: column name to cell text; a column the sheet lacks is absent. */
  type Row = map<string, string>

  datatype Profile = Profile(niveau: string, tone: string, name: string)

  /** `row.get(col, default)`. */
  function Cell(row: Row, col: string, default: string): string {
    if col in row then row[col] else default
  }

  /** The row's email with surrounding whitespace removed; an empty one means the row is skipped. */
  function TrimmedEmail(row: Row): string {
    Strip(Cell(row, "email", ""))
  }

  /** The key a row is filed under: its trimmed email, lower-cased. */
  function EmailKey(row: Row): string {
    Lower(TrimmedEmail(row))
  }

  /** A key as the table stores it: not empty, no surrounding whitespace, no capital letter. */
  predicate NormalKey(k: string) {
    |k| > 0 && Trimmed(k, Whitespace) && IsLower(k)
  }

  /** The profile one row gives: level "intermediate", tone "neutral" and name "" by default. */
  function ProfileOf(row: Row): (p: Profile)
    ensures p.niveau == (if "niveau" in row then row["niveau"] else "intermediate")
    ensures p.tone == (if "tone" in row then row["tone"] else "neutral")
    ensures p.name == (if "name" in row then row["name"] else "")
  {
    Profile(Cell(row, "niveau", "intermediate"), Cell(row, "tone", "neutral"), Cell(row, "name", ""))
  }

  /** One step of the loop of `load_profiles`: file `row` under its key, or skip it. */
  function Insert(m: map<string, Profile>, row: Row): (r: map<string, Profile>)
    requires forall k :: k in m ==> NormalKey(k)
    ensures forall k :: k in r ==> NormalKey(k)
    ensures TrimmedEmail(row) == "" ==> r == m
    ensures TrimmedEmail(row) != "" ==> EmailKey(row) in r && r[EmailKey(row)] == ProfileOf(row)
    ensures forall k :: k != EmailKey(row) ==> (k in r <==> k in m) && (k in r ==> r[k] == m[k])
  {
    if TrimmedEmail(row) == "" then m
    else
      LowerKeepsTrimmed(TrimmedEmail(row));
      LowerIsLower(TrimmedEmail(row));
      m[EmailKey(row) := ProfileOf(row)]
  }

  /** The loop of `load_profiles`, as a fold over the rows seen so far. */
  function Fold(rows: seq<Row>): (m: map<string, Profile>)
    ensures forall k :: k in m ==> NormalKey(k)
    decreases |rows|
  {
    if |rows| == 0 then map[] else Insert(Fold(rows[..|rows| - 1]), rows[|rows| - 1])
  }

  /** `load_profiles`: the empty table when the file does not exist. */
  function LoadProfiles(file: Option<seq<Row>>): (m: map<string, Profile>)
    ensures file.None? ==> m == map[]
    ensures file.Some? ==> m == Fold(file.value)
    ensures forall k :: k in m ==> NormalKey(k)
  {
    match file
    case None => map[]
    case Some(rows) => Fold(rows)
  }

  /** Row `i` is the last row filed under key `k`. */
  predicate LastWith(rows: seq<Row>, i: int, k: string) {
    0 <= i < |rows| && EmailKey(rows[i]) == k && forall j :: i < j < |rows| ==> EmailKey(rows[j]) != k
  }

  /** The table holds a key exactly when some row with a non-empty email is filed under it. */
  lemma {:induction false} FoldKeys(rows: seq<Row>, k: string)
    ensures k in Fold(rows) <==> k != "" && exists i :: 0 <= i < |rows| && EmailKey(rows[i]) == k
    decreases |rows|
  {
    if |rows| > 0 {
      var init := rows[..|rows| - 1];
      var last := rows[|rows| - 1];
      FoldKeys(init, k);
      assert |EmailKey(last)| == |TrimmedEmail(last)|;
      if k != "" && exists i :: 0 <= i < |rows| && EmailKey(rows[i]) == k {
        var i :| 0 <= i < |rows| && EmailKey(rows[i]) == k;
        if i < |rows| - 1 {
          assert EmailKey(init[i]) == k;
        }
      }
      if k in Fold(init) {
        var i :| 0 <= i < |init| && EmailKey(init[i]) == k;
        assert EmailKey(rows[i]) == k;
      }
    }
  }

  /** The profile stored under a key comes from the last row filed under it. */
  lemma {:induction false} FoldValues(rows: seq<Row>, i: int)
    requires 0 <= i < |rows| && TrimmedEmail(rows[i]) != ""
    requires LastWith(rows, i, EmailKey(rows[i]))
    ensures EmailKey(rows[i]) in Fold(rows)
    ensures Fold(rows)[EmailKey(rows[i])] == ProfileOf(rows[i])
    decreases |rows|
  {
    var init := rows[..|rows| - 1];
    assert Fold(rows) == Insert(Fold(init), rows[|rows| - 1]);
    if i < |rows| - 1 {
      LastWithBeforeLast(rows, i, EmailKey(rows[i]));
      FoldValues(init, i);
    }
  }

  /** The last row under `k`, if it is not the final row, is also the last one under `k` before it. */
  lemma LastWithBeforeLast(rows: seq<Row>, i: int, k: string)
    requires LastWith(rows, i, k) && i < |rows| - 1
    ensures rows[..|rows| - 1][i] == rows[i]
    ensures LastWith(rows[..|rows| - 1], i, k)
    ensures EmailKey(rows[|rows| - 1]) != k
  {
    var init := rows[..|rows| - 1];
    forall j | i < j < |init| ensures EmailKey(init[j]) != k {
      assert init[j] == rows[j];
    }
  }

  /** A later row filed under the same key replaces an earlier one. */
  lemma LaterRowWins(rows: seq<Row>, r1: Row, r2: Row)
    requires EmailKey(r1) == EmailKey(r2) != ""
    ensures Fold(rows + [r1, r2])[EmailKey(r2)] == ProfileOf(r2)
  {
    var all := rows + [r1, r2];
    assert all[..|all| - 1] == rows + [r1];
    assert all[|all| - 1] == r2;
    assert TrimmedEmail(r2) != "" by {
      assert |EmailKey(r2)| == |TrimmedEmail(r2)|;
    }
    FoldValues(all, |all| - 1);
  }

  /** Rows without an email leave the table as it was. */
  lemma BlankRowSkipped(rows: seq<Row>, r: Row)
    requires TrimmedEmail(r) == ""
    ensures Fold(rows + [r]) == Fold(rows)
  {
  }

  /** `find_profile_for_email`: the entry under the lower-cased query; the query is not trimmed. */
  function FindProfileForEmail(file: Option<seq<Row>>, email: string): (r: Option<Profile>)
    ensures r.Some? <==> Lower(email) in LoadProfiles(file)
    ensures r.Some? ==> r.value == LoadProfiles(file)[Lower(email)]
  {
    var table := LoadProfiles(file);
    if Lower(email) in table then Some(table[Lower(email)]) else None
  }

  /** A query that starts or ends with whitespace never matches, since every key is trimmed. */
  lemma UntrimmedQueryMisses(file: Option<seq<Row>>, email: string)
    requires |email| > 0 && (email[0] in Whitespace || email[|email| - 1] in Whitespace)
    ensures FindProfileForEmail(file, email) == None
  {
    var k := Lower(email);
    if email[0] in Whitespace {
      LowerCharWhitespace(email[0]);
      assert k[0] in Whitespace;
    } else {
      LowerCharWhitespace(email[|email| - 1]);
      assert k[|k| - 1] in Whitespace;
    }
    assert !NormalKey(k);
  }

  /** A query equal to the last matching row's key finds that row's profile. */
  lemma FindsLastMatchingRow(rows: seq<Row>, i: int, email: string)
    requires 0 <= i < |rows| && TrimmedEmail(rows[i]) != ""
    requires LastWith(rows, i, Lower(email))
    ensures FindProfileForEmail(Some(rows), email) == Some(ProfileOf(rows[i]))
  {
    FoldValues(rows, i);
  }
}
