/**
 * The bookkeeping of the form script's main loop (Cadastro_organizado.py):
 * one log record per input row, and the OK / ERRO totals printed at the end.
 */
module RunLog {
  import opened Text

  /** One row of the input table: its cells by column name. */
  datatype Row = Row(cells: map<string, string>)

  /** `str(linha.get(column, '')).strip()`. */
  function CellText(row: Row, column: string): string {
    Strip(if column in row.cells then row.cells[column] else "")
  }

  /**
   * A missing column reads as ''; a present cell is read with the whitespace
   * at its ends removed and nothing else changed.
   */
  lemma CellTextShape(row: Row, column: string)
    ensures column !in row.cells ==> CellText(row, column) == ""
    ensures column in row.cells ==>
              exists i, j :: && 0 <= i <= j <= |row.cells[column]|
                             && CellText(row, column) == row.cells[column][i..j]
                             && (forall k :: 0 <= k < i ==> IsSpace(row.cells[column][k]))
                             && (forall k :: j <= k < |row.cells[column]| ==> IsSpace(row.cells[column][k]))
    ensures var r := CellText(row, column); r != [] ==> !IsSpace(r[0]) && !IsSpace(r[|r| - 1])
  {
    if column in row.cells {
      StripExact(row.cells[column]);
    }
  }

  /** What preencher_formulario returned for one row: `(sucesso, mensagem)`. */
  datatype Attempt = Attempt(success: bool, message: string)

  /** One entry of `resultados`, later a line of cadastro_log.csv. */
  datatype LogRecord = LogRecord(name: string, email: string, status: string, message: string)

  const StatusOk: string := "OK"
  const StatusError: string := "ERRO"

  /**
   * The loop of main over the rows: record `i` echoes row `i`'s stripped name
   * and e-mail, has status "OK" exactly when attempt `i` succeeded ("ERRO"
   * otherwise) and carries the attempt's message.
   */
  method BuildLog(rows: seq<Row>, attempts: seq<Attempt>) returns (log: seq<LogRecord>)
    requires |attempts| == |rows|
    ensures |log| == |rows|
    ensures forall i :: 0 <= i < |rows| ==>
              && log[i].name == CellText(rows[i], "Nome")
              && log[i].email == CellText(rows[i], "Email")
              && (log[i].status == StatusOk <==> attempts[i].success)
              && (log[i].status == StatusError <==> !attempts[i].success)
              && log[i].message == attempts[i].message
  {
    log := [];
    for i := 0 to |rows|
      invariant |log| == i
      invariant forall j :: 0 <= j < i ==>
                  && log[j].name == CellText(rows[j], "Nome")
                  && log[j].email == CellText(rows[j], "Email")
                  && (log[j].status == StatusOk <==> attempts[j].success)
                  && (log[j].status == StatusError <==> !attempts[j].success)
                  && log[j].message == attempts[j].message
    {
      var name := CellText(rows[i], "Nome");
      var email := CellText(rows[i], "Email");
      var attempt := attempts[i];
      ghost var done := log;
      if attempt.success {
        log := log + [LogRecord(name, email, StatusOk, attempt.message)];
      } else {
        log := log + [LogRecord(name, email, StatusError, attempt.message)];
      }
      assert StatusOk != StatusError;
      assert log[..i] == done && log[i].name == name && log[i].email == email;
    }
  }

  /** `len([r for r in log if r['Status'] == status])`. */
  function CountStatus(log: seq<LogRecord>, status: string): (n: nat)
    ensures n <= |log|
  {
    if log == [] then 0
    else CountStatus(log[..|log| - 1], status) + (if log[|log| - 1].status == status then 1 else 0)
  }

  /** The number of successful attempts. */
  function Successes(attempts: seq<Attempt>): (n: nat)
    ensures n <= |attempts|
  {
    if attempts == [] then 0
    else Successes(attempts[..|attempts| - 1]) + (if attempts[|attempts| - 1].success then 1 else 0)
  }

  /** The `(total_ok, total_erro)` pair of the summary. */
  function Summary(log: seq<LogRecord>): (nat, nat) {
    (CountStatus(log, StatusOk), CountStatus(log, StatusError))
  }

  /** Every record of the log is either OK or ERRO. */
  predicate WellFormed(log: seq<LogRecord>) {
    forall i :: 0 <= i < |log| ==> log[i].status == StatusOk || log[i].status == StatusError
  }

  /** In a log whose records are all OK or ERRO, the two totals add up to the number of records. */
  lemma {:induction false} TotalsCoverLog(log: seq<LogRecord>)
    requires WellFormed(log)
    ensures Summary(log).0 + Summary(log).1 == |log|
  {
    if log != [] {
      TotalsCoverLog(log[..|log| - 1]);
    }
  }

  /** total_ok counts the rows whose attempt succeeded, total_erro the others. */
  lemma {:induction false} TotalsCountAttempts(log: seq<LogRecord>, attempts: seq<Attempt>)
    requires |log| == |attempts|
    requires forall i :: 0 <= i < |log| ==>
               (log[i].status == StatusOk <==> attempts[i].success)
               && (log[i].status == StatusError <==> !attempts[i].success)
    ensures Summary(log).0 == Successes(attempts)
    ensures Summary(log).1 == |attempts| - Successes(attempts)
  {
    if log != [] {
      TotalsCountAttempts(log[..|log| - 1], attempts[..|attempts| - 1]);
    }
  }

  /** A run over every row: its summary counts each row once, as the attempts went. */
  lemma RunSummary(rows: seq<Row>, attempts: seq<Attempt>, log: seq<LogRecord>)
    requires |attempts| == |rows| && |log| == |rows|
    requires forall i :: 0 <= i < |rows| ==>
               (log[i].status == StatusOk <==> attempts[i].success)
               && (log[i].status == StatusError <==> !attempts[i].success)
    ensures Summary(log).0 + Summary(log).1 == |rows|
    ensures Summary(log).0 == Successes(attempts)
  {
    TotalsCountAttempts(log, attempts);
  }
}
