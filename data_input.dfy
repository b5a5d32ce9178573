/**
 * The input side of the form script (Cadastro_organizado.py): which reader
 * carregar_dados picks for a file name, and validar_dados's check that the
 * table has the columns the form needs.
 */
module DataInput {
  import opened Wrappers
  import opened Text

  /** The index of the last `c` in `s`, or -1 (Python's str.rfind). */
  function LastIndexOf(s: string, c: char): (r: int)
    ensures -1 <= r < |s|
    ensures r == -1 ==> c !in s
    ensures r >= 0 ==> s[r] == c && c !in s[r + 1..]
  {
    if s == [] then -1
    else if s[|s| - 1] == c then |s| - 1
    else LastIndexOf(s[..|s| - 1], c)
  }

  /**
   * os.path.splitext(path)[1] with '/' as the separator: the text from the last
   * dot of the last path component, unless every character before that dot in
   * the component is itself a dot (".bashrc" has no extension).
   */
  function Extension(path: string): (ext: string)
    ensures ext != "" ==> ext[0] == '.' && |ext| <= |path| && ext == path[|path| - |ext|..]
    ensures ext != "" ==> '.' !in ext[1..] && '/' !in ext
  {
    var sep := LastIndexOf(path, '/');
    var dot := LastIndexOf(path, '.');
    if dot > sep && exists k :: sep < k < dot && path[k] != '.' then path[dot..] else ""
  }

  /** The two pandas readers carregar_dados chooses between. */
  datatype Reader = CsvReader | ExcelReader

  /** The exceptions carregar_dados raises, with their messages. */
  datatype LoadError = FileNotFound(message: string) | UnsupportedFormat(message: string)

  function NotFoundMessage(path: string): string {
    "Arquivo \"" + path + "\" não encontrado."
  }

  function UnsupportedMessage(ext: string): string {
    "Formato \"" + ext + "\" não suportado. Use .csv ou .xlsx"
  }

  /**
   * carregar_dados without the reading itself: a missing file is an error,
   * then the lower-cased extension picks the CSV reader (".csv") or the Excel
   * reader (".xlsx", ".xls"); any other extension is an error naming it.
   */
  function ChooseReader(path: string, fileExists: bool): (r: Result<Reader, LoadError>)
    ensures !fileExists ==> r == Failure(FileNotFound(NotFoundMessage(path)))
    ensures fileExists ==> (r == Success(CsvReader) <==> Lower(Extension(path)) == ".csv")
    ensures fileExists ==> (r == Success(ExcelReader) <==> Lower(Extension(path)) in [".xlsx", ".xls"])
    ensures fileExists && r.Failure? ==> r.error == UnsupportedFormat(UnsupportedMessage(Lower(Extension(path))))
  {
    if !fileExists then Failure(FileNotFound(NotFoundMessage(path)))
    else
      var ext := Lower(Extension(path));
      if ext == ".csv" then Success(CsvReader)
      else if ext in [".xlsx", ".xls"] then Success(ExcelReader)
      else Failure(UnsupportedFormat(UnsupportedMessage(ext)))
  }

  /** An occurrence with no later one is the one LastIndexOf finds. */
  lemma LastIndexOfIs(s: string, c: char, i: nat)
    requires i < |s| && s[i] == c && c !in s[i + 1..]
    ensures LastIndexOf(s, c) == i
  {
  }

  /**
   * When the last component is `stem.suffix` and the stem holds, after its
   * last '/', a character other than '.', the extension is `.suffix`
   * ("notes..csv" too).
   */
  lemma ExtensionAfterLastDot(stem: string, suffix: string)
    requires exists k :: 0 <= k < |stem| && stem[k] != '.' && '/' !in stem[k..]
    requires '.' !in suffix && '/' !in suffix
    ensures Extension(stem + "." + suffix) == "." + suffix
  {
    var path := stem + "." + suffix;
    var k :| 0 <= k < |stem| && stem[k] != '.' && '/' !in stem[k..];
    assert path[|stem| + 1..] == suffix;
    LastIndexOfIs(path, '.', |stem|);
    var sep := LastIndexOf(path, '/');
    assert path[k..] == stem[k..] + "." + suffix;
    assert '/' !in path[k..];
    assert path[k] != '.';
    assert path[|stem|..] == "." + suffix;
  }

  /** A name that is a dot and an extension only (".csv") has no extension. */
  lemma DotNameHasNoExtension(suffix: string)
    requires '.' !in suffix && '/' !in suffix
    ensures Extension("." + suffix) == ""
  {
    assert ("." + suffix)[1..] == suffix;
    LastIndexOfIs("." + suffix, '.', 0);
  }

  /** The reader depends on the extension's letters, not on their case. */
  lemma CsvInAnyCase(stem: string, suffix: string)
    requires exists k :: 0 <= k < |stem| && stem[k] != '.' && '/' !in stem[k..]
    requires '.' !in suffix && '/' !in suffix && Lower(suffix) == "csv"
    ensures ChooseReader(stem + "." + suffix, true) == Success(CsvReader)
  {
    var path := stem + "." + suffix;
    assert Extension(path) == "." + suffix by {
      ExtensionAfterLastDot(stem, suffix);
    }
    assert Lower(Extension(path)) == ".csv" by {
      LowerDotSuffix(suffix);
    }
  }

  /** Lower-casing keeps the leading dot of an extension. */
  lemma LowerDotSuffix(suffix: string)
    ensures Lower("." + suffix) == "." + Lower(suffix)
  {
    assert ("." + suffix)[1..] == suffix;
  }

  /** The columns validar_dados requires, in the order it checks them. */
  const RequiredColumns: seq<string> := ["Nome", "Email"]

  function MissingColumnMessage(column: string): string {
    "Coluna \"" + column + "\" não encontrada no arquivo."
  }

  /**
   * validar_dados: passes exactly when both "Nome" and "Email" are columns;
   * otherwise fails naming the first missing one, "Nome" before "Email".
   */
  method ValidateColumns(columns: seq<string>) returns (r: Outcome<string>)
    ensures r.Pass? <==> "Nome" in columns && "Email" in columns
    ensures "Nome" !in columns ==> r == Fail(MissingColumnMessage("Nome"))
    ensures "Nome" in columns && "Email" !in columns ==> r == Fail(MissingColumnMessage("Email"))
  {
    assert RequiredColumns[0] == "Nome" && RequiredColumns[1] == "Email";
    for i := 0 to |RequiredColumns|
      invariant forall k :: 0 <= k < i ==> RequiredColumns[k] in columns
    {
      var column := RequiredColumns[i];
      if column !in columns {
        return Fail(MissingColumnMessage(column));
      }
    }
    return Pass;
  }
}
