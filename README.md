# Form filler and listing scraper: a Dafny model of their decision logic

The repository holds two Selenium scripts.

- `Cadastro_organizado.py` reads a table of names and e-mail addresses and
  submits each row through a web form. The model covers the deterministic
  parts:
  - which reader `carregar_dados` picks from the file extension;
  - the column check of `validar_dados`;
  - how `preencher_formulario` chooses the field for the name and the field
    for the e-mail (a label pass, then a positional fallback);
  - the `resultados` log that `main` builds, with its OK / ERRO totals.
- `Produtos_organizado.py` reads product titles and prices from a search
  result page. The model covers:
  - the price regular expression of `extrair_preco`;
  - the selector cascades of `extrair_titulo` and `extrair_preco_elemento`;
  - `coletar_produtos`, which keeps the first N result elements.

Modules:

- `Wrappers` (`wrappers.dfy`): `Option`, `Result`, `Outcome`.
- `Text` (`text.dfy`): the Python string operations the scripts use, namely
  `lower`, `strip`, `in` on strings and `split('\n')[0]`. They use the ASCII
  character classes.
- `FormFill` (`form_fill.dfy`): the field assignment. A page is a `FormPage`
  object. Its `contents` array holds the text of each field, and
  `send_keys` appends to it. The label pass is `FillByLabel`, a loop proved
  against the functional specification `LabelPass`. The whole filling is
  `Fill`, proved against `Typed`.
- `DataInput` (`data_input.dfy`): extension dispatch and column validation.
- `RunLog` (`run_log.dfy`): the outcome log and its summary.
- `PriceScan` (`price_scan.dfy`): `extrair_preco` as a leftmost scanner for
  `R\$\s*[\d\.,]+`. It is proved equal to a statement that does not use the
  scanner: the result is the leftmost, maximal substring of the required
  shape, or `''` when the text has none.
- `Listing` (`listing.dfy`): the cascades and `coletar_produtos`.

A web element of the listing is a record. Its `found` map gives, for each
selector, the outcome of `find_element`:

- an absent key is the exception the code swallows;
- `Some(t)` is a sub-element with text `t`;
- `None` is a sub-element whose text could not be read.

A form field is the pair of its optional `aria-label` and `type` attributes. A
missing attribute reads as `''`, as in `(campo.get_attribute(...) or '')`.

The fallback of `preencher_formulario` does not check what the label pass
already typed. When the label pass placed the name in field 1 but placed no
e-mail, the e-mail is appended to field 1 as well. The model follows the code
(`FormFill.FallbackMayTypeBothIntoOneField`, `FormFill.TypedTargets`).

## Model

| member | source | states |
|---|---|---|
| Text.Lower | Cadastro_organizado.py:150-151 | lower-casing keeps the length and maps each character on its own, A-Z to a-z and every other character to itself |
| Text.Strip | Produtos_organizado.py:84 | the result is a contiguous piece of the input that neither starts nor ends with whitespace |
| Text.StripEmpty | Produtos_organizado.py:84-85 | `strip` gives `''` (so `if texto:` fails) exactly when every character of the text is whitespace |
| Text.StripExact | Produtos_organizado.py:84 | `strip` removes exactly the leading and trailing whitespace: the result is s[i..j] where every character before i and every character from j on is whitespace |
| Text.ContainsOccurs | Cadastro_organizado.py:154-159 | `Contains`, the substring test of `'nome' in label` and `'email' in label`, holds exactly when the substring occurs at some position |
| Text.FirstLine | Produtos_organizado.py:92 | `split('\n')[0]` is the longest prefix without a newline: it ends at the first newline or at the end of the text |
| FormFill.FieldTests | Cadastro_organizado.py:150-159 | `IsNameField` holds exactly when "nome" occurs in the lower-cased label, `IsEmailField` exactly when "email" occurs there or the type is "email"; a field without an aria-label never mentions "nome" and qualifies for the e-mail only by its type |
| FormFill.StepPlacements | Cadastro_organizado.py:154-161 | one iteration (`Step`) never moves a placement already made; the name branch fires first when the name is unplaced and the label mentions "nome"; a new e-mail placement is on the current field, which qualifies, and only when the name branch did not fire |
| FormFill.ScanUpTo | Cadastro_organizado.py:146-161 | the label pass writes each role at most once, only at indexes already visited, and never both roles into one field |
| FormFill.ScanName | Cadastro_organizado.py:149-156 | over any prefix, the name is placed exactly when some field mentions "nome", and it goes to the first such field |
| FormFill.ScanEmail | Cadastro_organizado.py:154-161 | over any prefix, the e-mail goes to the first qualifying field that the name branch did not take; it is unplaced exactly when every qualifying field was taken by the name |
| FormFill.LabelPassPlacements | Cadastro_organizado.py:146-161 | the whole label pass (`LabelPass`) puts the name on a field that mentions "nome" and the e-mail on a field that qualifies for it, never on the same field |
| FormFill.NameGoesToFirstNameField | Cadastro_organizado.py:149-156 | the name goes to the first field whose lower-cased label contains "nome"; the label pass places no name exactly when no such field exists |
| FormFill.EmailGoesToFirstFreeEmailField | Cadastro_organizado.py:154-161 | the e-mail goes to the first field whose label contains "email" or whose type is "email", skipping the field the `elif` gave to the name; a later "nome" field can take it |
| FormFill.NameTarget | Cadastro_organizado.py:164-166 | after the fallback the name has a target exactly when the page has a field, the target is a valid index, and with one field it is field 0; which field it is, is stated by `FallbackPositions` |
| FormFill.EmailTarget | Cadastro_organizado.py:168-170 | after the fallback the e-mail target is a valid index, it exists whenever there are two fields, and it is absent with no fields; which field it is, is stated by `FallbackPositions` |
| FormFill.FallbackPositions | Cadastro_organizado.py:164-170 | the name goes to the label pass's field when there is one, and to field 0 when no field mentions "nome"; the e-mail goes to the label pass's field when there is one, and, when every qualifying field went to the name, to field 1 on a page of two or more fields and nowhere on a page of one |
| FormFill.FallbackTargets | Cadastro_organizado.py:164-170 | the positional fallback (`FallbackName`, `FallbackEmail`) types a value only into that value's final target, and only when the label pass left the value unplaced |
| FormFill.Typed | Cadastro_organizado.py:149-170 | filling keeps the number of fields, only appends to each field, and leaves every field other than the two targets unchanged |
| FormFill.TypedTargets | Cadastro_organizado.py:149-170 | a target of one role ends with exactly that value appended; a field that is the target of both roles exists only when the fallback was used, and it gets the two values in the order they were typed |
| FormFill.FallbackMayTypeBothIntoOneField | Cadastro_organizado.py:164-170 | with an unlabelled field 0 and a "Nome" field 1, the name and then the e-mail are both typed into field 1 and field 0 stays empty |
| FormFill.LaterNameFieldMayTakeEmail | Cadastro_organizado.py:154-161 | a second "nome" field that is an e-mail input takes the e-mail once the name is placed |
| FormFill.StepText | Cadastro_organizado.py:149-161 | one iteration types into the current field only, and at most one value there |
| FormFill.StepContents | Cadastro_organizado.py:149-161 | appending what one iteration types to its field turns the contents after j fields into the contents after j + 1 fields |
| FormFill.FormPage.constructor | Cadastro_organizado.py:141-143 | a freshly loaded page has one empty text per field |
| FormFill.FormPage.SendKeys | Cadastro_organizado.py:155 | `send_keys` appends the text to one field and changes no other field |
| FormFill.FormPage.FillByLabel | Cadastro_organizado.py:146-161 | the loop ends with the two flags equal to the label pass's placements, and each field holds its old text plus what the label pass gave it |
| FormFill.FormPage.LabelStep | Cadastro_organizado.py:150-161 | one iteration updates the two flags as the label pass over one more field does, and appends to field i exactly what that iteration types and nothing elsewhere |
| FormFill.FormPage.Fill | Cadastro_organizado.py:146-170 | the field contents after the label pass and the fallback are exactly `Typed` of the old contents |
| FormFill.FillForm | Cadastro_organizado.py:130-190 | a failing page load gives `(False, message)` and types nothing; otherwise the fields are filled as `Typed`, and the result is `(True, 'Enviado com sucesso')` exactly when the submit step succeeds, else `(False, its message)` |
| DataInput.LastIndexOf | Cadastro_organizado.py:69 | the result is the last index holding the character, or -1 when the character does not occur |
| DataInput.Extension | Cadastro_organizado.py:69 | a non-empty extension is a suffix of the path that starts with its only dot and holds no separator |
| DataInput.ExtensionAfterLastDot | Cadastro_organizado.py:69 | for a last component `stem.suffix` whose stem holds, after its last '/', a character other than '.' (so `notes..csv` as well) the extension is `.suffix` |
| DataInput.DotNameHasNoExtension | Cadastro_organizado.py:69 | a leading-dot name such as `.csv` has no extension |
| DataInput.ChooseReader | Cadastro_organizado.py:66-76 | a missing file is the not-found error; otherwise the lower-cased extension `.csv` selects the CSV reader, `.xlsx` or `.xls` selects the Excel reader, and anything else is the unsupported-format error naming the extension |
| DataInput.CsvInAnyCase | Cadastro_organizado.py:69-72 | `.CSV`, `.Csv` and every other casing of `csv` select the CSV reader, after any stem that `ExtensionAfterLastDot` accepts |
| DataInput.ValidateColumns | Cadastro_organizado.py:89-92 | passes exactly when both "Nome" and "Email" are columns; otherwise fails naming "Nome" if it is missing, else "Email" |
| RunLog.CellTextShape | Cadastro_organizado.py:246-247 | `CellText`, `str(linha.get(column, '')).strip()`: a missing column reads as `''`; a present cell loses exactly its leading and trailing whitespace |
| RunLog.BuildLog | Cadastro_organizado.py:245-271 | one record per row in row order, with the stripped name and e-mail; status is "OK" exactly when the attempt succeeded and "ERRO" exactly when it failed; the message is carried over |
| RunLog.CountStatus | Cadastro_organizado.py:288-289 | a status count never exceeds the number of records |
| RunLog.Successes | Cadastro_organizado.py:256 | the number of successful attempts never exceeds the number of attempts |
| RunLog.TotalsCoverLog | Cadastro_organizado.py:288-289 | for `Summary`, the pair `(total_ok, total_erro)`: when every record is OK or ERRO, `total_ok + total_erro` equals the number of records |
| RunLog.TotalsCountAttempts | Cadastro_organizado.py:288-289 | for `Summary`: `total_ok` is the number of successful attempts and `total_erro` the number of failed ones |
| RunLog.RunSummary | Cadastro_organizado.py:245-289 | over a run, the two totals add up to the number of rows and `total_ok` counts the successes |
| PriceScan.AmountRunEnd | Produtos_organizado.py:62 | the greedy `[\d\.,]+` run ends at the first character outside the class |
| PriceScan.MatchEndSound | Produtos_organizado.py:62 | a match the scanner reports has the price shape |
| PriceScan.MatchEndComplete | Produtos_organizado.py:62 | every price shape starting at a position is what the scanner reports there, with the same end |
| PriceScan.SearchFromEmpty | Produtos_organizado.py:62-63 | the search from a position finds nothing exactly when no price starts at or after it |
| PriceScan.SearchFromFinds | Produtos_organizado.py:62-63 | the search from any position up to the leftmost price returns that price |
| PriceScan.SearchFromFound | Produtos_organizado.py:62-63 | a non-empty search result is the first price at or after the start position |
| PriceScan.ExtractPriceEmpty | Produtos_organizado.py:52-63 | `ExtractPrice` (`extrair_preco`) returns `''` exactly when no position holds `R$`, optional whitespace and at least one digit, `.` or `,` |
| PriceScan.ExtractPriceLeftmost | Produtos_organizado.py:62-63 | when the leftmost price runs from i to k, the result is exactly text[i..k] |
| PriceScan.ExtractPriceIsLeftmostPrice | Produtos_organizado.py:52-63 | a non-empty result of `ExtractPrice` is a substring of the input that starts with `R$`, then has only whitespace and then only amount characters up to a non-amount character or the end, and no price starts earlier |
| PriceScan.DocstringExample | Produtos_organizado.py:52-63 | the docstring's format `R$ 1.234,56` is matched in full |
| PriceScan.RunningTextExample | Produtos_organizado.py:62-63 | a price inside other text is found without its surroundings |
| Listing.FirstHit | Produtos_organizado.py:81-119 | in both selector loops (lines 81-88 and 112-119), the cascade stops at the first selector that is found with non-empty stripped text; the selectors before it are all skipped |
| Listing.CascadeNone | Produtos_organizado.py:81-119 | in both selector loops, `Cascade` yields nothing exactly when no selector of the list wins (`Hit`: found, readable and non-empty after strip), and what it yields is non-empty text without whitespace at either end |
| Listing.CascadeFirstWins | Produtos_organizado.py:81-119 | in both selector loops, a winning selector with no earlier winner decides the result; later selectors do not matter |
| Listing.Title | Produtos_organizado.py:66-94 | the title neither starts nor ends with whitespace |
| Listing.TitleCascade | Produtos_organizado.py:78-92 | the title is the stripped text of `.ui-search-item__title`, else of `h2`, else of `a`, whichever first has text; with none, it is the first line of the element text, stripped |
| Listing.TitleFallbackShape | Produtos_organizado.py:91-92 | the fallback title has no newline and is a contiguous piece of the element text, possibly empty |
| Listing.ElementPriceEmpty | Produtos_organizado.py:97-122 | `ElementPrice` (`extrair_preco_elemento`) returns `''` exactly when no price selector wins and the element text holds no `R$` price |
| Listing.PriceCascade | Produtos_organizado.py:109-122 | the price is the stripped text of `.ui-search-price__part`, else `.price-tag-fraction`, else `.andes-money-amount__fraction`; with none, it is `extrair_preco` of the element text |
| Listing.SliceLength | Produtos_organizado.py:174 | the slice `elementos[:n]` never keeps more elements than there are |
| Listing.CollectProducts | Produtos_organizado.py:169-183 | returns min(N, number of elements) products for N >= 0, and for negative N drops that many from the end; product i is the title and price of element i, in document order |

## Left out

- Browser control is not modelled. This covers Chrome creation and its options, `navegador.get`, the `WebDriverWait` waits and timeouts, `find_elements`, `buscar_no_mercadolivre` and `quit`. These are I/O. The page is given as its fields (`FormPage`) or its result elements (`Listing.Element`).
- The JavaScript "Enviar" click and the `time.sleep` after it are not modelled, because they are browser-side script and a clock. `FormFill.FillForm` takes their outcome as the `submit` parameter.
- `FormFill.FillForm`: exceptions raised during the filling are not modelled. This covers `send_keys` failing after some fields were typed and `get_attribute` (Cadastro_organizado.py:150-151) failing before any typing or between writes; the state of a half-filled page is not tracked. A page with no fields is accepted as a successful load. In the source, the wait for the fields (Cadastro_organizado.py:136-138) times out on such a page, and the result is `(False, message)`.
- `RunLog.BuildLog`: each row's `(sucesso, mensagem)` pair is an input, because it comes from the browser. The sequence of `preencher_formulario` calls on one shared browser is not modelled.
- `RunLog.CellText`: cells are strings. The `str()` conversion of non-string pandas cells is not modelled; for example, a missing value becomes `'nan'`.
- The file side of both scripts is not modelled, because it is I/O. This covers `os.path.exists` (a parameter of `ChooseReader`), pandas reading and writing, `criar_arquivo_exemplo`, `argparse`, `input()`, `print` and the `sys.exit` codes.
- `Text.Lower`, `Text.Strip`, `Text.IsSpace`: Python's `str.lower`, `str.strip` and the regular expression `\s` follow Unicode rules. The model uses ASCII: letters A-Z, and whitespace as space and characters 9-13 and 28-31.
- `PriceScan.IsAmountChar`: `\d` is the ASCII digits only, where Python also accepts other Unicode decimal digits.
- `DataInput.Extension`: `os.path.splitext` is modelled with `/` as the only separator, as on POSIX. The Windows separators `\` and drive letters are not modelled.
- `Listing.Element`: reading the element's own `text` is assumed to succeed. When it fails, the code returns `''` for the title and lets the exception out of the price fallback; neither case is modelled.
