# MrBot desktop client — a Dafny model of its processing core

MrBot is a desktop client for an API that queries the Argentine tax
agency (AFIP/ARCA) on behalf of taxpayers. Each window reads a spreadsheet
of taxpayers, sends one request per row, and saves the files the answer
links to. The files are stored in a MinIO bucket and the answer carries
their URLs. This project models the parts of that flow that are pure
logic:

- the JSON tree of an answer (`Json.Value`) and how each service finds
  download links in it;
- the readers that turn spreadsheet cells into flags, numbers and names;
- the choice of a download folder, with its fallback;
- collision-free file naming and the per-link download loop;
- the per-row attempt loop and the consumer side of the batch loop;
- the text written to the log pane and the progress label.
- the per-row work of every service window (statements of account,
  refunds, grain settlements, sworn declarations, social-security
  contributions, electronic invoices), of the invoice batch, and of the
  invoice step of the monotributo control: the request each row sends,
  the links each answer yields, the folder chosen and the result row.

The outside world enters as parameters:

- writability of a folder: `writable: string -> bool`;
- names already in a folder: a finite set, or `listing: string -> set<string>`;
- the HTTP transport: `post(payload, attempt)` and `fetch(url, path)`;
- the clock: a `Clock` gives the reading each renaming by `get_unique_filename` takes, one per download of a run (a link's position, or an SCT variant's place among the row's variants), so two renamings of one run may or may not share a stamp; the account statement's JSON name takes its own stamp string;
- the order in which worker threads finish: a sequence;
- file writes: `write(path)` gives the error text of a failed write, or nothing;
- `json.dumps` of an error object: `dumps`;
- `format_date_str`: `formatDate`;
- whether a folder can be created (`os.makedirs`): `creatable`;
- the service's answer to the monotributo control's request: `answer`.

Modules follow the program's files:

| module | models |
|---|---|
| `Prelude`, `Text`, `Digits`, `Json`, `Urls` | foundations: filters, Python string methods, decimal text, Python values, the `urllib`/`os.path` steps used |
| `Helpers` | `mrbot_app/helpers.py` |
| `MinioHelpers`, `MinioLinks` | `mrbot_app/windows/minio_helpers.py` |
| `Mixins` | `mrbot_app/windows/mixins.py` |
| `BaseWindow` | `mrbot_app/windows/base.py` |
| `Batch` | the attempt loop and the `as_completed` consumer shared by the service windows |
| `Sct` | `mrbot_app/windows/sct.py` |
| `ServiceLinks` | the `_extract_links` shape the service windows share: a list of items, `build_link` per offered value with the item's 1-based position, each pair once, the generic walker as fallback |
| `Sifere` | `mrbot_app/windows/sifere.py` |
| `Ccma` | `mrbot_app/windows/ccma.py` |
| `PagoDevoluciones` | `mrbot_app/windows/pago_devoluciones.py` |
| `LiquidacionGranos` | `mrbot_app/windows/liquidacion_granos.py` |
| `DeclaracionEnLinea` | `mrbot_app/windows/declaracion_en_linea.py` |
| `AportesEnLinea` | `mrbot_app/windows/aportes_en_linea.py` |
| `Rcel` | `mrbot_app/windows/rcel.py` |
| `MisComprobantes` | `mrbot_app/mis_comprobantes.py`: the invoice batch, one row at a time |
| `ControlMonotributistas` | `mrbot_app/control_monotributistas.py`: the invoice step of the monotributo control |

## Model

| member | source | states |
|---|---|---|
| Helpers.EnsureTrailingSlash | mrbot_app/helpers.py:14-15 | the result ends with `/`, extends the input by at most one character, and equals the input exactly when the input already ends with `/` |
| Helpers.EnsureTrailingSlashIdempotent | mrbot_app/helpers.py:14-15 | applying it twice is the same as applying it once |
| Helpers.BuildHeaders | mrbot_app/helpers.py:18-24 | Content-Type is always `application/json`; `x-api-key` is present iff the key is non-empty, and `email` iff the e-mail is non-empty, each with the given value; no other header |
| Helpers.ParseBoolCell | mrbot_app/helpers.py:185-200 | booleans pass through; None gives the default; numbers give their truthiness; a stripped, lower-cased word from the true set gives true, one from the false set gives false, any other text gives the default; the invoice batch's `_to_bool` (mis_comprobantes.py:41-56) has the same branches and word sets, so it is this one definition |
| Helpers.ParseBoolCellDefault | mrbot_app/helpers.py:185-200 | the default matters exactly for the cells the reader does not recognise |
| Helpers.ParseBoolCellOfDisplay | mrbot_app/helpers.py:185-200 | the text `str(b)` of a boolean reads back as `b`, whatever the default |
| Helpers.GetUniqueFilename | mrbot_app/helpers.py:218-239 | the name returned is never taken; a free name is kept; a taken one becomes `<base>_<ts><ext>` or `<base>_<ts>_<n><ext>` with the least `n ≥ 1` that is free, so the answer is determined by the names present, the name and the timestamp |
| Helpers.FreeCandidateFrom | mrbot_app/helpers.py:226-239 | when every candidate below `n` is taken, some later candidate is free with all before it taken: the counter loop ends |
| Helpers.CandidateInjective | mrbot_app/helpers.py:229-239 | different counters give different candidate names, so the counter loop ends for a finite folder |
| Helpers.UniqueNameDetermined | mrbot_app/helpers.py:218-239 | at most one name meets the "least free candidate" description, so the name chosen is a function of the folder, the name and the timestamp |
| Helpers.FormatPeriod | mrbot_app/helpers.py:55-77 | None and NaN give empty text; a non-negative integer, or a float truncating to one (`202401.0`), gives its zero-padded decimal digits, six of them below a million; `True`/`False` give `000001`/`000000`; a negative number gives `-` followed by the digits of its absolute value, six characters at least; a text value gives the period of its stripped text, and a list or dict that of its stripped display text |
| Helpers.PeriodText | mrbot_app/helpers.py:66-77 | digits followed by `.0` lose the `.0`; otherwise a text holding exactly six digit characters gives those six digits, and any other text is kept as it is |
| Helpers.FormatPeriodOfDigits | mrbot_app/helpers.py:66-77 | digit text is kept, and digit text followed by `.0` loses the `.0` |
| Helpers.FormatPeriodSeparated | mrbot_app/helpers.py:69-77 | six digits split by one separator, as in `2024-01` or `01/2024`, read as the six digits |
| Helpers.FormatPeriodIdempotent | mrbot_app/helpers.py:55-77 | formatting an already formatted period changes nothing, for any value that is not a negative number |
| Helpers.PeriodTextIdempotent | mrbot_app/helpers.py:66-77 | the text step applied to its own result changes nothing |
| MinioHelpers.SanitizeIdentifier | mrbot_app/windows/minio_helpers.py:10-13 | with some letter, digit, `.` or `-` in the input the result uses only `[0-9A-Za-z._-]`, is non-empty and neither starts nor ends with `_`; otherwise it is the fallback; the invoice window's `_sanitize_identifier` (rcel.py:151-154) is the same sanitiser |
| MinioHelpers.CleanedNonEmpty | mrbot_app/windows/minio_helpers.py:10-13 | the cleaned text is empty exactly when the input has no identifier character |
| MinioHelpers.SanitizeIdempotent | mrbot_app/windows/minio_helpers.py:10-13 | sanitising a sanitised identifier changes nothing when the fallback is itself clean |
| MinioHelpers.EnsureExtension | mrbot_app/windows/minio_helpers.py:16-22 | a name with a dot is unchanged; otherwise the URL path's extension is appended |
| MinioHelpers.EnsureExtensionIdempotent | mrbot_app/windows/minio_helpers.py:16-22 | applying it twice is the same as applying it once |
| MinioHelpers.BuildLink | mrbot_app/windows/minio_helpers.py:25-36 | a link exists iff the value is text whose stripped form starts with `http` in any case; its URL is that stripped text and its file name is non-empty: the decoded path basename when there is one, else the hint or `<prefix>_<index>` with the URL's extension |
| MinioHelpers.BuildLinkNamedUrl | mrbot_app/windows/minio_helpers.py:31-35 | when the URL has a file name, hint, prefix and index do not affect the link |
| MinioHelpers.BuildLinkFileName | mrbot_app/windows/minio_helpers.py:25-36 | a plain `https://host/dir/name?query` URL is saved under `name` |
| MinioHelpers.PrepareDownloadDir | mrbot_app/windows/minio_helpers.py:53-65 | the stripped desired folder with no message iff it is writable; otherwise `descargas/<module>/<sanitised cuit or desconocido>` when that is writable; None with at least one message when neither is |
| MinioHelpers.DownloadOne | mrbot_app/windows/minio_helpers.py:72-88 | a link with an empty URL is skipped; otherwise it is fetched to the name `get_unique_filename` picks among the names present, it is saved exactly when the transfer succeeds, and the name becomes taken when the file was saved or a failed transfer left it behind; the outcome is the one the link, the names present, the timestamp and the transfers determine |
| MinioHelpers.DownloadLinks | mrbot_app/windows/minio_helpers.py:68-88 | with no folder: no download and the single no-folder message; with one: one outcome per link, each fetched to the name `get_unique_filename` picks among the names present before it, with the clock reading of that link's own call; saved plus errors equals the number of links, the errors are those of the failed or skipped links in order, and saved names are distinct and were not in the folder |
| MinioHelpers.RunAllSaved | mrbot_app/windows/minio_helpers.py:68-88 | when every link has a URL and every transfer succeeds, every link is saved and there is no error line |
| MinioHelpers.RunNoneSaved | mrbot_app/windows/minio_helpers.py:68-88 | when no transfer succeeds, nothing is saved and every link gives one error line |
| MinioHelpers.ErrorCell | mrbot_app/windows/pago_devoluciones.py:319 | a row's `errores_descarga` cell is empty exactly when there is no error line, and a single line stands alone |
| MinioLinks.AddAll | mrbot_app/windows/minio_helpers.py:107-115 | adding candidate links in order keeps the earlier ones first, contains every candidate, adds nothing else, and never creates a duplicate |
| MinioLinks.Dedup | mrbot_app/windows/minio_helpers.py:107-115 | the deduplicated links are free of duplicates and are exactly the links built |
| MinioLinks.AddAllAbsorbs | mrbot_app/windows/minio_helpers.py:107-115 | adding links already present changes nothing |
| MinioLinks.KeyHint | mrbot_app/windows/minio_helpers.py:124-127 | a dict key is used as a file-name hint iff it contains a dot |
| MinioLinks.CollectMinioLinks | mrbot_app/windows/minio_helpers.py:91-134 | every link found has a non-empty file name and an `http` URL, and no two are equal |
| MinioLinks.WalkIsFold | mrbot_app/windows/minio_helpers.py:117-131 | the recursive depth-first walk equals a fold of `add` over the accepted strings listed in key and list order |
| MinioLinks.FoldAddSound | mrbot_app/windows/minio_helpers.py:107-115 | every link the fold adds comes from one of the listed strings |
| MinioLinks.FoldAddNamed | mrbot_app/windows/minio_helpers.py:107-115 | every listed URL that has a file name is among the links |
| MinioLinks.CollectMinioLinksSpec | mrbot_app/windows/minio_helpers.py:91-134 | the walker's result is free of duplicates, each link comes from a string the walker accepts, and every accepted URL with a file name is found |
| Mixins.FilterProcesar | mrbot_app/windows/mixins.py:76-84 | None stays None; a frame without `procesar` is unchanged; otherwise the columns are kept and the rows kept, in order, are exactly those whose stripped, lower-cased cell is one of `si`, `sí`, `yes`, `y`, `1`, as many as there are such rows |
| Mixins.AffirmativeSpelling | mrbot_app/windows/mixins.py:80-83 | blanks around an affirmative word do not matter |
| Mixins.ProcessDownloads | mrbot_app/windows/mixins.py:141-164 | no links means `(0, [], None)` with no folder resolved; otherwise the folder is resolved from the override when non-empty, else the window's path; no folder gives the one no-folder message; with a folder the download count and the error lines are exactly those `download_links` reports for the links into the folder's present names, each renaming with its own clock reading |
| Mixins.LinksFor | mrbot_app/windows/mixins.py:146-149 | without a window-specific extractor the generic walker's well-formed links are used |
| BaseWindow.PrefixLinesSplit | mrbot_app/windows/base.py:74-76 | the prefixed text has as many lines as the message (one for an empty message), each the prefix and the line, or the stripped prefix for an empty line |
| BaseWindow.FormatLogMessage | mrbot_app/windows/base.py:63-72 | empty text for an empty message, otherwise text ending with a newline |
| BaseWindow.FormatLogMessageLines | mrbot_app/windows/base.py:63-72 | one log line per message line, each starting with `[<timestamp>]` |
| BaseWindow.SeparatorLines | mrbot_app/windows/base.py:101-103 | the separator reads back as sixty dashes, `CONTRIBUYENTE: <name>`, sixty dashes |
| BaseWindow.StartText | mrbot_app/windows/base.py:95-99 | `INICIADOR: <title>`, followed by ` \| <json>` exactly when the details are non-empty |
| BaseWindow.SetProgress | mrbot_app/windows/base.py:186-198 | a non-positive total shows `0/0` on a bar of maximum 1; otherwise the bar's maximum is the total and its value the current count clamped to `[0, total]` |
| BaseWindow.ProgressLabel | mrbot_app/windows/base.py:186-198 | the label reads back as the shown value and the total |
| Batch.Attempts | mrbot_app/windows/sct.py:485-486 | at least one attempt; the row's `retry` when it reads as an integer above 1, else 1 |
| Batch.AttemptsOfText | mrbot_app/windows/sct.py:485-486 | a retry cell holding the text of `n` gives `n` attempts when `n > 1`, else 1 |
| Batch.RunAttempts | mrbot_app/windows/sct.py:487-498 | the loop stops at the first HTTP 200 or after the last attempt, and keeps the answer of the last attempt made |
| Batch.FirstOkSpec | mrbot_app/windows/sct.py:487-498 | any attempt count with no earlier 200 that ends on a 200 or the last attempt is the first-success index |
| Batch.Consume | mrbot_app/windows/sct.py:398-413 | the progress reported is `1, 2, …` up to the first finished future that sees the abort flag, or all of them; only truthy results of the futures consumed are kept, in completion order |
| Batch.Query | mrbot_app/windows/sifere.py:306-313 | the answer kept is the one of the first attempt with HTTP 200, or of the last attempt |
| Batch.OptionalValue | mrbot_app/windows/sifere.py:93-95 | None exactly when the text is blank; otherwise the stripped text, non-empty and with no blank at either end; the `_optional_value` of the refunds, contributions and declarations windows (pago_devoluciones.py:91-93, aportes_en_linea.py:129-131, declaracion_en_linea.py:138-140) is the same reader |
| Batch.OptionalValueIdempotent | mrbot_app/windows/sifere.py:93-95 | reading an optional value twice gives the same value |
| Batch.Redact | mrbot_app/windows/sct.py:127-131 | the same keys; `clave`, when present, becomes `***`; every other key keeps its value; the `_redact` copies of the grain and invoice windows (liquidacion_granos.py:128-132, rcel.py:247-251) are the same |
| Batch.OptionalJson | mrbot_app/windows/pago_devoluciones.py:261-269 | the represented CUIT goes into the request body as JSON null exactly when the optional reader found nothing, and otherwise as its text; the grain and contributions windows (liquidacion_granos.py:253, aportes_en_linea.py:201) send it the same way |
| Batch.FolderCuit | mrbot_app/windows/pago_devoluciones.py:297 | `cuit_repr or cuit_rep or "desconocido"`: the represented CUIT when non-empty, else the representative's when non-empty, else `desconocido`; never empty; the grain window (liquidacion_granos.py:292) uses the same fallback |
| Sct.FormatLogLine | mrbot_app/windows/sct.py:102-119 | each style's frame around the body: `header` between two main rules, `section` under a sub-rule, `bullet` after `  - `, `success` after `  [OK] `, `error` after `  [ERROR] ` and above a sub-rule, `raw` exactly the body, any other style the body and one newline |
| Sct.FormatLogLineShape | mrbot_app/windows/sct.py:102-119 | every style but `raw` ends with a newline, and the text, with its trailing newlines cut, is kept whole inside |
| Sct.PlainLineReadsBack | mrbot_app/windows/sct.py:104-119 | cutting the trailing newlines of an unstyled line gives the body back |
| Sct.EnsureExtSpec | mrbot_app/windows/sct.py:133-139 | `reporte.<ext>` for a blank name; the stripped name in front; `.<ext>` at the end in any case |
| Sct.EnsureExtIdempotent | mrbot_app/windows/sct.py:133-139 | applying it twice is the same as applying it once, for a lower-case extension |
| Sct.BuildOutputFlags | mrbot_app/windows/sct.py:248-289 | exactly the nine `<block>_<format>_minio` keys, each true iff its block is included and its format is on; `selected` iff some block and some format are both on |
| Sct.FlagKeysDistinct | mrbot_app/windows/sct.py:256-266 | the nine flag keys are pairwise distinct |
| Sct.RowFormatFlags | mrbot_app/windows/sct.py:223-246 | no row gives the defaults; otherwise each format is read from its column over its default |
| Sct.Pick | mrbot_app/windows/sct.py:234-242 | an absent column keeps the default; a present one is read as a flag, over `False` when the row is preferred |
| Sct.PreferRowIgnoresDefault | mrbot_app/windows/sct.py:234-242 | with the row preferred, a present column decides alone |
| Sct.PickOfWrittenBool | mrbot_app/windows/sct.py:234-242 | a column holding `str(b)` gives `b`, whatever the default and the preference |
| Sct.VariantUrl | mrbot_app/windows/sct.py:162-170 | the first of the two URL keys holding non-blank text, stripped |
| Sct.VariantFileNameSpec | mrbot_app/windows/sct.py:174-182 | the file always carries the format's extension (`xls` for Excel), and a named block keeps its name in front |
| Sct.DownloadVariant | mrbot_app/windows/sct.py:146-199 | an off flag gives "not requested"; a missing link gives the missing-link message; a saved file went to a free name in the block folder; the result and the names taken are those the answer, the flags and the transfers determine |
| Sct.ProcessDownloadsPerBlock | mrbot_app/windows/sct.py:201-221 | downloads plus error lines equals the number of variants the flags ask for over the enabled blocks, every error line is headed `<block>-<format>` of a requested variant of an enabled block, and the count and the lines are those of trying every requested variant of every enabled block in order, each renaming with its own clock reading |
| Sct.ProcessBlock | mrbot_app/windows/sct.py:211-220 | an enabled block is tried in each of its three formats: downloads plus error lines equals the formats requested, each error under that block, and the tally is that of the three formats in order, each with the clock reading of its own place |
| Sct.ProcessVariant | mrbot_app/windows/sct.py:215-220 | one format of an enabled block gives one download or one error line when requested, and nothing otherwise; the tally is that of the variant's own result |
| Sct.VariantsRequestedBounds | mrbot_app/windows/sct.py:208-221 | no flag on means nothing is asked for, and each enabled block asks for at most three variants |
| Sct.SctPayload | mrbot_app/windows/sct.py:472-478 | the request holds the password, the stripped represented CUIT, `proxy_request` only when the row has that column, and every output flag |
| Sct.QueryRow | mrbot_app/windows/sct.py:485-520 | the row's result carries the kept answer's HTTP status, `status` and `error_message`; a non-dict answer downloads nothing; for a dict answer the downloads and the `errores_descarga` cell are those of the per-block tally, at most the variants requested, and the cell is empty exactly when every requested variant was saved |
| Sct.ProcessRowSct | mrbot_app/windows/sct.py:419-520 | an aborted row gives None; a row asking for no file is reported without a request; otherwise the request is made and the answer reported, with the downloads and the `errores_descarga` cell of the per-block tally of a dict answer, empty exactly when every requested variant was saved |
| ServiceLinks.ItemLinksMember | mrbot_app/windows/sifere.py:151-157 | a list item yields a link exactly when it is a dict and one of its offered values builds that link at the item's position |
| ServiceLinks.ListedLinks | mrbot_app/windows/sifere.py:146-162 | no links unless the answer holds a list under the key; then the links are free of duplicates and are exactly those the items offer |
| ServiceLinks.ListedLinksMember | mrbot_app/windows/sifere.py:148-162 | a link is listed exactly when some item of the list builds it with its 1-based position as index |
| ServiceLinks.ListedWellFormed | mrbot_app/windows/sifere.py:155-162 | with `build_link` as builder every listed link has an `http` URL and a file name, and none repeats |
| ServiceLinks.ExtractedSpec | mrbot_app/windows/sifere.py:145-165 | when the list yields links, the result is exactly those links; when it yields none, the result is the generic walker's |
| ServiceLinks.BuilderGood | mrbot_app/windows/minio_helpers.py:25-36 | every link `build_link` returns has an `http` URL equal to its stripped form and a non-empty file name |
| Sifere.CoerceJurisdiccion | mrbot_app/windows/sifere.py:97-115 | None, NaN and booleans give no code; an integer is itself; a float only when integral; text is read as decimal digits after stripping, with a trailing `.0` after digits dropped |
| Sifere.CoerceDigits | mrbot_app/windows/sifere.py:107-115 | a decimal number reads as its value with blanks around it or with `.0` after it |
| Sifere.CoerceNatText | mrbot_app/windows/sifere.py:107-115 | the decimal text of a number reads back as that number |
| Sifere.ParseJurisdicciones | mrbot_app/windows/sifere.py:117-143 | None and blank text give no codes and no error; an all-jurisdictions word gives every code; a list is scanned item by item; an error always comes with no codes and starts with `Jurisdicciones invalidas: ` |
| Sifere.AllCodes | mrbot_app/windows/sifere.py:127 | the 24 codes 901 to 924, in order |
| Sifere.Outcome | mrbot_app/windows/sifere.py:140-143 | an error exactly when some item was invalid, then with no codes; otherwise the valid codes in order, or every code |
| Sifere.ScanEverything | mrbot_app/windows/sifere.py:132-134 | the loop returns every code exactly when some item is an all-jurisdictions word |
| Sifere.ScanValid | mrbot_app/windows/sifere.py:132-139 | without such a word, the codes kept are those of the valid items, in order |
| Sifere.ScanInvalid | mrbot_app/windows/sifere.py:132-138 | without such a word, the texts reported are those of the invalid items, in order |
| Sifere.ListWithAllWord | mrbot_app/windows/sifere.py:133-134 | a list with an all-jurisdictions word anywhere asks for every code |
| Sifere.InvalidItemRejects | mrbot_app/windows/sifere.py:136-142 | one item outside 901-924 makes the whole list an error with no codes |
| Sifere.ParseCodeList | mrbot_app/windows/sifere.py:120-143 | a list of codes between 901 and 924 reads back as the same codes, in order, with no error |
| Sifere.ParseCodeText | mrbot_app/windows/sifere.py:123-143 | codes written as text separated by `,`, `;` or `\|` read back as the same codes, in order, with no error |
| Sifere.UnifyJoin | mrbot_app/windows/sifere.py:128 | replacing `;` and `\|` by `,` turns a join of digit pieces with any of the three separators into their comma join |
| Sifere.KeptClean | mrbot_app/windows/sifere.py:129 | non-empty pieces that stripping leaves alone are all kept, in order |
| Sifere.SifereItemLink | mrbot_app/windows/sifere.py:151-157 | an item yields a link exactly when it is a dict and one of its entries builds it, the entry's key serving as hint when it contains a dot |
| Sifere.ExtractLinks | mrbot_app/windows/sifere.py:145-165 | the links found have `http` URLs and file names and none repeats |
| Sifere.PayloadIdentity | mrbot_app/windows/sifere.py:285-287 | the request carries the password as the row gives it and the stripped represented CUIT |
| Sifere.PayloadRequest | mrbot_app/windows/sifere.py:289-290 | the request carries the optional name and the parsed codes as a list of integers |
| Sifere.PayloadCarriesCodes | mrbot_app/windows/sifere.py:290 | the codes the request carries parse back as the row's codes |
| Sifere.QueryRow | mrbot_app/windows/sifere.py:299-334 | the result carries the kept answer's HTTP status, `success` and `message`; no links means no downloads, no errors and no folder; with links the folder is the one resolved from the row's folder columns or the window's path, and the downloads and the `errores_descarga` cell are those `download_links` reports into it |
| Sifere.ProcessRowSifere | mrbot_app/windows/sifere.py:263-334 | an aborted row gives None; a bad jurisdiction list is reported with `success` false and its message, without a request; otherwise the answer is reported, with the folder, downloads and `errores_descarga` cell of its links |
| Ccma.SanitizeFilenamePart | mrbot_app/windows/ccma.py:110-113 | the shared identifier sanitiser with `desconocido` as fallback: only `[0-9A-Za-z._-]`, no `_` at either end, the fallback exactly when nothing is left |
| Ccma.SanitizeFilenamePartIdempotent | mrbot_app/windows/ccma.py:110-113 | a sanitised part is its own sanitised form |
| Ccma.ParseOptionalBool | mrbot_app/windows/ccma.py:115-135 | None and NaN are unset; booleans pass through; numbers give their truthiness; stripped text that is blank is unset, a true word gives true, a false word false, any other word is unset |
| Ccma.OptionalWord | mrbot_app/windows/ccma.py:127-135 | on stripped text: blank and unknown words are unset, the true and false words (in any case) give their meaning |
| Ccma.ParseBoolCellFills | mrbot_app/windows/ccma.py:115-135 | apart from NaN, `parse_bool_cell` is this reading with the default filling the unset case |
| Ccma.ParseOptionalBoolUnset | mrbot_app/windows/ccma.py:115-135 | a cell is unset exactly when it is NaN or `parse_bool_cell` answers with its default |
| Ccma.ParseOptionalBoolOfDisplay | mrbot_app/windows/ccma.py:127-134 | `str(b)` of a boolean reads back as `b` |
| Ccma.ResolveCuitLabel | mrbot_app/windows/ccma.py:137-146 | the represented CUIT when non-empty; else the CUIT the answer's response object reports, as stripped text, when non-empty; else the representative's CUIT; empty only when all three are |
| Ccma.AnsweredCuitLabel | mrbot_app/windows/ccma.py:140-145 | with no represented CUIT, a non-blank text `cuit` in the answer names the folder, stripped |
| Ccma.NullCuitLabel | mrbot_app/windows/ccma.py:143-145 | a `cuit` present but null is written `None`, and `None` names the folder |
| Ccma.JsonName | mrbot_app/windows/ccma.py:153-155 | the saved answer is named `<sanitised label>_<stamp>.json`, the stamp written `%Y-%m-%d %H-%M-%S` |
| Ccma.SaveResponseJson | mrbot_app/windows/ccma.py:148-161 | no folder gives the no-folder message and no file; otherwise a path is returned exactly when the write of `<folder>/<name>` succeeds, and an error exactly when it does not |
| Ccma.ExtractLinks | mrbot_app/windows/ccma.py:163-173 | at most one link, and it is well formed |
| Ccma.ExtractLinksSpec | mrbot_app/windows/ccma.py:163-173 | there is a link exactly when the response object (`response_ccma`, else the answer itself) is a dict whose `pdf_url_minio` is text starting with `http`, and it is what `build_link` makes of that URL with prefix `ccma` and index 1 |
| Ccma.WrappedPdfLink | mrbot_app/windows/ccma.py:166-172 | a PDF URL under `response_ccma` is the one link |
| Ccma.BarePdfLink | mrbot_app/windows/ccma.py:166-172 | without `response_ccma` the answer itself is the response object |
| Ccma.NullWrapperNoLink | mrbot_app/windows/ccma.py:164-168 | a null `response_ccma` hides a top-level PDF URL: no link |
| Ccma.CcmaPayload | mrbot_app/windows/ccma.py:311-319 | the request keys in the window's order, with `pdf` added last only when the PDF is wanted |
| Ccma.PayloadFlags | mrbot_app/windows/ccma.py:311-319 | `pdf` is present exactly when wanted; `movimientos` and `proxy_request` always carry the flags |
| Ccma.PayloadIdentity | mrbot_app/windows/ccma.py:311-314 | the request carries the stripped CUITs and the password as the row gives them |
| Ccma.PutGet | mrbot_app/windows/ccma.py:406-411 | after `d[key] = v` the key reads `v` and every other key reads as before |
| Ccma.MergeGet | mrbot_app/windows/ccma.py:406-411 | `{**head, **mov}` answers from the movement first, then from the head |
| Ccma.RowOutcome | mrbot_app/windows/ccma.py:377-432 | an HTTP 200 with a dict answer gives a statement when the response object is a dict (its `cuit`, `periodo`, `pdf_url_minio` and the wrapped object) or the answer kept as it came; anything else records the whole response as the error |
| Ccma.Movements | mrbot_app/windows/ccma.py:401-412 | no movement rows unless movements were asked for and the answer lists them; then one row per dict movement |
| Ccma.MovementFields | mrbot_app/windows/ccma.py:403-411 | the `i`-th movement row reads a key from the `i`-th dict movement when it has it, else from the head (the representative, and the represented CUIT or the answer's `cuit`) |
| Ccma.StoreAnswer | mrbot_app/windows/ccma.py:351-367 | the folder is resolved from the row's folder, else the window's, under the resolved label, only when the answer has a link; a JSON path is given exactly when there is a folder and the write of `<folder>/<label>_<stamp>.json` succeeds; the download names use the separate collision suffix |
| Ccma.QueryRow | mrbot_app/windows/ccma.py:326-367 | the kept answer is that of the retry loop; the folder follows from its links and its CUIT label; a JSON path is given exactly when there is a folder and the write of the label's file there succeeds |
| Ccma.ProcessRowCcma | mrbot_app/windows/ccma.py:298-434 | an aborted row returns nothing and makes no request; otherwise the result row carries the PDF flag (the default when the cell is unset), the outcome of the kept answer and its movement rows, and the movements flag is returned |
| PagoDevoluciones.BoolCell | mrbot_app/windows/pago_devoluciones.py:95-103 | a boolean passes through; a falsy cell gives the default; otherwise the stripped, lower-cased text gives true for a true word, false for a false word, the default for anything else |
| PagoDevoluciones.BoolCellAgreesOnText | mrbot_app/windows/pago_devoluciones.py:95-103 | on text, booleans and None this reader agrees with `parse_bool_cell` |
| PagoDevoluciones.BoolCellOfInt | mrbot_app/windows/pago_devoluciones.py:98-103 | on integers it does not: zero gives the default, one gives true, every other integer the default |
| PagoDevoluciones.IntWord | mrbot_app/windows/pago_devoluciones.py:98-102 | `str(i)` is a true word only for one and a false word only for zero |
| PagoDevoluciones.ExtractApiError | mrbot_app/windows/pago_devoluciones.py:105-117 | nothing for a non-dict answer or a null `error`; a dict error gives its JSON text; a list gives its non-blank stripped items joined by `; `, nothing when there are none; any other value its stripped text, nothing when blank |
| PagoDevoluciones.ErrorParts | mrbot_app/windows/pago_devoluciones.py:112 | at most one part per item, each non-empty and stripped |
| PagoDevoluciones.ErrorPartsOfTexts | mrbot_app/windows/pago_devoluciones.py:112 | items that are already clean texts come through unchanged and in order |
| PagoDevoluciones.ApiErrorOfMessages | mrbot_app/windows/pago_devoluciones.py:111-113 | a list of clean messages is reported as those messages joined by `; ` |
| PagoDevoluciones.ArchivoLinks | mrbot_app/windows/pago_devoluciones.py:121-131 | None exactly when `build_link` raises on the object (its URL names no file and its `nombre` is truthy but not text); otherwise at most one link, none unless `archivo` is a dict, and one exactly when `build_link` makes one of its `url_minio` with its `nombre` as hint, that link |
| PagoDevoluciones.ExtractLinks | mrbot_app/windows/pago_devoluciones.py:119-134 | None exactly when building the `archivo` link raises; otherwise the `archivo` link when there is one, else the generic walker's links under the window's prefix; always well formed |
| PagoDevoluciones.NombreDecides | mrbot_app/windows/pago_devoluciones.py:119-134 | for a URL that names no file, a non-zero number as `nombre` makes the extractor raise, and a text `nombre` names the one file after that text |
| PagoDevoluciones.PayloadEntries | mrbot_app/windows/pago_devoluciones.py:266-272 | the five request keys, in the window's order |
| PagoDevoluciones.PayloadFields | mrbot_app/windows/pago_devoluciones.py:266-272 | each of the five keys holds the value given: the credentials as text, the represented value, and the two flags |
| PagoDevoluciones.PayloadDefaults | mrbot_app/windows/pago_devoluciones.py:263-272 | without the flag columns the request uses the window's defaults, and a blank represented CUIT is sent as None |
| PagoDevoluciones.ProcessRowPago | mrbot_app/windows/pago_devoluciones.py:243-321 | no result row exactly when the row is aborted or the extractor raises on the kept answer (the batch drops a raising row as it drops None); otherwise the result carries the folder CUIT, the kept answer's status, `success`, `message` and extracted error; no links means no downloads, no errors and no folder; with links the folder is the one resolved from the row's folder or the window's, and the downloads and the `errores_descarga` cell are those `download_links` reports into it |
| LiquidacionGranos.OptionalCell | mrbot_app/windows/liquidacion_granos.py:103-105 | a falsy cell gives None; otherwise the stripped text, None when blank |
| LiquidacionGranos.NameValue | mrbot_app/windows/liquidacion_granos.py:117 | `archivo` when truthy, else `tipo` when truthy, else `consulta` |
| LiquidacionGranos.ExtractLinks | mrbot_app/windows/liquidacion_granos.py:107-126 | None exactly when some voucher makes `build_link` raise (its URL names no file and its name hint is truthy but not text); otherwise the vouchers' links, each pair once, when there are any, else the generic walker's; always well formed |
| LiquidacionGranos.NumberNameRaises | mrbot_app/windows/liquidacion_granos.py:113-118 | one voucher whose URL names no file and whose `archivo` is a non-zero number makes the whole extractor raise, whatever the other vouchers offer |
| LiquidacionGranos.GranosItemLink | mrbot_app/windows/liquidacion_granos.py:113-119 | an item yields a link exactly when it is a dict whose `url_minio` builds it with the item's name and 1-based position without raising; an item on which `build_link` raises yields none |
| LiquidacionGranos.ExtractLinkSound | mrbot_app/windows/liquidacion_granos.py:110-123 | every link found while vouchers give links comes from some voucher |
| LiquidacionGranos.ExtractLinkComplete | mrbot_app/windows/liquidacion_granos.py:110-123 | every voucher's link is found, unless some voucher makes the extractor raise |
| LiquidacionGranos.RowDate | mrbot_app/windows/liquidacion_granos.py:254-255 | the formatted cell when non-empty, else the window's date |
| LiquidacionGranos.BaseEntries | mrbot_app/windows/liquidacion_granos.py:261-269 | the seven request keys, in the window's order |
| LiquidacionGranos.WithProxyFields | mrbot_app/windows/liquidacion_granos.py:261-271 | `proxy_request` is in the request exactly when there is a reading, with that reading, and the password is the one given |
| LiquidacionGranos.RowProxy | mrbot_app/windows/liquidacion_granos.py:256-258 | a reading exactly when the row has the column, and then `parse_bool_cell` over the default |
| LiquidacionGranos.PayloadProxy | mrbot_app/windows/liquidacion_granos.py:256-273 | the request has `proxy_request` exactly when the row has the column, with the cell's reading; the password travels and is masked in the logged copy |
| LiquidacionGranos.ProcessRowGranos | mrbot_app/windows/liquidacion_granos.py:235-311 | no result row exactly when the row is aborted or the extractor raises on the kept answer (the batch drops a raising row as it drops None); otherwise the result carries the folder CUIT and the kept answer's status, `success` and `message`; no links means no downloads, no errors and no folder; with links the folder is resolved from the row's folder or the window's, and the downloads and the `errores_descarga` cell are those `download_links` reports into it |
| DeclaracionEnLinea.FilterProcesar | mrbot_app/windows/declaracion_en_linea.py:130-136 | None stays None; a frame without `procesar` is unchanged; otherwise the columns are kept and the rows kept, in order and as many as match, are exactly those whose text cell, lower-cased and not stripped, is one of `si`, `sí`, `yes`, `y`, `1`; the invoice window's filter (rcel.py:169-175) is the same |
| DeclaracionEnLinea.FilterCapitals | mrbot_app/windows/declaracion_en_linea.py:135 | `SI` passes |
| DeclaracionEnLinea.FilterPadded | mrbot_app/windows/declaracion_en_linea.py:135 | ` si ` fails here although the shared mixin's test accepts it |
| DeclaracionEnLinea.ExtractLinks | mrbot_app/windows/declaracion_en_linea.py:142-165 | the declarations' links, each pair once, when there are any; otherwise the generic walker's; always well formed |
| DeclaracionEnLinea.DdjjItemLink | mrbot_app/windows/declaracion_en_linea.py:148-157 | an item yields a link exactly when it is a dict and one of its three fields builds it with its label and 1-based position |
| DeclaracionEnLinea.ExtractLinkSound | mrbot_app/windows/declaracion_en_linea.py:145-162 | every link found while declarations give links comes from some declaration |
| DeclaracionEnLinea.ExtractLinkComplete | mrbot_app/windows/declaracion_en_linea.py:145-162 | every declaration's link is found |
| DeclaracionEnLinea.ItemNameParts | mrbot_app/windows/declaracion_en_linea.py:194-199 | the parts start with `ddjj` and end with the position |
| DeclaracionEnLinea.ItemJsonName | mrbot_app/windows/declaracion_en_linea.py:167-201 | always ends in `.json`: the file stem of the first of the three link fields that builds a link, with `.json`; when none does, the sanitised parts joined by `_`, with `.json` |
| DeclaracionEnLinea.ItemJsonNameOfLink | mrbot_app/windows/declaracion_en_linea.py:174-180 | an excel link `https://<host>/<dir>/<stem><ext>` gives `<stem>.json` |
| DeclaracionEnLinea.LinkStemOfExcel | mrbot_app/windows/declaracion_en_linea.py:174-179 | the stem of such a link is `<stem>` |
| DeclaracionEnLinea.ItemJsonNameOfParts | mrbot_app/windows/declaracion_en_linea.py:181-201 | a declaration with no usable link, a clean CUIT and a clean period is saved as `ddjj_<cuit>_<period>_<index>.json` |
| DeclaracionEnLinea.FallbackParts | mrbot_app/windows/declaracion_en_linea.py:209-213 | the parts start with `ddjj` |
| DeclaracionEnLinea.FallbackJsonName | mrbot_app/windows/declaracion_en_linea.py:203-215 | the fallback name ends in `.json` |
| DeclaracionEnLinea.FallbackJsonNamePlain | mrbot_app/windows/declaracion_en_linea.py:203-215 | no period and no represented CUIT give `ddjj.json` |
| DeclaracionEnLinea.LabelledClean | mrbot_app/windows/declaracion_en_linea.py:200 | clean parts are joined by `_` unchanged |
| DeclaracionEnLinea.HeaderOf | mrbot_app/windows/declaracion_en_linea.py:222 | the header is always a dict |
| DeclaracionEnLinea.ItemTargets | mrbot_app/windows/declaracion_en_linea.py:226-233 | at most one name per declaration |
| DeclaracionEnLinea.ItemTargetsNone | mrbot_app/windows/declaracion_en_linea.py:226-233 | no declaration with data, no file name |
| DeclaracionEnLinea.ItemTargetsHas | mrbot_app/windows/declaracion_en_linea.py:226-233 | a declaration with data at position `index + k` is named by its own name |
| DeclaracionEnLinea.JsonTargets | mrbot_app/windows/declaracion_en_linea.py:220-255 | at least one file is written |
| DeclaracionEnLinea.JsonTargetsFallback | mrbot_app/windows/declaracion_en_linea.py:246-255 | with no declaration worth saving, the whole answer is written under the fallback name |
| DeclaracionEnLinea.JsonTargetsItem | mrbot_app/windows/declaracion_en_linea.py:226-247 | every declaration with data is written under its own name, and then those are all the files |
| DeclaracionEnLinea.WriteAll | mrbot_app/windows/declaracion_en_linea.py:227-254 | every name is written in order: the successes are counted, each failure gives one `<name>: <error>` line |
| DeclaracionEnLinea.SaveJsonFromData | mrbot_app/windows/declaracion_en_linea.py:217-255 | no folder gives the one message; an empty or non-dict answer gives nothing; otherwise saved plus errors equals the number of target files |
| DeclaracionEnLinea.DownloadFromData | mrbot_app/windows/declaracion_en_linea.py:257-265 | the folder is always resolved; no links means no downloads and no errors; with links and no folder, the one message; otherwise the count and the error lines are those `download_links` reports into the folder |
| DeclaracionEnLinea.PayloadEntries | mrbot_app/windows/declaracion_en_linea.py:330-339 | the eight request keys, in the window's order |
| DeclaracionEnLinea.PayloadFlags | mrbot_app/windows/declaracion_en_linea.py:337-338 | `carga_minio` is always true and `proxy_request` always false |
| DeclaracionEnLinea.OptionalField | mrbot_app/windows/declaracion_en_linea.py:327-334 | an optional field travels as None exactly when blank |
| DeclaracionEnLinea.CuitFolder | mrbot_app/windows/declaracion_en_linea.py:346 | the represented CUIT when given, else the representative's |
| DeclaracionEnLinea.ProcessRowDdjj | mrbot_app/windows/declaracion_en_linea.py:325-369 | the result carries the folder CUIT, the answer's status, `success` and `message`, and the folder resolved from the row's or the window's; no folder means no JSON saved, no downloads and the one message; with a folder the downloads and the `errores_descarga` cell are those `download_links` reports, and with a non-empty dict answer saved plus failed JSON files equals the number of targets |
| AportesEnLinea.FilterProcesar | mrbot_app/windows/aportes_en_linea.py:121-127 | as written: the text cell, lower-cased and not stripped, must be one of the listed words, one of which is the garbled `sÃ­` |
| AportesEnLinea.ListedGarbledUnreachable | mrbot_app/windows/aportes_en_linea.py:126 | no lower-cased cell equals the garbled word, so the filter in fact accepts exactly `si`, `yes`, `y`, `1` |
| AportesEnLinea.AccentedSiRejected | mrbot_app/windows/aportes_en_linea.py:126 | a row marked `sí` is dropped |
| AportesEnLinea.FilterProcesarIntended | mrbot_app/windows/aportes_en_linea.py:121-127 | the filter with the intended word `sí`: the same test as the declarations window |
| AportesEnLinea.IntendedAcceptsAccentedSi | mrbot_app/windows/aportes_en_linea.py:126 | the intended filter keeps `sí` and `SÍ`, which the written one drops |
| AportesEnLinea.HistoricoLinks | mrbot_app/windows/aportes_en_linea.py:135-139 | at most one link: what `build_link` makes of `archivo_historico_minio_url` with hint `aportes_historico`, prefix `aportes`, index 1 |
| AportesEnLinea.ExtractLinks | mrbot_app/windows/aportes_en_linea.py:133-142 | the historical file when there is one, otherwise the generic walker's links; always well formed |
| AportesEnLinea.ExtractLinksOfHistorico | mrbot_app/windows/aportes_en_linea.py:133-139 | a historical URL `https://<host>/<dir>/<name>?<query>` gives exactly that one file, named `<name>` |
| AportesEnLinea.ExtractLinksOfNonDict | mrbot_app/windows/aportes_en_linea.py:135-141 | an answer that is not a dict goes to the generic walker |
| AportesEnLinea.DownloadFromData | mrbot_app/windows/aportes_en_linea.py:144-152 | no links means nothing done and no folder; otherwise the folder is resolved; no folder gives the one message; otherwise the count and the error lines are those `download_links` reports into the folder |
| AportesEnLinea.PayloadEntries | mrbot_app/windows/aportes_en_linea.py:203-210 | the six request keys, in the window's order |
| AportesEnLinea.PayloadFlags | mrbot_app/windows/aportes_en_linea.py:201-210 | the historical file is asked for in storage, not inline, never through a proxy, for the represented CUIT given |
| AportesEnLinea.CuitFolder | mrbot_app/windows/aportes_en_linea.py:217 | the represented CUIT when given, else the login CUIT |
| AportesEnLinea.ProcessRowAportes | mrbot_app/windows/aportes_en_linea.py:199-235 | the result carries the folder CUIT, the answer's status, `status` and `error_message` (None for a non-dict answer); no links means no downloads, no errors, no folder; with links the folder is resolved from the row's or the window's, without one the one message, and with one the downloads and the `errores_descarga` cell are those `download_links` reports |
| Rcel.PrepareDir | mrbot_app/windows/rcel.py:177-192 | the stripped desired folder with no message exactly when it is writable; otherwise `descargas/RCEL/<sanitised cuit>` when writable; no folder exactly when neither is, and then with a message |
| Rcel.PdfFileName | mrbot_app/windows/rcel.py:207 | the undecoded basename of the URL path, or `factura.pdf` when empty |
| Rcel.PdfLink | mrbot_app/windows/rcel.py:198-207 | a text makes a link exactly when it passes the PDF test (stripped, `http`, and `minio` or a `.pdf` path); its URL is the stripped text and its name the basename rule |
| Rcel.LinksOf | mrbot_app/windows/rcel.py:208-212 | no two links repeat |
| Rcel.ExtractPdfLinks | mrbot_app/windows/rcel.py:194-226 | the links are well formed and do not repeat |
| Rcel.ExtractPdfLinksMember | mrbot_app/windows/rcel.py:194-226 | a link is found exactly when some text the walk visits makes it |
| Rcel.LinksOfMember | mrbot_app/windows/rcel.py:198-212 | a link is kept exactly when some text makes it |
| Rcel.ListTextsIgnored | mrbot_app/windows/rcel.py:221-223 | texts directly inside a list are never looked at |
| Rcel.DictTextFound | mrbot_app/windows/rcel.py:215-220 | a PDF URL under a dict key gives its link |
| Rcel.DuplicateUrlOnce | mrbot_app/windows/rcel.py:208-211 | the same URL under two keys is one link |
| Rcel.PdfError | mrbot_app/windows/rcel.py:234-244 | a link without URL is reported `<name>: URL vacía`; otherwise it is fetched to `<dir>/<name>` and is an error exactly when the transfer fails |
| Rcel.PdfSavedCount | mrbot_app/windows/rcel.py:231-245 | the saved count plus the errors equals the number of links |
| Rcel.DownloadPdfs | mrbot_app/windows/rcel.py:228-245 | no folder gives the one message and no download; otherwise every link is tried in order, saved plus errors equals the number of links |
| Rcel.SameNameSameTarget | mrbot_app/windows/rcel.py:235-240 | two links with the same URL and name go to the same file with the same result |
| Rcel.RowOr | mrbot_app/windows/rcel.py:313-314 | the row's stripped cell when non-blank, else the window's stripped field |
| Rcel.PayloadEntries | mrbot_app/windows/rcel.py:321-330 | the eight request keys, in the window's order |
| Rcel.PayloadFields | mrbot_app/windows/rcel.py:321-330 | the period and the two options are carried as given |
| Rcel.DownloadFromData | mrbot_app/windows/rcel.py:338-352 | links come only from a dict answer; none means no downloads, no errors and no folder; with links the folder is the invoice window's choice, no folder gives the one message, and otherwise the saved count and the error lines are those of the downloads |
| Rcel.ProcessRowRcel | mrbot_app/windows/rcel.py:312-365 | the result carries the represented CUIT and the answer's status, `success` and `message`; no links means no downloads, no errors and no folder; with links the folder is the invoice window's choice, saved plus errors counts the links, and the `errores_descarga` cell joins the PDF downloads' error lines |
| MisComprobantes.TranslateChar | mrbot_app/mis_comprobantes.py:31 | the accented vowels and `ñ` of the translation table, small or capital, become ASCII letters; every other character is unchanged |
| MisComprobantes.KeyChar | mrbot_app/mis_comprobantes.py:31-38 | one character of the stripped key: a space becomes `_`, a translated letter becomes a small ASCII letter, an ASCII capital its small letter; small letters, digits and `_` stay |
| MisComprobantes.NormalizeKey | mrbot_app/mis_comprobantes.py:25-38 | None gives the empty text; otherwise as long as the stripped key, each character its normalised form; no space, no translated letter, and all lower case |
| MisComprobantes.KeyCharClean | mrbot_app/mis_comprobantes.py:31-38 | a normalised character is plain, lower case, never a blank, and normalising it again changes nothing |
| MisComprobantes.NormalizeKeyIdempotent | mrbot_app/mis_comprobantes.py:25-38 | normalising a normalised key changes nothing |
| MisComprobantes.NormalizeKeyVariants | mrbot_app/mis_comprobantes.py:25-38 | keys whose stripped characters agree up to accents, capitals and blank-versus-`_` normalise to the same column name |
| MisComprobantes.ToStr | mrbot_app/mis_comprobantes.py:358-359 | None gives the empty text; anything else its stripped text |
| MisComprobantes.FragmentKept | mrbot_app/mis_comprobantes.py:64 | only letters, digits, blanks, `-` and `_` are kept |
| MisComprobantes.SanitizePathFragment | mrbot_app/mis_comprobantes.py:63-66 | the fallback when nothing but spaces is kept; otherwise as long as the kept, stripped text, using only letters, digits, `-` and `_` |
| MisComprobantes.FragmentOfClean | mrbot_app/mis_comprobantes.py:63-66 | a non-empty text of letters, digits, `-` and `_` is its own fragment |
| MisComprobantes.FragmentFallback | mrbot_app/mis_comprobantes.py:63-66 | only a text without any kept character falls back |
| MisComprobantes.CrearDirectorioSeguro | mrbot_app/mis_comprobantes.py:277-325 | the stripped desired folder when it is text and writable; otherwise the fallback folder when it can be created; otherwise `Descargas`; never empty |
| MisComprobantes.FallbackPrefersRepresentative | mrbot_app/mis_comprobantes.py:312-315 | with a representative's CUIT, the fallback is `<base>/<fragment of that CUIT>/<fragment of the file name, else the represented name>`, under the base |
| MisComprobantes.SanitizedNoSlash | mrbot_app/mis_comprobantes.py:313-315 | a fragment never starts with `/`, so the fallback stays under its base |
| MisComprobantes.ChooseZipEntry | mrbot_app/mis_comprobantes.py:247-258 | nothing for an empty archive; otherwise an entry of the archive, a CSV whenever there is one, and the first entry when there is none |
| MisComprobantes.ChooseZipEntryFirst | mrbot_app/mis_comprobantes.py:251-255 | no entry before the chosen CSV is a CSV |
| MisComprobantes.FirstFilled | mrbot_app/mis_comprobantes.py:431-452 | the first alias holding a non-empty value, else the empty text |
| MisComprobantes.RepresentedName | mrbot_app/mis_comprobantes.py:437-445 | never empty: the first filled name alias, stripped, or `Representado` |
| MisComprobantes.RepresentedNameFallback | mrbot_app/mis_comprobantes.py:437-445 | with every name alias empty or missing the name is `Representado` |
| MisComprobantes.RepresentedNameFirstAlias | mrbot_app/mis_comprobantes.py:437-445 | a filled `representado_nombre` wins over the later aliases |
| MisComprobantes.RowsToProcess | mrbot_app/mis_comprobantes.py:414-418 | the rows kept, in order, are exactly those whose `procesar` reads true (default false), and the total is their number |
| MisComprobantes.UnmarkedRowSkipped | mrbot_app/mis_comprobantes.py:414 | a row without `procesar` is never processed |
| MisComprobantes.RowRequest | mrbot_app/mis_comprobantes.py:429-455 | the two download flags are `_to_bool` of their columns with default false |
| MisComprobantes.ErrorText | mrbot_app/mis_comprobantes.py:482 | the first of `error`, `detail`, `message` present in the answer, whatever its value, else `Error desconocido` |
| MisComprobantes.ErrorKeyPresentWins | mrbot_app/mis_comprobantes.py:482 | an `error` key present with a null value still wins over `detail` |
| MisComprobantes.KindFile | mrbot_app/mis_comprobantes.py:534-555 | a file exactly when the answer has the kind's URL key with a truthy value; its ZIP is `<dir>/<name>_temp.zip` and its CSV `<dir>/<name>.csv`, never the same path |
| MisComprobantes.NamesDiffer | mrbot_app/mis_comprobantes.py:539-540 | the ZIP and CSV paths of a kind differ |
| MisComprobantes.PlanFiles | mrbot_app/mis_comprobantes.py:514-604 | at most two files, none when neither kind is requested; a kind's file is there only when requested and given a truthy URL, and then emitted comes first and received last |
| MisComprobantes.RowOutcome | mrbot_app/mis_comprobantes.py:466-638 | an answer that is not a dict raises (a line in `errores.txt` headed by the name and CUIT); a failed dict answer is an `errores.json` record of the request's seven fields, without the password, and the error text; a good one raises exactly when its truthy `error` list holds a non-text item or a requested kind's truthy URL is neither text nor a list, and otherwise plans its files |
| MisComprobantes.LoggedHidesPassword | mrbot_app/mis_comprobantes.py:483-496 | the `errores.json` record of a request does not depend on its password |
| MisComprobantes.TextAnswerPlans | mrbot_app/mis_comprobantes.py:481-603 | a good dict answer whose warnings are all text and whose truthy URLs are text always reaches the planned files |
| MisComprobantes.Summary | mrbot_app/mis_comprobantes.py:623-624 | successes count the successful results, and successes plus failures is the number of results |
| ControlMonotributistas.NormalizarSiNo | mrbot_app/control_monotributistas.py:38-46 | only `si` or `no`; `si` exactly for a text whose lower-cased, stripped form is one of `si`, `s`, `yes`, `y`, `true`, `1`, a true boolean or a non-zero integer |
| ControlMonotributistas.NormalizarSiNoAgreesOnNumbers | mrbot_app/control_monotributistas.py:43-45 | on booleans and integers it agrees with `parse_bool_cell` (default false) |
| ControlMonotributistas.NormalizarSiNoAcceptsS | mrbot_app/control_monotributistas.py:41 | `s` is a yes here but not for `parse_bool_cell` |
| ControlMonotributistas.NormalizarSiNoRejectsAccentedSi | mrbot_app/control_monotributistas.py:41 | `sí` is a no here but a yes for `parse_bool_cell` |
| ControlMonotributistas.NormalizarSiNoRejectsFloat | mrbot_app/control_monotributistas.py:39-46 | a non-zero float is a no here but a yes for `parse_bool_cell` |
| ControlMonotributistas.UrlUnderKeys | mrbot_app/control_monotributistas.py:190-193 | the stripped text of a listed key's value that passes the test; nothing exactly when no listed key's value passes |
| ControlMonotributistas.UrlUnderKeysFirstHit | mrbot_app/control_monotributistas.py:190-193 | the keys are read in order and the first that hits decides |
| ControlMonotributistas.UrlAmongValues | mrbot_app/control_monotributistas.py:194-196 | the stripped text of a value that passes the test; nothing exactly when none does |
| ControlMonotributistas.ItemUrl | mrbot_app/control_monotributistas.py:189-197 | the fixed keys first, then any value; None exactly when no value of the item passes |
| ControlMonotributistas.FixedKeyIsEntry | mrbot_app/control_monotributistas.py:190-193 | a URL found under a fixed key is one of the item's values |
| ControlMonotributistas.FixedKeyPreferred | mrbot_app/control_monotributistas.py:190-196 | when the `k`-th fixed key is the first to hold a URL, that is the item's URL whatever other entries hold |
| ControlMonotributistas.ItemPdfUrl | mrbot_app/control_monotributistas.py:172-197 | the URL found is a PDF URL and stripped |
| ControlMonotributistas.PdfUrlStripped | mrbot_app/control_monotributistas.py:172-181 | stripping a PDF URL keeps it a PDF URL |
| ControlMonotributistas.ItemsWithUrl | mrbot_app/control_monotributistas.py:203-208 | a pair (URL, item) for every dict item whose URL is found, and no other pair |
| ControlMonotributistas.ConcatPartsMember | mrbot_app/control_monotributistas.py:199-208 | a pair is collected exactly when it is collected from one of the lists |
| ControlMonotributistas.Collect | mrbot_app/control_monotributistas.py:183-209 | nothing for a non-dict answer; otherwise the pairs are exactly the (URL, item) of the dict items of the listed lists whose URL is found |
| ControlMonotributistas.CollectPdfItems | mrbot_app/control_monotributistas.py:183-209 | nothing for a non-dict answer; otherwise exactly the dict items of `facturas_emitidas`, `facturas_recibidas`, `comprobantes`, `facturas` that have a PDF URL, each paired with that stripped URL |
| ControlMonotributistas.CollectOrder | mrbot_app/control_monotributistas.py:199-208 | the four lists are read one after the other, in their order |
| ControlMonotributistas.Denominacion | mrbot_app/control_monotributistas.py:59 | the stripped name, `Contribuyente` when blank |
| ControlMonotributistas.RequestOf | mrbot_app/control_monotributistas.py:56-96 | the request asks for each kind exactly when its column reads as `si`, under the row's name |
| ControlMonotributistas.ZipName | mrbot_app/control_monotributistas.py:136-147 | the URL path's basename, or the kind's default when it is empty |
| ControlMonotributistas.ArchiveOf | mrbot_app/control_monotributistas.py:136-143 | the ZIP inside the base folder; the CSV named after the ZIP's stem, inside `<base>/extraido` |
| ControlMonotributistas.DefaultArchive | mrbot_app/control_monotributistas.py:136-150 | a URL without a file name gives the default ZIP name and its stem's CSV under `extraido` |
| ControlMonotributistas.KindArchive | mrbot_app/control_monotributistas.py:126-152 | an archive exactly when the kind is selected and its URL is truthy |
| ControlMonotributistas.ErrorText | mrbot_app/control_monotributistas.py:99 | `error` when present, else `detail`, else `Error desconocido` |
| ControlMonotributistas.BaseDir | mrbot_app/control_monotributistas.py:104-113 | the row's location when one is given; otherwise a folder chosen as the invoice batch chooses one; never empty |
| ControlMonotributistas.Archives | mrbot_app/control_monotributistas.py:123-152 | emitted before received, each only when selected and given a URL |
| ControlMonotributistas.ProcessMc | mrbot_app/control_monotributistas.py:48-169 | not selected exactly when `Descarga_MC` is not `si`; no kinds exactly when neither kind is; otherwise a failure exactly when a dict answer's `success` is falsy, with its error text; raised (the function's own `except`) exactly when the answer is not a dict, or a good answer meets a given folder that cannot be created or a selected truthy URL that is not text; otherwise the base folder and the answer's archives |
| ControlMonotributistas.SkippedRowsMakeNoCall | mrbot_app/control_monotributistas.py:70-79 | a skipped row's outcome is the same whatever the service would answer |

## Findings

| source | as written | input that shows it | evidently intended | confidence | as-written member | corrected member |
|---|---|---|---|---|---|---|
| mrbot_app/windows/aportes_en_linea.py:121-127 | the accepted words list `sÃ­`, the UTF-8 bytes of `sí` read as Latin-1; a lower-cased cell can never equal it, because `Ã` is a capital letter | a `procesar` cell `sí` or `SÍ`: the row is dropped | the word `sí`, as in the other windows' filters | not executed | AportesEnLinea.ListedGarbledUnreachable | AportesEnLinea.IntendedAcceptsAccentedSi |

## Left out

- The Tk user interface, threads, the abort event and the log-block machinery: only the sequential fold over a given completion order is modelled.
- HTTP: `safe_post`, `safe_get` and the MinIO download are parameters.
- The filesystem: folders are created and probed by the `writable` parameter; a folder's contents are a set of names.
- `datetime.now`: every reading is a parameter (a `Clock` for the renamings of a run, a string for the account statement's JSON name).
- `Json.Display`: `str()` of a non-integral float, a list or a dict is a fixed placeholder text. `json.dumps` is a parameter of `BaseWindow.StartText`.
- `Urls.Unquote`: decodes each `%XX` escape to the single character of that code, with no UTF-8 decoding of multi-byte sequences.
- `Text.Lower`: lower-cases ASCII and Latin-1 letters only.
- `Urls.PathJoin`: POSIX joining only.
- Sct.DownloadVariant: a truthy URL value that is not text counts as no link here and gives the missing-link line. In the source such a value is passed on: with a blank file name `urlparse` of it raises, and otherwise the download call catches the failure, so the line becomes `<block>-<format>: <error>`.
- Logging calls inside the download loops and row workers are left out.
- Sifere.CoerceJurisdiccion: text of non-ASCII digits (such as superscripts) passes Python's `isdigit` and then makes `int` raise; here it gives no code.
- `_process_row_sifere` logs a copy of the request with the password masked; logging is left out.
- Urls.UrlPath: does not split off `;params` and does not drop tab, CR or LF characters as `urlparse` does.
- Text.IsSpace and Text.IsDigit: Latin-1 only; other Unicode blanks and digits are not recognised.
- Batch.ParseIntText: ASCII digits only and no `_` separators, so a retry cell `1_0` gives one attempt where Python's `int` reads 10.
- Json.Field: with a repeated key in a dict it reads the first entry, while `json.loads` keeps the last.
- Ccma.RowOutcome: the six amount columns, which `_parse_amount` reads as floats, are not part of the modelled statement; `_post_process_excel` and its Excel export are not modelled either.
- `os.makedirs("Descargas")` as the last fallback of `crear_directorio_seguro` can raise; here it is assumed to succeed.
- MisComprobantes and ControlMonotributistas: the concurrent downloads, reading and extracting the ZIP archives, and removing them are not modelled; the model stops at the planned files.
- MisComprobantes.KindFile: plans a file for any truthy URL; a URL that is neither text nor a list, whose `url[:100]` log line raises in the source, is turned into the raised outcome by MisComprobantes.RowOutcome before any file is planned.
- MisComprobantes.RowOutcome: the raised outcome keeps the name and CUIT that head its `errores.txt` line, not the exception's own text.
- `procesar_descarga_rcel`, the batch readers (`leer_archivos_*`) and `generar_reporte_control` of the monotributo control are not modelled.
- Rcel.ExtractPdfLinks: the walk is modelled as the list of texts it visits, in order, followed by the removal of repeated links.
- Progress callbacks and the per-row log lines of every window are left out.
