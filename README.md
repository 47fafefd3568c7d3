# trial-results in Dafny

A model of the Denver Post trial-results pages and of the Python job that
feeds them. It has three parts.

- **The page scripts**, www/verdict.js and www/death_penalty.js. Each holds a
  `verdict` object.
  - Its one pass over a sheet of records buffers the first record of every
    defendant (`name_full`).
  - Every later record for that defendant cleans up the first two stored
    records in place. That means the charge and verdict go through lookup
    tables, and slugs are computed from the name and the verdict.
  - It then appends one HTML block to `#charges`.
- **The death-penalty page** differs from the verdict page in four ways.
  - It has its own verdict table.
  - It writes no colon after the charge "Crime of violence (sentence enhancer)".
  - It clears the output before every pass, then forgets its buffers after
    the pass.
  - It has no two-sheet gate: every delivery of the feed runs a pass, and a
    five-second timer asks for the feed again. The verdict page runs its
    one pass only on the call that brings its sheet count to 2.
- **The `Verdict.publish` row loop** of verdict.py.
  - The first spreadsheet row names the columns.
  - Each later row is zipped into a record.
  - Configuration rows go through unchanged.
  - `name_full` and `name_last` are derived from each other.
  - The configured filters decide which records are kept, with a substring
    rule for `Year`.
  - The kept records are written as CSV rows, as JSON and as JSONP.

Modules:

- `Slug`: `slugify`, one function per regular-expression pass. The whitespace
  pass and the hyphen pass are one rewrite, `Runs`, over two character
  classes. Proved: a run becomes exactly one '-', every result has the slug
  shape, the function is idempotent, and its range is exactly the slugs.
- `Labels`: the charge table and the two verdict tables.
- `Markup`: the record datatype and the two HTML builders.
- `Grouping`: the pass as a pure specification.
  - It is generic in a `Rules` value. `Rules` bundles what a page's object
    supplies: tables, `slugify`, colon rule and builders.
  - It is proved against an independent reference description: which records
    trigger a block, what the buffers hold, which block each trigger shows.
  - It also holds what the two pages' own rules add.
- `VerdictPage` and `DeathPenaltyPage`: one class per page object.
  - Their fields are `items`, `sheets_loaded` and the output.
  - Their methods update those fields in place, with loops proved against
    `Grouping.Pass`.
- `Publish`: the row loop as methods, proved against a functional
  specification (`PublishSpec`), with lemmas about that specification.
- `Results`: `Option` and `Result`.

Two facts about the code that a reader might not expect:

- `slugify` keeps '_', because JavaScript's `\w` class includes it, so slugs
  may contain underscores.
- The death-penalty page's verdict table maps code "1" to "Life in prison".

## Model

| member | source | states |
|---|---|---|
| Labels.ChargeLookup | www/verdict.js:36-56 | The four long official phrasings map to their short labels. Every other string is returned unchanged. A result is never one of the four phrasings. The table in www/death_penalty.js:34-54 is identical. |
| Labels.ChargeLookupIdempotent | www/verdict.js:36-56 | Shortening a charge twice gives the same label as shortening it once. |
| Labels.AbbreviationsInjective | www/verdict.js:36-56 | Distinct official phrasings get distinct short labels, and no short label is itself a phrasing the table rewrites. |
| Labels.VerdictLabel | www/verdict.js:57-65 | A code of the table `VerdictCodes` gives its own label: "0" is "Not guilty by reason of insanity", "1" is "Guilty", "2" is "Not guilty". Every other code, "" included, gives "", and only those codes do. |
| Labels.SentenceLabel | www/death_penalty.js:55-62 | A code of the table `SentenceCodes` gives its own label: "0" is "Death penalty", "1" is "Life in prison". Every other code, "2" and "" included, gives "", and only those codes do. |
| Labels.VerdictCodesInjective | www/verdict.js:60-63 | Within each page's verdict table, distinct codes have distinct labels, so a label names its code. The death-penalty table is www/death_penalty.js:58-61. |
| Labels.VerdictTablesDistinct | www/death_penalty.js:55-62 | No non-empty label of the verdict page's table is a label of the death-penalty table, whatever the codes. |
| Labels.LabelsAreNotCodes | www/verdict.js:57-65 | Looking a label up again as a code gives "", on both pages' tables. |
| Slug.LowerChar | www/verdict.js:70 | `toLowerCase` on one character: an upper-case ASCII letter becomes the letter 32 code points later, its lower-case form. Anything else is left as it is. The result is never upper-case. |
| Slug.Lower | www/verdict.js:70 | `toLowerCase` on the text, one character at a time; LowerShape states its effect. |
| Slug.LowerShape | www/verdict.js:70 | Lower-casing keeps the length and maps each character on its own. |
| Slug.Runs | www/verdict.js:71-73 | The `/[C]+/g` to '-' rewrite both the whitespace pass and the hyphen pass perform, for a character class C. RunsConcat and RunBecomesHyphen state its effect. |
| Slug.SpaceRuns | www/verdict.js:71 | `.replace(/\s+/g, '-')`: `Runs` with the class `\s`. SpaceRunBecomesHyphen states its effect. |
| Slug.RunsChars | www/verdict.js:71-73 | Replacing runs introduces no character other than '-'. |
| Slug.RunsConcat | www/verdict.js:71-73 | The rewrite works left to right: the result on `a + b` is the result on `a`, then the result on `b`, continuing the run `a` ends in, if any. |
| Slug.RunsOfRun | www/verdict.js:71-73 | A non-empty run of class characters contributes one '-', or nothing when it continues a run. |
| Slug.RunThenRest | www/verdict.js:71-73 | A run at the front, followed by a character outside the class, becomes one '-' and the rest is rewritten on its own. |
| Slug.RunBecomesHyphen | www/verdict.js:71-73 | A non-empty run of class characters between two characters outside the class becomes exactly one '-'. The text on both sides is rewritten on its own. |
| Slug.SpaceRunBecomesHyphen | www/verdict.js:71 | A non-empty run of whitespace between characters that are not whitespace becomes exactly one '-'. |
| Slug.KeepWord | www/verdict.js:72 | `.replace(/[^\w\-]+/g, '')`; KeepWordOne, KeepWordConcat and KeepWordChars state its effect. |
| Slug.KeepWordOne | www/verdict.js:72 | One character is kept exactly when it is a word character or '-', and dropped otherwise. |
| Slug.KeepWordConcat | www/verdict.js:72 | The pass works character by character: it maps a concatenation to the concatenation of its results, so every kept character survives, in order. |
| Slug.KeepWordChars | www/verdict.js:72 | Removing non-word characters leaves only word characters and '-'. |
| Slug.Collapse | www/verdict.js:73 | `.replace(/\-\-+/g, '-')`: `Runs` with the class '-'. CollapseRunBecomesHyphen and CollapseShape state its effect. |
| Slug.CollapseRunBecomesHyphen | www/verdict.js:73 | A non-empty run of '-' between characters other than '-' becomes exactly one '-'. |
| Slug.CollapseShape | www/verdict.js:73 | Collapsing hyphen runs leaves no "--" and introduces no new character. |
| Slug.TrimStart | www/verdict.js:74 | `.replace(/^-+/, '')`; TrimStartShape states its effect. |
| Slug.TrimStartShape | www/verdict.js:74 | Trimming leading '-' leaves a suffix that does not start with '-'. Every character removed is a '-'. |
| Slug.TrimEnd | www/verdict.js:75 | `.replace(/-+$/, '')`; TrimEndShape states its effect. |
| Slug.TrimEndShape | www/verdict.js:75 | Trimming trailing '-' leaves a prefix that does not end with '-'. Every character removed is a '-'. |
| Slug.Slugify | www/verdict.js:67-76 | The five passes in the source's order. SlugifyIsSlug, SlugifyIdempotent and SlugifyRange state its properties. |
| Slug.KeptCharsAreSlugChars | www/verdict.js:70-72 | After the first three passes only `[a-z0-9_-]` is left. |
| Slug.TrimsShape | www/verdict.js:74-75 | The two trims turn a hyphen-collapsed string of slug characters into a slug. |
| Slug.SlugifyIsSlug | www/verdict.js:67-76 | Every result of `slugify` uses only `[a-z0-9_-]`, contains no "--", and has no '-' at either end. Its copy is www/death_penalty.js:64-73. |
| Slug.SpaceRunsFixes | www/verdict.js:71 | The whitespace pass leaves a string of slug characters unchanged. |
| Slug.KeepWordFixes | www/verdict.js:72 | The non-word pass leaves a string of slug characters unchanged. |
| Slug.CollapseFixes | www/verdict.js:73 | The collapse pass leaves a string without "--" unchanged. |
| Slug.SlugifyFixesSlugs | www/verdict.js:67-76 | `slugify` returns every slug unchanged. |
| Slug.SlugifyIdempotent | www/verdict.js:67-76 | `slugify(slugify(x)) == slugify(x)` for every string. |
| Slug.SlugifyRange | www/verdict.js:67-76 | A string is a result of `slugify` if and only if it has the slug shape. |
| Slug.SlugHasNoSpaceOrQuote | www/verdict.js:67-76 | A slug holds no whitespace and no double quote. |
| Slug.SlugifyEmpty | www/verdict.js:67-76 | `slugify("") == ""`. |
| Markup.ChargeMarkup | www/verdict.js:31-35 | One charge line: the list item, the charge, the colon, then a span whose class carries the verdict slug and whose text is the verdict. VerdictClassOfCharge reads back the charge, the colon and the class; VerdictTextOfCharge reads back the verdict text. |
| Markup.VerdictClassOfCharge | www/verdict.js:31-35 | A charge line starts with the list item and the charge. The colon and " <span" follow right after the charge. The span's class reads back as the verdict slug, when the slug holds no double quote. The death-penalty builder is www/death_penalty.js:29-33. |
| Markup.VerdictTextOfCharge | www/verdict.js:31-35 | The span's text, between the `">` after the class and the closing tags, reads back as the verdict, when the slug holds no double quote. |
| Markup.ItemMarkup | www/verdict.js:23-30 | One block: a heading keyed by the slug, showing the name, then the charge lines in a list. HeadingIdOfItem reads the key back; ItemMarkupParts reads back the name and the charge lines. |
| Markup.ChargeMarkupColon | www/death_penalty.js:29-33 | Two charge lines for the same record are equal exactly when their colons are equal. |
| Markup.HeadingIdOfItem | www/verdict.js:23-30 | The `id` read back from a block's heading is the record's slug, when the slug holds no double quote. |
| Markup.ItemMarkupParts | www/verdict.js:23-30 | The name follows the heading's `">` directly, and the block ends with the charge lines and then the list's closing tag. The death-penalty builder is www/death_penalty.js:23-27. |
| Grouping.AlwaysColon | www/verdict.js:34 | The verdict page writes ':' after every charge. ColonRules states it. |
| Grouping.SentenceColon | www/death_penalty.js:104-106 | The death-penalty page writes no colon after the sentence enhancer and ':' after any other charge. ColonRules states it. |
| Grouping.Block | www/verdict.js:117-118 | The block for a pair of records: the first record's heading over the two charge lines, each with the page's colon. SecondRecordBlock and LaterRecordBlock state what it shows. |
| Grouping.ColonRules | www/death_penalty.js:104-107 | The verdict page always writes ':'. The death-penalty colon is "" exactly for the sentence enhancer and ':' otherwise. The rule reads the same on the raw and the shortened charge. |
| Grouping.Normalize | www/verdict.js:106-114 | Cleaning a stored record up never changes its `name_full`. |
| Grouping.CleanUpPair | www/verdict.js:105-114 | The first two stored records are cleaned up: charge and verdict through the tables, verdict slug from the new verdict, slug of the first from its name. Every later record and the length are unchanged. |
| Grouping.Step | www/verdict.js:92-120 | One iteration keeps every buffered list non-empty. |
| Grouping.Pass | www/verdict.js:91-121 | A pass keeps every buffered list non-empty. |
| Grouping.PassUpToIsPass | www/verdict.js:91 | Walking the first n records by index is the pass over those n records. |
| Grouping.Triggers | www/verdict.js:96-103 | The reference list of triggering records: valid indices, each repeating an earlier name, strictly increasing. |
| Grouping.TriggersAreRepeats | www/verdict.js:96-103 | A record triggers a block if and only if an earlier record has the same `name_full`. |
| Grouping.Stored | www/verdict.js:101-114 | The reference buffer of a name: its records in order, with the first two cleaned up once per repeat. PassItems proves the pass keeps exactly this buffer. |
| Grouping.CleanUpStored | www/verdict.js:101-114 | Pushing a record onto a name's buffer and cleaning up the pair gives the reference buffer of one more record. |
| Grouping.StepOnStored | www/verdict.js:92-120 | When the buffers match the reference, one iteration stores the reference buffer for the record's name. It emits a block exactly when the name was seen before. |
| Grouping.PassItems | www/verdict.js:91-114 | After a pass from an empty map, a name is buffered exactly when it occurs. Its buffer is the reference `Stored` of its records. |
| Grouping.PassBlocks | www/verdict.js:91-120 | A pass from an empty map emits one block per triggering record, in the order of those records. Each block is the one built from that name's first two stored records. |
| Grouping.BlockCount | www/verdict.js:91-120 | Blocks emitted plus distinct names equals the number of records. |
| Grouping.TriggerCount | www/verdict.js:96-103 | Triggering records plus distinct names equals the number of records. |
| Grouping.PagesSettle | www/verdict.js:36-76 | Both pages' rules settle: the charge table is idempotent, labels are not codes, and "" maps to "". |
| Grouping.PagesSlugsQuoteFree | www/verdict.js:67-76 | Neither page's `slugify` ever returns a double quote. |
| Grouping.RenormalizeSettles | www/verdict.js:105-114 | From the second clean-up on, a stored record stays fixed. It keeps the short charge, its verdict and verdict slug are blank, and its slug is unchanged. |
| Grouping.RenormalizeSlug | www/verdict.js:112 | A first stored record that has been cleaned up carries `slugify` of its name. |
| Grouping.SecondRecordBlock | www/verdict.js:105-118 | The block of a name's second record shows both records cleaned up once. |
| Grouping.LaterRecordBlock | www/verdict.js:105-118 | The block of a name's third or later record repeats the first two records with blank verdicts. The later record itself is not shown. |
| Grouping.TriggeredBlockId | www/verdict.js:106-118 | Every block's heading id is `slugify` of the `name_full` of the record that triggered it. |
| VerdictPage.Verdict.constructor | www/verdict.js:18-22 | The object starts with no sheets counted, nothing buffered and nothing shown. |
| VerdictPage.Verdict.Visit | www/verdict.js:92-120 | The `$.each` callback updates `items` and appends to the output exactly as one step of `Grouping.Pass` does. |
| VerdictPage.Verdict.Init | www/verdict.js:87-122 | `init` leaves `items` and the appended output equal to the pass over the selected sheet. |
| VerdictPage.Verdict.Tally | www/verdict.js:77-86 | Each call adds one to `sheets_loaded`. The call that makes it 2 shows the pass over the selected sheet. No other call changes `items` or the output, and the pass runs at most once. |
| DeathPenaltyPage.Verdict.constructor | www/death_penalty.js:15-20 | The object starts with nothing buffered, the counter at 0 and nothing shown. |
| DeathPenaltyPage.Verdict.Visit | www/death_penalty.js:80-110 | The callback, with its two-entry colon array, updates `items` and the output exactly as one step of the pass under the death-penalty rules. |
| DeathPenaltyPage.Verdict.Walk | www/death_penalty.js:79-111 | The `$.each` over the delivered sheet is the pass over it. |
| DeathPenaltyPage.Verdict.Init | www/death_penalty.js:74-114 | The output is the pass over the delivered sheet alone, because it is cleared first. `items` is empty and `sheets_loaded` is 0 afterwards. |
| DeathPenaltyPage.Verdict.Callback | www/death_penalty.js:117-121 | Every delivery stores the sheet and redraws. The output depends only on the delivered records, so delivering the same sheet twice shows the same blocks. |
| Publish.Zip | verdict.py:89 | `dict(zip(keys, row))`; ZipContents states its keys and values. |
| Publish.ZipContents | verdict.py:89 | `dict(zip(keys, row))` has exactly the keys paired with a cell, after truncating to the shorter list. Each key holds the cell of its last occurrence. |
| Publish.LastToken | verdict.py:105 | `split(' ')[-1]` is a suffix with no space, preceded by a space unless it is the whole string. |
| Publish.Derive | verdict.py:103-107 | `name_last` from `name_full`, or `name_full` from the two parts, or the `KeyError`. DeriveNames states it. |
| Publish.DeriveNames | verdict.py:103-107 | With `name_full`, `name_last` becomes its last token. Otherwise `name_full` is `name_first + ' ' + name_last`. A missing part raises the `KeyError` of `name_first` first. Every other column is unchanged. |
| Publish.ContainsMeansSubstring | verdict.py:117 | Python's `in` on strings holds exactly when the value occurs at some position. |
| Publish.Rejects | verdict.py:116-120 | One filter: the `Year` rule or equality, or the `KeyError` of a missing column. PassesMeans states its effect. |
| Publish.Passes | verdict.py:112-121 | The filter loop's outcome: the `publish` flag, or the first `KeyError`. PassesMeans states it. |
| Publish.PassesMeans | verdict.py:112-121 | The filters raise exactly when one of them misses its column. Otherwise they keep the record exactly when it satisfies every filter: `Year` as a substring of `Date`, others by equality. |
| Publish.NoFiltersPass | verdict.py:112-113 | With no filters every record passes. |
| Publish.Process | verdict.py:89-126 | One data row: kept as a record, dropped, or a `KeyError`. ConfigRowPasses and DataRowKept state it. |
| Publish.ConfigRowPasses | verdict.py:93-96 | A record with a `sheet` column is kept as it is, whatever the filters, and never raises. |
| Publish.DataRowKept | verdict.py:103-126 | Any other row is kept exactly when its names derive and it satisfies every filter. The kept record is the derived one. |
| Publish.Write | verdict.py:144-147 | No JSON or JSONP text is written exactly when no record is kept; otherwise the JSON text is the encoding of exactly the kept records. |
| Publish.WrittenFilesAgree | verdict.py:144-147 | The JSONP text is the JSON text wrapped in `verdict_callback(` and `);`. |
| Publish.Collect | verdict.py:84-126 | The loop over the data rows: the kept records and CSV rows, or the first `KeyError`. The lemmas below state its properties. |
| Publish.KeptIndices | verdict.py:122-126 | The positions of the rows the loop keeps, in order. |
| Publish.PublishSpec | verdict.py:74-147 | A whole call: no header row fails. Otherwise it gives the kept records, the header followed by the kept rows, and the files. PublishShape states it. |
| Publish.CollectConcat | verdict.py:84-126 | Running the loop over two stretches of rows is running it over each and concatenating. The first error wins. |
| Publish.CollectAligned | verdict.py:122-126 | Kept records and kept CSV rows correspond one to one. Each record is what its own row processes to. |
| Publish.CollectSubsequence | verdict.py:84-126 | The kept CSV rows are the data rows at `KeptIndices`, which are strictly increasing valid positions, so rows are kept in their original order. |
| Publish.CollectDrops | verdict.py:112-126 | Every data row whose position is not kept is one the row processing drops, not one that raised. |
| Publish.NoFiltersKeepAll | verdict.py:112-126 | With no filters every row is kept, when each row is a configuration row or has names to derive. |
| Publish.CollectFails | verdict.py:84-126 | A `KeyError` on one row is the outcome of the whole loop. |
| Publish.PublishShape | verdict.py:84-147 | A completed call heads the CSV with the header row. Each further CSV row is the data row `rows[idx[j] + 1]` for strictly increasing `idx`, so the header never becomes a record and rows keep their order. Each record is what its row processes to. JSON is written exactly when some record was kept, and it encodes exactly the kept records. |
| Publish.RunFilters | verdict.py:112-121 | The filter loop computes `Passes`: the `publish` flag, or the first `KeyError`. |
| Publish.RunRow | verdict.py:89-126 | The loop body on one row computes `Process`. |
| Publish.CollectStep | verdict.py:89-126 | One more data row that processes without error either adds its record and itself to what was kept, or leaves it as it was. |
| Publish.KeepRows | verdict.py:84-126 | The `for` loop over the data rows computes `Collect`: the kept records and rows, or the first `KeyError`. |
| Publish.Publish | verdict.py:74-147 | The whole call computes `PublishSpec`: an empty sheet fails, a `KeyError` ends the call, otherwise it returns the records, CSV rows and files. |

## Left out

- The JSONP transport (`$.ajax` and its empty `success` handlers) and the death-penalty page's timer: network and timing plumbing. The records a sheet delivers are method parameters.
- The DOM: `#charges` is a sequence of appended strings, and `.html('')` empties it.
- VerdictPage.Verdict.Init: `this[this['sheet']]` and `config_callback`, `numeric_callback` and `by_victim_callback` are not modelled. The sheet the configuration picks is the `selected` field, fixed at construction.
- Grouping.Pass: records are values, so the aliasing between the buffered objects and the objects of the delivered sheet is not modelled. A clean-up does not show through to the sheet itself. A pass visits each sheet record once, so nothing the pages show depends on this.
- Slug.Lower: `toLowerCase` is modelled on ASCII letters only, and `\s` as the ASCII and Unicode space characters JavaScript lists, because Unicode case mapping is out of scope.
- Names that collide with JavaScript object prototype properties (such as `constructor`, which `key in items` finds on an empty object) are treated like any other key.
- Records missing `name_full`, `Charge` or `Verdict`: the record datatype always has every field.
- Markup.ChargeMarkup: the one-argument `charge_markup` of www/verdict.js is `ChargeMarkup` with the colon fixed to ":". The two are textually the same.
- Publish.Publish: the CSV rows are returned as a list. `UnicodeWriter` encoding, the opened files and the rows already written to the CSV before a `KeyError` are not modelled. The loop's `i == 0` branch is taken before the loop: it sets `keys` to `rows[0]`, which it already holds, and writes that header first.
- Publish.Write: JSON encoding is the `encode` parameter. Dict key order in the JSON is not modelled. `None` means no JSON text is written. All three files are opened for writing before the loop (verdict.py:77-80), so when no record is kept the JSON and JSONP files are left empty, not untouched.
- Publish.RunFilters: each filter is a key and a value. A filter dict lacking `key` or `value` is not modelled.
- The spreadsheet access (`gspread`, `open_worksheet`, `get_all_values`, `build_filename`), `main` and the argument parser, the commented-out scoring block, and tests/test_verdict.py are all I/O or dead code.
