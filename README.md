# Docket Alarm PDF downloader — verified model of the link extraction

The Docket Alarm bulk-download tool saves the PDFs that its docket searches
return. The search step writes one JSON file per docket. This model covers what
happens next:

- `get_urls` walks those files. It builds one download job per PDF link it
  finds in each `docket_report`: the item's own link, then its exhibits' links.
- Each job's file name comes from the item's number and its HTML `contents`.
  `cleanhtml` turns the `contents` into a safe file name.
- `download_from_link_list` files each job under a folder named after its JSON
  file. It makes that folder, asks the server for the PDF, and then does one of
  two things:
  - it logs a failed status in the error table;
  - otherwise it writes the body to `{fileName}.pdf`.

The repository holds two copies of `get_urls`:

- the bulk tool's (`docket_alarm_api_bulk_download/get_pdfs.py`), which
  returns 5-tuples that also carry the output path and client matter;
- an earlier one (`modules/get_pdfs.py`), which returns 3-tuples and names the
  folder differently.

Both use the same `cleanhtml`: the copy at `modules/get_pdfs.py` lines 10-35 has the same body as the bulk tool's, so `Sanitizer.CleanHtml` models both.

Modules:

- `Sanitizer`:
  - `cleanhtml` as a chain of functions (tag removal, `strip`, space
    replacement, whitelist, dot removal, cut to 240);
  - its bounds, its alphabet and its idempotence.
- `Extraction`:
  - the walk both copies share, as recursive functions over the parsed files
    (`Links`), with `KeyError` as the error outcome;
  - the lemmas on when it raises, the order of its output and where each link
    and name comes from.
- `BulkGetPdfs`:
  - the bulk tool's `get_urls` as nested loops (`GetUrls` and one method per
    inner loop), each proved equal to the walk packed into 5-tuples;
  - the folder name (`RemoveJson`).
- `LegacyGetPdfs`: the same for the earlier copy, with 3-tuples and the folder
  name `BeforeFirstDot`.
- `Versions`: what the two copies agree on, and where their folders differ.
- `BulkDownload`: the class `FileSystem` (directories, files and the error
  table) and the state changes of `download_from_link_list`.

## Model

| member | source | states |
|---|---|---|
| Sanitizer.IsSpace | docket_alarm_api_bulk_download/get_pdfs.py:52 | defines the whitespace `str.strip()` removes: the 29 code points for which `str.isspace()` holds |
| Sanitizer.StripTags | docket_alarm_api_bulk_download/get_pdfs.py:46-49 | removing tags never lengthens the text; with StripTagsNoTag, StripTagsClosedTag and StripTagsUnclosedAfter its result is fixed on every input |
| Sanitizer.TagEnd | docket_alarm_api_bulk_download/get_pdfs.py:46 | a tag opened before `i` ends at the first `>`, with no `>` or newline before it; there is no end exactly when no `>` comes before the next newline |
| Sanitizer.StripTagsNoTag | docket_alarm_api_bulk_download/get_pdfs.py:46-49 | text without `<` has no tag to remove |
| Sanitizer.StripTagsClosedTag | docket_alarm_api_bulk_download/get_pdfs.py:46-49 | `p<m>q`, with no `<` in `p` and no `>` or newline in `m`, becomes `p` followed by the cleaned `q`: the shortest match, one line only |
| Sanitizer.TagEndFirstClose | docket_alarm_api_bulk_download/get_pdfs.py:46 | the tag ends at the first `>` when no newline comes before it |
| Sanitizer.StripTagsUnclosed | docket_alarm_api_bulk_download/get_pdfs.py:46-49 | a `<` whose tag cannot close on its line is kept |
| Sanitizer.StripTagsUnclosedAfter | docket_alarm_api_bulk_download/get_pdfs.py:46-49 | after any text without `<`, a `<` whose tag cannot close on its line is kept with that text, and the scan goes on after it |
| Sanitizer.TrimStart | docket_alarm_api_bulk_download/get_pdfs.py:52 | the result is a suffix of the input; exactly the leading whitespace is dropped |
| Sanitizer.TrimEnd | docket_alarm_api_bulk_download/get_pdfs.py:52 | the result is a prefix of the input; exactly the trailing whitespace is dropped |
| Sanitizer.Strip | docket_alarm_api_bulk_download/get_pdfs.py:52 | `strip()`: the result neither starts nor ends with whitespace; text that already doesn't is unchanged |
| Sanitizer.SpacesToUnderscores | docket_alarm_api_bulk_download/get_pdfs.py:52 | same length; each space becomes `_`; every other character is kept |
| Sanitizer.KeepFilenameChars | docket_alarm_api_bulk_download/get_pdfs.py:55 | everything left is `-`, `.` or a word character; text that already passes is unchanged |
| Sanitizer.KeepFilenameCharsAppend | docket_alarm_api_bulk_download/get_pdfs.py:55 | the whitelist filters `a + b` as `a`, then `b`; with KeepFilenameCharsOne this fixes the result: the whitelisted characters survive, in order |
| Sanitizer.KeepFilenameCharsOne | docket_alarm_api_bulk_download/get_pdfs.py:55 | one character is kept exactly when it is `-`, `.` or a word character |
| Sanitizer.RemoveDots | docket_alarm_api_bulk_download/get_pdfs.py:58 | no dot is left, every character left comes from the input, and text without dots is unchanged |
| Sanitizer.RemoveDotsAppend | docket_alarm_api_bulk_download/get_pdfs.py:58 | dot removal treats `a + b` as `a`, then `b`; with RemoveDotsOne this fixes the result: every non-dot character survives, in order |
| Sanitizer.RemoveDotsOne | docket_alarm_api_bulk_download/get_pdfs.py:58 | one character is kept exactly when it is not a dot |
| Sanitizer.Truncate | docket_alarm_api_bulk_download/get_pdfs.py:61 | `[0:240]`: a prefix of the input, the whole input when it has at most 240 characters, and exactly 240 characters otherwise |
| Sanitizer.CleanHtml | docket_alarm_api_bulk_download/get_pdfs.py:38-65 | `cleanhtml` returns at most 240 characters, each a hyphen or a word character, with no dot |
| Sanitizer.CleanHtmlSafe | docket_alarm_api_bulk_download/get_pdfs.py:46-61 | no whitespace, `<`, `>` or `.` is ever in the name |
| Sanitizer.CleanNameSafe | docket_alarm_api_bulk_download/get_pdfs.py:55-58 | a name of hyphens and word characters holds none of those characters |
| Sanitizer.CleanHtmlFixpoint | docket_alarm_api_bulk_download/get_pdfs.py:46-61 | `cleanhtml(s) == s` exactly when `s` has at most 240 characters, each a hyphen or a word character |
| Sanitizer.CleanNameUnchanged | docket_alarm_api_bulk_download/get_pdfs.py:46-61 | such a name passes through unchanged |
| Sanitizer.CleanNameHasNoSpace | docket_alarm_api_bulk_download/get_pdfs.py:52 | such a name has no space, so replacing spaces leaves it as it is |
| Sanitizer.CleanHtmlIdempotent | docket_alarm_api_bulk_download/get_pdfs.py:38-65 | `cleanhtml(cleanhtml(s)) == cleanhtml(s)` |
| Sanitizer.CleanHtmlSpaces | docket_alarm_api_bulk_download/get_pdfs.py:52-61 | on spaces, hyphens and word characters (at most 240, no space at either end), only each space changes, to one `_`; runs of spaces are not collapsed |
| Sanitizer.SpacedNameUntagged | docket_alarm_api_bulk_download/get_pdfs.py:46-52 | such text has no tag and no whitespace at either end |
| Sanitizer.CleanHtmlUntagged | docket_alarm_api_bulk_download/get_pdfs.py:46-61 | text with no tag and no whitespace at either end, which the whitelist and dot removal leave alone, only has its spaces replaced |
| Sanitizer.UnderscoredNamePasses | docket_alarm_api_bulk_download/get_pdfs.py:52-58 | once its spaces are replaced, such text passes the whitelist and holds no dot |
| Extraction.IsJsonFilename | docket_alarm_api_bulk_download/get_pdfs.py:104 | defines the filter `filename.lower().endswith(".json")`: a dot, then `j`, `s`, `o`, `n` in either ASCII case, at the end |
| Extraction.DirectName | docket_alarm_api_bulk_download/get_pdfs.py:145 | defines an item's document name `{docNum} - {docName}` |
| Extraction.ExhibitName | docket_alarm_api_bulk_download/get_pdfs.py:169 | defines an exhibit's name `Exhibit {exhibitNumber} - {docNum} - {docName}` |
| Extraction.ExhibitLink | docket_alarm_api_bulk_download/get_pdfs.py:161-175 | defines one exhibit's step: nothing without a `link`, `KeyError('exhibit')` for a link without the key, else one named link |
| Extraction.ExhibitsLinks | docket_alarm_api_bulk_download/get_pdfs.py:158-175 | defines the exhibit loop: the links of the exhibits in order, stopping at the first `KeyError` |
| Extraction.ItemLinks | docket_alarm_api_bulk_download/get_pdfs.py:131-175 | defines one item's step: read `contents` (`KeyError` if absent), clean it, read `number` (`KeyError` if absent), then the own link, then the exhibits |
| Extraction.ItemsLinks | docket_alarm_api_bulk_download/get_pdfs.py:129-175 | defines the item loop over a `docket_report`, stopping at the first `KeyError` |
| Extraction.FileLinks | docket_alarm_api_bulk_download/get_pdfs.py:104-175 | defines one file's step: nothing unless it has a `.json` name and a `docket_report` |
| Extraction.Links | docket_alarm_api_bulk_download/get_pdfs.py:92-179 | defines the walk over the listing in order, stopping at the first `KeyError` |
| Extraction.ConcatAssociative | docket_alarm_api_bulk_download/get_pdfs.py:129-175 | appending to `pdf_list` in steps does not depend on grouping, and the first `KeyError` wins |
| Extraction.ConcatNothing | docket_alarm_api_bulk_download/get_pdfs.py:129-175 | a step that appends nothing leaves the outcome as it is |
| Extraction.NothingConcat | docket_alarm_api_bulk_download/get_pdfs.py:129-175 | steps that appended nothing before do not change the outcome |
| Extraction.ExhibitsLinksAppend | docket_alarm_api_bulk_download/get_pdfs.py:158-175 | the exhibits `a + b` give the links of `a`, then those of `b` |
| Extraction.ItemsLinksAppend | docket_alarm_api_bulk_download/get_pdfs.py:129-175 | the items `a + b` give the links of `a`, then those of `b` |
| Extraction.LinksAppend | docket_alarm_api_bulk_download/get_pdfs.py:92-179 | the files `a + b` give the links of `a`, then those of `b` |
| Extraction.IgnoredFileChangesNothing | docket_alarm_api_bulk_download/get_pdfs.py:104-123 | a file without a `.json` name or without `docket_report` can be removed from the listing with no effect |
| Extraction.ExhibitsLinksSucceed | docket_alarm_api_bulk_download/get_pdfs.py:158-163 | the exhibit loop raises exactly when some exhibit has a `link` and no `exhibit` key |
| Extraction.ItemLinksSucceed | docket_alarm_api_bulk_download/get_pdfs.py:131-163 | an item raises exactly when `contents` or `number` is missing (link or not) or one of its exhibits raises |
| Extraction.ItemsLinksSucceed | docket_alarm_api_bulk_download/get_pdfs.py:129-175 | a `docket_report` raises exactly when one of its items does |
| Extraction.LinksSucceed | docket_alarm_api_bulk_download/get_pdfs.py:92-179 | the walk raises exactly when some walked file holds an item or exhibit that raises |
| Extraction.ExhibitRef | docket_alarm_api_bulk_download/get_pdfs.py:161-174 | defines what a readable exhibit contributes: its link named `Exhibit {exhibit} - {number} - {docName}` when it has a `link` |
| Extraction.ExhibitsRef | docket_alarm_api_bulk_download/get_pdfs.py:158-175 | defines the exhibits' links read front to back |
| Extraction.ItemRef | docket_alarm_api_bulk_download/get_pdfs.py:131-175 | defines a readable item's links: its own link named `{number} - {cleanhtml(contents)}`, then its exhibits' |
| Extraction.ItemsRef | docket_alarm_api_bulk_download/get_pdfs.py:129-175 | defines the items' links read front to back |
| Extraction.FilesRef | docket_alarm_api_bulk_download/get_pdfs.py:92-175 | defines the walked files' links read front to back, skipping files without a `.json` name or `docket_report` |
| Extraction.ExhibitsLinksOrder | docket_alarm_api_bulk_download/get_pdfs.py:158-175 | the exhibit loop returns exactly ExhibitsRef: the exhibits' links in list order, each with its own name and file |
| Extraction.ItemLinksOrder | docket_alarm_api_bulk_download/get_pdfs.py:140-175 | an item returns exactly ItemRef: its own link first, then its exhibits' links in order, each with its own name and file |
| Extraction.ItemsLinksOrder | docket_alarm_api_bulk_download/get_pdfs.py:129-175 | the item loop returns exactly ItemsRef: the items' links in `docket_report` order |
| Extraction.LinksOrder | docket_alarm_api_bulk_download/get_pdfs.py:92-179 | the walk returns exactly FilesRef: file order, then item order, then the item's own link before its exhibits'; one link per item with a `link` and one per exhibit with a `link`, each with the name and file of its own record |
| Extraction.ExhibitsLinksNamed | docket_alarm_api_bulk_download/get_pdfs.py:161-174 | each exhibit link belongs to an exhibit with a `link` and an `exhibit` key and is named `Exhibit {exhibit} - {number} - {docName}` |
| Extraction.ItemLinksNamed | docket_alarm_api_bulk_download/get_pdfs.py:131-174 | an item that does not raise has `contents` and `number`; its own link, if it has one, comes first, named `{number} - {cleanhtml(contents)}`; every other link is one of its exhibits' |
| Extraction.ItemsLinksFrom | docket_alarm_api_bulk_download/get_pdfs.py:129-175 | every link of a `docket_report` comes from one of its items |
| Extraction.LinksFrom | docket_alarm_api_bulk_download/get_pdfs.py:92-179 | every link comes from an item of a walked file, carries that file's name, and is named after that item |
| Extraction.FileLinksFrom | docket_alarm_api_bulk_download/get_pdfs.py:104-175 | every link of a file comes from one of its items, and the file is walked |
| Extraction.FromWalkedFilesAppend | docket_alarm_api_bulk_download/get_pdfs.py:92-149 | links from earlier files, followed by links from the last file, all come from files of the listing |
| Extraction.ExhibitErrorEndsExhibits | docket_alarm_api_bulk_download/get_pdfs.py:163 | the first exhibit that raises decides the outcome of its list |
| Extraction.ItemErrorEndsItems | docket_alarm_api_bulk_download/get_pdfs.py:131-137 | the first item that raises decides the outcome of its `docket_report` |
| Extraction.FileErrorEndsWalk | docket_alarm_api_bulk_download/get_pdfs.py:92-179 | the first file that raises decides the outcome of `get_urls` |
| Extraction.FileErrorEndsFiles | docket_alarm_api_bulk_download/get_pdfs.py:92-179 | the same, with the listing split around the file that raises |
| Extraction.LinksSnoc | docket_alarm_api_bulk_download/get_pdfs.py:92-149 | one more file at the end appends its links |
| Extraction.ExhibitsLinksStep | docket_alarm_api_bulk_download/get_pdfs.py:158-175 | one more readable exhibit appends its link, if any |
| Extraction.ItemsLinksStep | docket_alarm_api_bulk_download/get_pdfs.py:129-175 | one more item that does not raise appends its links |
| Extraction.LinksStep | docket_alarm_api_bulk_download/get_pdfs.py:92-179 | one more file that does not raise appends its links |
| BulkGetPdfs.JsonAt | docket_alarm_api_bulk_download/get_pdfs.py:110 | defines a match of `.json` under IGNORECASE at a position, with U+017F matching `s` as Python's case folding does |
| BulkGetPdfs.RemoveJson | docket_alarm_api_bulk_download/get_pdfs.py:110-114 | removing `.json` never lengthens the name; RemoveJsonNoMatch and RemoveJsonMatch fix its result on every input |
| BulkGetPdfs.RemoveJsonNoMatch | docket_alarm_api_bulk_download/get_pdfs.py:110-114 | a name with no `.json` in any case is its own folder name |
| BulkGetPdfs.RemoveJsonStem | docket_alarm_api_bulk_download/get_pdfs.py:110-114 | `stem.json` (any case, long s included) goes to the folder `stem` when the stem has no `.json` |
| BulkGetPdfs.RemoveJsonMatch | docket_alarm_api_bulk_download/get_pdfs.py:110-114 | every match is removed, not only a final one: the text before the first `.json` (any case) is kept, the match is dropped and the rest is cleaned on its own; with RemoveJsonNoMatch this fixes the folder name on every input |
| BulkGetPdfs.RemoveJsonTwice | docket_alarm_api_bulk_download/get_pdfs.py:110-114 | `a.json.b.json` goes to the folder `a.b` |
| BulkGetPdfs.ToTasks | docket_alarm_api_bulk_download/get_pdfs.py:147-174 | one 5-tuple per link, in the links' order: position `i` holds link `i`, its name, its file's folder, the output path and the client matter |
| BulkGetPdfs.ToTasksSnoc | docket_alarm_api_bulk_download/get_pdfs.py:149-175 | appending a link appends its tuple |
| BulkGetPdfs.ToTasksAppend | docket_alarm_api_bulk_download/get_pdfs.py:149-175 | tuples of appended links are appended tuples |
| BulkGetPdfs.ExhibitsTasks | docket_alarm_api_bulk_download/get_pdfs.py:152-175 | the exhibit loop appends exactly the exhibit links' tuples, or raises the walk's `KeyError` |
| BulkGetPdfs.ItemTasks | docket_alarm_api_bulk_download/get_pdfs.py:131-175 | one item appends exactly its links' tuples, or raises the walk's `KeyError` |
| BulkGetPdfs.ItemsTasks | docket_alarm_api_bulk_download/get_pdfs.py:126-175 | the item loop returns exactly the `docket_report`'s tuples, or the first `KeyError` |
| BulkGetPdfs.GetUrls | docket_alarm_api_bulk_download/get_pdfs.py:67-179 | `get_urls` returns exactly the walk's links packed as 5-tuples, or raises the walk's first `KeyError` |
| BulkGetPdfs.TasksFailure | docket_alarm_api_bulk_download/get_pdfs.py:131-163 | `get_urls` raises exactly when some walked file has an item without `contents` or `number`, or an exhibit with a `link` but no `exhibit` |
| BulkGetPdfs.TasksOrder | docket_alarm_api_bulk_download/get_pdfs.py:129-175 | the tuples are exactly FilesRef packed: reading order, with the link, name and folder of each position's own record |
| BulkGetPdfs.TasksNamed | docket_alarm_api_bulk_download/get_pdfs.py:110-174 | every tuple carries the given output path and client matter, comes from an item of a walked file, is named after that item, and its folder is that file's name with every `.json` removed |
| BulkGetPdfs.TasksSkipFile | docket_alarm_api_bulk_download/get_pdfs.py:104-123 | a non-`.json` file or one without `docket_report` adds nothing and cannot raise |
| LegacyGetPdfs.BeforeFirstDot | modules/get_pdfs.py:78 | `split(".")[0]`: the longest prefix with no dot, ending where the first dot is |
| LegacyGetPdfs.ToTasks | modules/get_pdfs.py:111-134 | one 3-tuple per link, in the links' order: position `i` holds link `i`, its name and its file's folder |
| LegacyGetPdfs.ToTasksSnoc | modules/get_pdfs.py:113-135 | appending a link appends its tuple |
| LegacyGetPdfs.ToTasksAppend | modules/get_pdfs.py:113-135 | tuples of appended links are appended tuples |
| LegacyGetPdfs.ExhibitsTasks | modules/get_pdfs.py:116-135 | the exhibit loop appends exactly the exhibit links' tuples, or raises the walk's `KeyError` |
| LegacyGetPdfs.ItemTasks | modules/get_pdfs.py:95-135 | one item appends exactly its links' tuples, or raises the walk's `KeyError` |
| LegacyGetPdfs.ItemsTasks | modules/get_pdfs.py:90-135 | the item loop returns exactly the `docket_report`'s tuples, or the first `KeyError` |
| LegacyGetPdfs.GetUrls | modules/get_pdfs.py:37-140 | `get_urls` returns exactly the walk's links packed as 3-tuples, or raises the walk's first `KeyError` |
| LegacyGetPdfs.TasksFailure | modules/get_pdfs.py:95-127 | raises exactly when some walked file has an item without `contents` or `number`, or an exhibit with a `link` but no `exhibit` |
| LegacyGetPdfs.TasksOrder | modules/get_pdfs.py:93-135 | the tuples are exactly FilesRef packed: reading order, with the link, name and folder of each position's own record |
| LegacyGetPdfs.TasksSkipFile | modules/get_pdfs.py:73-87 | a non-`.json` file or one without `docket_report` adds nothing and cannot raise |
| Versions.SameLinksAndNames | modules/get_pdfs.py:37-140 | both copies raise the same `KeyError`, or return as many tuples with the same link and name at each position and folders taken from the same JSON file's name |
| Versions.FoldersAgree | modules/get_pdfs.py:78 | for `stem.json` with no dot in the stem, both copies use the folder `stem` |
| Versions.FoldersDiffer | docket_alarm_api_bulk_download/get_pdfs.py:110-114 | for `a.b.json` the bulk tool uses `a.b` and the earlier copy uses `a` |
| BulkDownload.FolderPath | docket_alarm_api_bulk_download/get_pdfs.py:200 | defines `os.path.join(outputPath, folderName)` as the components `[outputPath, folderName]` |
| BulkDownload.FilePath | docket_alarm_api_bulk_download/get_pdfs.py:202 | defines `os.path.join(outputDirectoryPath, f"{fileName}.pdf")` |
| BulkDownload.Blocked | docket_alarm_api_bulk_download/get_pdfs.py:210 | defines when `os.makedirs` raises: some ancestor of the path is a file |
| BulkDownload.AfterMakedirs | docket_alarm_api_bulk_download/get_pdfs.py:207-210 | defines the directories after `if not os.path.exists(p): os.makedirs(p)`: unchanged if `p` exists as a file or directory, `None` when `makedirs` raises, else `p` and its ancestors added |
| BulkDownload.Prefixes | docket_alarm_api_bulk_download/get_pdfs.py:210 | the directories `makedirs` creates include the target |
| BulkDownload.AfterMakedirsIdempotent | docket_alarm_api_bulk_download/get_pdfs.py:207-210 | once the folder step succeeds, it only adds directories, the folder exists unless a file has its name, and a second run changes nothing |
| BulkDownload.AfterMakedirsKeepsTree | docket_alarm_api_bulk_download/get_pdfs.py:207-210 | `makedirs` creates no directory where a file is, and every parent of a directory stays a directory |
| BulkDownload.FileSystem.constructor | docket_alarm_api_bulk_download/get_pdfs.py:36 | starts with an empty error table and a valid filesystem of the root alone |
| BulkDownload.FileSystem.EnsureDirectory | docket_alarm_api_bulk_download/get_pdfs.py:207-210 | a path that exists (file or directory) is left alone; `makedirs` raises when an ancestor is a file; otherwise the path and its ancestors become directories; files and the error table are unchanged |
| BulkDownload.FileSystem.Download | docket_alarm_api_bulk_download/get_pdfs.py:197-251 | states each outcome: (1) if `makedirs` raises, no request is sent and nothing changes; (2) otherwise the request carries the link, token and client matter; (3) a failed status appends exactly one `(error, folderName, fileName)` row and leaves files as they were; (4) a success writes the body to `outputPath/folderName/fileName.pdf`, replacing any earlier file; (5) a path that is a directory, or a folder that is a file, leaves everything unchanged; the filesystem stays valid |

## Left out

- **Directory listing:** the listing, its order and the JSON parsing are inputs.
  `get_urls` takes the parsed files in listing order.
  - Only `docket_report` and the fields the walk reads are modelled.
  - `contents` is taken to be a string.
  - The `number` and `exhibit` values are taken as the text that their
    f-string formatting produces.
- **Globals and the ignored parameter:** the global settings (`PDF_OUTPUT_PATH`,
  `CLIENT_MATTER`, the JSON input path) are parameters. The overwritten
  `input_directory` parameter is not modelled.
- **Missing input directory:** the branch that prints a message and waits on
  `input()` is I/O with no effect on the result.
- **Word characters:** Python's Unicode `\w` class is a parameter `isWord`.
  The lemmas rely only on the facts listed in `Sanitizer.IsWordClass`.
- **Network and authentication:** the login, `requests.get` and
  `raise_for_status` are left out.
  - The login token is a parameter.
  - The server's answer is an input: a body, or the error message.
- **Concurrency and UI:** the thread lock, the thread pool, the multiprocessing
  pool and the progress bars are left out. Each call is modelled as atomic.
- **`@retry`:** it retries on any exception without bound. `Download` reports
  `Raised` and stops.
- **Logging, timing and other effects:** the `log.txt` entry, the xlsx export of
  the error table, `os.startfile`, the timestamps and timing are left out. So is
  the `print` of a failed write.
- **The earlier `download_from_link_list`:** the one in `modules/get_pdfs.py`
  (142-172) does unauthenticated I/O and has no bookkeeping.
- **Paths:** a path is its list of components. `outputPath` counts as one
  component, so separators inside names and empty names are not modelled.
  Neither are permission errors or a full disk.
- **Loop bodies as methods:** each loop level of `get_urls` is its own method,
  and `GetUrls` calls them. The item loop's body is one more method, which
  takes `cleanhtml` as its parameter `clean`.
