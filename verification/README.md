# addon-installer, modelled in Dafny

The repository holds two World of Warcraft addon installers.

- `addons.py` asks `wow.curseforge.com` for the latest file of each addon. It reports the progress of each addon on its own terminal line through `ParallelStreamWriter`. That writer keeps one line per operation and rewrites a line in place: it moves the cursor up to the line with ANSI control sequences, erases the line, prints the new text and moves back down.
- `update.py` fetches each addon's page on `mods.curse.com` and looks for a CDN download link with one case-insensitive regular expression. Unless in noop mode, it then downloads the archive and extracts it.

This project models both.

- **Text** (`text.dfy`) covers ASCII digit runs, Python's `"%d"`, and the subset of `str.format` that the templates use. The subset is `{}` fields and the escapes `{{`/`}}`, with None for the cases where Python raises.
- **Terminal** (`terminal.dfy`) is the part of an ECMA-48 terminal the display relies on.
  - Characters are read as tokens: printable characters, CR, LF and `ESC [ n f` sequences.
  - Tokens are interpreted on a screen of rows with a cursor. CUU `A`, CUD `B` and EL `2K` are interpreted; other sequences are ignored.
  - It proves that the terminal reads back exactly the well-formed tokens that were written.
- **Display** (`display.dfy`) is `ParallelStreamWriter` as a class.
  - `lines` holds the registered labels.
  - `output` holds every character written to the stream; `flushed` is how far the last flush reached.
  - Three ghost fields record what those characters are meant to say: `ops` is the token list the writer meant to send, `screen` the screen a terminal shows after `ops`, and `statuses` the status last written on each line. The output always spells `ops`. A terminal reads `ops` back only while every token is well formed, which holds as long as the message, the labels and the statuses contain no ESC, CR or LF (Display.TerminalShowsScreen).
  - The class invariant says the screen has one row per label, showing `msg label ... status`, with the cursor below the last row.
- **Installer** (`installer.dfy`) is `Installer._install_addon`. The HTTP response becomes its status code, and the extraction becomes a flag.
  - It proves the lookup URL's shape.
  - It proves the sequence of statuses written to the addon's line, as a function of `status == 200` and `noop`.
  - It proves what the writer's output and screen are afterwards.
- **CdnLink** (`cdn_link.dfy`) is `re.search` of the download-link pattern with `re.IGNORECASE`.
  - `IsMatch` says where a match may lie, and `IsFirst` says which match Python reports: the leftmost one, with the greedy `.+` as long as it can be.
  - `Find` computes that match and is proved to agree with both.
- **Updater** (`updater.dfy`) covers `Updater._install_addon`: the lookup URL and the branching on the match and on `noop`. Its result is the list of requests, whether an archive is extracted, and the final outcome.

The network is a parameter: the status code for `addons.py` and the page text for `update.py`.

## Model

| member | source | states |
|---|---|---|
| Text.DigitsFrom | update.py:29 | the run of digits a `\d+` consumes from a position is all digits and is followed by a non-digit or the end |
| Text.DigitRunForced | update.py:29 | a digit run followed by a non-digit has only one possible length, so `\d+` before `/` cannot backtrack |
| Text.Decimal | addons.py:38 | `"%d"` of a natural number is a non-empty run of digits with no leading zero |
| Text.ValueOfDecimal | addons.py:38 | reading back the digits of `"%d" % n` gives `n` |
| Text.Format | addons.py:31 | `template.format(*args)` for `{}` fields and the `{{`/`}}` escapes, with None where Python raises; its behaviour on the program's templates is stated by the lemmas below |
| Text.FormatLiteral | addons.py:31 | brace-free template text is copied through by `str.format` whatever the arguments |
| Text.FormatWithoutFields | update.py:29 | a template without braces formats to itself |
| Text.FormatField | addons.py:31 | a `{}` field is replaced by the next argument verbatim |
| Text.FormatLastField | update.py:26 | a trailing field takes the only argument |
| Text.FormatTwoFields | addons.py:31 | two fields with brace-free text around them take the two arguments in order |
| Text.FormatThreeFields | addons.py:41 | three fields with brace-free text around them take the three arguments in order |
| Terminal.Prints | addons.py:31 | printing a string gives one token per character |
| Terminal.EncodeAllAppend | addons.py:37-43 | the characters of consecutive token lists are the concatenation of their characters |
| Terminal.EncodePrints | addons.py:41 | printing a string puts exactly that string on the stream |
| Terminal.PrintsWellFormed | addons.py:41 | text without ESC, CR or LF is printed as well-formed tokens |
| Terminal.AppendWellFormed | addons.py:31-43 | concatenated well-formed token lists are well formed |
| Terminal.AppendPrintable | addons.py:31-41 | concatenated printable texts are printable |
| Terminal.ParseCsi | addons.py:38 | a control sequence `ESC [ n f` is read back as that sequence followed by what comes after |
| Terminal.ParseToken | addons.py:37-43 | any well-formed token is read back as itself followed by the rest |
| Terminal.ParseEncodeAll | addons.py:20-21 | a terminal reads back exactly the well-formed tokens that were written |
| Terminal.RunAppend | addons.py:37-44 | showing two token lists in turn is showing their concatenation |
| Terminal.SetRowTwice | addons.py:40-41 | writing a row twice leaves only the second text |
| Terminal.PrintAtEnd | addons.py:41 | a character printed at the end of the cursor's row is appended to that row |
| Terminal.PrintsAppend | addons.py:41 | a string printed at the end of the cursor's row is appended to it and the column advances by its length |
| Display.FirstIndex | addons.py:35 | `lines.index`: None exactly when the label is absent; otherwise an index holding the label with no earlier occurrence |
| Display.WriteDistance | addons.py:35-36 | for a registered label, `1 <= diff <= len(lines)` |
| Display.CursorUp | addons.py:38 | `"%c[%dA" % (27, diff)`, ESC `[` the decimal `diff` and `A`; Display.UpEncodes ties it to the CUU token |
| Display.CursorDown | addons.py:43 | `"%c[%dB" % (27, diff)`, ESC `[` the decimal `diff` and `B`; Display.DownEncodes ties it to the CUD token |
| Display.FormatInitLine | addons.py:31 | the `initialize` template formats to `msg item ... ` followed by CR LF |
| Display.FormatWriteLine | addons.py:41 | the `write` template formats to `msg item ... status` followed by CR |
| Display.InitLine | addons.py:31 | the line `initialize` prints is `msg item ... ` followed by CR LF |
| Display.WriteLine | addons.py:41 | the line `write` prints is `msg item ... status` followed by CR |
| Display.WriteEncodes | addons.py:37-43 | the four chunks `write` emits, in order, spell cursor up `diff`, erase line, the text and CR, cursor down `diff` |
| Display.InitEncodes | addons.py:31 | the line `initialize` emits spells the printed text, CR and LF |
| Display.UpEncodes | addons.py:38 | the cursor-up chunk spells CUU with parameter `diff` |
| Display.EraseEncodes | addons.py:40 | the erase chunk spells EL 2 followed by CR |
| Display.LineEncodes | addons.py:41 | the status chunk spells the printed text followed by CR |
| Display.DownEncodes | addons.py:43 | the cursor-down chunk spells CUD with parameter `diff` |
| Display.InitOpsEffect | addons.py:29-32 | from below the last row, `initialize` adds its text as a new last row and leaves the cursor in the first column of the row below it |
| Display.RunWriteChunks | addons.py:37-43 | the four chunks shown one after the other have the effect of all four at once |
| Display.UpEffect | addons.py:38 | cursor up `diff` from a row at least that low lands exactly `diff` rows higher |
| Display.EraseEffect | addons.py:40 | erasing an existing row empties it and returns to column 0 |
| Display.LineEffect | addons.py:41 | printing on an empty row leaves exactly the text there, with the cursor back in column 0 |
| Display.DownEffect | addons.py:43 | cursor down `diff` lands exactly `diff` rows lower |
| Display.WriteOpsEffect | addons.py:34-44 | `write`'s tokens replace row `row - diff` by the text, change no other row and bring the cursor back to its row (net displacement zero) in column 0 |
| Display.InitShows | addons.py:29-32 | `initialize` keeps the display invariant with the new label last and its status empty |
| Display.WriteShows | addons.py:18-22 | `write` for line `i` replaces row `i` only and keeps the display invariant with only status `i` changed |
| Display.WriteIdempotent | addons.py:34-44 | repeating the same `write` shows the same screen as doing it once |
| Display.InitOpsWellFormed | addons.py:31 | with a printable message and label, what `initialize` writes is read back unchanged |
| Display.WriteOpsWellFormed | addons.py:37-43 | with a printable message, label and status, what `write` writes is read back unchanged |
| Display.InitKeepsWellFormed | addons.py:29-32 | registering a printable label keeps a well-formed token log well formed |
| Display.WriteKeepsWellFormed | addons.py:34-44 | writing a printable status keeps a well-formed token log well formed |
| Display.LineTextPrintable | addons.py:41 | a line built from printable parts is printable |
| Display.WriteLogged | addons.py:37-44 | `write`'s characters appended to a log of `ops` are a log of `ops` followed by `write`'s tokens |
| Display.WriteRendered | addons.py:34-44 | after `write`, the terminal shows the old screen with row `i` replaced, and the display invariant holds with status `i` updated |
| Display.TerminalShowsScreen | addons.py:18-22 | a terminal reading the characters written shows the writer's screen: each label on its own row with its last status |
| Display.ParallelStreamWriter.constructor | addons.py:24-27 | a new writer has no lines, has written nothing and shows a blank screen |
| Display.ParallelStreamWriter.Emit | addons.py:31 | `stream.write` appends the chunk to the output and its meaning to the token log |
| Display.ParallelStreamWriter.Flush | addons.py:32 | `stream.flush` pushes out everything written so far |
| Display.ParallelStreamWriter.Initialize | addons.py:29-32 | `initialize` appends the label to `lines` and emits exactly `msg label ... ` with CR LF; the screen gains that row, the status is empty, and the invariant is kept; with a printable message and label, a well-formed token log stays well formed |
| Display.ParallelStreamWriter.Write | addons.py:34-44 | an unregistered label changes nothing, as `list.index` raises first; otherwise `lines` is unchanged, the output grows by exactly the four chunks for `diff = len(lines) - first index`, and only that line's row and status change; with a printable message, label and status, a well-formed token log stays well formed |
| Display.ParallelStreamWriter.Rewrite | addons.py:36-44 | at a known position, the output, token log, screen and statuses change exactly as one `write` does, and the invariant is kept |
| Installer.LatestUrl | addons.py:63 | the lookup URL is long enough to hold the project site, a slash and `/files/latest`, and AddonOf reads the addon back from it |
| Installer.LatestUrlParts | addons.py:63 | the lookup URL is the project site, a slash, the addon and `/files/latest`, and the addon can be read back from it |
| Installer.LatestUrlInjective | addons.py:63 | different addons are looked up at different URLs |
| Installer.Labels | addons.py:64-77 | two or three statuses, the first "downloading" (Installer.LabelsOrder gives the rest) |
| Installer.LabelsOrder | addons.py:64-77 | "downloading" comes first; the last status is "done" when the status is 200 and "not found" otherwise; "extracting" is written exactly when the status is 200 outside noop mode; there are three statuses exactly then and two otherwise |
| Installer.Installer.constructor | addons.py:56-58 | a new installer has its noop flag and a fresh, empty `Installing` writer |
| Installer.Installer.InstallAddon | addons.py:61-77 | requests the lookup URL; extracts exactly when the status is 200 outside noop mode; registers the addon on a new line; the output is the initial line followed by one `write` per status of `Labels`, in order; the addon's line ends up showing the last status |
| Installer.Installer.Report | addons.py:64 | one `write` on the addon's line adds its chunks to the output, updates that row and status, and keeps the rest |
| CdnLink.LineEnd | update.py:29 | the characters up to the next newline contain no newline, which is how far `.` reaches |
| CdnLink.LastZip | update.py:29 | the last position in a range where `.zip` occurs (case-insensitive), and None only if there is none |
| CdnLink.IsMatch | update.py:29 | where the pattern matches: the CDN prefix ignoring case, a non-empty digit run and `/`, another and `/`, a non-empty newline-free version, `.zip` ignoring case |
| CdnLink.IsFirst | update.py:28-32 | the match `re.search` reports: a match with no match starting further left, and with the longest version among the matches at its start |
| CdnLink.MatchForced | update.py:29 | two matches at the same start agree on both digit runs |
| CdnLink.ZipOnLine | update.py:29 | a `.zip` reachable by `.+` lies before the end of the line |
| CdnLink.MatchAtSound | update.py:28-32 | what the matcher returns at a start position is a match starting there |
| CdnLink.MatchAtComplete | update.py:28-32 | whenever the pattern matches at a start, the matcher finds a match there with the longest version |
| CdnLink.FindFromCorrect | update.py:28-32 | scanning left to right finds a match exactly when one exists at or after the position, and it is the leftmost-longest one |
| CdnLink.Find | update.py:28-32 | `re.search` returns None exactly when the pattern matches nowhere; otherwise the leftmost match, with the greedy version |
| CdnLink.FirstUnique | update.py:28-32 | only one match is leftmost-longest, so the search result is determined |
| CdnLink.FirstIsGreedy | update.py:29 | there is no other `.zip` further along the version's line |
| CdnLink.LiteralInSlice | update.py:37 | a literal in the text is found at the same offset in a slice containing it |
| CdnLink.UrlParts | update.py:29-38 | the `url` group is the CDN prefix, the first digit run, `/`, the second digit run, `/`, the `version` group and `.zip` |
| CdnLink.UrlEnds | update.py:29-37 | the `url` group starts with the CDN prefix and ends with `.zip`, up to case |
| CdnLink.DigitRuns | update.py:29 | both digit runs are non-empty runs of ASCII digits |
| CdnLink.VersionOnOneLine | update.py:29-38 | the `version` group is non-empty and has no newline |
| CdnLink.Search | update.py:28-38 | the groups `url` and `version` of the reported match, and None exactly when nothing matches |
| Updater.JoinNoBraces | update.py:29 | joining brace-free parts gives brace-free text |
| Updater.LookupFormats | update.py:26 | the lookup template formats to the head, the addon and `/download` |
| Updater.LookupUrl | update.py:26 | the lookup URL is `https://mods.curse.com/addons/wow/`, then the addon, then `/download` |
| Updater.PatternIgnoresAddon | update.py:29 | the pattern has no replacement field, so `.format(addon)` leaves it unchanged whatever the addon |
| Updater.InstallAddon | update.py:25-48 | the lookup URL is the first request, and an archive is extracted exactly when a second request was made |
| Updater.NotFoundWithoutLink | update.py:26-35 | the lookup URL is requested first; the addon ends as not found exactly when nothing matches, and then nothing else is requested or extracted |
| Updater.UpdatedFromLink | update.py:37-48 | with a link, the addon ends updated to its non-empty, one-line version; noop requests nothing more; otherwise the link is downloaded once and extracted |
| Updater.DownloadsAreCdnArchives | update.py:37-46 | one or two requests; extraction exactly when there were two; the second request is a `.zip` on the CDN |

## Left out

- Network access through `aiohttp` is left out. The lookup in `addons.py` becomes its response status. The one in `update.py` becomes the page text. Each download becomes a request recorded in the result.
- Archive handling (`zipfile`, `BytesIO`, `TemporaryFile`, `extractall`) is left out. It becomes the `extracted` flag, because these are filesystem libraries.
- The concurrent scheduling in `install` and `run` (`asyncio.ensure_future`/`wait`) is left out. Each addon's sequence is stated on its own. The interleaving of writes from several addons on one writer is not modelled, beyond each `write` finding its own line.
- Reading `conf.json`, argument parsing and the `__main__` blocks are left out. They are I/O and library code.
- Logging is left out. `Updater.InstallAddon` records the final error or success log as its `outcome`. The "Extracting to" log, which `update.py` emits even in noop mode (update.py:47), is not modelled.
- The banner print in the `Installer` constructor (addons.py:59) is left out.
- Exceptions inside `_install_addon` are left out: a failed read, a corrupt archive, a failed extraction.
- Display.ParallelStreamWriter: the stream is one string of characters. The boundaries between the chunks passed to `stream.write` are not kept. Only their order and content are.
- Display.ParallelStreamWriter: the real `sys.stdout` is replaced by this in-memory stream. The terminal it drives is a model with unlimited height that never scrolls, and unlimited width, so lines never wrap. On a real terminal a line longer than the screen wraps, and the cursor movements then land on the wrong row. It interprets only CUU, CUD and EL 2, which are the sequences the writer emits.
- Display.ParallelStreamWriter: a message, label or status containing ESC, CR or LF breaks the real display. The writer's `screen` still shows the intended rows. Only with printable text does the token log stay well formed, so that a terminal shows `screen`.
- Terminal.Parse: an ESC not followed by `[` is dropped. Only decimal parameters and one final character are recognised. Other ECMA-48 syntax (private parameters, several parameters) is outside what the writer emits.
- CdnLink.Find: `\d` and `re.IGNORECASE` are modelled for ASCII only. Python's `\d` on `str` patterns also accepts other Unicode decimal digits. Its case-insensitive matching also pairs `s` with U+017F, `k` with U+212A, and `i` with U+0130 and U+0131. A page using those characters may match in Python but not in this model.
- Text.Format: only automatic `{}` fields and the `{{`/`}}` escapes are modelled. Numbered or named fields give None. None of the program's templates has them.
- Installer.Installer.InstallAddon: the response body is not read and `zip_data` is not modelled. Only whether extraction happens is.
