# abbrevscrape in Dafny

A model of `abbrevscrape`, a script that builds the abbreviation list used by a
sentence splitter. The script does the following:

- asks the user whether to go on;
- walks the paginated Wiktionary category "English abbreviations", collecting the text of every entry;
- keeps the entries that look like one-word abbreviations ending in a period;
- writes them to `wiktionary.txt`;
- merges them with the user's `add.txt` and removes what `remove.txt` lists;
- writes the sorted, duplicate-free result to `abbreviations.txt`.

Modules, one per concern of `abbrevscrape/abbrevscrape.py`:

- `Wrappers` (wrappers.dfy): `Option` and `Result`.
- `Text` (text.dfy): Python's `str.isspace`, `str.strip` and the ASCII part of the regex class `\w`.
- `Filter` (filter.dfy): `filter_abbrevs`. This is the regular expression `[\w+\.*]+\.` read as written: one character class of word characters, `+`, `.` and `*`, repeated, then a final period. `fullmatch` is applied after stripping each entry.
- `StringOrder` (order.dfy): Python's `<` on `str`, which is code-point lexicographic with a proper prefix first. Includes its strict-total-order laws and the uniqueness of a sorted listing of a set.
- `Merge` (merge.dfy): `create_abbrevlist`, which is `sorted((set(wiki) | set(add)) - set(remove))`.
- `LineFile` (linefile.dfy): the file formats of `run`:
  - the write loop, one entry plus `'\n'` per line;
  - the read side, `read().split('\n')` followed by an unconditional `pop()`.
- `Scrape` (scrape.dfy): `scrape_wiki` and `_is200`.
  - Argument validation comes first.
  - Then comes the page loop. It is a method proved against the recursive specification `Crawl`.
  - The network and the HTML parser are a page oracle `fetch: string -> Page`.
- `Script` (script.dfy): `_carry_on`, `run` and the `__main__` handler, as a method `Run` returning how the run stopped and what each output file holds. It also has the process exit status, and a two-page example site taken through scrape, filter, override files and merge to the text of both output files.

Where the code and the script's documentation differ, the model follows the code:

- A delay of 0 is rejected, like every delay below 1 (`delay < 1`, abbrevscrape/abbrevscrape.py:104).
- The emptiness check in `run` looks at the raw scrape, before filtering (abbrevscrape/abbrevscrape.py:303-307). A scrape whose entries are all filtered away still writes an empty `wiktionary.txt` and goes on.
- `wiktionary.txt` holds the filtered entries in scrape order. It is not sorted.
- `wiktionary.txt` is written before `add.txt` and `remove.txt` are read, so an unreadable override file leaves it written.
- The override files are read by dropping the last piece of the split unconditionally (`pop()`), not by dropping empty lines. So an unterminated last line is lost, and inner blank lines are kept (the filter then drops them).
- A page without the expected tags (an `AttributeError`) ends the process with `sys.exit()`, status 0.
- An empty scrape raises a `ValueError` that the `__main__` handler prints. The process then also ends with status 0.

## Model

| member | source | states |
|---|---|---|
| Text.IsSpace | abbrevscrape/abbrevscrape.py:212 | the whitespace `strip()` removes includes space, tab, newline and carriage return, and no whitespace character is a word character or one of `.`, `+`, `*` |
| Text.SkipSpaces | abbrevscrape/abbrevscrape.py:212 | the start of `strip()`: everything skipped is whitespace and the character there is not |
| Text.TrimEnd | abbrevscrape/abbrevscrape.py:212 | the end of `strip()`: everything cut is whitespace and the character before is not |
| Text.Strip | abbrevscrape/abbrevscrape.py:212 | `strip()` never lengthens its input, and its result neither starts nor ends with whitespace |
| Text.StripIsTrim | abbrevscrape/abbrevscrape.py:212 | `strip()` yields a slice of its input, only whitespace is cut on both sides, and the result neither starts nor ends with whitespace |
| Text.StripUnspaced | abbrevscrape/abbrevscrape.py:212 | a string without whitespace at either end is left unchanged by `strip()` |
| Text.StripIdempotent | abbrevscrape/abbrevscrape.py:212 | stripping twice is stripping once |
| Text.StripEmptyIffAllSpace | abbrevscrape/abbrevscrape.py:212 | `strip()` gives the empty string exactly when the input is all whitespace |
| Filter.MatchesPattern | abbrevscrape/abbrevscrape.py:220-221 | every character of a full match of `[\w+\.*]+\.`, the final period included, is in the class and is not whitespace |
| Filter.MatchesPatternShape | abbrevscrape/abbrevscrape.py:220-221 | a full match of `[\w+\.*]+\.` is exactly a string of at least two characters, all in the class, ending in a period |
| Filter.ClassIsUnspaced | abbrevscrape/abbrevscrape.py:220 | no character of the class is whitespace or a newline |
| Filter.MatchIsUnspaced | abbrevscrape/abbrevscrape.py:220-221 | a matching string holds no whitespace and no newline, and `strip()` leaves it unchanged |
| Filter.StripAll | abbrevscrape/abbrevscrape.py:212 | the mapped list has the input's length, and each element is the stripped input element |
| Filter.KeepMatches | abbrevscrape/abbrevscrape.py:221 | the kept list is no longer than the input, and every kept string fully matches |
| Filter.FilterAbbrevs | abbrevscrape/abbrevscrape.py:199-223 | the result is no longer than the input, and every element fully matches the pattern |
| Filter.KeepMatchesMembership | abbrevscrape/abbrevscrape.py:221 | a string is kept iff it is in the input and matches |
| Filter.FilterMembership | abbrevscrape/abbrevscrape.py:199-223 | a string is in the result iff it is a stripped input entry that matches |
| Filter.KeepMatchesCount | abbrevscrape/abbrevscrape.py:221 | every occurrence of a matching string is kept, duplicates included: its count in the result is its count in the input, and a non-matching string occurs zero times |
| Filter.FilterCount | abbrevscrape/abbrevscrape.py:199-223 | each matching stripped entry occurs in the result exactly as often as among the stripped entries, so scrape duplicates reach `wiktionary.txt` |
| Filter.KeepMatchesIsSubsequence | abbrevscrape/abbrevscrape.py:221 | filtering only removes elements and keeps the order of the rest |
| Filter.FilterIsSubsequence | abbrevscrape/abbrevscrape.py:199-223 | the result is a subsequence of the stripped entries, in their order |
| Filter.AllMatchFromMembers | abbrevscrape/abbrevscrape.py:221 | a list whose members all match satisfies the recursive all-match predicate |
| Filter.KeepAllMatches | abbrevscrape/abbrevscrape.py:221 | filtering a list whose elements all match returns it unchanged |
| Filter.FilterIdempotent | abbrevscrape/abbrevscrape.py:199-223 | filtering a filtered list changes nothing |
| Filter.FilterKeepsPeriodEnded | abbrevscrape_tests.py:86-100 | `['ABC','DEF.','GHI']` filters to `['DEF.']`, and `[]` to `[]` |
| Filter.FilterKeepsAllValid | abbrevscrape_tests.py:92-95 | `['ABC.','DEF.','GHI.']` is kept whole |
| Filter.FilterDropsPunctuation | abbrevscrape_tests.py:102-105 | `'.'`, `'   .   '` and `'?. '` are all dropped |
| Filter.FilterDropsInnerPeriod | abbrevscrape_tests.py:107-110 | of `['a','bc.a','cd','b.c.']` only `'b.c.'` is kept |
| StringOrder.Below | abbrevscrape/abbrevscrape.py:256 | `a < b` on strings only holds between different strings |
| StringOrder.BelowAtFirstDifference | abbrevscrape/abbrevscrape.py:256 | `a < b` iff `a` is a proper prefix of `b` or they first differ at a position where `a` has the smaller code point |
| StringOrder.BelowIrreflexive | abbrevscrape/abbrevscrape.py:256 | no string is below itself |
| StringOrder.BelowTransitive | abbrevscrape/abbrevscrape.py:256 | the string order is transitive |
| StringOrder.BelowAsymmetric | abbrevscrape/abbrevscrape.py:256 | the string order is asymmetric |
| StringOrder.BelowTotal | abbrevscrape/abbrevscrape.py:256 | of two different strings one is below the other |
| StringOrder.IncreasingHasNoDuplicates | abbrevscrape/abbrevscrape.py:242-256 | a strictly increasing list has no repeated element |
| StringOrder.IncreasingUnique | abbrevscrape/abbrevscrape.py:256 | two strictly increasing lists with the same members are equal, so the sorted listing of a set is unique |
| Merge.LeastExists | abbrevscrape/abbrevscrape.py:256 | every non-empty set of strings has an element below all the others |
| Merge.LeastUnique | abbrevscrape/abbrevscrape.py:256 | that least element is unique |
| Merge.Least | abbrevscrape/abbrevscrape.py:256 | the least element is in the set and below every other member |
| Merge.SortSet | abbrevscrape/abbrevscrape.py:256 | `sorted(set)`: strictly increasing, the same members, and as many elements as the set |
| Merge.CreateAbbrevList | abbrevscrape/abbrevscrape.py:226-256 | the result is strictly increasing, and a string is in it iff it is in the scrape or the additions and not in the removals |
| Merge.MergeIsTheSortedSet | abbrevscrape/abbrevscrape.py:226-256 | any strictly increasing list with those members is the result, so the result is determined by the three member sets |
| Merge.MergeIgnoresOrder | abbrevscrape/abbrevscrape.py:243-245 | reordering or duplicating entries of any input does not change the result |
| Merge.MergeKeepsValidity | abbrevscrape/abbrevscrape.py:330-337 | when the scrape and the additions are filtered, every element of the result matches the pattern |
| Merge.MergeAddsAndRemoves | abbrevscrape_tests.py:114-122 | `(['X.','Y.','Z.'], ['A.','B.','C.','D.'], ['B.'])` gives `['A.','C.','D.','X.','Y.','Z.']` |
| Merge.MergeRemovesAbsent | abbrevscrape_tests.py:124-127 | `(['X.','Y.','Z.'], ['A.','B.','C.','D.'], ['F.'])` gives `['A.','B.','C.','D.','X.','Y.','Z.']` |
| Merge.MergeEmptyScrape | abbrevscrape_tests.py:129-133 | `([], ['A.','B.','C.','D.'], ['B.'])` gives `['A.','C.','D.']` |
| Merge.MergeRemoveWins | abbrevscrape_tests.py:147-150 | `(['X.'], ['X.'], ['X.'])` gives `[]`, and three empty lists give `[]` |
| LineFile.Split | abbrevscrape/abbrevscrape.py:319 | `split('\n')` gives at least one piece and no piece holds a newline |
| LineFile.JoinSplit | abbrevscrape/abbrevscrape.py:319 | joining the pieces with newlines gives back the text |
| LineFile.SplitAfterPiece | abbrevscrape/abbrevscrape.py:319 | splitting a newline-free prefix followed by more text extends the first piece |
| LineFile.SplitJoin | abbrevscrape/abbrevscrape.py:319 | splitting newline-free lines joined by newlines gives back the lines |
| LineFile.Encode | abbrevscrape/abbrevscrape.py:313-315 | a file written from at least one entry ends with a newline |
| LineFile.EncodeCountsLines | abbrevscrape/abbrevscrape.py:313-315 | a file written from newline-free entries holds exactly one newline per entry |
| LineFile.ReadLines | abbrevscrape/abbrevscrape.py:318-328 | the lines read hold no newline, and the text is those lines written back one per line followed by a newline-free tail, which is lost |
| LineFile.EncodeThenTail | abbrevscrape/abbrevscrape.py:313-315 | the written lines followed by any text are the lines and that text joined by newlines |
| LineFile.ReadDropsUnterminatedLine | abbrevscrape/abbrevscrape.py:318-328 | reading back written lines followed by an unterminated line gives exactly the written lines, so that last line is lost |
| LineFile.ReadInvertsWrite | abbrevscrape/abbrevscrape.py:313-328 | reading what the write loop wrote gives back the entries, when none holds a newline |
| LineFile.EncodeAppend | abbrevscrape/abbrevscrape.py:314-315 | writing one more entry appends it and a newline |
| LineFile.WriteLines | abbrevscrape/abbrevscrape.py:342-344 | the loop writes each entry followed by a newline, in order |
| Scrape.Is200Examples | abbrevscrape_tests.py:77-83 | `_is200(200)` holds and `_is200(-200)` does not |
| Scrape.PageError | abbrevscrape/abbrevscrape.py:116-132 | an unusable page ends the scrape with a connection failure iff the GET failed, and with an unexpected-status error carrying the status iff the status is not 200; the error is never an argument error |
| Scrape.PrependConcat | abbrevscrape/abbrevscrape.py:151-152 | a helper for the loop proof: adding the entries of consecutive pages to the list composes, and adding none changes nothing |
| Scrape.Crawl | abbrevscrape/abbrevscrape.py:111-182 | the page loop never fails with an argument error and fails only once a page was requested; it succeeds only if the first requested page was usable |
| Scrape.CrawlStartsWithFirstPage | abbrevscrape/abbrevscrape.py:151-152 | a successful scrape begins with the entries of the first page |
| Scrape.VisitedFollowsLinks | abbrevscrape/abbrevscrape.py:111-168 | at most `numpages` URLs are requested, the first is the start URL, and each later one is the site root followed by the "next page" target of the previous page, which was usable |
| Scrape.VisitedStopsAtLastPage | abbrevscrape/abbrevscrape.py:163-164 | fewer requests than the budget means the last page was unusable or had no "next page" link |
| Scrape.CrawlCollectsVisitedPages | abbrevscrape/abbrevscrape.py:111-182 | the scrape succeeds iff every requested page is usable, and then returns the entries of those pages concatenated in order |
| Scrape.CrawlAbortsAtBadPage | abbrevscrape/abbrevscrape.py:116-180 | a failed scrape fails with the error of its last requested page, and all earlier pages were usable |
| Scrape.ScrapeWiki | abbrevscrape/abbrevscrape.py:74-182 | the three argument checks give their errors in source order; otherwise the loop yields what `Crawl` specifies; an argument error occurs iff `numpages < 1` or `delay < 1` |
| Script.CarryOn | abbrevscrape/abbrevscrape.py:53-71 | the run goes on iff the answer is one of the four yes-answers, exits with 0 iff it is one of the four no-answers, and otherwise exits with 2 |
| Script.CarryOnDeclinesPaddedNo | abbrevscrape_tests.py:9-11 | `'   N    '`, stripped, exits with 0 |
| Script.CarryOnDeclinesPaddedWord | abbrevscrape_tests.py:16-17 | `'   no   '`, stripped, exits with 0 |
| Script.CarryOnRejectsInnerSpace | abbrevscrape_tests.py:22-24 | `'   N o   '`, stripped, exits with 2 |
| Script.ExitStatus | abbrevscrape/abbrevscrape.py:355-361 | the process exits with 2 exactly for a bad answer, with 1 exactly when the scrape failed to connect or got an unexpected status, and with 0 otherwise |
| Script.Run | abbrevscrape/abbrevscrape.py:259-351 | nothing is written unless the user says yes and the scrape returns entries; `wiktionary.txt` then holds the filtered scrape; an unreadable override file stops the run after that write; otherwise `abbreviations.txt` holds the merge of the filtered scrape and the filtered override files, and read back it is strictly increasing with every line matching the pattern |
| Script.TwoPageScrape | abbrevscrape/abbrevscrape.py:111-168 | on a two-page site the scrape stops at the page without a "next page" link and returns both pages' entries in order |
| Script.TwoPageFiltered | abbrevscrape/abbrevscrape.py:303-305 | that scrape filters to `['Jan.','Mar.','Apr.']`, the content of `wiktionary.txt` |
| Script.TwoPageMerged | abbrevscrape/abbrevscrape.py:330-337 | merged with the addition `X.` and the removal `Mar.` it gives `['Apr.','Jan.','X.']` |
| Script.ReadOneLine | abbrevscrape/abbrevscrape.py:318-333 | an override file holding one valid abbreviation on a line of its own reads and filters to exactly that abbreviation |
| Script.TwoPageOverrideFiles | abbrevscrape/abbrevscrape.py:318-333 | an `add.txt` holding the line `X.` gives `['X.']`, and a `remove.txt` holding the line `Mar.` gives `['Mar.']` |
| Script.TwoPageMergedFromFiles | abbrevscrape/abbrevscrape.py:300-337 | the two-page site with those override files merges to `['Apr.','Jan.','X.']` |
| Script.TwoPageWiktionaryFile | abbrevscrape/abbrevscrape.py:303-315 | a run on the two-page site writes `wiktionary.txt` as the lines `Jan.`, `Mar.`, `Apr.` |
| Script.TwoPageAbbreviationsFile | abbrevscrape/abbrevscrape.py:300-344 | with those override files it writes `abbreviations.txt` as the lines `Apr.`, `Jan.`, `X.` |
| Script.NoNewlines | abbrevscrape/abbrevscrape.py:313-315 | entries that match the pattern hold no newline, so the line file keeps them apart |

## Left out

- Networking (`requests.get`) and HTML parsing (`BeautifulSoup`, `find`, `findAll`) are folded into the page oracle `fetch`. A page is reachable or not, has a status, and either parses to a listing or has the tags missing.
- The oracle is a pure function of the URL, so a site that changes between two requests of the same URL is not modelled.
- An entry whose link text is `None` is not modelled. Neither is a "next page" link without `href` (a `KeyError` that the script does not catch).
- `time.sleep(delay)` is not modelled. The delay is only validated.
- `print` and the messages on standard error are not modelled.
- `input()` is not modelled; the typed answer is a parameter of `Run`.
- File I/O is modelled as string contents in and out. A failure to open `add.txt` or `remove.txt` is the `None` case. Write failures on `wiktionary.txt` or `abbreviations.txt` are not modelled.
- Text.IsWordChar: `\w` is restricted to ASCII letters, digits and `_`. Python's `re` also accepts non-ASCII letters and digits in `str` patterns.
- `open(..., 'r')` reads in text mode, which turns `'\r\n'` and a lone `'\r'` into `'\n'` before `split('\n')`. `Run`'s `addFile` and `removeFile` stand for the text after that translation, not for the raw bytes on disk.
- The scraped entries and the file lines are sequences of Unicode code points. No encoding or decoding is modelled.
- `setup.py` (packaging) is not part of this model.
- The tests that depend on live websites (abbrevscrape_tests.py:53-74) are not modelled. The oracle plays their role.
