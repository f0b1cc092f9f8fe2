# Scholar Scraper plugin core, modelled in Dafny

This project models the logic of the Scholar Scraper WordPress plugin in
`src/GoogleScholarScraping.php`. The plugin has two entry points:

- **The scheduled scrape** (`scholar_scraper_start_scraping`). A lock flag
  (a transient) makes it single-flight. It checks its preconditions in a
  fixed order, installs the Python dependencies, runs the scraper for the
  configured Google Scholar ids and, on success, writes two cache files: the
  raw output, then the serialized decoded collection.
- **The shortcode** (`scholar_scraper_display_result`). It normalises its
  attributes and reads the serialized cache. When that file is missing, it
  regenerates it from the raw cache. It merges every author's publications,
  sorts them with a three-way comparator and renders a window of cards.

Both entry points share the decoder (`scholar_scraper_decode_results`). It
keeps the authors that cast successfully and have at least one publication.

## Files

- `wrappers.dfy`, module `Wrappers`: `Option`.
- `scholar.dfy`, module `Scholar`: `Publication`, `Author`, the two-file `Store`, field lookup as `isset` sees it, and the merge of publications.
- `php_strings.dfy`, module `PhpStrings`: `trim`, `strtolower` and `strcmp`.
- `php_numbers.dfy`, module `PhpNumbers`: PHP 8 numeric strings, meaning `is_numeric` and the `(int)` cast of a string.
- `decoder.dfy`, module `Decoder`: the decoder filter.
- `orchestrator.dfy`, module `Orchestrator`: the dependency gate and the scrape state machine. Every run returns a value, the new world (lock flag and cache files) and an effect log.
- `ordering.dfy`, module `Ordering`: the comparator and the stable sort.
- `display.dfy`, module `Display`: attribute normalisation, cache fallback, the pagination window and rendering.
- `pipeline.dfy`, module `Pipeline`: a scrape followed by a display.

## Behaviour worth noting

- **Check order.** The scheduled scrape checks, in this order, the script,
  the Python path, the database, the dependency installation and the user
  list (`src/GoogleScholarScraping.php:61-104`), and stops at the first that
  fails.
- **Output that is not a PHP array once decoded.** This covers malformed
  text, `null` and a scalar. Such output raises no exception (PHP logs a warning): the `foreach` at
  line 326 iterates nothing, so the decoded collection is empty. A JSON
  object decodes to an associative array, and its values are iterated like
  a list's elements.
- **Return values.** A failed dependency installation returns `false`.
  Every other failed check, and a non-zero scraper exit status, returns `""`.
- **The pagination window does not backfill.** Positions `0` through
  `count - 1` are visited and untitled publications among them are skipped.
- **Sort field.** It is validated in trimmed, lower-cased form, but the
  untrimmed text is used for the lookup.
- **Sort direction.** It is validated case-insensitively, but only the exact
  string `desc` sorts descending.

## Model

| member | source | states |
|---|---|---|
| Scholar.MergeAppend | src/GoogleScholarScraping.php:237-240 | merging a concatenation of author lists gives the first list's publications followed by the second's, so encounter order is kept across authors |
| Scholar.MergeMembership | src/GoogleScholarScraping.php:238-240 | a publication is in the merged list exactly when some author holds it |
| Scholar.MergeLength | src/GoogleScholarScraping.php:242 | the merged count equals the total number of publications all authors hold |
| Decoder.Keep | src/GoogleScholarScraping.php:326-339 | the kept authors all have publications, each came from a successful cast in the input, and there are no more of them than input elements |
| Decoder.Decode | src/GoogleScholarScraping.php:321-342 | output that is not an array decodes to the empty collection; every decoded author has at least one publication and comes from a successful cast |
| Decoder.KeepAppend | src/GoogleScholarScraping.php:326-341 | decoding works element by element and keeps input order: decoding a concatenation is the concatenation of the decodings |
| Decoder.KeepSingle | src/GoogleScholarScraping.php:329-338 | one element is kept exactly when it cast and has publications |
| Decoder.KeepMembership | src/GoogleScholarScraping.php:327-338 | an author is decoded exactly when it cast successfully and holds at least one publication, in both directions |
| Decoder.DecodeIdempotent | src/GoogleScholarScraping.php:333-335 | decoding an already decoded collection again returns it unchanged |
| Orchestrator.InstallRequirements | src/GoogleScholarScraping.php:18-41 | succeeds exactly when the requirements file is readable, pip is set, truthy and executable, and the install exits with 0; the pip command runs only once the first two checks pass |
| Orchestrator.SplitJoinIds | src/GoogleScholarScraping.php:106-111 | the argument string (each id followed by a space) loses nothing: when no id contains a space, splitting it gives back the id list |
| Orchestrator.FixedUsersArguments | src/GoogleScholarScraping.php:96-111 | the two fixed ids pass the non-empty check and give the argument string with its trailing space |
| Orchestrator.StartScraping | src/GoogleScholarScraping.php:50-147 | with the lock held: returns false, no effect, world unchanged; otherwise the log starts by taking the lock, ends by releasing it, takes or releases it nowhere else, and the lock is free afterwards |
| Orchestrator.FirstFailureOfPreconditions | src/GoogleScholarScraping.php:61-104 | the first failing entry of the ordered check list is exactly where the run's chain of tests stops |
| Orchestrator.StartScrapingReplays | src/GoogleScholarScraping.php:59-146 | the world a run reports is the one its effect log produces when replayed, so the log accounts for every change |
| Orchestrator.ValidationOrder | src/GoogleScholarScraping.php:61-122 | the first failed check decides: requirements give false, the others give ""; a failure writes nothing, leaves the world as it was and never runs the scraper; with all checks passed, exactly the pip command and then the scraper command run |
| Orchestrator.FailedCheckAborts | src/GoogleScholarScraping.php:61-104 | a run stopped by a failed check returns false after a failed dependency installation and "" otherwise, writes nothing, leaves the world unchanged and runs at most the install command |
| Orchestrator.PassedChecksRunBoth | src/GoogleScholarScraping.php:61-122 | a run that passes every check hands exactly the install command and then the scraper command to the runner, whatever the scraper's exit status |
| Orchestrator.PersistOnlyOnSuccess | src/GoogleScholarScraping.php:121-146 | files are written exactly when all checks pass and the exit status is 0; then the raw output and then the decoded collection are written, the lock is released last and the raw output is returned; otherwise both files are unchanged |
| Orchestrator.SingleFlight | src/GoogleScholarScraping.php:53-59 | at every point between taking and releasing the lock, the lock is held, and a second trigger there returns false with no effect |
| PhpNumbers.DecimalRoundTrip | src/GoogleScholarScraping.php:183-188 | the decimal text of any integer is numeric, and the (int) cast reads back the same integer |
| Display.CountNormalisation | src/GoogleScholarScraping.php:164-188 | a missing or non-numeric count attribute gives the default count; the decimal text of an integer gives that integer |
| Display.DirectionSemantics | src/GoogleScholarScraping.php:200-206 | the order is descending exactly when the attribute is literally "desc", or when it is invalid and the default is "desc" |
| Display.UpperCaseDescIsAscending | src/GoogleScholarScraping.php:202-206 | "DESC" passes the case-insensitive check and is kept as given, so it does not sort descending |
| Display.AcceptedFieldIsVerbatim | src/GoogleScholarScraping.php:192-197 | a field accepted in trimmed, lower-cased form is used verbatim; when no publication has that verbatim field, each counts as missing it |
| Display.UnknownFieldFallsBack | src/GoogleScholarScraping.php:192-195 | a field whose trimmed, lower-cased form is not sortable falls back to the default field |
| Display.PlaceholderWhenNoCache | src/GoogleScholarScraping.php:211-217 | the placeholder message is shown exactly when neither cache file is readable, and then nothing is written |
| Display.CacheFallback | src/GoogleScholarScraping.php:211-234 | with the serialized file unreadable and the raw file readable, the shortcode shows the page it would show had the regenerated file already been there, and leaves that file behind |
| Display.SerializedFileUsedAsIs | src/GoogleScholarScraping.php:211-240 | with the serialized file readable, the raw file is ignored: any raw file, or none, gives the same page, and no file is written |
| Display.RegenerationIdempotent | src/GoogleScholarScraping.php:211-230 | a second call finds the regenerated file and writes nothing; with the same attributes it shows the same page |
| Display.RenderWindow | src/GoogleScholarScraping.php:294-299 | the rendering loop yields the titled publications among the first min(count, total) sorted positions, no more cards than visited positions, each with a title |
| Display.WindowProperties | src/GoogleScholarScraping.php:294-299 | over any sorted list the window has no more cards than visited positions and none for a negative last index; every card has a title; cards stay in comparator order, with those that have a sort value before those without |
| Display.CardsWindow | src/GoogleScholarScraping.php:188-299 | the shortcode's cards, taken from the readable cache, number at most the requested count and none when the count is below 1; all have titles; they stay in comparator order |
| Display.Render | src/GoogleScholarScraping.php:292-309 | the placeholder renders as the fixed message; a card list is wrapped in the publications container |
| Ordering.CompareAntisymmetric | src/GoogleScholarScraping.php:246-289 | swapping the publications negates the comparator |
| Ordering.CompareTotal | src/GoogleScholarScraping.php:246-289 | any two publications are ordered one way or the other |
| Ordering.CompareTransitive | src/GoogleScholarScraping.php:246-289 | "not after" under the comparator is transitive, so the comparator is a total preorder and the stable sort's result is well defined |
| Ordering.TiedTransitive | src/GoogleScholarScraping.php:272-280 | being tied under the comparator is transitive |
| Ordering.Insert | src/GoogleScholarScraping.php:246 | inserting adds exactly the one element, as a multiset |
| Ordering.Sort | src/GoogleScholarScraping.php:246 | the sorted list is a permutation of the merged list |
| Ordering.SortSorted | src/GoogleScholarScraping.php:246-289 | the sorted list is ordered by the comparator |
| Ordering.SortStable | src/GoogleScholarScraping.php:246 | publications the comparator ties keep their merged-list relative order |
| Ordering.SortPutsMissingLast | src/GoogleScholarScraping.php:262-270 | after sorting, every publication with a value for the sort field precedes every publication without one |
| Ordering.SortExample | src/GoogleScholarScraping.php:252-285 | sorting B(5), A(5), C(null) by that field, descending, gives B, A, C |
| PhpStrings.StrCmpZeroIffEqual | src/GoogleScholarScraping.php:255-258 | strcmp reports equality exactly for equal titles |
| PhpStrings.StrCmpAntisymmetric | src/GoogleScholarScraping.php:255-258 | swapping strcmp's arguments negates its sign, which is why the descending title order is the reverse of the ascending one |
| PhpStrings.StrCmpTransitive | src/GoogleScholarScraping.php:255-258 | "not after" under strcmp is transitive |
| PhpStrings.TrimIsInfix | src/GoogleScholarScraping.php:193 | trim keeps an infix of its argument and drops only trim characters around it |
| Pipeline.ScrapeThenDisplay | src/GoogleScholarScraping.php:131-141 | after a successful scrape, the shortcode writes nothing and shows the page it would build by regenerating the serialized file from the raw output alone |
| Pipeline.FailedScrapeKeepsPage | src/GoogleScholarScraping.php:125-129 | a failed run changes nothing the shortcode can see: it shows the same page as before the run |

## Left out

- Process execution (`scholar_scraper_run_command_try_all_methods`) is not part of this model. The host record supplies what the runner returns for the install command and for the scraper command. The effect log records the exact command text handed to the runner.
- JSON decoding and `scholar_scraper_cast_object_to_class` are not part of this model. Both reach the model as one `parse` function parameter. It returns the values of the decoded PHP array in iteration order, each cast, where None marks a failed cast. It returns None when the decoded value is not a PHP array (malformed text, `null`, a scalar). For a JSON object, the values of the associative array it decodes to are iterated.
- `serialize`/`unserialize` are taken to be an exact round trip, so the serialized cache file holds the decoded collection itself. An unreadable serialized file is the None slot.
- Filesystem checks (`is_file`, `is_readable`, `is_executable`) are sets of paths in the host record. File reads are the two optional slots of the store. Writes through `scholar_scraper_write_in_file` are assumed to succeed, because that helper is not part of this model.
- A serialized file that is readable but corrupt is not modelled. In the source it is not regenerated: `unserialize` returns `false`, the `foreach` at lines 233-240 iterates nothing, and the shortcode shows an empty card container.
- Lock expiry after `CRON_TRANSIENT_RESET_AFTER` is wall-clock behaviour and is not modelled. The lock is a boolean flag.
- Orchestrator.SingleFlight: the flag is read with `get_transient` (line 53) and set with `set_transient` (line 59) as two separate steps, but the model takes it in one atomic step. The exclusion therefore does not cover two triggers that both read the flag before either sets it. It also does not cover a run that outlasts the flag's expiry.
- Logging, `add_action`, the settings lookup and the `$wpdb` global are WordPress glue. The settings and the database handle become fields of the host record.
- The scraped ids come from the host record. The source hardcodes two ids at line 96, so the empty-list branch is unreachable there. `Orchestrator.FixedUsersArguments` covers the hardcoded list.
- `shortcode_atts` becomes "the attribute if given, else its default". `html_entity_decode` on the attributes is treated as the identity.
- The card template (`include` of the template file, `ob_start`) is a function parameter of `Display.Render`.
- Sort fields are integer-valued only. Sorting on a string-valued field such as `title`, and PHP's loose `<=>` and `===` across mixed types, are not modelled.
- `ScholarPublication::get_non_array_fields` is not part of this model. The sortable field names are a set in the display configuration.
- The comparator's branch for a null publication, and the loop's check for a null entry, cannot arise: collection entries are never null in the model.
- `strcmp` compares characters by code point. For UTF-8 text this agrees with PHP's byte-wise order.
- PhpNumbers.IntCast: does not model that PHP reads a numeral with a `.` or an exponent as a double first and truncates that double. The model truncates the exact decimal value, so a long decimal text can cast to a different integer: `"0.99999999999999999"` is 1 in PHP, because its nearest double is 1.0, but 0 here. The cast's 64-bit saturation is not modelled either. Integers here are unbounded.
- Exceptions from decoding or serializing during a scrape are not modelled, because the `parse` parameter is total. In the source, a `ReflectionException` (documented at line 47) thrown while decoding escapes after the raw file is written (line 132). The serialized file then keeps the previous run's collection, and the flag stays set until it expires. "The flag is released on every path" holds for the return paths only.
