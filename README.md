# TDM image-news bot: scraping and report building in Dafny

This project models the deterministic core of the TDM news bot (`main.py`).

- **Scrape.** The bot visits listing pages 1..pages of the TDM image-news list. On each page it reads every item container. It keeps the stripped title and date of each container that has both a title element and a date element. The records are appended to one dataset in page order, then container order.
- **Publish.** From that dataset it names a CSV file and a Google Sheet after the run date and builds the sheet's rows. It builds a preview of the first five records and parses the comma-separated list of Telegram chat ids. It then sends one message per chat id.

The headless browser is replaced by the rendered site: a map from URL to the containers that page shows, in DOM order. A container holds its first title element's text, or `None`, and its first date element's text, or `None`. Navigating to a URL the map does not hold is the navigation failure that aborts the run. The run date and the raw chat-id setting are parameters. Messages are returned instead of sent.

Files:
- `wrappers.dfy`: the `Option` and `Result` datatypes.
- `sequences.dfy`: several sequence helpers.
  - The filter-map `Keep`, which both the container filter and the chat-id parser use.
  - List flattening.
  - Python's `join` and `split` for a one-character separator.
- `pytext.dfy`: Python's `str.strip()` and the decimal rendering of an `int`.
- `scraper.dfy`: `scrape_tdm_with_playwright`.
  - A specification function `Scrape`.
  - The loop method `ScrapeTdm`, proved equal to `Scrape`. Its inner loop over one page's containers is the method `AppendItems`.
  - Lemmas on order, completeness, failure and stripping.
- `publish.dfy`: the part of `main` that does not do I/O (see "## Left out").
  - File and sheet names.
  - Sheet rows.
  - The preview.
  - Chat ids.
  - The send loop.
  - The whole run.

Behaviours of the code worth knowing, each modelled as written:
- **Blank fields are kept.** A record is kept when both elements are present, even if their text strips to `""`; such a record has empty fields (`Scraper.BlankTextIsKept`).
- **Preview separator.** A preview line is `date + "｜" + title`: the full-width U+FF5C, with no spaces around it.
- **Several matches.** `query_selector` returns the first match, so a container with several title or date elements uses the first one.
- **Any page count.** A page count of 0 or less visits no page and yields an empty dataset.

## Model

| member | source | states |
|---|---|---|
| `Scraper.Scrape` | main.py:13-37 | The result of the scrape over pages 1..n. A failure always names a URL the site does not serve: only a page that cannot be loaded stops the scrape. |
| `Scraper.ListingUrl` | main.py:20 | The URL of page i is the fixed listing prefix followed by at least one character, all of them decimal digits. |
| `Scraper.ScrapeTdm` | main.py:13-37 | The nested page/container loop returns exactly `Scrape(site, pages)`. It visits the URLs of pages 1..pages in order. On a navigation failure, the URLs visited are those of pages 1 up to the failing one. |
| `Scraper.AppendItems` | main.py:25-34 | The inner loop over one page's containers returns the running results followed by exactly that page's records, in container order. |
| `Scraper.ContainerRecord` | main.py:26-34 | A container yields a record iff both its title and its date element are present. The record holds the two stripped texts, and neither field has surrounding whitespace. |
| `Scraper.BlankTextIsKept` | main.py:28-33 | For any title and date texts made only of whitespace, a container with both elements still produces a record, and both its fields are empty. Only presence is tested. |
| `Scraper.ScrapeSucceeds` | main.py:19-21 | The scrape returns a dataset iff the URLs of all pages 1..n can be loaded (in the model, only `goto` can fail). |
| `Scraper.ScrapeFailsAtFirstMissing` | main.py:19-21 | A failed scrape reports the first page in 1..n whose URL cannot be loaded, with that URL. Every earlier page was loaded. |
| `Scraper.ScrapeFailureIsFinal` | main.py:19-21 | Once a page fails, every scrape that goes further fails with the same error. Records from earlier pages are never returned. |
| `Scraper.ScrapeConcat` | main.py:19-34 | When every page loads, the dataset is the concatenation of each page's records in ascending page order. Nothing is reordered or deduplicated. |
| `Scraper.ScrapeOrder` | main.py:19-34 | When every page loads, the dataset is the records of all containers of pages 1..n, taken page after page in DOM order. |
| `Scraper.DatasetIsQualifyingContainers` | main.py:24-34 | There is exactly one record per container that has both elements, across all pages. It holds that container's stripped texts, records keep container order, and other containers contribute nothing. |
| `Scraper.ScrapeFieldsStripped` | main.py:31-34 | No stored title or date starts or ends with whitespace. |
| `Scraper.VisitedUrls` | main.py:19-21 | Exactly max(n, 0) page URLs are navigated to: entry k is the URL of page k + 1, so pages 1..n in ascending order. |
| `Scraper.ListingUrlShape` | main.py:20 | The URL of page i is the fixed listing prefix followed by decimal digits that read back as i. |
| `Scraper.ListingUrlInjective` | main.py:20 | Different page numbers give different URLs. |
| `PyText.Strip` | main.py:32-33 | `strip()` never lengthens its input, and neither end of its result is whitespace. |
| `PyText.StripSpec` | main.py:32-33 | `strip()` removes only a whitespace prefix and a whitespace suffix. It returns a slice of its input with no whitespace at either end. |
| `PyText.StripIdempotent` | main.py:32-33 | Stripping twice gives the same as stripping once. |
| `PyText.StripStripped` | main.py:32-33 | A string with no whitespace at either end is unchanged by `strip()`. |
| `PyText.StripKeeps` | main.py:81 | `strip()` adds no character that was not in its input. |
| `PyText.DecimalRoundTrip` | main.py:20 | The decimal rendering of a page number is all digits, has no leading zero and reads back as the number. |
| `PyText.DecimalInjective` | main.py:20 | Different numbers render differently. |
| `Sequences.Keep` | main.py:25-34 | Filtering never produces more values than it has inputs. |
| `Sequences.KeepIndexed` | main.py:25-34 | Filtering yields one value per input that produces one, in input order, and nothing else. |
| `Sequences.KeepAppend` | main.py:19-34 | Filtering the concatenation of two lists gives the filtered first list followed by the filtered second list. |
| `Sequences.KeepFlatten` | main.py:19-34 | Filtering the concatenation of all pages gives the concatenation of the filtered pages, in order. |
| `Sequences.Split` | main.py:81 | `split(",")` gives exactly one more field than there are commas, so always at least one field. |
| `Sequences.Join` | main.py:75-77 | A join of at least one part starts with the first part. |
| `Sequences.SplitParts` | main.py:81 | No field of `split(",")` contains a comma. Joining the fields with `","` gives back the input. |
| `Sequences.SplitJoin` | main.py:75-77 | Splitting a join of parts that contain no separator gives back the parts. |
| `Sequences.JoinEndsWithLast` | main.py:75-77 | A join ends with its last part. |
| `Publish.Preview` | main.py:74-77 | The preview text is empty exactly when the dataset is empty. |
| `Publish.PreviewLines` | main.py:74-76 | There are min(5, n) preview lines. Line j is `date_j + "｜" + title_j`. |
| `Publish.PreviewSplitsIntoLines` | main.py:74-77 | For a non-empty dataset whose shown fields have no newline, the preview splits on `"\n"` into exactly the preview lines, in dataset order. |
| `Publish.PreviewHasNoTrailingNewline` | main.py:74-77 | A non-empty preview of stripped records does not end in a newline. |
| `Publish.ChatIds` | main.py:80-81 | There are at most (number of commas + 1) chat ids. |
| `Publish.ChatIdsClean` | main.py:80-81 | Every chat id is non-empty, has no surrounding whitespace and contains no comma. |
| `Publish.ChatIdsInFieldOrder` | main.py:80-81 | The chat ids are the non-blank stripped fields, each once, in left-to-right order. |
| `Publish.CsvFilename` | main.py:43 | The CSV name is the prefix `tdm_image_news_`, then the date, then `.csv`, and nothing else. |
| `Publish.SheetTitle` | main.py:55 | The sheet title is the prefix `TDM報告 ` followed by exactly the date. |
| `Publish.NamesCarryDate` | main.py:42-43 | The CSV name `tdm_image_news_<today>.csv` gives back its date. Different dates give different file names. |
| `Publish.SheetValues` | main.py:57 | There is one row more than there are records. When there are records, every row, header included, has one cell per column. |
| `Publish.SheetRoundTrip` | main.py:57 | The sheet values are the header row plus one `[title, date]` row per record. The dataset reads back from them unchanged. |
| `Publish.NotificationText` | main.py:86 | The message starts with the announcement and ends with the preview. Its length is the template's plus the date's plus the preview's. |
| `Publish.NotificationRoundTrip` | main.py:86 | Given the length of the date, the message gives back exactly the date and the preview it was built from. |
| `Publish.SendAll` | main.py:83-87 | The bot sends one message per chat id, in order, each with the same text. |
| `Publish.Run` | main.py:40-87 | The whole run over three pages. In the model only `goto` can fail, so the run fails, with the scrape's error and no artifacts, exactly when the scrape fails. Otherwise its artifacts are those of the scraped dataset: the CSV name, sheet title, sheet rows, preview and one message per chat id. |
| `Publish.TwoPageRun` | main.py:19-34 | Worked example. Page 1 has three complete containers and one without a date, and page 2 is empty. This gives three records in order, four sheet rows and three preview lines. |

## Left out

- Playwright is not modelled; the rendered site takes its place. This covers browser launch, `new_page`, `goto`, the fixed 2-second `wait_for_timeout` and `inner_text`, all asynchronous browser I/O. `goto` raises only when no response arrives (DNS failure, refused connection, SSL error, timeout); that is a URL missing from the site map. A page answered with an HTTP error status such as 404 or 500 does not raise: the loop reads the containers of the error page, so in the model it is a URL that is present, most likely with no containers.
- `browser.close()` and the exit of `async with async_playwright()` are not modelled. They only release external resources. `browser.close()` runs only on success; on a navigation failure the exception leaves the `async with` block, whose exit stops the Playwright driver and the browser it launched.
- Writing the CSV file with pandas (`to_csv`, UTF-8 with BOM) is not modelled, because its bytes are library behaviour. Only the file name is.
- Google is not modelled: credentials, Sheets creation and update, and moving the file to a Drive folder are network calls. Only the sheet title and the rows passed to `update` are.
- The Telegram transport is not modelled. The messages are returned in loop order. `bot.send_message` is called without `await`; with python-telegram-bot 20 or later that call only creates a coroutine that never runs, so whether and in what order messages go out depends on the library version.
- Every failure other than a `goto` that gets no response is left out: the model assumes it does not happen. In the program each of them aborts the run with an exception.
  - In the scrape: `chromium.launch` and `new_page` (main.py:16-17), and `query_selector_all`, `query_selector` and `inner_text` (main.py:24-30), for example on a detached element or a destroyed execution context.
  - After the scrape: a missing `GDRIVE_CREDENTIAL_JSON`, `TELEGRAM_BOT_TOKEN` or `TELEGRAM_CHAT_ID` (`KeyError`, main.py:47, 71, 80), malformed credential JSON (main.py:47), and any Google or Telegram API error (main.py:54-68, 84).
  - A failure after main.py:44 leaves the CSV file written, with no sheet or no messages. `Publish.Run` returns all artifacts or none, so it does not represent that partial outcome.
- `datetime.today()`, the environment variables and `asyncio.run` are not modelled. They are the clock, the configuration and the event loop: `today` and the chat-id string are parameters.
- `PyText.IsSpace` uses a fixed whitespace set: CPython's `str.isspace()` table (U+0009–U+000D, U+001C–U+0020, U+0085, U+00A0, U+1680, U+2000–U+200A, U+2028, U+2029, U+202F, U+205F, U+3000). A different Python or Unicode version may classify more characters.
- `Publish.PreviewSplitsIntoLines` holds only for a non-empty dataset whose shown fields contain no newline. `inner_text` can contain inner newlines. An empty dataset previews as `""`, which splits into `[""]`, as Python's `"".split("\n")` does.
