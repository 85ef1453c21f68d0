/**
 * `main`: scrape three pages, name the CSV file and the Google Sheet after
 * the run date, fill the sheet, build a five-line preview and send one
 * Telegram message per configured chat id.
 *
 * The clock, the environment and every network call are parameters or left
 * out: `today` is the already formatted run date, `chatIdRaw` the value of
 * TELEGRAM_CHAT_ID, and the messages are returned instead of sent.
 */
module Publish {
  import opened Wrappers
  import opened Sequences
  import opened PyText
  import opened Scraper

  const CsvPrefix: string := "tdm_image_news_"
  const CsvSuffix: string := ".csv"
  const SheetPrefix: string := "TDM報告 "

  /** The CSV file the dataset is written to: the run date between a fixed
      prefix and the `.csv` extension. */
  function CsvFilename(today: string): (name: string)
    ensures |name| == |CsvPrefix| + |today| + |CsvSuffix|
    ensures CsvPrefix <= name && name[|name| - |CsvSuffix|..] == CsvSuffix
  {
    CsvPrefix + today + CsvSuffix
  }

  /** The run date a CSV file name carries, if it has the bot's shape. */
  function DateOfCsvFilename(name: string): Option<string>
  {
    var p, q := |CsvPrefix|, |CsvSuffix|;
    if |name| >= p + q && name[..p] == CsvPrefix && name[|name| - q..] == CsvSuffix
    then Some(name[p..|name| - q])
    else None
  }

  /** The title of the Google Sheet the dataset is published to: a fixed
      prefix, then the run date. */
  function SheetTitle(today: string): (title: string)
    ensures SheetPrefix <= title && title[|SheetPrefix|..] == today
  {
    SheetPrefix + today
  }

  /** The CSV file name gives back the run date it was made from, so runs on
      different dates never share a file; the same holds of sheet titles. */
  lemma NamesCarryDate(today: string, other: string)
    ensures DateOfCsvFilename(CsvFilename(today)) == Some(today)
    ensures CsvFilename(today) == CsvFilename(other) ==> today == other
    ensures SheetTitle(today) == SheetTitle(other) ==> today == other
  {
  }

  /** The column names of the dataset, in insertion order of the record. */
  const Columns: seq<string> := ["標題", "日期時間"]

  /** `[df.columns.values.tolist()] + df.values.tolist()`: a header row and
      one [title, date] row per record. A DataFrame built from no records
      has no columns at all, so it yields a single empty row. */
  function SheetValues(rs: seq<NewsRecord>): (rows: seq<seq<string>>)
    ensures |rows| == |rs| + 1
    ensures rs != [] ==> forall k :: 0 <= k < |rows| ==> |rows[k]| == |Columns|
  {
    if rs == [] then [[]]
    else [Columns] + seq(|rs|, k requires 0 <= k < |rs| => [rs[k].title, rs[k].published])
  }

  /** Reading the data rows back out of the sheet values (the first row is
      the header). */
  function RecordsOfSheet(rows: seq<seq<string>>): seq<NewsRecord>
  {
    var data := if rows == [] then [] else rows[1..];
    seq(|data|, k requires 0 <= k < |data| => RowRecord(data[k]))
  }

  function RowRecord(row: seq<string>): NewsRecord
  {
    if |row| == 2 then NewsRecord(row[0], row[1]) else NewsRecord("", "")
  }

  /** The sheet holds the header and exactly the dataset, row for row, and
      the dataset can be read back from it unchanged. */
  lemma SheetRoundTrip(rs: seq<NewsRecord>)
    ensures |SheetValues(rs)| == |rs| + 1
    ensures rs != [] ==> SheetValues(rs)[0] == Columns
    ensures RecordsOfSheet(SheetValues(rs)) == rs
  {
    var rows := SheetValues(rs);
    if rs != [] {
      var data := rows[1..];
      forall k | 0 <= k < |rs| ensures RecordsOfSheet(rows)[k] == rs[k] {
        assert data[k] == rows[k + 1] == [rs[k].title, rs[k].published];
        assert RecordsOfSheet(rows)[k] == RowRecord(data[k]);
      }
    }
  }

  /** The line separator of the preview: U+FF5C, with no spaces around it. */
  const PreviewSeparator: char := '｜'

  /** How many records the preview shows (`df.head(5)`). */
  const PreviewSize: nat := 5

  function PreviewLine(r: NewsRecord): string
  {
    r.published + [PreviewSeparator] + r.title
  }

  /** One line per record among the first five, in dataset order. */
  function PreviewLines(rs: seq<NewsRecord>): (lines: seq<string>)
    ensures |lines| == if |rs| < PreviewSize then |rs| else PreviewSize
    ensures forall j :: 0 <= j < |lines| ==> lines[j] == PreviewLine(rs[j])
  {
    var n := if |rs| < PreviewSize then |rs| else PreviewSize;
    seq(n, j requires 0 <= j < n => PreviewLine(rs[j]))
  }

  /** The summary sent to Telegram: the preview lines joined by newlines. It
      is empty exactly when the dataset is. */
  function Preview(rs: seq<NewsRecord>): (text: string)
    ensures text == "" <==> rs == []
  {
    JoinedLinesEmpty(rs);
    Join(PreviewLines(rs), "\n")
  }

  lemma JoinedLinesEmpty(rs: seq<NewsRecord>)
    ensures Join(PreviewLines(rs), "\n") == "" <==> rs == []
  {
  }

  /** When no shown field contains a newline, the preview splits back into
      exactly min(5, n) lines, line j being date_j, U+FF5C, title_j. */
  lemma PreviewSplitsIntoLines(rs: seq<NewsRecord>)
    requires |rs| >= 1
    requires forall j :: 0 <= j < |rs| && j < PreviewSize ==>
      '\n' !in rs[j].title && '\n' !in rs[j].published
    ensures Split(Preview(rs), '\n') == PreviewLines(rs)
  {
    var lines := PreviewLines(rs);
    forall j | 0 <= j < |lines| ensures '\n' !in lines[j] {
      assert lines[j] == rs[j].published + [PreviewSeparator] + rs[j].title;
    }
    SplitJoin(lines, '\n');
  }

  /** A non-empty preview of stripped records never ends in a newline: its
      last character is the last record's title's last character, or the
      separator when that title is empty. */
  lemma PreviewHasNoTrailingNewline(rs: seq<NewsRecord>)
    requires |rs| >= 1
    requires forall j :: 0 <= j < |rs| ==> IsStripped(rs[j].title)
    ensures |Preview(rs)| >= 1 && Preview(rs)[|Preview(rs)| - 1] != '\n'
  {
    var lines := PreviewLines(rs);
    var last := lines[|lines| - 1];
    var p := Preview(rs);
    JoinEndsWithLast(lines, "\n");
    assert p[|p| - |last|..] == last;
    assert p[|p| - 1] == last[|last| - 1];
  }

  /** One entry of `[cid.strip() for cid in raw.split(",") if cid.strip()]`. */
  function ChatIdOf(piece: string): Option<string>
  {
    var id := Strip(piece);
    if id == "" then None else Some(id)
  }

  /** The chat ids in TELEGRAM_CHAT_ID: at most one per comma-separated
      field, so at most (number of commas + 1). */
  function ChatIds(raw: string): (ids: seq<string>)
    ensures |ids| <= Occurrences(raw, ',') + 1
  {
    Keep(ChatIdOf, Split(raw, ','))
  }

  /** Every chat id is non-empty, has no surrounding whitespace and contains
      no comma. */
  lemma ChatIdsClean(raw: string)
    ensures forall k :: 0 <= k < |ChatIds(raw)| ==>
      ChatIds(raw)[k] != "" && IsStripped(ChatIds(raw)[k]) && ',' !in ChatIds(raw)[k]
  {
    var fields := Split(raw, ',');
    SplitParts(raw, ',');
    KeepIndexed(ChatIdOf, fields);
    var ids := ChatIds(raw);
    var idx := KeptIndices(ChatIdOf, fields);
    forall k | 0 <= k < |ids|
      ensures ids[k] != "" && IsStripped(ids[k]) && ',' !in ids[k]
    {
      var f := fields[idx[k]];
      StripSpec(f);
      if ',' in ids[k] {
        StripKeeps(f, ',');
        assert false;
      }
    }
  }

  /** The chat ids are the stripped comma-separated fields that are not
      blank, each once, left to right. */
  lemma ChatIdsInFieldOrder(raw: string)
    ensures var fields, ids := Split(raw, ','), ChatIds(raw);
      var idx := KeptIndices(ChatIdOf, fields);
      && |ids| == |idx|
      && (forall k :: 0 <= k < |idx| ==> idx[k] < |fields| && ids[k] == Strip(fields[idx[k]]))
      && (forall k, l :: 0 <= k < l < |idx| ==> idx[k] < idx[l])
      && (forall j :: 0 <= j < |fields| ==> (Strip(fields[j]) != "" <==> j in idx))
  {
    KeepIndexed(ChatIdOf, Split(raw, ','));
  }

  const NoticeHead: string := "\U{1F4E2} TDM 報告 "
  const NoticeBody: string := " 已完成，已上傳 Google Drive。\n\n\U{1F4C4} 最新新聞摘要：\n"

  /** The text of the Telegram message: an announcement naming the run date,
      then the preview, which ends the message. */
  function NotificationText(today: string, preview: string): (text: string)
    ensures |text| == |NoticeHead| + |today| + |NoticeBody| + |preview|
    ensures NoticeHead <= text && text[|text| - |preview|..] == preview
  {
    NoticeHead + today + NoticeBody + preview
  }

  /** The run date and the preview a message carries, given the length of
      the date (`%Y-%m-%d` always renders ten characters). */
  function NoticeParts(text: string, dateLength: nat): Option<(string, string)>
  {
    var h, b := |NoticeHead|, |NoticeBody|;
    if |text| >= h + dateLength + b && text[..h] == NoticeHead
       && text[h + dateLength..h + dateLength + b] == NoticeBody
    then Some((text[h..h + dateLength], text[h + dateLength + b..]))
    else None
  }

  /** A message gives back the run date and the preview it was built from, so
      messages of different runs with dates of the same length differ. */
  lemma NotificationRoundTrip(today: string, preview: string)
    ensures NoticeParts(NotificationText(today, preview), |today|) == Some((today, preview))
  {
    var text := NotificationText(today, preview);
    var h, t, b := |NoticeHead|, |today|, |NoticeBody|;
    assert text[..h] == NoticeHead;
    assert text[h..h + t] == today;
    assert text[h + t..h + t + b] == NoticeBody;
    assert text[h + t + b..] == preview;
  }

  datatype Message = Message(chatId: string, text: string)

  /** The send loop: one message per chat id, in order, all with the same text. */
  method SendAll(chatIds: seq<string>, text: string) returns (outbox: seq<Message>)
    ensures |outbox| == |chatIds|
    ensures forall k :: 0 <= k < |outbox| ==> outbox[k] == Message(chatIds[k], text)
  {
    outbox := [];
    for k := 0 to |chatIds|
      invariant |outbox| == k
      invariant forall m :: 0 <= m < k ==> outbox[m] == Message(chatIds[m], text)
    {
      outbox := outbox + [Message(chatIds[k], text)];
    }
  }

  /** The messages the send loop produces are one per id, as a comprehension. */
  lemma SentToEveryId(outbox: seq<Message>, ids: seq<string>, text: string)
    requires |outbox| == |ids|
    requires forall k :: 0 <= k < |outbox| ==> outbox[k] == Message(ids[k], text)
    ensures outbox == seq(|ids|, k requires 0 <= k < |ids| => Message(ids[k], text))
  {
  }

  /** Everything one successful run produces. */
  datatype RunOutput = RunOutput(
    dataset: seq<NewsRecord>,
    csvFile: string,
    sheetTitle: string,
    sheetValues: seq<seq<string>>,
    preview: string,
    messages: seq<Message>)

  /** The artifacts derived from a scraped dataset: every one of them comes
      from that dataset, the run date and the chat-id setting alone. */
  function Artifacts(ds: seq<NewsRecord>, today: string, chatIdRaw: string): RunOutput
  {
    var ids, text := ChatIds(chatIdRaw), NotificationText(today, Preview(ds));
    RunOutput(ds, CsvFilename(today), SheetTitle(today), SheetValues(ds), Preview(ds),
      seq(|ids|, k requires 0 <= k < |ids| => Message(ids[k], text)))
  }

  /** The whole run over three pages. A navigation failure aborts it before
      any file, sheet or message is produced; otherwise the artifacts are
      those of the one dataset the scrape returned. */
  method Run(site: Site, today: string, chatIdRaw: string)
    returns (r: Result<RunOutput, ScrapeError>)
    ensures r.Err? <==> Scrape(site, DefaultPages).Err?
    ensures r.Err? ==> r.error == Scrape(site, DefaultPages).error
    ensures r.Ok? ==> r.value == Artifacts(Scrape(site, DefaultPages).value, today, chatIdRaw)
  {
    var scraped, _ := ScrapeTdm(site, DefaultPages);
    if scraped.Err? {
      return Err(scraped.error);
    }
    var df := scraped.value;
    var preview := Preview(df);
    var ids, text := ChatIds(chatIdRaw), NotificationText(today, preview);
    var messages := SendAll(ids, text);
    SentToEveryId(messages, ids, text);
    r := Ok(RunOutput(df, CsvFilename(today), SheetTitle(today), SheetValues(df), preview, messages));
  }

  /** Two pages: the first shows three complete items and one without a
      date, the second shows none. The run keeps the three complete items in
      page order and previews them on three lines. */
  lemma TwoPageRun(a: NewsRecord, b: NewsRecord, c: NewsRecord)
    requires IsStripped(a.title) && IsStripped(a.published)
    requires IsStripped(b.title) && IsStripped(b.published)
    requires IsStripped(c.title) && IsStripped(c.published)
    ensures var page1 := [Container(Some(a.title), Some(a.published)),
                          Container(Some(b.title), None),
                          Container(Some(b.title), Some(b.published)),
                          Container(Some(c.title), Some(c.published))];
      var site := map[ListingUrl(1) := page1, ListingUrl(2) := []];
      && Scrape(site, 2) == Ok([a, b, c])
      && |SheetValues([a, b, c])| == 4
      && |PreviewLines([a, b, c])| == 3
  {
    var page1 := [Container(Some(a.title), Some(a.published)),
                  Container(Some(b.title), None),
                  Container(Some(b.title), Some(b.published)),
                  Container(Some(c.title), Some(c.published))];
    ThreeOfFour(a, b, c, page1);
    TwoPages(page1);
    SheetRoundTrip([a, b, c]);
  }

  lemma ThreeOfFour(a: NewsRecord, b: NewsRecord, c: NewsRecord, page: seq<Container>)
    requires IsStripped(a.title) && IsStripped(a.published)
    requires IsStripped(b.title) && IsStripped(b.published)
    requires IsStripped(c.title) && IsStripped(c.published)
    requires page == [Container(Some(a.title), Some(a.published)),
                      Container(Some(b.title), None),
                      Container(Some(b.title), Some(b.published)),
                      Container(Some(c.title), Some(c.published))]
    ensures PageRecords(page) == [a, b, c]
  {
    StripStripped(a.title); StripStripped(a.published);
    StripStripped(b.title); StripStripped(b.published);
    StripStripped(c.title); StripStripped(c.published);
    var f := ContainerRecord;
    assert f(page[0]) == Some(a) && f(page[1]) == None;
    assert f(page[2]) == Some(b) && f(page[3]) == Some(c);
    assert Keep(f, page[..1]) == Keep(f, []) + [a] by {
      assert page[..1][..0] == [];
    }
    assert Keep(f, page[..2]) == [a] by {
      assert page[..2][..1] == page[..1];
    }
    assert Keep(f, page[..3]) == [a, b] by {
      assert page[..3][..2] == page[..2];
    }
    assert page[..4][..3] == page[..3] && page[..4] == page;
  }

  lemma TwoPages(page1: seq<Container>)
    ensures Scrape(map[ListingUrl(1) := page1, ListingUrl(2) := []], 2) == Ok(PageRecords(page1))
  {
    assert ListingUrl(1) != ListingUrl(2) by {
      if ListingUrl(1) == ListingUrl(2) { ListingUrlInjective(1, 2); }
    }
    var site := map[ListingUrl(1) := page1, ListingUrl(2) := []];
    assert site[ListingUrl(1)] == page1;
    assert site[ListingUrl(2)] == [];
    assert Scrape(site, 1) == Ok([] + PageRecords(page1));
    assert PageRecords([]) == [];
    assert [] + PageRecords(page1) == PageRecords(page1) + [] == PageRecords(page1);
  }
}
