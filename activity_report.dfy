/**
 * Assembly of the activity report: the body of the command's `handle`.
 *
 * The bounties and tips come from two ordered database queries; each is
 * formatted, the two formatted streams are merged by creation time, and every
 * merged record is written as one CSV row below a header row. When at least
 * one row was written the document is uploaded and a link to it is mailed;
 * otherwise only a "no activity" line is printed.
 *
 * The merge is a library routine whose code is not part of this model; the
 * method takes its output as an input sequence and assumes its contract
 * (ordered by creation time, a permutation of the two inputs) as a
 * precondition. The upload's URL is likewise an input.
 */
module ActivityReport {
  import opened Wrappers
  import opened ActivityRecord
  import opened Permutations

  /** The header row `writeheader` writes: one cell per field name. */
  function HeaderCells(fields: seq<Field>): seq<Cell> {
    seq(|fields|, k requires 0 <= k < |fields| => Text(FieldName(fields[k])))
  }

  /** The row `writerow` writes for a record: its value per field, '' for a field it lacks. */
  function RowCells(fields: seq<Field>, row: Row): seq<Cell> {
    seq(|fields|, k requires 0 <= k < |fields| => if fields[k] in row then row[fields[k]] else Text(""))
  }

  /** Reading a row back against the header: each column's value under the column's name. */
  function ReadRow(fields: seq<Field>, cells: seq<Cell>): Row
    requires |cells| == |fields|
  {
    if fields == [] then map[]
    else ReadRow(fields[..|fields| - 1], cells[..|cells| - 1])[fields[|fields| - 1] := cells[|cells| - 1]]
  }

  /** A record whose fields are exactly the header's is written without loss: reading its row back yields it. */
  lemma {:induction false} RowCellsRoundTrip(fields: seq<Field>, row: Row)
    requires row.Keys == set f | f in fields
    ensures ReadRow(fields, RowCells(fields, row)) == row
  {
    ReadRowPrefix(fields, row, |fields|);
    assert fields[..|fields|] == fields;
    assert RowCells(fields, row)[..|fields|] == RowCells(fields, row);
  }

  /** Reading back the first n columns yields the record restricted to the first n field names. */
  lemma {:induction false} ReadRowPrefix(fields: seq<Field>, row: Row, n: nat)
    requires row.Keys == set f | f in fields
    requires n <= |fields|
    ensures ReadRow(fields[..n], RowCells(fields, row)[..n]) == map f | f in fields[..n] :: row[f]
  {
    if n > 0 {
      ReadRowPrefix(fields, row, n - 1);
      assert fields[..n][..n - 1] == fields[..n - 1];
      assert RowCells(fields, row)[..n][..n - 1] == RowCells(fields, row)[..n - 1];
      RestrictionGrows(row, fields, n - 1);
    }
  }

  /** Restricting a map to one more key of a list adds that key's entry. */
  lemma RestrictionGrows<K, V>(m: map<K, V>, keys: seq<K>, n: nat)
    requires forall k :: k in keys ==> k in m
    requires n < |keys|
    ensures (map k | k in keys[..n + 1] :: m[k]) == (map k | k in keys[..n] :: m[k])[keys[n] := m[keys[n]]]
  {
    assert forall k :: k in keys[..n + 1] <==> k in keys[..n] || k == keys[n];
  }

  /**
   * `csv.DictWriter` over a StringIO buffer: the rows written so far, as
   * sequences of cells. Quoting and the text encoding are not modelled.
   */
  class CsvWriter {
    const fieldnames: seq<Field>
    var rows: seq<seq<Cell>>

    constructor (fieldnames: seq<Field>)
      ensures this.fieldnames == fieldnames && rows == []
    {
      this.fieldnames := fieldnames;
      rows := [];
    }

    /** `writeheader`. */
    method WriteHeader()
      modifies this
      ensures rows == old(rows) + [HeaderCells(fieldnames)]
    {
      rows := rows + [HeaderCells(fieldnames)];
    }

    /**
     * `writerow`: a record with a key outside the field names is refused (the
     * writer raises ValueError and writes nothing); otherwise its row is appended.
     */
    method WriteRow(row: Row) returns (ok: bool)
      modifies this
      ensures ok <==> row.Keys <= set f | f in fieldnames
      ensures rows == if ok then old(rows) + [RowCells(fieldnames, row)] else old(rows)
    {
      ok := row.Keys <= set f | f in fieldnames;
      if ok {
        rows := rows + [RowCells(fieldnames, row)];
      }
    }
  }

  /** The merge key: a record's created_on. */
  function CreationTime(row: Row): Timestamp {
    if CreatedOn in row && row[CreatedOn].Moment? then row[CreatedOn].at else 0
  }

  /** Records ordered by creation time, as the queries' order_by and the merge deliver them. */
  ghost predicate OrderedByCreation(rows: seq<Row>) {
    forall a, b :: 0 <= a < b < |rows| ==> CreationTime(rows[a]) <= CreationTime(rows[b])
  }

  /** The contract of the merge: the output is ordered by creation time and holds exactly the records of both inputs. */
  ghost predicate IsMergeOf(merged: seq<Row>, xs: seq<Row>, ys: seq<Row>) {
    OrderedByCreation(merged) && multiset(merged) == multiset(xs) + multiset(ys)
  }

  /** The formatted bounty stream. */
  function BountyRows(bounties: seq<Bounty>): seq<Row> {
    seq(|bounties|, k requires 0 <= k < |bounties| => FormatBounty(bounties[k]).row)
  }

  /** The formatted tip stream. */
  function TipRows(tips: seq<Tip>): seq<Row> {
    seq(|tips|, k requires 0 <= k < |tips| => FormatTip(tips[k]).row)
  }

  /** The data rows written for a sequence of records. */
  function RenderRows(fields: seq<Field>, rows: seq<Row>): seq<seq<Cell>> {
    seq(|rows|, k requires 0 <= k < |rows| => RowCells(fields, rows[k]))
  }

  /** The creation time in a written data row (its second column). */
  function RowTime(cells: seq<Cell>): Timestamp {
    if |cells| > 1 && cells[1].Moment? then cells[1].at else 0
  }

  /**
   * A stream of formatted records: each has exactly the header's fields, and
   * its created_on is a datetime.
   */
  ghost predicate AllFormatted(rows: seq<Row>) {
    forall x :: x in rows ==> x.Keys == FieldSet && CreatedOn in x && x[CreatedOn].Moment?
  }

  /** Every formatted bounty has exactly the header's fields and a datetime created_on. */
  lemma BountyRowsFormatted(bounties: seq<Bounty>)
    ensures AllFormatted(BountyRows(bounties))
  {
    forall x | x in BountyRows(bounties)
      ensures x.Keys == FieldSet && CreatedOn in x && x[CreatedOn].Moment?
    {
      var k :| 0 <= k < |bounties| && BountyRows(bounties)[k] == x;
      FormatBountySpec(bounties[k]);
    }
  }

  /** Every formatted tip has exactly the header's fields and a datetime created_on. */
  lemma TipRowsFormatted(tips: seq<Tip>)
    ensures AllFormatted(TipRows(tips))
  {
    forall x | x in TipRows(tips)
      ensures x.Keys == FieldSet && CreatedOn in x && x[CreatedOn].Moment?
    {
      var k :| 0 <= k < |tips| && TipRows(tips)[k] == x;
      FormatTipSpec(tips[k]);
    }
  }

  /** Every record the merge delivers comes from one of its inputs, so merging formatted streams gives formatted records. */
  lemma MergedRowsAreFormatted(merged: seq<Row>, xs: seq<Row>, ys: seq<Row>)
    requires AllFormatted(xs) && AllFormatted(ys)
    requires IsMergeOf(merged, xs, ys)
    ensures AllFormatted(merged)
  {
    forall x | x in merged
      ensures x.Keys == FieldSet && CreatedOn in x && x[CreatedOn].Moment?
    {
      assert x in multiset(merged);
      assert x in multiset(xs) || x in multiset(ys);
    }
  }

  /** Writing two sequences of records one after the other writes their rows one after the other. */
  lemma RenderRowsConcat(fields: seq<Field>, xs: seq<Row>, ys: seq<Row>)
    ensures RenderRows(fields, xs + ys) == RenderRows(fields, xs) + RenderRows(fields, ys)
  {
  }

  /** Rows written for a permutation of the records are a permutation of the rows written for them. */
  lemma RenderRowsPermutation(fields: seq<Field>, xs: seq<Row>, ys: seq<Row>)
    requires multiset(xs) == multiset(ys)
    ensures multiset(RenderRows(fields, xs)) == multiset(RenderRows(fields, ys))
  {
    var render := (row: Row) => RowCells(fields, row);
    MapPermutation(render, xs, ys);
    assert RenderRows(fields, xs) == MapSeq(render, xs);
    assert RenderRows(fields, ys) == MapSeq(render, ys);
  }

  /** The data rows hold each row of both input streams exactly once, whatever order the merge chose. */
  lemma ReportHoldsEveryRecordOnce(fields: seq<Field>, merged: seq<Row>, xs: seq<Row>, ys: seq<Row>)
    requires multiset(merged) == multiset(xs) + multiset(ys)
    ensures multiset(RenderRows(fields, merged)) == multiset(RenderRows(fields, xs)) + multiset(RenderRows(fields, ys))
  {
    RenderRowsPermutation(fields, merged, xs + ys);
    RenderRowsConcat(fields, xs, ys);
  }

  /** The data rows of an ordered stream of formatted records are in chronological order, and each carries its record's creation time. */
  lemma ReportRowsChronological(merged: seq<Row>)
    requires AllFormatted(merged) && OrderedByCreation(merged)
    ensures forall a :: 0 <= a < |merged| ==> RenderRows(Fieldnames, merged)[a][1] == Moment(CreationTime(merged[a]))
    ensures forall a, b :: 0 <= a < b < |merged| ==> RowTime(RenderRows(Fieldnames, merged)[a]) <= RowTime(RenderRows(Fieldnames, merged)[b])
  {
    assert Fieldnames[1] == CreatedOn;
    forall a | 0 <= a < |merged|
      ensures RenderRows(Fieldnames, merged)[a][1] == Moment(CreationTime(merged[a]))
    {
      assert merged[a] in merged;
    }
  }

  /** Two different records with different creation times can be merged in one order only. */
  lemma MergeOfTwo(merged: seq<Row>, x: Row, y: Row)
    requires CreationTime(x) < CreationTime(y)
    requires OrderedByCreation(merged) && multiset(merged) == multiset{x, y}
    ensures merged == [x, y]
  {
    assert |merged| == |multiset(merged)| == 2;
    assert merged == [merged[0], merged[1]];
    assert multiset{merged[0], merged[1]} == multiset{x, y};
    assert merged[0] in multiset{x, y};
    if merged[0] == y {
      assert false;
    }
    assert merged[0] == x;
    assert multiset{merged[1]} == multiset{y};
  }

  /** One bounty or one tip formats to a stream of one record. */
  lemma SingleStreams(b: Bounty, t: Tip)
    ensures BountyRows([b]) == [FormatBounty(b).row] && TipRows([t]) == [FormatTip(t).row]
  {
  }

  /** Merging a one-record stream with a later one-record stream writes the earlier record first. */
  lemma EarlierRecordFirst(merged: seq<Row>, x: Row, y: Row)
    requires CreationTime(x) < CreationTime(y)
    requires IsMergeOf(merged, [y], [x])
    ensures merged == [x, y]
    ensures RenderRows(Fieldnames, merged) == [RowCells(Fieldnames, x), RowCells(Fieldnames, y)]
  {
    MergeOfTwo(merged, x, y);
  }

  /** A bounty created after a tip is written after it: the report of one of each is header, tip, bounty. */
  lemma TipBeforeLaterBounty(b: Bounty, t: Tip, merged: seq<Row>)
    requires t.createdOn < b.web3Created
    requires IsMergeOf(merged, BountyRows([b]), TipRows([t]))
    ensures merged == [FormatTip(t).row, FormatBounty(b).row]
    ensures RenderRows(Fieldnames, merged) == [RowCells(Fieldnames, FormatTip(t).row), RowCells(Fieldnames, FormatBounty(b).row)]
  {
    FormatBountySpec(b);
    FormatTipSpec(t);
    SingleStreams(b, t);
    EarlierRecordFirst(merged, FormatTip(t).row, FormatBounty(b).row);
  }

  /** The name the report is uploaded under. */
  function ReportName(start: string, end: string, now: string): string {
    "activity_report_" + start + "_" + end + "_generated_on_" + now + ".csv"
  }

  /** With dates in YYYY-MM-DD form, the upload name gives back the date range and the generation time. */
  lemma ReportNameDecodes(start: string, end: string, now: string)
    requires |start| == 10 && |end| == 10
    ensures var name := ReportName(start, end, now);
            && |name| == 55 + |now|
            && name[..16] == "activity_report_"
            && name[16..26] == start && name[27..37] == end
            && name[51..|name| - 4] == now
            && name[|name| - 4..] == ".csv"
  {
  }

  /** The mail subject. */
  function ReportSubject(start: string, end: string): string {
    "Gitcoin Activity report from " + start + " to " + end
  }

  /** The HTML mail body: one link whose text is its own URL. */
  function LinkBody(url: string): string {
    "<a href=\"" + url + "\">" + url + "</a>"
  }

  /** The link's target and its text are both the upload URL. */
  lemma LinkBodyDecodes(url: string)
    ensures var body := LinkBody(url);
            && |body| == 15 + 2 * |url|
            && body[9..9 + |url|] == url
            && body[11 + |url|..11 + 2 * |url|] == url
  {
  }

  /** The console line after a report was sent. */
  function SentMessage(start: string, end: string, contact: string): string {
    "Sent activity report from " + start + " to " + end + " to " + contact
  }

  /** The console line when nothing was reported. */
  function NoActivityMessage(start: string, end: string): string {
    "No activity from " + start + " to " + end + " to report"
  }

  /** The object stored in blob storage. */
  datatype Upload = Upload(name: string, contents: seq<seq<Cell>>)

  /** The mail sent: sender, recipient, subject, plain-text body and HTML body. */
  datatype Mail = Mail(sender: string, recipient: string, subject: string, text: string, html: string)

  /** What one run produces: the CSV rows, the has_rows flag, the upload and mail if any, and the final console line. */
  datatype Report = Report(rows: seq<seq<Cell>>, hasRows: bool, upload: Option<Upload>, mail: Option<Mail>, status: string)

  /**
   * The loop of `handle`: every merged record is written, in order, and
   * `has_rows` is set as soon as one is. Every record has only header fields,
   * so the writer refuses none.
   */
  method WriteRecords(csv: CsvWriter, records: seq<Row>) returns (hasRows: bool)
    requires forall x :: x in records ==> x.Keys <= set f | f in csv.fieldnames
    modifies csv
    ensures csv.rows == old(csv.rows) + RenderRows(csv.fieldnames, records)
    ensures hasRows <==> |records| > 0
  {
    hasRows := false;
    for k := 0 to |records|
      invariant csv.rows == old(csv.rows) + RenderRows(csv.fieldnames, records[..k])
      invariant hasRows <==> k > 0
    {
      hasRows := true;
      var ok := csv.WriteRow(records[k]);
      assert records[k] in records;
      assert ok;
      assert records[..k + 1] == records[..k] + [records[k]];
      RenderRowsConcat(csv.fieldnames, records[..k], [records[k]]);
    }
    assert records[..|records|] == records;
  }

  /** The CSV document `handle` builds for a stream of records: the header row, then one row per record. */
  function ReportRows(records: seq<Row>): seq<seq<Cell>> {
    [HeaderCells(Fieldnames)] + RenderRows(Fieldnames, records)
  }

  /** The document written for a merge of two formatted streams: one data row per record, chronological, each record once. */
  lemma ReportRowsOfMerge(merged: seq<Row>, xs: seq<Row>, ys: seq<Row>)
    requires AllFormatted(xs) && AllFormatted(ys)
    requires IsMergeOf(merged, xs, ys)
    ensures |ReportRows(merged)| == 1 + |xs| + |ys|
    ensures ReportRows(merged)[0] == HeaderCells(Fieldnames)
    ensures forall a, b :: 1 <= a < b < |ReportRows(merged)| ==> RowTime(ReportRows(merged)[a]) <= RowTime(ReportRows(merged)[b])
    ensures multiset(ReportRows(merged)[1..]) ==
            multiset(RenderRows(Fieldnames, xs)) + multiset(RenderRows(Fieldnames, ys))
  {
    assert |merged| == |multiset(merged)| == |xs| + |ys|;
    MergedRowsAreFormatted(merged, xs, ys);
    ReportHoldsEveryRecordOnce(Fieldnames, merged, xs, ys);
    ReportRowsChronological(merged);
    assert ReportRows(merged)[1..] == RenderRows(Fieldnames, merged);
  }

  /**
   * The CSV part of `handle`: a writer over an empty buffer with the header's
   * field list, the header row, then the loop over the records.
   */
  method WriteRows(records: seq<Row>) returns (rows: seq<seq<Cell>>, hasRows: bool)
    requires AllFormatted(records)
    ensures rows == ReportRows(records)
    ensures hasRows <==> |records| > 0
  {
    var csv := new CsvWriter(Fieldnames);
    csv.WriteHeader();
    hasRows := WriteRecords(csv, records);
    rows := csv.rows;
  }

  /**
   * `handle` from the two formatted streams on: the document, then either the
   * upload and the mail or the "no activity" line. `start`, `end` and `now`
   * are the formatted dates, `url` is what the upload returns and `contact`
   * the configured contact address.
   */
  method WriteReport(formattedBounties: seq<Row>, formattedTips: seq<Row>, merged: seq<Row>,
                     start: string, end: string, now: string, url: string, contact: string)
    returns (r: Report)
    requires AllFormatted(formattedBounties) && AllFormatted(formattedTips)
    requires IsMergeOf(merged, formattedBounties, formattedTips)
    ensures r.rows == ReportRows(merged)
    ensures |r.rows| == 1 + |formattedBounties| + |formattedTips|
    ensures r.hasRows <==> |formattedBounties| + |formattedTips| > 0
    ensures forall a, b :: 1 <= a < b < |r.rows| ==> RowTime(r.rows[a]) <= RowTime(r.rows[b])
    ensures multiset(r.rows[1..]) ==
            multiset(RenderRows(Fieldnames, formattedBounties)) + multiset(RenderRows(Fieldnames, formattedTips))
    ensures r.upload == if r.hasRows then Some(Upload(ReportName(start, end, now), r.rows)) else None
    ensures r.mail == if r.hasRows then Some(Mail(contact, contact, ReportSubject(start, end), "", LinkBody(url))) else None
    ensures r.status == if r.hasRows then SentMessage(start, end, contact) else NoActivityMessage(start, end)
  {
    MergedRowsAreFormatted(merged, formattedBounties, formattedTips);
    ReportRowsOfMerge(merged, formattedBounties, formattedTips);
    var rows, hasRows := WriteRows(merged);
    if hasRows {
      var name := ReportName(start, end, now);
      r := Report(rows, true, Some(Upload(name, rows)),
                  Some(Mail(contact, contact, ReportSubject(start, end), "", LinkBody(url))),
                  SentMessage(start, end, contact));
    } else {
      r := Report(rows, false, None, None, NoActivityMessage(start, end));
    }
  }

  /**
   * `handle`: the bounties and tips of the date range, each stream in
   * creation order as the queries return it, are formatted, merged and
   * reported. `merged` is what the merge delivers for the two formatted
   * streams.
   */
  method Handle(bounties: seq<Bounty>, tips: seq<Tip>, merged: seq<Row>,
                start: string, end: string, now: string, url: string, contact: string)
    returns (r: Report)
    requires OrderedByCreation(BountyRows(bounties)) && OrderedByCreation(TipRows(tips))
    requires IsMergeOf(merged, BountyRows(bounties), TipRows(tips))
    ensures r.rows == ReportRows(merged)
    ensures |r.rows| == 1 + |bounties| + |tips|
    ensures r.hasRows <==> |bounties| + |tips| > 0
    ensures forall a, b :: 1 <= a < b < |r.rows| ==> RowTime(r.rows[a]) <= RowTime(r.rows[b])
    ensures multiset(r.rows[1..]) ==
            multiset(RenderRows(Fieldnames, BountyRows(bounties))) + multiset(RenderRows(Fieldnames, TipRows(tips)))
    ensures r.upload == if r.hasRows then Some(Upload(ReportName(start, end, now), r.rows)) else None
    ensures r.mail == if r.hasRows then Some(Mail(contact, contact, ReportSubject(start, end), "", LinkBody(url))) else None
    ensures r.status == if r.hasRows then SentMessage(start, end, contact) else NoActivityMessage(start, end)
  {
    var formattedBounties, formattedTips := BountyRows(bounties), TipRows(tips);
    BountyRowsFormatted(bounties);
    TipRowsFormatted(tips);
    r := WriteReport(formattedBounties, formattedTips, merged, start, end, now, url, contact);
  }
}
