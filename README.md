# Activity report: a Dafny model

This project models the core of the `activity_report` management command of the
Gitcoin web application. The command collects the bounties and tips created in
a date range and merges them by creation time. It writes them as a CSV report,
uploads the report and mails a link to it.

The model covers three parts of that command:

- **Repository extraction** (`GithubRepo`, `github_repo.dfy`). The pattern
  `github.com/[\w-]+/([\w-]+)` is searched for without an anchor. The first
  group of the leftmost match is returned. When nothing matches, the URL itself
  is returned with a console warning. The search is modelled explicitly,
  position by position (`MatchAt`, `Search`). It is proved equal to a reference
  reading of the pattern (`MatchesWith`, `LeftmostGreedyMatch`).
  - `.` is the regex wildcard: it matches any character except a newline. So
    `githubXcom/owner/repo` matches too (`WildcardHost`).
  - `\w` is the Python 2 byte-string class `[A-Za-z0-9_]`.
- **Record normalisation** (`ActivityRecord`, `activity_record.dfy`). A bounty
  or a tip becomes a flat record: a map from the 14 fields of the report
  header to cells. The fields are an enumeration (`Field`); `FieldName` gives
  each one its dict key, which is also its CSV column name. A cell is a
  string, a datetime, an opaque number, or None. Each formatter is a value
  per field (`BountyValue`, `TipValue`), in the order of the dict literal.
  - Usernames that are None become `''`.
  - Tips have empty addresses and an empty claimee username.
  - A tip's repo is `''` when the tip has no GitHub URL.
- **Report assembly** (`ActivityReport`, `activity_report.dfy`). This is the
  body of `handle`, written imperatively over a `CsvWriter` object that
  stands for the StringIO buffer and its `csv.DictWriter`.
  - `WriteRows` creates the writer and writes the header row first.
  - `WriteRecords` is the `for` loop: it writes one row per merged record and
    sets `has_rows`.
  - `WriteReport` decides on that flag alone between uploading and mailing,
    or printing "No activity".
  - `Handle` formats the two streams and hands them on.
  - The document a run builds is specified by `ReportRows`.

The merge (`itermerge`) is library code that is not part of this model. Its
contract is a precondition of `Handle` (`IsMergeOf`): the output is ordered by
`created_on` and holds exactly the records of the two formatted streams. Under
that contract the model proves:

- the report has 1 + n rows for n records;
- its data rows are in chronological order;
- every bounty and tip appears in it exactly once;
- `writerow` never refuses a record.

`permutations.dfy` holds general facts about multisets used by these proofs;
`wrappers.dfy` holds `Option` and Python's `value or ''`.

## Model

| member | source | states |
|---|---|---|
| `GithubRepo.RunLength` | app/dashboard/management/commands/activity_report.py:40 | a greedy `[\w-]+` run: every character in it is in `[\w-]`, and the run stops at the end of the string or at a character outside the class |
| `GithubRepo.MatchAt` | app/dashboard/management/commands/activity_report.py:40 | what the pattern captures when a match starts at a given position; a capture is always a non-empty `[\w-]` string |
| `GithubRepo.MatchAtSound` | app/dashboard/management/commands/activity_report.py:40 | a capture of `MatchAt` is a real match of the pattern. Its owner run is the only one possible and its repo run is the longest possible (greedy `+`) |
| `GithubRepo.MatchAtUnique` | app/dashboard/management/commands/activity_report.py:40 | every match at a position has the owner run `RunLength` gives (the `/` that follows it cannot be in `[\w-]`) and a repo run no longer than the greedy one |
| `GithubRepo.MatchAtComplete` | app/dashboard/management/commands/activity_report.py:40 | whenever the pattern can match at a position, `MatchAt` captures there |
| `GithubRepo.MatchAtMaximalRun` | app/dashboard/management/commands/activity_report.py:40 | where the pattern matches and the repo run cannot be extended, `MatchAt` captures exactly that run |
| `GithubRepo.Search` | app/dashboard/management/commands/activity_report.py:58 | unanchored search: the position found has a match and no earlier position has one; None only when no position has a match |
| `GithubRepo.ExtractGithubRepo` | app/dashboard/management/commands/activity_report.py:57-63 | no warning exactly when the search finds a match, and then the result is that match's non-empty `[\w-]` group; with the warning the result is the URL unchanged, and the warning text is the one printed |
| `GithubRepo.SearchFindsLeftmostGreedy` | app/dashboard/management/commands/activity_report.py:58 | the match the search finds is the leftmost, greedy match of the pattern, and its capture is the repo run of that match |
| `GithubRepo.SearchNoneMeansNoMatch` | app/dashboard/management/commands/activity_report.py:58-59 | when the search finds nothing, no substring of the URL matches the pattern |
| `GithubRepo.ExtractMatched` | app/dashboard/management/commands/activity_report.py:57-63 | when the search finds a match, the extracted repo is the group of the leftmost, greedy match and no warning is printed |
| `GithubRepo.ExtractGithubRepoCorrect` | app/dashboard/management/commands/activity_report.py:57-63 | the warning is absent exactly when some substring matches the pattern. The repo is then the group of the leftmost, greedy match; otherwise the URL is returned unchanged |
| `GithubRepo.ExtractFirstMatch` | app/dashboard/management/commands/activity_report.py:57-63 | a capture at a position with no `github.com/` host part before it is what the extraction returns, with no warning |
| `GithubRepo.ExtractAfterHost` | app/dashboard/management/commands/activity_report.py:57-63 | a string whose only host part is at its end, followed by `<owner>/<repo>`, yields `<repo>` with no warning |
| `GithubRepo.ExtractFromRepositoryUrl` | app/dashboard/management/commands/activity_report.py:57-63 | `https://github.com/<owner>/<repo>` yields `<repo>` with no warning, for every owner and repo made of `[\w-]` |
| `GithubRepo.ExtractFromOtherHost` | app/dashboard/management/commands/activity_report.py:58-61 | `https://example.com/x` comes back unchanged, with the warning |
| `GithubRepo.WildcardHost` | app/dashboard/management/commands/activity_report.py:40 | the unescaped `.` of the pattern matches any character but a newline: `github<c>com/<owner>/<repo>` yields `<repo>` |
| `ActivityRecord.FieldSetIsHeader` | app/dashboard/management/commands/activity_report.py:130-133 | the writer's field list has 14 entries, every field among them; its set is the key set of every formatted record |
| `ActivityRecord.FieldIndex` | app/dashboard/management/commands/activity_report.py:130-133 | each field's column in the writer's field list holds that field |
| `ActivityRecord.FieldnamesDistinct` | app/dashboard/management/commands/activity_report.py:130-133 | no field is listed twice in the writer's field list |
| `ActivityRecord.HeaderNames` | app/dashboard/management/commands/activity_report.py:130-133 | the column names are the command's 14 field names, in its order |
| `ActivityRecord.BountyRow` | app/dashboard/management/commands/activity_report.py:66-81 | the dict `format_bounty` builds has exactly the header's fields as keys |
| `ActivityRecord.FormatBounty` | app/dashboard/management/commands/activity_report.py:65-81 | a formatted bounty has exactly the header's fields as keys |
| `ActivityRecord.TipRow` | app/dashboard/management/commands/activity_report.py:84-99 | the dict `format_tip` builds has exactly the header's fields as keys |
| `ActivityRecord.FormatTip` | app/dashboard/management/commands/activity_report.py:83-99 | a formatted tip has exactly the header's fields as keys |
| `ActivityRecord.FormattersShareHeader` | app/dashboard/management/commands/activity_report.py:65-99 | both formatters produce the same key set, and it holds every field of the CSV header |
| `ActivityRecord.BountyRowSpec` | app/dashboard/management/commands/activity_report.py:66-81 | the bounty dict's type is `bounty`, its comments `''`, its created_on the web3 creation time, its repo the given value, and its usernames the `or ''` of the bounty's |
| `ActivityRecord.FormatBountySpec` | app/dashboard/management/commands/activity_report.py:65-81 | type `bounty`, comments `''`, created_on the web3 creation time. Both usernames are strings, never None, with a missing one giving `''` |
| `ActivityRecord.FormatBountyRepo` | app/dashboard/management/commands/activity_report.py:76 | the repo is the extracted one; it is `''` only for an empty URL; a warning is printed exactly when no substring of the URL matches the pattern |
| `ActivityRecord.TipRowSpec` | app/dashboard/management/commands/activity_report.py:84-99 | the tip dict's type is `tip`, its addresses, claimee username and comments `''`, its from_username the tipper's email and its repo the given value |
| `ActivityRecord.FormatTipSpec` | app/dashboard/management/commands/activity_report.py:83-99 | type `tip`; empty from/claimee addresses, claimee username and comments; from_username is the tipper's email |
| `ActivityRecord.FormatTipRepo` | app/dashboard/management/commands/activity_report.py:94 | a tip's repo is `''` exactly when its GitHub URL is absent or empty, and is the extracted repo otherwise; a warning is possible only for a non-empty URL |
| `ActivityRecord.BountyAndTipRowsDiffer` | app/dashboard/management/commands/activity_report.py:67-85 | a formatted bounty and a formatted tip are never the same record (their type tags differ) |
| `ActivityReport.CsvWriter.constructor` | app/dashboard/management/commands/activity_report.py:129-133 | a new writer over an empty buffer, with the given field list |
| `ActivityReport.CsvWriter.WriteHeader` | app/dashboard/management/commands/activity_report.py:134 | appends the header row, one cell per field name |
| `ActivityReport.CsvWriter.WriteRow` | app/dashboard/management/commands/activity_report.py:139 | a record with a key outside the field list is refused (ValueError) and nothing is written; otherwise one row is appended, with `''` for missing fields |
| `ActivityReport.RowCellsRoundTrip` | app/dashboard/management/commands/activity_report.py:139 | a record whose keys are exactly the field list is written without loss: reading the row back under the header gives the record |
| `ActivityReport.ReadRowPrefix` | app/dashboard/management/commands/activity_report.py:139 | reading back the first n cells of a written row gives the record restricted to the first n fields |
| `ActivityReport.BountyRowsFormatted` | app/dashboard/management/commands/activity_report.py:126 | every formatted bounty has exactly the header's fields and a datetime created_on |
| `ActivityReport.TipRowsFormatted` | app/dashboard/management/commands/activity_report.py:127 | every formatted tip has exactly the header's fields and a datetime created_on |
| `ActivityReport.MergedRowsAreFormatted` | app/dashboard/management/commands/activity_report.py:137 | every record the merge of two formatted streams delivers has exactly the header's fields and a datetime created_on |
| `ActivityReport.RenderRowsPermutation` | app/dashboard/management/commands/activity_report.py:137-139 | writing a permutation of the records writes a permutation of the rows |
| `ActivityReport.ReportHoldsEveryRecordOnce` | app/dashboard/management/commands/activity_report.py:137-139 | the data rows hold each row of both input streams exactly once, whatever order the merge chose |
| `ActivityReport.ReportRowsChronological` | app/dashboard/management/commands/activity_report.py:137-139 | each data row carries its record's created_on in column 2, and the data rows of an ordered stream are ordered by it |
| `ActivityReport.MergeOfTwo` | app/dashboard/management/commands/activity_report.py:137 | two records with different creation times can be merged in one order only |
| `ActivityReport.EarlierRecordFirst` | app/dashboard/management/commands/activity_report.py:137-139 | merging a one-record stream with a later one-record stream writes the earlier record first |
| `ActivityReport.TipBeforeLaterBounty` | app/dashboard/management/commands/activity_report.py:126-139 | for one tip created before one bounty, the merged stream and the data rows are the tip, then the bounty |
| `ActivityReport.ReportNameDecodes` | app/dashboard/management/commands/activity_report.py:147 | with YYYY-MM-DD dates, the upload name `activity_report_<start>_<end>_generated_on_<now>.csv` gives back start, end and now at fixed positions |
| `ActivityReport.LinkBodyDecodes` | app/dashboard/management/commands/activity_report.py:148 | the HTML body is a link whose target and text are both the upload URL |
| `ActivityReport.WriteRecords` | app/dashboard/management/commands/activity_report.py:136-139 | the loop appends one row per record, in order, to what the writer held, and `has_rows` holds exactly when there was a record |
| `ActivityReport.ReportRowsOfMerge` | app/dashboard/management/commands/activity_report.py:129-139 | the document for a merge of two formatted streams has 1 + n rows, the header first; its data rows are chronological and hold each record once |
| `ActivityReport.WriteRows` | app/dashboard/management/commands/activity_report.py:129-139 | the writer's rows after the header and the loop are the document for the records; `has_rows` holds exactly when there was a record |
| `ActivityReport.WriteReport` | app/dashboard/management/commands/activity_report.py:129-154 | from the formatted streams: the document, its size and order, and `has_rows` iff there was a record. Exactly then the report is uploaded under its generated name and a mail with the subject and the link body goes to the contact address; otherwise only the "No activity" line is printed |
| `ActivityReport.Handle` | app/dashboard/management/commands/activity_report.py:113-154 | the header is the first row, followed by one row per merged record, so 1 + n rows for n bounties and tips. Data rows are chronological and hold each record once. `has_rows` holds iff n > 0. Exactly then the report is uploaded and mailed; otherwise only the "No activity" line is printed |

## Left out

- The database queries (network `mainnet`, current bounties only, the inclusive date range) are not modelled. The bounties and tips are input sequences. The queries' `order_by` is stated as a precondition of `Handle`.
- The body of `itermerge` is not part of this model. Its contract is assumed as a precondition: the output is ordered and is a permutation of the inputs. Stability (which of two records with equal `created_on` comes first) is not assumed, because nothing in the command relies on it.
- S3 upload, URL expiry, and `send_mail` are foreign network calls. The URL the upload returns is a parameter. The upload and the mail are returned as values in `Report`. Their failures, which abort the command, are not modelled.
- Argument parsing (`valid_date`), `strftime` and `datetime.now()` are library and clock calls. The formatted dates and the generation time are opaque string inputs.
- CSV quoting, escaping and the text form of cells (`csv.DictWriter` internals) are library behaviour. Rows are sequences of cells, and the uploaded contents are those rows.
- `get_natural_value`, `value_in_eth` and `value_in_usdt` are computed in model code outside this file, possibly as floats. They are opaque cells that are only copied.
- Python failures on malformed records are not modelled. These include a missing attribute and a `None` bounty URL (which would make `re.search` raise). A bounty's URL is a string here.
- The merge key `x['created_on']` raises KeyError for a record without that field. `CreationTime` gives 0 instead. This case cannot occur for formatted records (`MergedRowsAreFormatted`).
- Console styling is UI output and is not modelled.
- The bucket and the key prefix of the upload (`S3_REPORT_PREFIX`, joined in front of the file name) are deployment settings. `Upload.name` is the file name alone.
- `send_mail`'s `add_bcc=False` is a flag of a foreign call and is not modelled.
- Datetimes are modelled as integers, because only their order is used (the merge key and the CSV column).
- ActivityReport.WriteReport: like `Handle`, its `status` holds only the final console line.
- ActivityReport.Handle: its `status` holds only the final console line. Warnings printed while the lazy merge formats records are returned per record (`Formatted.warning`). Where they fall in the console output depends on the merge's pull order, which is not modelled.
- Normalising the same record twice gives the same result because the formatters are functions, so no lemma states it.
