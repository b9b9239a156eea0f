/**
 * Normalisation of the two kinds of activity (bounties and tips) into the flat
 * record the CSV report is written from: `format_bounty` and `format_tip`.
 *
 * A record is a Python dict with 14 fixed string keys. Here the keys are the
 * enumeration Field, each with its header name (FieldName), and a record is a
 * map from Field to Cell. Values computed by model code this file does not
 * see (the natural amount, the ETH and USDT values) are carried as opaque
 * cells and only copied.
 */
module ActivityRecord {
  import opened Wrappers
  import opened GithubRepo

  /** A datetime, as a count of some fixed unit; only its order matters here. */
  type Timestamp = int

  /** One value of a record: a string, a datetime, a number, or None. */
  datatype Cell = Text(text: string) | Moment(at: Timestamp) | Quantity(amount: real) | Blank

  /** The keys of a formatted record. */
  datatype Field =
    | Type | CreatedOn | LastActivity | Amount | Denomination | AmountEth | AmountUsdt
    | FromAddress | ClaimeeAddress | Repo | FromUsername | ClaimeeGithubUsername | Status | Comments

  /** The dict key of each field, which is also its CSV column name. */
  function FieldName(f: Field): string {
    match f
    case Type => "type"
    case CreatedOn => "created_on"
    case LastActivity => "last_activity"
    case Amount => "amount"
    case Denomination => "denomination"
    case AmountEth => "amount_eth"
    case AmountUsdt => "amount_usdt"
    case FromAddress => "from_address"
    case ClaimeeAddress => "claimee_address"
    case Repo => "repo"
    case FromUsername => "from_username"
    case ClaimeeGithubUsername => "claimee_github_username"
    case Status => "status"
    case Comments => "comments"
  }

  /** A formatted record: field to value. */
  type Row = map<Field, Cell>

  /** The field list the CSV writer is built with, in column order. */
  const Fieldnames: seq<Field> := [
    Type, CreatedOn, LastActivity, Amount, Denomination, AmountEth,
    AmountUsdt, FromAddress, ClaimeeAddress, Repo, FromUsername,
    ClaimeeGithubUsername, Status, Comments]

  /**
   * The same fields as Fieldnames, written out as a set so that the solver
   * can decide membership without searching the sequence. FieldSetIsHeader
   * proves the two agree; Fieldnames stays the one ordered definition.
   */
  const FieldSet: set<Field> := {
    Type, CreatedOn, LastActivity, Amount, Denomination, AmountEth,
    AmountUsdt, FromAddress, ClaimeeAddress, Repo, FromUsername,
    ClaimeeGithubUsername, Status, Comments}

  /** Every field has a column: the header's fields are exactly FieldSet, which holds every field. */
  lemma FieldSetIsHeader()
    ensures |Fieldnames| == 14 && FieldSet == set f | f in Fieldnames
    ensures forall f: Field :: f in Fieldnames
  {
    forall f: Field ensures f in Fieldnames {
      assert Fieldnames[FieldIndex(f)] == f;
    }
  }

  /** FieldSet holds every field. */
  lemma HeaderFields()
    ensures forall f: Field :: f in FieldSet
  {
    FieldSetIsHeader();
  }

  /** The column of each field in the header. */
  function FieldIndex(f: Field): (k: nat)
    ensures k < |Fieldnames| && Fieldnames[k] == f
  {
    match f
    case Type => 0
    case CreatedOn => 1
    case LastActivity => 2
    case Amount => 3
    case Denomination => 4
    case AmountEth => 5
    case AmountUsdt => 6
    case FromAddress => 7
    case ClaimeeAddress => 8
    case Repo => 9
    case FromUsername => 10
    case ClaimeeGithubUsername => 11
    case Status => 12
    case Comments => 13
  }

  /** No field is listed twice in the header. */
  lemma FieldnamesDistinct()
    ensures forall a, b :: 0 <= a < b < |Fieldnames| ==> Fieldnames[a] != Fieldnames[b]
  {
    forall a, b | 0 <= a < b < |Fieldnames| ensures Fieldnames[a] != Fieldnames[b] {
      assert FieldIndex(Fieldnames[a]) == a by { ColumnIndex(a); }
      assert FieldIndex(Fieldnames[b]) == b by { ColumnIndex(b); }
    }
  }

  /** FieldIndex inverts the header. */
  lemma ColumnIndex(k: nat)
    requires k < |Fieldnames|
    ensures FieldIndex(Fieldnames[k]) == k
  {
  }

  /** The header's column names are the command's field list, in its order. */
  lemma HeaderNames()
    ensures seq(|Fieldnames|, k requires 0 <= k < |Fieldnames| => FieldName(Fieldnames[k])) == [
      "type", "created_on", "last_activity", "amount", "denomination", "amount_eth",
      "amount_usdt", "from_address", "claimee_address", "repo", "from_username",
      "claimee_github_username", "status", "comments"]
  {
  }

  /** The attributes of a bounty that the report reads. */
  datatype Bounty = Bounty(
    web3Created: Timestamp,
    modifiedOn: Timestamp,
    naturalValue: Cell,
    tokenName: string,
    valueInEth: Cell,
    valueInUsdt: Cell,
    ownerAddress: string,
    claimeeAddress: string,
    githubUrl: string,
    ownerGithubUsername: Option<string>,
    claimeeGithubUsername: Option<string>,
    status: string)

  /** The attributes of a tip that the report reads; a tip need not name a GitHub URL. */
  datatype Tip = Tip(
    createdOn: Timestamp,
    modifiedOn: Timestamp,
    naturalValue: Cell,
    tokenName: string,
    valueInEth: Cell,
    valueInUsdt: Cell,
    githubUrl: Option<string>,
    fromEmail: string,
    status: string)

  /** A formatted record and the warning printed while formatting it, if any. */
  datatype Formatted = Formatted(row: Row, warning: Option<string>)

  /** The value `format_bounty` puts under each key, given the repo value it computed. */
  function BountyValue(b: Bounty, repo: string, f: Field): Cell {
    match f
    case Type => Text("bounty")
    case CreatedOn => Moment(b.web3Created)
    case LastActivity => Moment(b.modifiedOn)
    case Amount => b.naturalValue
    case Denomination => Text(b.tokenName)
    case AmountEth => b.valueInEth
    case AmountUsdt => b.valueInUsdt
    case FromAddress => Text(b.ownerAddress)
    case ClaimeeAddress => Text(b.claimeeAddress)
    case Repo => Text(repo)
    case FromUsername => Text(OrEmpty(b.ownerGithubUsername))
    case ClaimeeGithubUsername => Text(OrEmpty(b.claimeeGithubUsername))
    case Status => Text(b.status)
    case Comments => Text("")
  }

  /** The dict `format_bounty` builds: every field, with its value. */
  function BountyRow(b: Bounty, repo: string): (row: Row)
    ensures row.Keys == FieldSet
  {
    map f | f in FieldSet :: BountyValue(b, repo, f)
  }

  /** `format_bounty`: the bounty's dict, with the repo extracted from its URL. */
  function FormatBounty(b: Bounty): (f: Formatted)
    ensures f.row.Keys == FieldSet
  {
    var repo := ExtractGithubRepo(b.githubUrl);
    Formatted(BountyRow(b, repo.repo), repo.warning)
  }

  /** The repo of a tip: extracted from its URL when it has a non-empty one, '' otherwise. */
  function TipRepo(url: Option<string>): Extraction {
    if url.Some? && url.value != "" then ExtractGithubRepo(url.value) else Extraction("", None)
  }

  /** The value `format_tip` puts under each key, given the repo value it computed. */
  function TipValue(t: Tip, repo: string, f: Field): Cell {
    match f
    case Type => Text("tip")
    case CreatedOn => Moment(t.createdOn)
    case LastActivity => Moment(t.modifiedOn)
    case Amount => t.naturalValue
    case Denomination => Text(t.tokenName)
    case AmountEth => t.valueInEth
    case AmountUsdt => t.valueInUsdt
    case FromAddress => Text("")
    case ClaimeeAddress => Text("")
    case Repo => Text(repo)
    case FromUsername => Text(t.fromEmail)
    case ClaimeeGithubUsername => Text("")
    case Status => Text(t.status)
    case Comments => Text("")
  }

  /** The dict `format_tip` builds: every field, with its value. */
  function TipRow(t: Tip, repo: string): (row: Row)
    ensures row.Keys == FieldSet
  {
    map f | f in FieldSet :: TipValue(t, repo, f)
  }

  /** `format_tip`: the tip's dict, with the repo taken from its URL when there is one. */
  function FormatTip(t: Tip): (f: Formatted)
    ensures f.row.Keys == FieldSet
  {
    var repo := TipRepo(t.githubUrl);
    Formatted(TipRow(t, repo.repo), repo.warning)
  }

  /** Both formatters produce exactly the header's fields, so every record fills every column. */
  lemma FormattersShareHeader(b: Bounty, t: Tip)
    ensures FormatBounty(b).row.Keys == FormatTip(t).row.Keys == FieldSet
    ensures forall f: Field :: f in FormatBounty(b).row && f in FormatTip(t).row
  {
    HeaderFields();
  }

  /**
   * A bounty record: tagged "bounty", comments empty, usernames never None
   * (a missing username becomes '').
   */
  lemma FormatBountySpec(b: Bounty)
    ensures var row := FormatBounty(b).row;
            && row[Type] == Text("bounty")
            && row[Comments] == Text("")
            && row[CreatedOn] == Moment(b.web3Created)
            && row[FromUsername].Text? && row[ClaimeeGithubUsername].Text?
            && (b.ownerGithubUsername.None? ==> row[FromUsername] == Text(""))
            && (b.claimeeGithubUsername.None? ==> row[ClaimeeGithubUsername] == Text(""))
  {
    var repo := ExtractGithubRepo(b.githubUrl).repo;
    assert FormatBounty(b).row == BountyRow(b, repo);
    BountyRowSpec(b, repo);
  }

  /** The fixed and copied fields of a bounty's dict, whatever its repo. */
  lemma BountyRowSpec(b: Bounty, repo: string)
    ensures var row := BountyRow(b, repo);
            && row[Type] == Text("bounty")
            && row[Comments] == Text("")
            && row[CreatedOn] == Moment(b.web3Created)
            && row[Repo] == Text(repo)
            && row[FromUsername] == Text(OrEmpty(b.ownerGithubUsername))
            && row[ClaimeeGithubUsername] == Text(OrEmpty(b.claimeeGithubUsername))
  {
    HeaderFields();
  }

  /**
   * The repo of a bounty is what the extraction yields, '' only for an empty
   * URL, and a warning is printed exactly when the URL does not match the
   * pattern.
   */
  lemma FormatBountyRepo(b: Bounty)
    ensures FormatBounty(b).row[Repo] == Text(ExtractGithubRepo(b.githubUrl).repo)
    ensures FormatBounty(b).row[Repo] == Text("") <==> b.githubUrl == ""
    ensures FormatBounty(b).warning.Some? <==> !exists p: nat, i: nat, j: nat :: MatchesWith(b.githubUrl, p, i, j)
  {
    var repo := ExtractGithubRepo(b.githubUrl).repo;
    BountyRowSpec(b, repo);
    ExtractGithubRepoCorrect(b.githubUrl);
  }

  /**
   * A tip record: tagged "tip", no addresses, no claimee username, no
   * comments, and the tipper's email as from_username.
   */
  lemma FormatTipSpec(t: Tip)
    ensures var row := FormatTip(t).row;
            && row[Type] == Text("tip")
            && row[CreatedOn] == Moment(t.createdOn)
            && row[FromAddress] == row[ClaimeeAddress] == Text("")
            && row[ClaimeeGithubUsername] == row[Comments] == Text("")
            && row[FromUsername] == Text(t.fromEmail)
  {
    var repo := TipRepo(t.githubUrl).repo;
    assert FormatTip(t).row == TipRow(t, repo);
    TipRowSpec(t, repo);
  }

  /** The fixed and copied fields of a tip's dict, whatever its repo. */
  lemma TipRowSpec(t: Tip, repo: string)
    ensures var row := TipRow(t, repo);
            && row[Type] == Text("tip")
            && row[CreatedOn] == Moment(t.createdOn)
            && row[FromAddress] == row[ClaimeeAddress] == Text("")
            && row[ClaimeeGithubUsername] == row[Comments] == Text("")
            && row[FromUsername] == Text(t.fromEmail)
            && row[Repo] == Text(repo)
  {
    HeaderFields();
  }

  /**
   * The repo of a tip is '' exactly when the tip has no GitHub URL or an
   * empty one; otherwise it is what the extraction yields, and only then can
   * a warning be printed.
   */
  lemma FormatTipRepo(t: Tip)
    ensures FormatTip(t).row[Repo] == Text("") <==> t.githubUrl.None? || t.githubUrl.value == ""
    ensures t.githubUrl.Some? && t.githubUrl.value != "" ==>
              FormatTip(t).row[Repo] == Text(ExtractGithubRepo(t.githubUrl.value).repo)
    ensures FormatTip(t).warning.Some? ==> t.githubUrl.Some? && t.githubUrl.value != ""
  {
    var repo := TipRepo(t.githubUrl);
    TipRowSpec(t, repo.repo);
    assert repo.repo == "" <==> t.githubUrl.None? || t.githubUrl.value == "";
  }

  /** The two kinds of record can never be confused: their type tags differ. */
  lemma BountyAndTipRowsDiffer(b: Bounty, t: Tip)
    ensures FormatBounty(b).row != FormatTip(t).row
  {
    FormatBountySpec(b);
    FormatTipSpec(t);
  }
}
