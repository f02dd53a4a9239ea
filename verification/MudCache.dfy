/**
 The MUD profile cache: a lookup serves a stored profile while it is fresh, refetches it when it
 has expired, and falls back to the stale profile when the fetch or the parse fails.
 */
module MudCache {
  import opened Prelude
  import opened Models
  import opened MudJson
  import MudParser

  /** Text questions answered by foreign code: URLs and addresses. */
  datatype TextRules = TextRules(isUrl: string -> bool, addressText: MudParser.AddressText)

  datatype Row = Row(data: MudData, createdAt: Instant, expiration: Instant)

  type MudTable = map<string, Row>

  /** What the network gave: nothing, something that is no MUD file, or a decoded file. */
  datatype Fetched = FetchFailed | NotJson | File(file: MudFile)

  /** One lookup's readings of the clock, and what its fetch would give. */
  datatype Visit = Visit(now: Instant, parsedAt: Instant, savedAt: Instant, fetched: Fetched)

  datatype MudFailure = MudFileInvalid | FetchError | JsonError | ParseFailure(problem: MudParser.ParseError)

  /** 2060-01-31T00:00:00Z, the expiration of every custom profile. */
  const CUSTOM_EXPIRATION: Instant := 2_842_732_800_000_000_000

  predicate IsHttps(text: TextRules, url: string) {
    text.isUrl(url) && "https://" <= url
  }

  function NewProfile(text: TextRules, url: string, v: Visit): Result<MudData, MudFailure> {
    match v.fetched
    case FetchFailed => Failure(FetchError)
    case NotJson => Failure(JsonError)
    case File(file) =>
      match MudParser.Parsed(text.addressText, url, file, v.parsedAt)
      case Failure(problem) => Failure(ParseFailure(problem))
      case Success(data) => Success(data)
  }

  predicate Fresh(table: MudTable, url: string, now: Instant) {
    url in table && table[url].expiration > now
  }

  /** A lookup's result, the table it leaves, and whether it went to the network. */
  datatype Lookup = Lookup(result: Result<MudData, MudFailure>, table: MudTable, contacted: bool)

  /** `get_or_fetch_mud`. */
  function GetOrFetch(text: TextRules, table: MudTable, url: string, v: Visit): Lookup {
    if Fresh(table, url, v.now) then Lookup(Success(table[url].data), table, false)
    else if !IsHttps(text, url) then Lookup(Failure(MudFileInvalid), table, false)
    else
      match NewProfile(text, url, v)
      case Failure(e) => Lookup(if url in table then Success(table[url].data) else Failure(e), table, true)
      case Success(parsed) =>
        var data := if url in table then parsed.(aclOverride := table[url].data.aclOverride) else parsed;
        Lookup(Success(data), table[url := Row(data, v.savedAt, data.expiration)], true)
  }

  function CustomProfile(url: string, lastUpdate: string, overrides: seq<Acl>): MudData {
    MudData(url, None, lastUpdate, None, None, None, None, CUSTOM_EXPIRATION, [], overrides)
  }

  // ---------------------------------------------------------------- what every lookup keeps

  /** A stored key is an https URL, or a name that is no URL with the 2060 expiration. */
  ghost predicate KeysOk(text: TextRules, table: MudTable) {
    forall url :: url in table ==>
      || (text.isUrl(url) && "https://" <= url)
      || (!text.isUrl(url) && table[url].expiration == CUSTOM_EXPIRATION)
  }

  /** A row's key and expiration are those inside its profile. */
  ghost predicate RowsAgree(table: MudTable) {
    forall url :: url in table ==> table[url].data.url == url && table[url].data.expiration == table[url].expiration
  }

  lemma NewProfileFacts(text: TextRules, url: string, v: Visit)
    requires NewProfile(text, url, v).Success?
    ensures var data := NewProfile(text, url, v).value;
            data.url == url && v.parsedAt + HOUR <= data.expiration <= v.parsedAt + 168 * HOUR
  {
    MudParser.ParsedExpiry(text.addressText, url, v.fetched.file, v.parsedAt);
  }

  /** A lookup never drops or renames a row, never alters an override, and never breaks the key discipline. */
  lemma LookupKeeps(text: TextRules, table: MudTable, url: string, v: Visit)
    ensures var after := GetOrFetch(text, table, url, v).table;
            && (KeysOk(text, table) ==> KeysOk(text, after))
            && (RowsAgree(table) ==> RowsAgree(after))
            && (forall u :: u in table ==> u in after && after[u].data.aclOverride == table[u].data.aclOverride)
            && (forall u :: u in table && u != url ==> after[u] == table[u])
            && (forall u :: u in after && u != url ==> u in table)
  {
    if NewProfile(text, url, v).Success? {
      NewProfileFacts(text, url, v);
    }
  }

  /**
   The network is asked exactly for URLs that begin with "https://" and have no fresh row. Any other
   key leaves the table alone, and fails when it is not stored.
   */
  lemma OnlyHttpsIsFetched(text: TextRules, table: MudTable, url: string, v: Visit)
    ensures var l := GetOrFetch(text, table, url, v);
            var https := text.isUrl(url) && "https://" <= url;
            && (l.contacted <==> https && (url in table ==> table[url].expiration <= v.now))
            && (!https ==> l.table == table)
            && (!https && url !in table ==> l.result == Failure(MudFileInvalid))
  {
  }

  /** An https URL that is not stored loads if and only if what is fetched is a well-formed MUD file; else the cause is reported. */
  lemma UnknownUrlLoadsIff(text: TextRules, table: MudTable, url: string, v: Visit)
    requires text.isUrl(url) && "https://" <= url && url !in table
    ensures var l := GetOrFetch(text, table, url, v);
            && (l.result.Success? <==> v.fetched.File? && MudParser.WellFormed(v.fetched.file))
            && (v.fetched.FetchFailed? ==> l.result == Failure(FetchError))
            && (v.fetched.NotJson? ==> l.result == Failure(JsonError))
            && (v.fetched.File? && l.result.Failure? ==> l.result.error.ParseFailure?)
            && (l.result.Success? ==> l.result.value.url == url && l.result.value.aclOverride == [])
  {
    if v.fetched.File? {
      MudParser.ParseSucceedsIff(text.addressText, url, v.fetched.file, v.parsedAt);
    }
    if NewProfile(text, url, v).Success? {
      MudParser.ParsedHeader(text.addressText, url, v.fetched.file, v.parsedAt);
    }
  }

  /** A successful lookup leaves a row behind that holds the profile it returned; a failed one writes nothing. */
  lemma LookupLeavesRow(text: TextRules, table: MudTable, url: string, v: Visit)
    ensures var l := GetOrFetch(text, table, url, v);
            if l.result.Success? then url in l.table && l.table[url].data == l.result.value else l.table == table
  {
  }

  /** A lookup writes at most the row it is about. */
  lemma LookupWritesOneRow(text: TextRules, table: MudTable, url: string, v: Visit)
    ensures var after := GetOrFetch(text, table, url, v).table;
            after == table || (url in after && after == table[url := after[url]])
  {
  }

  /** Every row written by a fetch expires between 1 and 168 hours after it was parsed. */
  lemma FetchedRowExpiry(text: TextRules, table: MudTable, url: string, v: Visit, u: string)
    requires var after := GetOrFetch(text, table, url, v).table; u in after && (u !in table || after[u] != table[u])
    ensures var row := GetOrFetch(text, table, url, v).table[u];
            v.parsedAt + HOUR <= row.expiration <= v.parsedAt + 168 * HOUR && row.createdAt == v.savedAt
  {
    NewProfileFacts(text, url, v);
  }

  /**
   Exactly when a stored key can fail to load, whatever the network does: it has expired and may not
   be fetched. Before 2060 the key discipline rules that out.
   */
  lemma StoredLookupFailsIff(text: TextRules, table: MudTable, url: string, v: Visit)
    requires url in table
    ensures GetOrFetch(text, table, url, v).result.Failure? <==>
            table[url].expiration <= v.now && !(text.isUrl(url) && "https://" <= url)
    ensures KeysOk(text, table) && v.now < CUSTOM_EXPIRATION ==> GetOrFetch(text, table, url, v).result.Success?
  {
  }

  // ---------------------------------------------------------------- the refresh job

  /** Each URL's visit during one run of the job. */
  type Visits = string -> Visit

  /** The listing's URLs whose expiration lies before the instant at which the job checks them. */
  function Selected(table: MudTable, listing: seq<string>, checkedAt: string -> Instant): (urls: seq<string>)
    requires forall u :: u in listing ==> u in table
    ensures forall u :: u in urls <==> u in listing && table[u].expiration < checkedAt(u)
    ensures Distinct(listing) ==> Distinct(urls)
  {
    if listing == [] then []
    else
      var rest := Selected(table, listing[1..], checkedAt);
      if table[listing[0]].expiration < checkedAt(listing[0]) then [listing[0]] + rest else rest
  }

  predicate Distinct(urls: seq<string>) {
    forall i, j :: 0 <= i < j < |urls| ==> urls[i] != urls[j]
  }

  datatype Refresh = Refresh(ok: bool, table: MudTable, contacted: seq<string>)

  /** `update_mud_urls`: looks up each URL in turn and stops at the first failure. */
  function RefreshAll(text: TextRules, table: MudTable, urls: seq<string>, visits: Visits): Refresh
    decreases |urls|
  {
    if urls == [] then Refresh(true, table, [])
    else
      var l := GetOrFetch(text, table, urls[0], visits(urls[0]));
      var contacted := if l.contacted then [urls[0]] else [];
      if l.result.Failure? then Refresh(false, l.table, contacted)
      else
        var rest := RefreshAll(text, l.table, urls[1..], visits);
        rest.(contacted := contacted + rest.contacted)
  }

  lemma {:induction false} RefreshKeeps(text: TextRules, table: MudTable, urls: seq<string>, visits: Visits)
    ensures var after := RefreshAll(text, table, urls, visits).table;
            && (KeysOk(text, table) ==> KeysOk(text, after))
            && (RowsAgree(table) ==> RowsAgree(after))
            && (forall u :: u in table ==> u in after && after[u].data.aclOverride == table[u].data.aclOverride)
            && (forall u :: u in table && u !in urls ==> after[u] == table[u])
            && (forall u :: u in after && u !in urls ==> u in table)
    decreases |urls|
  {
    if urls != [] {
      var l := GetOrFetch(text, table, urls[0], visits(urls[0]));
      LookupKeeps(text, table, urls[0], visits(urls[0]));
      RefreshKeeps(text, l.table, urls[1..], visits);
    }
  }

  /** The selected URLs are stored, expired at their visit, and visited before 2060. */
  ghost predicate Due(table: MudTable, urls: seq<string>, visits: Visits) {
    && Distinct(urls)
    && forall u :: u in urls ==> u in table && table[u].expiration <= visits(u).now < CUSTOM_EXPIRATION
  }

  lemma LookupDependsOnRow(text: TextRules, a: MudTable, b: MudTable, url: string, v: Visit)
    requires url in a && url in b && a[url] == b[url]
    ensures GetOrFetch(text, a, url, v).table[url] == GetOrFetch(text, b, url, v).table[url]
  {
  }

  /** One step of the job succeeds, goes to the network, and leaves the URLs still to come as they were. */
  lemma DueStep(text: TextRules, table: MudTable, urls: seq<string>, visits: Visits)
    requires KeysOk(text, table) && Due(table, urls, visits) && urls != []
    ensures var l := GetOrFetch(text, table, urls[0], visits(urls[0]));
            && l.result.Success? && l.contacted && KeysOk(text, l.table) && Due(l.table, urls[1..], visits)
            && urls[0] !in urls[1..] && (forall u :: u in urls[1..] ==> u in table && l.table[u] == table[u])
  {
    StoredLookupFailsIff(text, table, urls[0], visits(urls[0]));
    LookupKeeps(text, table, urls[0], visits(urls[0]));
  }

  /** Every URL that is due is asked for on the network, in order, and none of them fails. */
  lemma {:induction false} RefreshContacts(text: TextRules, table: MudTable, urls: seq<string>, visits: Visits)
    requires KeysOk(text, table) && Due(table, urls, visits)
    ensures RefreshAll(text, table, urls, visits).ok && RefreshAll(text, table, urls, visits).contacted == urls
    decreases |urls|
  {
    if urls != [] {
      DueStep(text, table, urls, visits);
      RefreshContacts(text, GetOrFetch(text, table, urls[0], visits(urls[0])).table, urls[1..], visits);
    }
  }

  /** A stored key that cannot be loaded: expired, and nothing that may be fetched. */
  predicate Stuck(text: TextRules, table: MudTable, url: string, v: Visit) {
    url in table && table[url].expiration <= v.now && !IsHttps(text, url)
  }

  /** How many URLs the job gets through before the first stuck one. */
  function Reached(text: TextRules, table: MudTable, urls: seq<string>, visits: Visits): (n: nat)
    ensures n <= |urls|
    ensures forall i :: 0 <= i < n ==> !Stuck(text, table, urls[i], visits(urls[i]))
    ensures n < |urls| ==> Stuck(text, table, urls[n], visits(urls[n]))
  {
    if urls == [] || Stuck(text, table, urls[0], visits(urls[0])) then 0
    else 1 + Reached(text, table, urls[1..], visits)
  }

  /** Refreshing writes no row of a key that is no https URL, so it neither frees nor jams any of them. */
  lemma {:induction false} ReachedSame(text: TextRules, a: MudTable, b: MudTable, urls: seq<string>, visits: Visits)
    requires a.Keys == b.Keys && forall u :: u in a && !IsHttps(text, u) ==> a[u] == b[u]
    ensures Reached(text, a, urls, visits) == Reached(text, b, urls, visits)
    decreases |urls|
  {
    if urls != [] {
      ReachedSame(text, a, b, urls[1..], visits);
    }
  }

  lemma LookupTwice(text: TextRules, table: MudTable, url: string, v: Visit)
    requires url in table
    ensures var after := GetOrFetch(text, table, url, v).table;
            GetOrFetch(text, after, url, v).table[url] == after[url]
  {
  }

  /** The row of `u` after a job that got through `n` URLs. */
  ghost predicate RowAfter(text: TextRules, table: MudTable, after: MudTable, done: seq<string>, visits: Visits, u: string)
    requires u in table
  {
    u in after && after[u] == if u in done then GetOrFetch(text, table, u, visits(u)).table[u] else table[u]
  }

  /** What the first lookup wrote is what the job leaves, or starts from, for every other URL. */
  lemma RowAfterStep(text: TextRules, table: MudTable, after: MudTable, url: string, rest: seq<string>, visits: Visits,
                     u: string)
    requires url in table && u in table
    requires var l := GetOrFetch(text, table, url, visits(url));
             u in l.table && RowAfter(text, l.table, after, rest, visits, u)
    ensures RowAfter(text, table, after, [url] + rest, visits, u)
  {
    var l := GetOrFetch(text, table, url, visits(url));
    if u == url {
      LookupTwice(text, table, url, visits(url));
    } else {
      assert l.table[u] == table[u];
      LookupDependsOnRow(text, l.table, table, u, visits(u));
    }
  }

  /** A lookup of a stored key that is not stuck goes through, and leaves keys and stuck rows alone. */
  lemma PassedLookup(text: TextRules, table: MudTable, url: string, v: Visit)
    requires url in table && !Stuck(text, table, url, v)
    ensures var l := GetOrFetch(text, table, url, v);
            && l.result.Success? && l.table.Keys == table.Keys
            && (forall u :: u in table && !IsHttps(text, u) ==> l.table[u] == table[u])
  {
  }

  /**
   The job stops exactly at the first stuck URL. Each URL before it ends as if it had been refreshed
   alone, and every other row is untouched.
   */
  lemma {:induction false} RefreshRows(text: TextRules, table: MudTable, urls: seq<string>, visits: Visits)
    requires forall u :: u in urls ==> u in table
    ensures var r := RefreshAll(text, table, urls, visits);
            var n := Reached(text, table, urls, visits);
            && (r.ok <==> n == |urls|) && r.table.Keys == table.Keys
            && (forall u :: u in table ==> RowAfter(text, table, r.table, urls[..n], visits, u))
    decreases |urls|
  {
    if urls != [] && !Stuck(text, table, urls[0], visits(urls[0])) {
      var l := GetOrFetch(text, table, urls[0], visits(urls[0]));
      var rest, n := urls[1..], Reached(text, table, urls[1..], visits);
      PassedLookup(text, table, urls[0], visits(urls[0]));
      ReachedSame(text, table, l.table, rest, visits);
      RefreshRows(text, l.table, rest, visits);
      HeadAndRest(urls, n);
      forall u | u in table ensures RowAfter(text, table, RefreshAll(text, table, urls, visits).table, urls[..n + 1], visits, u) {
        RowAfterStep(text, table, RefreshAll(text, l.table, rest, visits).table, urls[0], rest[..n], visits, u);
      }
    }
  }

  /** Each URL that is due is refreshed as if it were alone. */
  lemma RefreshRow(text: TextRules, table: MudTable, urls: seq<string>, visits: Visits, u: string)
    requires KeysOk(text, table) && Due(table, urls, visits) && u in urls
    ensures var after := RefreshAll(text, table, urls, visits).table;
            u in after && after[u] == GetOrFetch(text, table, u, visits(u)).table[u]
  {
    RefreshContacts(text, table, urls, visits);
    RefreshRows(text, table, urls, visits);
    assert urls[..|urls|] == urls;
    assert RowAfter(text, table, RefreshAll(text, table, urls, visits).table, urls, visits, u);
  }

  lemma RefreshedExpiry(text: TextRules, table: MudTable, urls: seq<string>, visits: Visits, u: string)
    requires KeysOk(text, table) && Due(table, urls, visits) && u in urls && NewProfile(text, u, visits(u)).Success?
    ensures var after := RefreshAll(text, table, urls, visits).table;
            u in after && after[u].expiration >= visits(u).parsedAt + HOUR
  {
    RefreshRow(text, table, urls, visits, u);
    NewProfileFacts(text, u, visits(u));
  }

  lemma JobOkIff(text: TextRules, table: MudTable, urls: seq<string>, visits: Visits)
    requires forall u :: u in urls ==> u in table
    ensures RefreshAll(text, table, urls, visits).ok <==> Reached(text, table, urls, visits) == |urls|
  {
    RefreshRows(text, table, urls, visits);
  }

  /**
   The hourly job: every URL it selects is really refetched, it never fails before 2060, and when
   all fetches and parses succeed no row is left that expires before the job began.
   */
  lemma JobRefetches(text: TextRules, table: MudTable, listing: seq<string>, checkedAt: string -> Instant, visits: Visits,
                     start: Instant)
    requires KeysOk(text, table) && Distinct(listing) && (forall u :: u in table <==> u in listing)
    requires forall u :: u in listing ==>
               start <= checkedAt(u) <= visits(u).now <= visits(u).parsedAt && visits(u).now < CUSTOM_EXPIRATION
    ensures var urls := Selected(table, listing, checkedAt);
            var r := RefreshAll(text, table, urls, visits);
            && r.ok && r.contacted == urls
            && ((forall u :: u in urls ==> NewProfile(text, u, visits(u)).Success?) ==>
                  forall u :: u in r.table ==> r.table[u].expiration >= start)
  {
    var urls := Selected(table, listing, checkedAt);
    var r := RefreshAll(text, table, urls, visits);
    RefreshContacts(text, table, urls, visits);
    RefreshKeeps(text, table, urls, visits);
    if forall u :: u in urls ==> NewProfile(text, u, visits(u)).Success? {
      forall u | u in r.table ensures r.table[u].expiration >= start {
        if u in urls {
          RefreshedExpiry(text, table, urls, visits, u);
        }
      }
    }
  }

  // ---------------------------------------------------------------- runs of lookups and refreshes

  datatype ReadOp = One(url: string, visit: Visit) | Job(urls: seq<string>, visits: Visits)

  function RunReads(text: TextRules, table: MudTable, ops: seq<ReadOp>): MudTable
    decreases |ops|
  {
    if ops == [] then table
    else
      var after := match ops[0]
        case One(url, visit) => GetOrFetch(text, table, url, visit).table
        case Job(urls, visits) => RefreshAll(text, table, urls, visits).table;
      RunReads(text, after, ops[1..])
  }

  /** Over any run of lookups and refreshes every stored override survives unchanged. */
  lemma {:induction false} OverridesSurvive(text: TextRules, table: MudTable, ops: seq<ReadOp>)
    ensures var after := RunReads(text, table, ops);
            forall u :: u in table ==> u in after && after[u].data.aclOverride == table[u].data.aclOverride
    ensures RowsAgree(table) ==> RowsAgree(RunReads(text, table, ops))
    decreases |ops|
  {
    if ops != [] {
      match ops[0]
      case One(url, visit) =>
        LookupKeeps(text, table, url, visit);
        OverridesSurvive(text, GetOrFetch(text, table, url, visit).table, ops[1..]);
      case Job(urls, visits) =>
        RefreshKeeps(text, table, urls, visits);
        OverridesSurvive(text, RefreshAll(text, table, urls, visits).table, ops[1..]);
    }
  }
}
