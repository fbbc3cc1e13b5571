/** The five commands (`gen`, `print`, `diff`, `clear`, `sync`) and the
    wrapper every one of them runs in: resolve the token, load or create
    every configured domain in sorted order, then run the command on each
    domain.  What the run does to the world is a trace of events: the calls
    it makes on the provider and the lines it prints.  What the provider
    answers is a parameter. */
module Commands {
  import opened Records
  import opened Lists
  import opened Strings
  import opened Sorting
  import opened Generate
  import opened Fetch
  import opened Diff
  import opened Output

  datatype Command = Gen | PrintZone | DiffZone | Clear | Sync

  /** One thing the run does outside itself, in the order it does it. */
  datatype Event =
    | LoadDomain(name: string)
    | CreateDomain(name: string, ip: string)
    | GetRecords(name: string)
    | DestroyRecord(record: Record)
    | CreateRecord(record: Record)
    | Print(line: string)

  /** How the run ends: normally, by an exception that escapes, or by an
      explicit exit with a status code. */
  datatype Status = Completed | Crashed(error: Error) | Exited(code: int)

  datatype Outcome = Outcome(events: seq<Event>, status: Status)

  /** The input document: the options (including `token`), the `defaults`
      rows, and the domain mapping, given as its keys and, for each key,
      the domain's rows or null. */
  datatype Document = Document(
    options: map<string, string>,
    defaults: seq<string>,
    names: seq<string>,
    domains: map<string, Option<seq<string>>>)

  predicate Distinct(s: seq<string>) {
    forall p, q :: 0 <= p < q < |s| ==> s[p] != s[q]
  }

  /** `names` lists the keys of the domain mapping, each once. */
  predicate WellFormed(doc: Document) {
    && Distinct(doc.names)
    && (forall n <- doc.names :: n in doc.domains)
    && (forall n <- doc.domains :: n in doc.names)
  }

  /** What the provider answers: the domains that already exist, and the
      records `get_records` returns for each domain (none for a domain it
      does not list). */
  datatype Provider = Provider(existing: set<string>, zones: map<string, seq<Record>>)

  function Listing(provider: Provider, name: string): seq<Record> {
    if name in provider.zones then provider.zones[name] else []
  }

  /** The address a domain is created with when it cannot be loaded. */
  const PlaceholderIp := "127.0.0.1"

  const NoTokenMessage := "Error: no API token specified"

  /** The command-line token if it is non-empty, otherwise the document's
      `token` option, otherwise nothing. */
  function ResolveToken(override: Option<string>, options: map<string, string>): string {
    if override.Some? && override.value != "" then override.value
    else if "token" in options then options["token"]
    else ""
  }

  /** A non-empty command-line token wins over the document; without one the
      document's token is used. */
  lemma TokenPrecedence(override: Option<string>, options: map<string, string>)
    ensures override.Some? && override.value != "" ==> ResolveToken(override, options) == override.value
    ensures (override.None? || override.value == "") && "token" in options ==> ResolveToken(override, options) == options["token"]
    ensures ResolveToken(override, options) == "" <==>
              (override.None? || override.value == "") && ("token" !in options || options["token"] == "")
  {
  }

  lemma StrLeIsTotalPreorder()
    ensures TotalPreorder(StrLe)
  {
    forall a, b ensures StrLe(a, b) || StrLe(b, a) {
      StrLeTotal(a, b);
    }
    forall a, b, c ensures StrLe(a, b) && StrLe(b, c) ==> StrLe(a, c) {
      StrLeTransitive(a, b, c);
    }
  }

  /** `sorted(DOMAINS)`: the domain names in ascending order. */
  function DomainNames(doc: Document): (names: seq<string>)
    ensures multiset(names) == multiset(doc.names)
    ensures SortedBy(names, StrLe)
  {
    StrLeIsTotalPreorder();
    SortBy(doc.names, StrLe)
  }

  /** Every domain is visited once, in strictly ascending order of name. */
  lemma DomainNamesAscending(doc: Document)
    requires WellFormed(doc)
    ensures forall n :: n in DomainNames(doc) <==> n in doc.domains
    ensures forall p, q :: 0 <= p < q < |DomainNames(doc)| ==> StrLt(DomainNames(doc)[p], DomainNames(doc)[q])
  {
    var names := DomainNames(doc);
    forall n ensures n in names <==> n in doc.names {
      assert n in names <==> n in multiset(names);
      assert n in doc.names <==> n in multiset(doc.names);
    }
    DistinctCounts(doc.names);
    forall p, q | 0 <= p < q < |names| ensures names[p] != names[q] {
      RepeatCounts(names, p, q);
    }
  }

  /** In a list without repeats every element occurs at most once. */
  lemma {:induction false} DistinctCounts(s: seq<string>)
    requires Distinct(s)
    ensures forall x :: multiset(s)[x] <= 1
  {
    if s != [] {
      var init := s[..|s| - 1];
      assert s == init + [s[|s| - 1]];
      assert Distinct(init);
      DistinctCounts(init);
      assert s[|s| - 1] !in init;
    }
  }

  /** An element found at two positions occurs at least twice. */
  lemma RepeatCounts(s: seq<string>, p: nat, q: nat)
    requires p < q < |s|
    ensures s[p] == s[q] ==> multiset(s)[s[p]] >= 2
  {
    assert s == s[..q] + [s[q]] + s[q + 1..];
    assert s[p] == s[..q][p];
    assert s[p] in multiset(s[..q]);
  }

  /** What `load_domains` does for one name: try to load the domain, and
      create it at the placeholder address when that fails. */
  function LoadOne(name: string, existing: set<string>): seq<Event> {
    [LoadDomain(name)] + if name in existing then [] else [CreateDomain(name, PlaceholderIp)]
  }

  function LoadEvents(names: seq<string>, existing: set<string>): (events: seq<Event>)
    ensures |events| >= |names|
  {
    if names == [] then []
    else LoadEvents(names[..|names| - 1], existing) + LoadOne(names[|names| - 1], existing)
  }

  /** The names of the domains loaded, in the order of the load attempts. */
  function LoadedNames(events: seq<Event>): seq<string> {
    if events == [] then []
    else LoadedNames(events[..|events| - 1])
         + if events[|events| - 1].LoadDomain? then [events[|events| - 1].name] else []
  }

  lemma LoadedNamesAppend(a: seq<Event>, b: seq<Event>)
    ensures LoadedNames(a + b) == LoadedNames(a) + LoadedNames(b)
    decreases |b|
  {
    if b == [] {
      assert a + b == a;
    } else {
      assert (a + b)[..|a + b| - 1] == a + b[..|b| - 1];
      assert (a + b)[|a + b| - 1] == b[|b| - 1];
      LoadedNamesAppend(a, b[..|b| - 1]);
    }
  }

  /** The load attempts follow the names one by one. */
  lemma {:induction false} LoadOrder(names: seq<string>, existing: set<string>)
    ensures LoadedNames(LoadEvents(names, existing)) == names
  {
    if names != [] {
      var init := names[..|names| - 1];
      var last := names[|names| - 1];
      var before, one := LoadEvents(init, existing), LoadOne(last, existing);
      assert LoadEvents(names, existing) == before + one;
      LoadOrder(init, existing);
      LoadedNamesAppend(before, one);
      LoadOneNames(last, existing);
      assert names == init + [last];
    }
  }

  /** Besides the load attempts, the only events are creations, at the
      placeholder address, of configured domains that did not exist. */
  lemma {:induction false} LoadKinds(names: seq<string>, existing: set<string>)
    ensures forall e <- LoadEvents(names, existing) ::
              e.LoadDomain? || (e.CreateDomain? && e.name in names && e.name !in existing && e.ip == PlaceholderIp)
  {
    if names != [] {
      var init := names[..|names| - 1];
      var last := names[|names| - 1];
      LoadKinds(init, existing);
      assert forall n <- init :: n in names;
      forall e <- LoadEvents(names, existing)
        ensures e.LoadDomain? || (e.CreateDomain? && e.name in names && e.name !in existing && e.ip == PlaceholderIp)
      {
        if e !in LoadEvents(init, existing) {
          assert e in LoadOne(last, existing);
        }
      }
    }
  }

  lemma LoadOneNames(name: string, existing: set<string>)
    ensures LoadedNames(LoadOne(name, existing)) == [name]
  {
    var load := [LoadDomain(name)];
    assert load[..0] == [];
    assert LoadedNames(load) == [name];
    if name !in existing {
      var both := load + [CreateDomain(name, PlaceholderIp)];
      assert both[..1] == load;
      assert LoadedNames(both) == LoadedNames(load);
    }
  }

  /** `load_domains`: for each name in order, load the domain or create it. */
  method LoadDomains(names: seq<string>, existing: set<string>) returns (events: seq<Event>)
    ensures events == LoadEvents(names, existing)
  {
    events := [];
    var i := 0;
    while i < |names|
      invariant 0 <= i <= |names|
      invariant events == LoadEvents(names[..i], existing)
    {
      events := events + [LoadDomain(names[i])];
      if names[i] !in existing {
        events := events + [CreateDomain(names[i], PlaceholderIp)];
      }
      assert names[..i + 1][..i] == names[..i];
      i := i + 1;
    }
    assert names[..i] == names;
  }

  function Prints(lines: seq<string>): (events: seq<Event>)
    ensures |events| == |lines|
    ensures forall k :: 0 <= k < |lines| ==> events[k] == Print(lines[k])
  {
    seq(|lines|, k requires 0 <= k < |lines| => Print(lines[k]))
  }

  function Destroys(rs: seq<Record>): (events: seq<Event>)
    ensures |events| == |rs|
    ensures forall k :: 0 <= k < |rs| ==> events[k] == DestroyRecord(rs[k])
  {
    seq(|rs|, k requires 0 <= k < |rs| => DestroyRecord(rs[k]))
  }

  function Creates(rs: seq<Record>): (events: seq<Event>)
    ensures |events| == |rs|
    ensures forall k :: 0 <= k < |rs| ==> events[k] == CreateRecord(rs[k])
  {
    seq(|rs|, k requires 0 <= k < |rs| => CreateRecord(rs[k]))
  }

  /** What `print_records(records, prefix)` prints. */
  function Listed(prefix: string, rs: seq<Record>): seq<Event> {
    Prints(Lines(prefix, rs))
  }

  /** The loop of `print_records`: one line per record, in order. */
  method PrintRecords(rs: seq<Record>, prefix: string) returns (events: seq<Event>)
    ensures events == Listed(prefix, rs)
    ensures forall k :: 0 <= k < |rs| ==> events[k] == Print(Line(prefix, rs[k]))
  {
    events := [];
    for i := 0 to |rs|
      invariant events == Listed(prefix, rs[..i])
    {
      ListedStep(prefix, rs, i);
      events := events + [Print(Line(prefix, rs[i]))];
    }
    ListedAt(prefix, rs);
  }

  lemma ListedStep(prefix: string, rs: seq<Record>, i: nat)
    requires i < |rs|
    ensures Listed(prefix, rs[..i + 1]) == Listed(prefix, rs[..i]) + [Print(Line(prefix, rs[i]))]
    ensures Listed(prefix, rs[..|rs|]) == Listed(prefix, rs)
  {
    assert rs[..i + 1] == rs[..i] + [rs[i]];
    assert rs[..|rs|] == rs;
    ListedSnoc(prefix, rs[..i], rs[i]);
  }

  lemma ListedSnoc(prefix: string, rs: seq<Record>, r: Record)
    ensures Listed(prefix, rs + [r]) == Listed(prefix, rs) + [Print(Line(prefix, r))]
  {
    var long := Listed(prefix, rs + [r]);
    var short := Listed(prefix, rs);
    ListedAt(prefix, rs + [r]);
    ListedAt(prefix, rs);
    forall k | 0 <= k < |rs| ensures long[k] == short[k] {
      assert (rs + [r])[k] == rs[k];
    }
    assert long[|rs|] == Print(Line(prefix, r));
  }

  lemma ListedAt(prefix: string, rs: seq<Record>)
    ensures |Listed(prefix, rs)| == |rs|
    ensures forall k :: 0 <= k < |rs| ==> Listed(prefix, rs)[k] == Print(Line(prefix, rs[k]))
  {
  }

  /** The two loops of `sync`: destroy every record to remove, then create
      every record to add. */
  function Applied(c: Changes): seq<Event> {
    Destroys(c.remove) + Creates(c.add)
  }

  method ApplyChanges(c: Changes) returns (events: seq<Event>)
    ensures events == Applied(c)
  {
    events := [];
    for i := 0 to |c.remove|
      invariant events == Destroys(c.remove[..i])
    {
      events := events + [DestroyRecord(c.remove[i])];
    }
    assert c.remove[..|c.remove|] == c.remove;
    for i := 0 to |c.add|
      invariant events == Destroys(c.remove) + Creates(c.add[..i])
    {
      events := events + [CreateRecord(c.add[i])];
    }
    assert c.add[..|c.add|] == c.add;
  }

  /** Every destroy of a sync comes before every create; the destroys remove
      the records in `remove` and the creates add those in `add`, each once
      and in list order. */
  lemma DestroysBeforeCreates(c: Changes)
    ensures var events := Applied(c);
      && |events| == |c.remove| + |c.add|
      && (forall k :: 0 <= k < |c.remove| ==> events[k] == DestroyRecord(c.remove[k]))
      && (forall k :: 0 <= k < |c.add| ==> events[|c.remove| + k] == CreateRecord(c.add[k]))
      && (forall p, q :: 0 <= p < |events| && 0 <= q < |events| && events[p].DestroyRecord? && events[q].CreateRecord? ==> p < q)
  {
    var events := Applied(c);
    forall p | 0 <= p < |events| ensures events[p].DestroyRecord? <==> p < |c.remove| {
      if p >= |c.remove| {
        assert events[p] == Creates(c.add)[p - |c.remove|];
      }
    }
  }

  /** What `diff` prints: nothing when both lists are empty, otherwise the
      domain name, the removals marked `-`, then the additions marked `+`. */
  function Report(name: string, c: Changes): seq<Event> {
    if c.add == [] && c.remove == [] then []
    else [Print(name)] + Listed("-", c.remove) + Listed("+", c.add)
  }

  /** `diff` prints only when something differs, and then prints every
      removal before any addition. */
  lemma ReportShape(name: string, c: Changes)
    ensures Report(name, c) == [] <==> c.add == [] && c.remove == []
    ensures Report(name, c) != [] ==>
      var events := Report(name, c);
      && |events| == 1 + |c.remove| + |c.add|
      && events[0] == Print(name)
      && (forall k :: 0 <= k < |c.remove| ==> events[1 + k] == Print(Line("-", c.remove[k])))
      && (forall k :: 0 <= k < |c.add| ==> events[1 + |c.remove| + k] == Print(Line("+", c.add[k])))
  {
    if c.add != [] || c.remove != [] {
      ReportRemovals(name, c);
      ReportAdditions(name, c);
    }
  }

  /** A report that prints starts with the name and the `-` lines. */
  lemma ReportRemovals(name: string, c: Changes)
    requires c.add != [] || c.remove != []
    ensures var events := Report(name, c);
      && |events| == 1 + |c.remove| + |c.add|
      && events[0] == Print(name)
      && (forall k :: 0 <= k < |c.remove| ==> events[1 + k] == Print(Line("-", c.remove[k])))
  {
    var minus, plus := Listed("-", c.remove), Listed("+", c.add);
    assert Report(name, c) == [Print(name)] + minus + plus;
    ListedAt("-", c.remove);
    ListedAt("+", c.add);
    ThreePart(Print(name), minus, plus);
  }

  /** A report that prints ends with the `+` lines. */
  lemma ReportAdditions(name: string, c: Changes)
    requires c.add != [] || c.remove != []
    ensures var events := Report(name, c);
      && |events| == 1 + |c.remove| + |c.add|
      && (forall k :: 0 <= k < |c.add| ==> events[1 + |c.remove| + k] == Print(Line("+", c.add[k])))
  {
    ReportLength(name, c);
    forall k | 0 <= k < |c.add| ensures Report(name, c)[1 + |c.remove| + k] == Print(Line("+", c.add[k])) {
      AdditionAt(name, c, k);
    }
  }

  lemma ReportLength(name: string, c: Changes)
    requires c.add != [] || c.remove != []
    ensures |Report(name, c)| == 1 + |c.remove| + |c.add|
  {
  }

  lemma AdditionAt(name: string, c: Changes, k: nat)
    requires c.add != [] || c.remove != []
    requires k < |c.add|
    ensures 1 + |c.remove| + k < |Report(name, c)|
    ensures Report(name, c)[1 + |c.remove| + k] == Print(Line("+", c.add[k]))
  {
    ListedOne("+", c.add, k);
    ListedLength("-", c.remove);
    TailAt([Print(name)] + Listed("-", c.remove), Listed("+", c.add), k);
  }

  lemma TailAt<T>(head: seq<T>, tail: seq<T>, k: nat)
    requires k < |tail|
    ensures |head + tail| == |head| + |tail|
    ensures (head + tail)[|head| + k] == tail[k]
  {
  }

  lemma ListedLength(prefix: string, rs: seq<Record>)
    ensures |Listed(prefix, rs)| == |rs|
  {
  }

  lemma ListedOne(prefix: string, rs: seq<Record>, k: nat)
    requires k < |rs|
    ensures |Listed(prefix, rs)| == |rs|
    ensures Listed(prefix, rs)[k] == Print(Line(prefix, rs[k]))
  {
  }

  lemma ThreePart(x: Event, a: seq<Event>, b: seq<Event>)
    ensures |[x] + a + b| == 1 + |a| + |b| && ([x] + a + b)[0] == x
    ensures forall k :: 0 <= k < |a| ==> ([x] + a + b)[1 + k] == a[k]
    ensures forall k :: 0 <= k < |b| ==> ([x] + a + b)[1 + |a| + k] == b[k]
  {
  }

  /** The result of one command on one domain: the events it caused and the
      error that escaped, if one did. */
  datatype Step = Step(events: seq<Event>, failure: Option<Error>)

  /** `fetch_records(domain)`. */
  function Fetched(provider: Provider, name: string): seq<Record> {
    Normalized(Listing(provider, name))
  }

  /** `generate_records(domain)`. */
  function Desired(doc: Document, name: string): Result<seq<Record>>
    requires name in doc.domains
  {
    Generate.Generate(doc.defaults, doc.domains[name], name, doc.options)
  }

  /** `gen`: the domain's name and its generated records, or the error of
      generating them. */
  function GenStep(name: string, desired: Result<seq<Record>>): Step {
    match desired
    case Err(e) => Step([], Some(e))
    case Ok(rs) => Step([Print(name)] + Listed(" ", rs), None)
  }

  /** `print`: the domain's name, then the fetched and normalised records. */
  function PrintStep(name: string, fetched: seq<Record>): Step {
    Step([Print(name), GetRecords(name)] + Listed(" ", fetched), None)
  }

  /** `clear`: destroy every record the provider lists, as listed. */
  function ClearStep(name: string, listing: seq<Record>): Step {
    Step([GetRecords(name)] + Destroys(listing), None)
  }

  /** `diff` (sync false) and `sync` (sync true): generate, fetch, compare,
      then report or apply the changes. */
  function CompareStep(sync: bool, name: string, desired: Result<seq<Record>>, fetched: seq<Record>): Step {
    match desired
    case Err(e) => Step([], Some(e))
    case Ok(ideal) =>
      match DiffSpec(ideal, fetched)
      case Err(e) => Step([GetRecords(name)], Some(e))
      case Ok(c) => Step([GetRecords(name)] + (if sync then Applied(c) else Report(name, c)), None)
  }

  /** The command `cmd` run on one loaded domain. */
  function DomainStep(cmd: Command, doc: Document, provider: Provider, name: string): Step
    requires name in doc.domains
  {
    match cmd
    case Gen => GenStep(name, Desired(doc, name))
    case PrintZone => PrintStep(name, Fetched(provider, name))
    case Clear => ClearStep(name, Listing(provider, name))
    case DiffZone => CompareStep(false, name, Desired(doc, name), Fetched(provider, name))
    case Sync => CompareStep(true, name, Desired(doc, name), Fetched(provider, name))
  }

  /** `sync` on records that compare without error: one fetch, then the
      destroys of the fetched records nothing desired matches, then the
      creates of the desired records nothing fetched matches. */
  lemma SyncApplies(name: string, ideal: seq<Record>, fetched: seq<Record>)
    requires OneToOne(ideal, fetched)
    ensures CompareStep(true, name, Ok(ideal), fetched) ==
              Step([GetRecords(name)] + Destroys(ToRemove(ideal, fetched)) + Creates(ToAdd(ideal, fetched)), None)
  {
    var c := Changes(ToAdd(ideal, fetched), ToRemove(ideal, fetched));
    assert DiffSpec(ideal, fetched) == Ok(c);
    ConcatAssoc([GetRecords(name)], Destroys(c.remove), Creates(c.add));
  }

  lemma ConcatAssoc(a: seq<Event>, b: seq<Event>, c: seq<Event>)
    ensures a + (b + c) == a + b + c
  {
  }

  /** `diff` on records that compare without error prints exactly the report
      of the unmatched records; a double match fails after the fetch. */
  lemma DiffReports(name: string, ideal: seq<Record>, fetched: seq<Record>)
    ensures OneToOne(ideal, fetched) ==>
              CompareStep(false, name, Ok(ideal), fetched) ==
              Step([GetRecords(name)] + Report(name, Changes(ToAdd(ideal, fetched), ToRemove(ideal, fetched))), None)
    ensures !OneToOne(ideal, fetched) ==> CompareStep(false, name, Ok(ideal), fetched) == Step([GetRecords(name)], Some(NotInList))
  {
  }

  /** A `diff` right after a `sync` reports nothing, provided the provider
      stores the created records as they were sent, the first comparison
      succeeded, no two desired records match each other, and no desired
      record is a CNAME to "@" (fetching would rewrite such a record, so it
      would never match its desired form again). */
  lemma SyncThenDiffQuiet(name: string, ideal: seq<Record>, provider: Provider)
    requires OneToOne(ideal, Fetched(provider, name)) && NoTwoMatch(ideal)
    requires forall x <- ideal :: !IsPlaceholder(x)
    ensures var after := Synced(ideal, Fetched(provider, name));
            CompareStep(false, name, Ok(ideal), Fetched(provider.(zones := provider.zones[name := after]), name)) == Step([GetRecords(name)], None)
  {
    var fetched := Fetched(provider, name);
    RefetchSynced(provider, name, ideal);
    SyncConverges(ideal, fetched);
    QuietCompare(name, ideal, Synced(ideal, fetched));
  }

  /** Fetching the synced zone again rewrites nothing when no desired record
      is a placeholder. */
  lemma RefetchSynced(provider: Provider, name: string, ideal: seq<Record>)
    requires forall x <- ideal :: !IsPlaceholder(x)
    ensures var after := Synced(ideal, Fetched(provider, name));
            Fetched(provider.(zones := provider.zones[name := after]), name) == after
  {
    var fetched := Fetched(provider, name);
    var after := Synced(ideal, fetched);
    var provider' := provider.(zones := provider.zones[name := after]);
    assert Listing(provider', name) == after;
    forall x <- fetched ensures !IsPlaceholder(x) {
      var k :| 0 <= k < |fetched| && fetched[k] == x;
    }
    NormalizedFixes(after);
  }

  /** A comparison that finds nothing to change prints nothing. */
  lemma QuietCompare(name: string, ideal: seq<Record>, fetched: seq<Record>)
    requires DiffSpec(ideal, fetched) == Ok(Changes([], []))
    ensures CompareStep(false, name, Ok(ideal), fetched) == Step([GetRecords(name)], None)
  {
    assert Report(name, Changes([], [])) == [];
    assert [GetRecords(name)] + [] == [GetRecords(name)];
  }

  /** `clear` destroys every record the provider lists, raw, in its order. */
  lemma ClearDestroysAll(name: string, listing: seq<Record>)
    ensures var step := ClearStep(name, listing);
            && step.failure.None?
            && |step.events| == 1 + |listing|
            && step.events[0] == GetRecords(name)
            && forall k :: 0 <= k < |listing| ==> step.events[1 + k] == DestroyRecord(listing[k])
  {
    var destroys := Destroys(listing);
    var events := [GetRecords(name)] + destroys;
    assert ClearStep(name, listing).events == events;
    forall k | 0 <= k < |listing| ensures events[1 + k] == DestroyRecord(listing[k]) {
      assert events[1 + k] == destroys[k];
    }
  }

  /** `fetch_records`: copy the provider's listing into a fresh list of
      records and normalise it in place. */
  method FetchRecords(provider: Provider, name: string) returns (records: seq<Record>)
    ensures records == Fetched(provider, name)
  {
    var listing := Listing(provider, name);
    var a := new Record[|listing|](k requires 0 <= k < |listing| => listing[k]);
    assert a[..] == listing;
    NormalizeFetched(a);
    records := a[..];
  }

  /** The body of `diff` and `sync` once the records are generated. */
  method Compare(sync: bool, name: string, desired: Result<seq<Record>>, provider: Provider) returns (step: Step)
    ensures step == CompareStep(sync, name, desired, Fetched(provider, name))
  {
    if desired.Err? {
      return Step([], Some(desired.error));
    }
    var actual := FetchRecords(provider, name);
    var changes := DiffRecords(desired.value, actual);
    if changes.Err? {
      return Step([GetRecords(name)], Some(changes.error));
    }
    var events := Respond(sync, name, changes.value);
    return Step([GetRecords(name)] + events, None);
  }

  /** What `diff` prints or `sync` applies for the computed changes. */
  method Respond(sync: bool, name: string, c: Changes) returns (events: seq<Event>)
    ensures events == if sync then Applied(c) else Report(name, c)
  {
    if sync {
      events := ApplyChanges(c);
    } else if c.add == [] && c.remove == [] {
      events := [];
    } else {
      var removed := PrintRecords(c.remove, "-");
      var added := PrintRecords(c.add, "+");
      events := [Print(name)] + removed + added;
    }
  }

  /** One command on one domain, as the command's body runs it. */
  method RunDomain(cmd: Command, doc: Document, provider: Provider, name: string) returns (step: Step)
    requires name in doc.domains
    ensures step == DomainStep(cmd, doc, provider, name)
  {
    match cmd
    case Gen =>
      var desired := Desired(doc, name);
      if desired.Err? {
        return Step([], Some(desired.error));
      }
      var lines := PrintRecords(desired.value, " ");
      return Step([Print(name)] + lines, None);
    case PrintZone =>
      var actual := FetchRecords(provider, name);
      var lines := PrintRecords(actual, " ");
      return Step([Print(name), GetRecords(name)] + lines, None);
    case Clear =>
      var listing := Listing(provider, name);
      var events := [GetRecords(name)];
      for i := 0 to |listing|
        invariant events == [GetRecords(name)] + Destroys(listing[..i])
      {
        events := events + [DestroyRecord(listing[i])];
      }
      assert listing[..|listing|] == listing;
      return Step(events, None);
    case DiffZone =>
      step := Compare(false, name, Desired(doc, name), provider);
    case Sync =>
      step := Compare(true, name, Desired(doc, name), provider);
  }

  /** Each loaded domain's step, in the order the domains are visited. */
  function Steps(cmd: Command, doc: Document, provider: Provider, names: seq<string>): (steps: seq<Step>)
    requires forall x <- names :: x in doc.domains
    ensures |steps| == |names|
    ensures forall k :: 0 <= k < |names| ==> steps[k] == DomainStep(cmd, doc, provider, names[k])
  {
    seq(|names|, k requires 0 <= k < |names| => DomainStep(cmd, doc, provider, names[k]))
  }

  /** The outcome after the first `n` steps: their events in order, and the
      first error ends the run. */
  function Chain(steps: seq<Step>, n: nat): Outcome
    requires n <= |steps|
  {
    if n == 0 then Outcome([], Completed)
    else
      var before := Chain(steps, n - 1);
      if !before.status.Completed? then before
      else Outcome(before.events + steps[n - 1].events,
                   if steps[n - 1].failure.Some? then Crashed(steps[n - 1].failure.value) else Completed)
  }

  /** Once a step has failed, later steps add nothing. */
  lemma {:induction false} FailureStops(steps: seq<Step>, i: nat, n: nat)
    requires i < n <= |steps|
    requires !Chain(steps, i + 1).status.Completed?
    ensures Chain(steps, n) == Chain(steps, i + 1)
    decreases n
  {
    if n > i + 1 {
      FailureStops(steps, i, n - 1);
    }
  }

  /** The run ends in a crash exactly when some step fails, and it then
      carries the error of the first failing step; otherwise it completes. */
  lemma {:induction false} ChainStatus(steps: seq<Step>, n: nat)
    requires n <= |steps|
    ensures Chain(steps, n).status.Completed? <==> forall k :: 0 <= k < n ==> steps[k].failure.None?
    ensures Chain(steps, n).status.Crashed? <==> exists k :: 0 <= k < n && steps[k].failure.Some?
    ensures Chain(steps, n).status.Crashed? ==>
              exists k :: 0 <= k < n && steps[k].failure == Some(Chain(steps, n).status.error)
                && forall j :: 0 <= j < k ==> steps[j].failure.None?
  {
    if n > 0 {
      ChainStatus(steps, n - 1);
    }
  }

  /** The whole run: the token check, then `load_domains` for every domain in
      sorted order, then the command on each loaded domain in that order. */
  function RunSpec(cmd: Command, override: Option<string>, doc: Document, provider: Provider): Outcome
    requires WellFormed(doc)
  {
    if ResolveToken(override, doc.options) == "" then Outcome([Print(NoTokenMessage)], Exited(1))
    else
      var names := DomainNames(doc);
      DomainNamesAscending(doc);
      var rest := Chain(Steps(cmd, doc, provider, names), |names|);
      Outcome(LoadEvents(names, provider.existing) + rest.events, rest.status)
  }

  /** Without a token the run prints the error, exits with status 1, and
      calls nothing on the provider; with one it never exits that way. */
  lemma TokenChecked(cmd: Command, override: Option<string>, doc: Document, provider: Provider)
    requires WellFormed(doc)
    ensures ResolveToken(override, doc.options) == "" <==> RunSpec(cmd, override, doc, provider).status == Exited(1)
    ensures ResolveToken(override, doc.options) == "" ==>
              RunSpec(cmd, override, doc, provider).events == [Print(NoTokenMessage)]
  {
    if ResolveToken(override, doc.options) != "" {
      var names := DomainNames(doc);
      DomainNamesAscending(doc);
      ChainStatus(Steps(cmd, doc, provider, names), |names|);
    }
  }

  /** With a token, the run first tries to load every configured domain,
      once each and in ascending order of name, before any command runs. */
  lemma LoadsFirstInOrder(cmd: Command, override: Option<string>, doc: Document, provider: Provider)
    requires WellFormed(doc)
    requires ResolveToken(override, doc.options) != ""
    ensures var names := DomainNames(doc);
            var loads := LoadEvents(names, provider.existing);
            var events := RunSpec(cmd, override, doc, provider).events;
            && |loads| <= |events| && events[..|loads|] == loads
            && LoadedNames(loads) == names
            && (forall n :: n in names <==> n in doc.domains)
            && (forall p, q :: 0 <= p < q < |names| ==> StrLt(names[p], names[q]))
  {
    var names := DomainNames(doc);
    DomainNamesAscending(doc);
    LoadOrder(names, provider.existing);
  }

  /** The loop of the wrapper: run the command on each loaded domain in
      turn, stopping at the first error. */
  method RunDomains(cmd: Command, doc: Document, provider: Provider, names: seq<string>) returns (outcome: Outcome)
    requires forall x <- names :: x in doc.domains
    ensures outcome == Chain(Steps(cmd, doc, provider, names), |names|)
  {
    ghost var steps := Steps(cmd, doc, provider, names);
    var events := [];
    var i := 0;
    while i < |names|
      invariant 0 <= i <= |names|
      invariant Chain(steps, i) == Outcome(events, Completed)
    {
      var step := RunDomain(cmd, doc, provider, names[i]);
      assert step == steps[i];
      events := events + step.events;
      if step.failure.Some? {
        FailureStops(steps, i, |names|);
        return Outcome(events, Crashed(step.failure.value));
      }
      i := i + 1;
    }
    return Outcome(events, Completed);
  }

  /** The wrapper of every command: check the token, load the domains, then
      run the command on each of them until one fails. */
  method Run(cmd: Command, override: Option<string>, doc: Document, provider: Provider) returns (outcome: Outcome)
    requires WellFormed(doc)
    ensures outcome == RunSpec(cmd, override, doc, provider)
  {
    var token := ResolveToken(override, doc.options);
    if token == "" {
      return Outcome([Print(NoTokenMessage)], Exited(1));
    }
    var names := DomainNames(doc);
    DomainNamesAscending(doc);
    var loads := LoadDomains(names, provider.existing);
    var rest := RunDomains(cmd, doc, provider, names);
    return Outcome(loads + rest.events, rest.status);
  }
}
