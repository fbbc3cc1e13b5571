/** The desired state of a domain (`ORDER`, `records_key`,
    `generate_records`): the default rows followed by the domain's own rows,
    each expanded, in the canonical order of their keys. */
module Generate {
  import opened Records
  import opened Lists
  import opened Strings
  import opened Sorting
  import opened Template

  /** Record types from infrastructure to content, the first component of
      the sort key. */
  const ORDER: seq<string> := ["NS", "MX", "TXT", "CNAME", "AAAA", "A"]

  /** `ORDER.index(t)`; a type that is not listed gets |ORDER|, and Generate
      turns it into the ValueError the source raises. */
  function Rank(t: string): (k: nat)
    ensures k <= |ORDER|
    ensures k < |ORDER| <==> t in ORDER
    ensures k < |ORDER| ==> ORDER[k] == t
  {
    match IndexOf(ORDER, t)
    case None => |ORDER|
    case Some(k) => k
  }

  /** `records_key(r)`: (rank of the type, name, priority, data). */
  datatype Key = Key(rank: nat, name: string, priority: Option<int>, data: string)

  function KeyOf(r: Record): Key {
    Key(Rank(r.rtype), r.name, r.priority, r.data)
  }

  /** Python 2 orders None before every integer. */
  predicate PriorityLe(a: Option<int>, b: Option<int>) {
    a.None? || (b.Some? && a.value <= b.value)
  }

  /** Tuple comparison `<=`: the first component that differs decides. */
  predicate KeyLe(a: Key, b: Key) {
    || a.rank < b.rank
    || (a.rank == b.rank && a.name != b.name && StrLe(a.name, b.name))
    || (a.rank == b.rank && a.name == b.name && a.priority != b.priority && PriorityLe(a.priority, b.priority))
    || (a.rank == b.rank && a.name == b.name && a.priority == b.priority && StrLe(a.data, b.data))
  }

  predicate RecordLe(a: Record, b: Record) {
    KeyLe(KeyOf(a), KeyOf(b))
  }

  lemma KeyLeTotal(a: Key, b: Key)
    ensures KeyLe(a, b) || KeyLe(b, a)
  {
    StrLeTotal(a.name, b.name);
    StrLeTotal(a.data, b.data);
  }

  lemma KeyLeTransitive(a: Key, b: Key, c: Key)
    ensures KeyLe(a, b) && KeyLe(b, c) ==> KeyLe(a, c)
  {
    StrLeTransitive(a.name, b.name, c.name);
    StrLeTransitive(a.data, b.data, c.data);
    StrLeAntisymmetric(a.name, b.name);
    StrLeAntisymmetric(b.name, c.name);
    StrLeAntisymmetric(a.name, c.name);
  }

  /** Keys that are each `<=` the other are the same key. */
  lemma KeyLeAntisymmetric(a: Key, b: Key)
    ensures KeyLe(a, b) && KeyLe(b, a) ==> a == b
  {
    StrLeAntisymmetric(a.name, b.name);
    StrLeAntisymmetric(a.data, b.data);
  }

  /** The key order is one `sorted` can use. */
  lemma RecordLeIsTotalPreorder()
    ensures TotalPreorder(RecordLe)
  {
    forall x, y ensures RecordLe(x, y) || RecordLe(y, x) {
      KeyLeTotal(KeyOf(x), KeyOf(y));
    }
    forall x, y, z ensures RecordLe(x, y) && RecordLe(y, z) ==> RecordLe(x, z) {
      KeyLeTransitive(KeyOf(x), KeyOf(y), KeyOf(z));
    }
  }

  /** `DEFAULTS + extras`, where extras that are null count as none. */
  function Rows(defaults: seq<string>, extras: Option<seq<string>>): (rows: seq<string>)
    ensures extras.None? ==> rows == defaults
    ensures extras.Some? ==> rows == defaults + extras.value
  {
    defaults + if extras.Some? then extras.value else []
  }

  /** `[parse_record(row, domain) for row in rows]`: every row expanded in
      order, or the error of the first row that fails. */
  function ExpandAll(rows: seq<string>, domainName: string, options: map<string, string>): (r: Result<seq<Record>>)
    ensures r.Ok? ==> |r.value| == |rows|
  {
    MapResult(rows, row => Expand(row, domainName, options))
  }

  /** The comprehension succeeds exactly when every row expands, and then
      holds each row's record at the row's position; when it fails, the
      error is that of the first row that fails. */
  lemma ExpandAllMeaning(rows: seq<string>, domainName: string, options: map<string, string>)
    ensures var r := ExpandAll(rows, domainName, options);
      && (r.Ok? <==> forall i :: 0 <= i < |rows| ==> Expand(rows[i], domainName, options).Ok?)
      && (r.Ok? ==> forall i :: 0 <= i < |rows| ==> Expand(rows[i], domainName, options) == Ok(r.value[i]))
      && (r.Err? ==> exists i :: 0 <= i < |rows| && Expand(rows[i], domainName, options) == Err(r.error)
                                && forall j :: 0 <= j < i ==> Expand(rows[j], domainName, options).Ok?)
  {
    var f := row => Expand(row, domainName, options);
    assert ExpandAll(rows, domainName, options) == MapResult(rows, f);
    MapResultMeaning(rows, f);
  }

  /** The position of the first record whose type is not in ORDER: computing
      its key is what makes `sorted` raise. */
  function FirstUnknown(rs: seq<Record>): (r: Option<nat>)
    ensures r.None? <==> forall i :: 0 <= i < |rs| ==> rs[i].rtype in ORDER
    ensures r.Some? ==> r.value < |rs| && rs[r.value].rtype !in ORDER
  {
    if rs == [] then None
    else if rs[0].rtype !in ORDER then Some(0)
    else match FirstUnknown(rs[1..])
      case None =>
        assert forall i :: 1 <= i < |rs| ==> rs[i] == rs[1..][i - 1];
        None
      case Some(k) => Some(k + 1)
  }

  /** A row that makes `generate_records` raise: it does not expand, or it
      expands to a type missing from ORDER. */
  predicate Rejected(row: string, domainName: string, options: map<string, string>) {
    var e := Expand(row, domainName, options);
    e.Err? || e.value.rtype !in ORDER
  }

  /** `generate_records(domain)`: the expansions of the default rows and the
      domain's rows, ordered by `records_key`: sorted, the same records as
      the rows expand to, all in the domain and all of a type in ORDER.
      GenerateFails says when it fails. */
  function Generate(defaults: seq<string>, extras: Option<seq<string>>, domainName: string, options: map<string, string>): (r: Result<seq<Record>>)
    ensures r.Ok? ==> ExpandAll(Rows(defaults, extras), domainName, options).Ok?
    ensures r.Ok? ==> SortedBy(r.value, RecordLe)
    ensures r.Ok? ==> multiset(r.value) == multiset(ExpandAll(Rows(defaults, extras), domainName, options).value)
    ensures r.Ok? ==> forall x <- r.value :: x.domainName == domainName && x.rtype in ORDER
  {
    match ExpandAll(Rows(defaults, extras), domainName, options)
    case Err(e) => Err(e)
    case Ok(records) =>
      match FirstUnknown(records)
      case Some(i) => Err(UnknownType(records[i].rtype))
      case None =>
        RecordLeIsTotalPreorder();
        var sorted := SortBy(records, RecordLe);
        ExpandedInDomain(Rows(defaults, extras), domainName, options);
        assert forall x <- sorted :: x in multiset(records);
        Ok(sorted)
  }

  lemma ExpandedInDomain(rows: seq<string>, domainName: string, options: map<string, string>)
    requires ExpandAll(rows, domainName, options).Ok?
    ensures forall x <- ExpandAll(rows, domainName, options).value :: x.domainName == domainName
  {
    ExpandAllMeaning(rows, domainName, options);
    var rs := ExpandAll(rows, domainName, options).value;
    forall x <- rs ensures x.domainName == domainName {
      var i :| 0 <= i < |rs| && rs[i] == x;
      assert Expand(rows[i], domainName, options) == Ok(x);
    }
  }

  /** `generate_records` raises exactly when one of the rows does not expand
      or expands to a type that is missing from ORDER. */
  lemma GenerateFails(defaults: seq<string>, extras: Option<seq<string>>, domainName: string, options: map<string, string>)
    ensures Generate(defaults, extras, domainName, options).Err? <==>
            exists row <- Rows(defaults, extras) :: Rejected(row, domainName, options)
  {
    var rows := Rows(defaults, extras);
    var all := ExpandAll(rows, domainName, options);
    ExpandAllMeaning(rows, domainName, options);
    if all.Err? {
      var i :| 0 <= i < |rows| && Expand(rows[i], domainName, options) == Err(all.error);
      assert Rejected(rows[i], domainName, options);
    } else {
      match FirstUnknown(all.value)
      case Some(i) =>
        assert Rejected(rows[i], domainName, options);
      case None =>
        forall row <- rows ensures !Rejected(row, domainName, options) {
          var i :| 0 <= i < |rows| && rows[i] == row;
          assert Expand(rows[i], domainName, options) == Ok(all.value[i]);
        }
    }
  }

  /** The generated list is the only ordering of those records that is
      sorted by key: within one domain, records with equal keys are equal,
      so the stability of `sorted` and its algorithm make no difference. */
  lemma GenerateCanonical(defaults: seq<string>, extras: Option<seq<string>>, domainName: string, options: map<string, string>, other: seq<Record>)
    requires Generate(defaults, extras, domainName, options).Ok?
    requires multiset(other) == multiset(Generate(defaults, extras, domainName, options).value)
    requires SortedBy(other, RecordLe)
    ensures other == Generate(defaults, extras, domainName, options).value
  {
    var rs := Generate(defaults, extras, domainName, options).value;
    RecordLeIsTotalPreorder();
    forall x, y | x in rs && y in rs && RecordLe(x, y) && RecordLe(y, x) ensures x == y {
      KeyLeAntisymmetric(KeyOf(x), KeyOf(y));
    }
    SortedUnique(rs, other, RecordLe);
  }
}
