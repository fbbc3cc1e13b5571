# dodns reconciler, modelled in Dafny

`dodns.py` keeps the DNS zones of a DigitalOcean account in line with a YAML
document. The document's first part holds the options (the API token, the
`defaults` rows, and any names that rows may refer to as `{name}`). Its second
part maps each domain to its own rows. Each row, such as `A @ 1.2.3.4` or
`MX @ mail.{domain} 10`, names one DNS record.

This project models the core of that program:

- **Row expansion and ordering.** `parse_record` substitutes the `{key}`
  fields and splits the row into a record (module `Template`). `generate_records`
  expands the default rows and the domain's rows, then sorts them by
  `records_key` using the type rank from `ORDER` (module `Generate`).
- **Fetching.** `fetch_records` rewrites the provider's `@` CNAME placeholder
  in place (module `Fetch`, on an array).
- **Diffing.** `diff_records` is modelled as written (module `Diff`):
  - a nested loop over the desired and fetched records;
  - `list.remove` on copies of both lists, by identity, which is modelled as
    lists of positions;
  - the `ValueError` raised when one record matches twice.
- **Printing.** `print_records` formats each record as
  `'{} {:>5} {:10} {}'` (module `Output`).
- **The commands.** The command wrapper and the `gen`, `print`, `diff`,
  `clear` and `sync` commands are in module `Commands`:
  - the wrapper resolves the token;
  - `load_domains` loads or creates every domain in sorted order;
  - each command runs on each domain.

  Provider calls and printed lines are modelled as a trace of events.

Supporting modules:

- `Records`: the record value, `Option`/`Result`, and the errors.
- `Lists`: `list.index`, `list.remove`, filtering, and subsequences.
- `Strings`: `split`, `rsplit`, `rstrip('.')`, the width specifiers, and string order.
- `Integers`: `int()` and `str()`.
- `Sorting`: `sorted`, as an insertion sort proved ordered and a permutation.

Main results:

- **Expansion round trip.** A record's row expands back to the same record
  when these conditions hold:
  - its type and name are single words;
  - the row holds no brace;
  - it has a priority exactly when it is MX;
  - no option is called `domain`.

  Conversely, the substituted row of every expanded record is its type, its
  name and its data, plus for MX a priority text that reads back as its
  priority.
- **Canonical order.** The generated list is sorted and a permutation of the
  expanded rows. It is the only sorted ordering of those records.
- **Diff as written.** `DiffRecords`, the nested loop with its removals, is
  proved to compute its specification:
  - when no record matches twice, it returns the unmatched records of each
    side, in their original order;
  - otherwise it fails.
- **Sync converges.** A `diff` right after a `sync` reports nothing, under
  these conditions:
  - no two desired records match each other;
  - no desired record is an `@` CNAME;
  - the provider stores created records as they were sent.
- **Run order.** The token is checked before anything else. Every domain is
  loaded, once and in ascending order, before any command runs. The first
  error ends the run.

Behaviour of the code that the model keeps:

- Matching records are not paired one for one. `diff_records` raises
  `ValueError` when a record matches two records on the other side, and the
  model fails there too (`Diff.DuplicateDesiredFails`).
- An MX line shows the priority in the name column. An integer under `{:10}`
  is right-aligned, not left-aligned like a name (`Output.CellAlignment`).
- Failures are not handled per domain. Every domain is loaded first, and the
  first exception ends the whole run (`Commands.RunSpec`).
- A `domain` key among the options is not overridden. Passing it twice to
  `str.format` raises `TypeError` for every row (`Template.Expand`).
- `int()` in Python 2 skips whitespace after the sign, so an MX priority
  written `-\t10` reads as -10 (`Integers.SignThenWhitespace`).
- Records of equal rank have the same type, so the key comparison never
  meets a `None` priority beside an integer one. The model still orders
  `None` first, as Python 2 does, which keeps the key order total
  (`Generate.PriorityLe`).

## Model

| member | source | states |
|---|---|---|
| Template.Substitute | dodns.py:26 | a row without braces is left as it is by `str.format` |
| Template.SubstituteRender | dodns.py:26 | substituting a row made of literal text and `{key}` fields keeps the text, looks up each field, and fails with the first missing key |
| Template.Env | dodns.py:26 | the names a row may use are the options plus `domain`, which is the domain's name; every other option keeps its value |
| Template.Expand | dodns.py:25-42 | every parsed record belongs to the domain and has a priority exactly when it is MX; a `domain` option is an error |
| Template.ExpandRowOf | dodns.py:25-42 | a record whose type and name are single words reads back unchanged from its own row (parse after show) |
| Template.ExpandInverse | dodns.py:25-42 | every parsed record comes from a row made of its type, name and data, plus for MX a priority text that reads as its priority (show after parse) |
| Template.ExpandNonMX | dodns.py:27-42 | a non-MX row becomes type, name, the whole rest as data, no priority |
| Template.ExpandMX | dodns.py:27-31 | an MX row's rest is cut at its last space into data and an integer priority |
| Template.ExpandMXBadPriority | dodns.py:31 | an MX priority that is not an integer is an error carrying that text |
| Template.ExpandMXNoPriority | dodns.py:30-31 | an MX row with no space after the name's data has no priority and fails |
| Template.ExpandTooFewFields | dodns.py:27-30 | a row with fewer than three fields fails whatever its type |
| Strings.Split2 | dodns.py:27 | `split(' ', 2)`: at most three fields, rejoined they give the row, only the last may contain a space |
| Strings.RSplit1 | dodns.py:30 | `rsplit(' ', 1)`: rejoined the fields give the text, the last one has no space |
| Strings.RStripDots | dodns.py:79 | `rstrip('.')` is the longest prefix not ending in a dot, with only dots removed |
| Integers.ParseShow | dodns.py:31 | `int(str(p)) == p` for every priority |
| Integers.SignThenWhitespace | dodns.py:31 | a sign, then any whitespace, then digits reads as the signed value of the digits |
| Generate.Rank | dodns.py:22-46 | `ORDER.index(t)`: the position of the type in ORDER, out of range exactly when the type is absent |
| Generate.RecordLeIsTotalPreorder | dodns.py:45-46 | the key tuple order is total and transitive, so `sorted` can use it |
| Generate.KeyLeAntisymmetric | dodns.py:45-46 | two keys each `<=` the other are equal |
| Generate.Rows | dodns.py:50-55 | the rows are the defaults followed by the domain's rows, null counting as none |
| Generate.ExpandAllMeaning | dodns.py:54-56 | the comprehension succeeds exactly when every row parses, keeps row order, and otherwise fails with the error of the first row that fails |
| Lists.MapResultMeaning | dodns.py:54-56 | a comprehension that may raise succeeds iff every element does, pointwise, else with the error of the first element that fails |
| Generate.Generate | dodns.py:49-58 | the generated records are sorted by key, a permutation of the parsed rows, all in the domain, all of a type in ORDER |
| Generate.GenerateFails | dodns.py:45-58 | generation raises exactly when some row fails to parse or has a type missing from ORDER |
| Generate.GenerateCanonical | dodns.py:58 | any sorted permutation of the generated records is the generated list itself |
| Sorting.SortBy | dodns.py:58 | `sorted`: ordered and a permutation |
| Sorting.SortedUnique | dodns.py:58 | where equivalent elements are equal, a sorted permutation is unique |
| Fetch.NormalizeOne | dodns.py:65-66 | a CNAME to `@` gets `domain.` as data; any other record is unchanged; the result is never a placeholder |
| Fetch.NormalizeFetched | dodns.py:61-68 | the in-place loop leaves the array equal to the record-wise normalisation of its old contents |
| Fetch.NormalizedRewritesExactly | dodns.py:64-66 | normalisation keeps length and order and changes a record exactly when it is a placeholder, only in its data |
| Fetch.NormalizedFixes | dodns.py:64-66 | normalisation leaves a list unchanged exactly when it holds no placeholder, and is idempotent |
| Diff.MatchIsEquivalence | dodns.py:77-80 | the record comparison is reflexive, symmetric and transitive |
| Lists.RemoveFirst | dodns.py:81-82 | `list.remove` fails exactly when the element is absent, otherwise removes its first occurrence and keeps the other elements in order |
| Diff.ToAdd | dodns.py:71-84 | the additions are the desired records nothing fetched matches, in order, each as many times as it is desired |
| Diff.ToRemove | dodns.py:71-84 | the removals are the fetched records nothing desired matches, in order, each as many times as it was fetched |
| Diff.RowDouble | dodns.py:81 | a second removal of a desired record means it matched two fetched records, and the diff fails |
| Diff.ColDouble | dodns.py:82 | a second removal of a fetched record means it matched two desired records, and the diff fails |
| Diff.CompareRow | dodns.py:77-82 | one pass of the inner loop keeps the loop invariant or reports the failing removal |
| Diff.DiffRecords | dodns.py:71-84 | the nested loop returns exactly the unmatched records of each side, or fails when a record matches twice |
| Diff.DiffSelf | dodns.py:71-84 | a list compared with itself gives no changes exactly when no two of its records match, and fails otherwise |
| Diff.OnePair | dodns.py:71-84 | one desired record against one fetched record: no changes when they match, otherwise the fetched one is removed and the desired one added |
| Diff.TrailingDotIgnored | dodns.py:77-80 | any two records of equal type, name and priority whose data differ only in trailing dots give no changes |
| Diff.DotAddedMatches | dodns.py:79 | adding a trailing dot to a record's data keeps it matching the record |
| Diff.ChangedAddress | dodns.py:71-84 | any record whose data changed beyond trailing dots is removed in its old form and added in its new one |
| Diff.DuplicateDesiredFails | dodns.py:81-82 | two desired copies of one fetched record make the second removal fail |
| Diff.Synced | dodns.py:213-217 | the zone after sync holds only fetched and desired records |
| Diff.SyncConverges | dodns.py:204-217 | diffing the desired records against the zone sync leaves finds nothing, when no two desired records match |
| Output.CellAlignment | dodns.py:87-94 | the third column is at least ten wide, a name left-aligned, an integer priority right-aligned, a missing one `None` |
| Output.LineLayout | dodns.py:94 | a line starts with the prefix and a space and ends with the data, at a fixed column when the fields fit |
| Output.Lines | dodns.py:88-94 | one line per record, in order |
| Output.LineCell | dodns.py:94 | the third column of a line is the record's cell, after the prefix, the type column and two spaces |
| Output.PriorityReadsBack | dodns.py:87-94 | the priority column of an MX line parses back to the priority |
| Commands.TokenPrecedence | dodns.py:144 | a non-empty command-line token wins; otherwise the document's token; the token is empty exactly when neither is given |
| Commands.DomainNames | dodns.py:100 | `sorted(DOMAINS)`: ordered and a permutation of the domain names |
| Commands.DomainNamesAscending | dodns.py:100 | every domain is visited exactly once, in strictly ascending order |
| Commands.LoadDomains | dodns.py:100-111 | the loop loads each domain in order and creates it at 127.0.0.1 when loading fails |
| Commands.LoadOrder | dodns.py:103-109 | the load attempts follow the domain names one by one |
| Commands.LoadKinds | dodns.py:104-109 | besides the loads, the only events are creations of configured domains that did not exist, at 127.0.0.1 |
| Commands.PrintRecords | dodns.py:87-94 | one printed line per record, in order |
| Commands.ApplyChanges | dodns.py:213-217 | the two sync loops destroy the removals then create the additions |
| Commands.DestroysBeforeCreates | dodns.py:213-217 | every destroy precedes every create, each record once, in list order |
| Commands.ReportShape | dodns.py:188-191 | diff prints nothing when nothing differs, otherwise the name, the `-` lines, then the `+` lines |
| Commands.SyncApplies | dodns.py:208-217 | sync on a successful diff fetches once, destroys the unwanted, creates the missing |
| Commands.DiffReports | dodns.py:183-191 | diff prints the report of the unmatched records, or fails after the fetch on a double match |
| Commands.ClearDestroysAll | dodns.py:199-200 | clear destroys every listed record, unnormalised, in list order |
| Commands.SyncThenDiffQuiet | dodns.py:178-217 | a diff right after a sync reports nothing, given no two desired records match and none is an `@` CNAME |
| Commands.FetchRecords | dodns.py:61-68 | fetching returns the provider's listing normalised |
| Commands.Compare | dodns.py:178-217 | generate, fetch, diff, then report or apply, with each failure at its point |
| Commands.Respond | dodns.py:188-217 | diff prints the report; sync applies the changes |
| Commands.RunDomain | dodns.py:158-217 | each command's body on one domain matches its specification |
| Commands.Steps | dodns.py:151-152 | one step per loaded domain, in order |
| Commands.FailureStops | dodns.py:151-152 | after a step fails, later domains add nothing |
| Commands.ChainStatus | dodns.py:151-152 | the run crashes exactly when a step fails, with the first failure's error; otherwise it completes |
| Commands.TokenChecked | dodns.py:144-149 | with no token the run prints the error and exits 1 without touching the provider; with one it never exits that way |
| Commands.LoadsFirstInOrder | dodns.py:100-152 | with a token, the run starts by loading every configured domain once, in ascending order |
| Commands.RunDomains | dodns.py:151-152 | the wrapper loop runs each domain's step in order and stops at the first error |
| Commands.Run | dodns.py:134-152 | the whole wrapper: token check, loads, then the command on each domain |

## Left out

- Reading the YAML document, `click`'s argument handling and the file or standard input are left out. The document is a parameter, already split into options, defaults and domain rows. `defaults` is a field of its own, not an entry of the options.
- The provider is a parameter. Its answers are the set of existing domains and each domain's listing. What `destroy` and `create` do at the provider, and any exception they raise, are outside the model: they appear only as events. So is any failure of `get_records`.
- `load_domains` catches the library's `Error` from `domain.load()`. The model treats "the domain does not exist" as the only such failure.
- `str.format` is modelled for `{key}` fields whose values are strings. Doubled braces (`{{`), format specifications, conversions, positional fields, and non-string option values (including the `defaults` list itself) are left out. An unmatched brace is one error, whatever its position.
- `int()` is modelled for ASCII decimal digits with surrounding ASCII whitespace, a sign, and whitespace after the sign. Unicode digits and whitespace are left out.
- `str.format` fields that access an attribute or an index (`{opt.x}`, `{opt[0]}`) are left out. Python looks up `opt` and then its attribute or element; the model takes the whole text as the key, so such a row fails with a missing key.
- Python's string order is modelled as order on characters. Python 2 byte strings compared with unicode strings are left out.
- The `token` field that every record and domain carries, record ids, and the IP address of a loaded domain are left out: nothing in the core reads them.
- Records are values. The fetch loop works on an array of them, so aliasing between the fetched list and other references to the same record objects is not modelled.
- Identity in `diff_records` is modelled by position. Two distinct but equal record objects count as different, as they do in the code.
- Diff.SyncConverges and Commands.SyncThenDiffQuiet model the zone after `sync` as its kept records followed by its created ones. That assumes the provider stores created records as sent; the order of the provider's listing does not matter to the diff.
- Printing is modelled as the lines printed. The character encoding of the output is left out.
