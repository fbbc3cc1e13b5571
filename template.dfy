/** Row expansion (`parse_record`): one configuration row such as
    `"MX @ mail.{domain} 10"` becomes one Record of the domain. */
module Template {
  import opened Records
  import opened Lists
  import opened Strings
  import opened Integers

  /** Text with no placeholder syntax in it. */
  predicate PlainText(s: string) {
    '{' !in s && '}' !in s
  }

  /** The names a row may refer to: every option, and `domain` for the
      domain's own name. */
  function Env(domainName: string, options: map<string, string>): (env: map<string, string>)
    ensures env.Keys == options.Keys + {"domain"}
    ensures env["domain"] == domainName
    ensures forall k <- options :: k != "domain" ==> env[k] == options[k]
  {
    options["domain" := domainName]
  }

  /** `row.format(**env)` for `{key}` fields: each field is replaced by the
      value of its key; a key with no value is a KeyError, a '{' with no
      closing '}' or a lone '}' a ValueError. */
  function Substitute(row: string, env: map<string, string>): (r: Result<string>)
    ensures PlainText(row) ==> r == Ok(row)
    decreases |row|
  {
    if row == [] then Ok([])
    else if row[0] == '{' then
      match IndexOf(row[1..], '}')
      case None => Err(BadBrace)
      case Some(k) =>
        var key := row[1..k + 1];
        if key !in env then Err(MissingKey(key))
        else
          var rest :- Substitute(row[k + 2..], env);
          Ok(env[key] + rest)
    else if row[0] == '}' then Err(BadBrace)
    else
      var rest :- Substitute(row[1..], env);
      assert row == [row[0]] + row[1..];
      Ok([row[0]] + rest)
  }

  /** A row seen as the pieces it is made of: literal text and `{key}` fields. */
  datatype Piece = Lit(text: string) | Field(key: string)

  predicate WellFormed(pieces: seq<Piece>) {
    forall p <- pieces :: if p.Lit? then PlainText(p.text) else PlainText(p.key)
  }

  /** The row text the pieces stand for. */
  function Render(pieces: seq<Piece>): string {
    if pieces == [] then ""
    else
      match pieces[0]
      case Lit(t) => t + Render(pieces[1..])
      case Field(k) => "{" + k + "}" + Render(pieces[1..])
  }

  /** What the row expands to, read piece by piece: the first field whose key
      has no value is the error. */
  function Fill(pieces: seq<Piece>, env: map<string, string>): Result<string> {
    if pieces == [] then Ok("")
    else
      match pieces[0]
      case Lit(t) => Prefixed(t, Fill(pieces[1..], env))
      case Field(k) =>
        if k in env then Prefixed(env[k], Fill(pieces[1..], env)) else Err(MissingKey(k))
  }

  function Prefixed(t: string, r: Result<string>): Result<string> {
    if r.Ok? then Ok(t + r.value) else r
  }

  lemma {:induction false} SubstitutePlainPrefix(t: string, rest: string, env: map<string, string>)
    requires PlainText(t)
    ensures Substitute(t + rest, env) == Prefixed(t, Substitute(rest, env))
    decreases |t|
  {
    var tail := Substitute(rest, env);
    if t == [] {
      assert t + rest == rest;
      if tail.Ok? {
        assert t + tail.value == tail.value;
      }
    } else {
      var c, t' := t[0], t[1..];
      assert t + rest == [c] + (t' + rest);
      SubstituteChar(c, t' + rest, env);
      SubstitutePlainPrefix(t', rest, env);
      PrefixedTwice([c], t', tail);
      assert [c] + t' == t;
    }
  }

  lemma PrefixedTwice(a: string, b: string, r: Result<string>)
    ensures Prefixed(a, Prefixed(b, r)) == Prefixed(a + b, r)
  {
    if r.Ok? {
      assert a + (b + r.value) == a + b + r.value;
    }
  }

  /** A character other than a brace is copied. */
  lemma SubstituteChar(c: char, rest: string, env: map<string, string>)
    requires c != '{' && c != '}'
    ensures Substitute([c] + rest, env) == Prefixed([c], Substitute(rest, env))
  {
    var row := [c] + rest;
    assert row[0] == c && row[1..] == rest;
  }

  lemma SubstituteField(k: string, rest: string, env: map<string, string>)
    requires PlainText(k)
    ensures Substitute("{" + k + "}" + rest, env)
         == if k in env then Prefixed(env[k], Substitute(rest, env)) else Err(MissingKey(k))
  {
    var row := "{" + k + "}" + rest;
    var tail := row[1..];
    assert tail == k + "}" + rest;
    var i := IndexOf(tail, '}');
    assert tail[|k|] == '}';
    assert i.Some?;
    assert i.value == |k|;
    assert row[1..|k| + 1] == k;
    assert row[|k| + 2..] == rest;
  }

  /** Substituting into a row built from pieces gives the pieces' own reading:
      literal text is kept, each field is looked up, and the first missing
      key is the error. */
  lemma {:induction false} SubstituteRender(pieces: seq<Piece>, env: map<string, string>)
    requires WellFormed(pieces)
    ensures Substitute(Render(pieces), env) == Fill(pieces, env)
    decreases |pieces|
  {
    if pieces != [] {
      assert WellFormed(pieces[1..]) by {
        forall p <- pieces[1..] ensures if p.Lit? then PlainText(p.text) else PlainText(p.key) {
          assert p in pieces;
        }
      }
      SubstituteRender(pieces[1..], env);
      match pieces[0]
      case Lit(t) =>
        SubstitutePlainPrefix(t, Render(pieces[1..]), env);
      case Field(k) =>
        SubstituteField(k, Render(pieces[1..]), env);
    }
  }

  /** `parse_record(row, domain)`: substitute the placeholders, split at the
      first two spaces into type, name and data; an MX row's data is split
      again at its last space and the part after it is the priority. */
  function Expand(row: string, domainName: string, options: map<string, string>): (r: Result<Record>)
    ensures "domain" in options ==> r == Err(DomainOptionClash)
    ensures r.Ok? ==> r.value.domainName == domainName
    ensures r.Ok? ==> (r.value.priority.Some? <==> r.value.rtype == "MX")
  {
    if "domain" in options then Err(DomainOptionClash)
    else
      var text :- Substitute(row, Env(domainName, options));
      FromFields(Split2(text), domainName)
  }

  /** The record named by the fields of a split row; too few fields is an
      IndexError. */
  function FromFields(f: seq<string>, domainName: string): (r: Result<Record>)
    requires 1 <= |f|
    ensures r.Ok? ==> r.value.domainName == domainName
    ensures r.Ok? ==> (r.value.priority.Some? <==> r.value.rtype == "MX")
  {
    if |f| < 3 then Err(MissingField)
    else if f[0] == "MX" then MXRecord(f[1], f[2], domainName)
    else Ok(Record(domainName, f[0], f[1], f[2], None))
  }

  /** An MX record from its name and the rest of its row: the rest is cut at
      its last space into data and priority. */
  function MXRecord(name: string, rest: string, domainName: string): (r: Result<Record>)
    ensures r.Ok? ==> r.value.domainName == domainName && r.value.rtype == "MX" && r.value.priority.Some?
  {
    var tail := RSplit1(rest);
    if |tail| < 2 then Err(MissingField)
    else
      match ParseInt(tail[1])
      case None => Err(BadPriority(tail[1]))
      case Some(p) => Ok(Record(domainName, "MX", name, tail[0], Some(p)))
  }

  /** The row text of a record, the inverse of Expand: type, name and data
      separated by single spaces, with `str(priority)` after an MX record's data. */
  function RowOf(r: Record): string {
    if r.rtype == "MX" && r.priority.Some? then "MX " + r.name + " " + r.data + " " + Show(r.priority.value)
    else r.rtype + " " + r.name + " " + r.data
  }

  /** A record whose type and name are single words and which carries no
      placeholder syntax is read back unchanged from its own row. */
  lemma ExpandRowOf(r: Record, options: map<string, string>)
    requires "domain" !in options
    requires ' ' !in r.rtype && ' ' !in r.name
    requires r.priority.Some? <==> r.rtype == "MX"
    requires PlainText(RowOf(r))
    ensures Expand(RowOf(r), r.domainName, options) == Ok(r)
  {
    if r.rtype == "MX" {
      var p := r.priority.value;
      ShowHasNoSpace(p);
      ParseShow(p);
      ExpandMX(RowOf(r), r.domainName, options, r.name, r.data, Show(p), p);
    } else {
      ExpandNonMX(RowOf(r), r.domainName, options, r.rtype, r.name, r.data);
    }
  }

  lemma ShowHasNoSpace(n: int)
    ensures ' ' !in Show(n)
  {
    var s := Show(n);
    if n < 0 {
      assert s[1..] == ShowNat(-n);
      assert s == [s[0]] + s[1..];
    }
  }

  /** A row whose text, once substituted, has a single-word type other than
      MX and a single-word name becomes a record with no priority whose data
      is everything after the second space, spaces included. */
  lemma ExpandNonMX(row: string, domainName: string, options: map<string, string>, t: string, n: string, d: string)
    requires "domain" !in options
    requires Substitute(row, Env(domainName, options)) == Ok(t + " " + n + " " + d)
    requires t != "MX" && ' ' !in t && ' ' !in n
    ensures Expand(row, domainName, options) == Ok(Record(domainName, t, n, d, None))
  {
    Split2Of(t, n, d);
  }

  /** An MX row is cut once more at its last space: the part before is the
      data, the part after, read as an integer, the priority. */
  lemma ExpandMX(row: string, domainName: string, options: map<string, string>, n: string, d: string, p: string, v: int)
    requires "domain" !in options
    requires Substitute(row, Env(domainName, options)) == Ok("MX " + n + " " + d + " " + p)
    requires ' ' !in n && ' ' !in p && ParseInt(p) == Some(v)
    ensures Expand(row, domainName, options) == Ok(Record(domainName, "MX", n, d, Some(v)))
  {
    MXFields(row, domainName, options, n, d, p);
    RSplit1Of(d, p);
  }

  /** An MX row expands as the MX record built from its name and the rest. */
  lemma MXFields(row: string, domainName: string, options: map<string, string>, n: string, d: string, p: string)
    requires "domain" !in options
    requires Substitute(row, Env(domainName, options)) == Ok("MX " + n + " " + d + " " + p)
    requires ' ' !in n
    ensures Expand(row, domainName, options) == MXRecord(n, d + " " + p, domainName)
  {
    assert "MX " + n + " " + d + " " + p == "MX" + " " + n + " " + (d + " " + p);
    Split2Of("MX", n, d + " " + p);
  }

  /** An MX row whose priority is not an integer fails with that text. */
  lemma ExpandMXBadPriority(row: string, domainName: string, options: map<string, string>, n: string, d: string, p: string)
    requires "domain" !in options
    requires Substitute(row, Env(domainName, options)) == Ok("MX " + n + " " + d + " " + p)
    requires ' ' !in n && ' ' !in p && ParseInt(p) == None
    ensures Expand(row, domainName, options) == Err(BadPriority(p))
  {
    MXFields(row, domainName, options, n, d, p);
    RSplit1Of(d, p);
  }

  /** An MX row with no space after its name's data has no priority to read. */
  lemma ExpandMXNoPriority(row: string, domainName: string, options: map<string, string>, n: string, d: string)
    requires "domain" !in options
    requires Substitute(row, Env(domainName, options)) == Ok("MX " + n + " " + d)
    requires ' ' !in n && ' ' !in d
    ensures Expand(row, domainName, options) == Err(MissingField)
  {
    assert "MX " + n + " " + d == "MX" + " " + n + " " + d;
    Split2Of("MX", n, d);
    MXRecordNoSpace(n, d, domainName);
  }

  /** The rest of an MX row without a space is a single field. */
  lemma MXRecordNoSpace(n: string, d: string, domainName: string)
    requires ' ' !in d
    ensures MXRecord(n, d, domainName) == Err(MissingField)
  {
  }

  /** A row with fewer than two spaces has fewer than three fields and fails,
      whatever its type. */
  lemma ExpandTooFewFields(row: string, domainName: string, options: map<string, string>, a: string, b: string)
    requires "domain" !in options
    requires ' ' !in a && ' ' !in b
    requires Substitute(row, Env(domainName, options)) == Ok(a) || Substitute(row, Env(domainName, options)) == Ok(a + " " + b)
    ensures Expand(row, domainName, options) == Err(MissingField)
  {
    Split1Of(a, b);
  }

  /** Conversely, every record Expand produces comes from a substituted row
      made of its single-word type, its single-word name and its data, plus,
      for MX, a space-free priority text that reads as its priority. */
  lemma ExpandInverse(row: string, domainName: string, options: map<string, string>)
    requires Expand(row, domainName, options).Ok?
    ensures Substitute(row, Env(domainName, options)).Ok?
    ensures var r := Expand(row, domainName, options).value;
      var text := Substitute(row, Env(domainName, options)).value;
      && ' ' !in r.rtype && ' ' !in r.name
      && (r.rtype != "MX" ==> text == r.rtype + " " + r.name + " " + r.data)
      && (r.rtype == "MX" ==> exists p :: text == "MX " + r.name + " " + r.data + " " + p && ' ' !in p && ParseInt(p) == r.priority)
  {
    var text := Substitute(row, Env(domainName, options)).value;
    FieldsInverse(text, domainName);
  }

  lemma FieldsInverse(text: string, domainName: string)
    requires FromFields(Split2(text), domainName).Ok?
    ensures var r := FromFields(Split2(text), domainName).value;
      && ' ' !in r.rtype && ' ' !in r.name
      && (r.rtype != "MX" ==> text == r.rtype + " " + r.name + " " + r.data)
      && (r.rtype == "MX" ==> exists p :: text == "MX " + r.name + " " + r.data + " " + p && ' ' !in p && ParseInt(p) == r.priority)
  {
    var f := Split2(text);
    SplitThree(text);
    if f[0] == "MX" {
      var r := MXRecord(f[1], f[2], domainName).value;
      var p := MXInverse(f[1], f[2], domainName);
      MXRowShape(r.name, r.data, p);
      assert text == "MX " + r.name + " " + r.data + " " + p;
    }
  }

  /** Text that splits into three fields is those fields joined by spaces. */
  lemma SplitThree(text: string)
    requires |Split2(text)| == 3
    ensures var f := Split2(text); text == f[0] + " " + f[1] + " " + f[2]
  {
    JoinThree(Split2(text));
  }

  lemma JoinThree(f: seq<string>)
    requires |f| == 3
    ensures JoinSpaces(f) == f[0] + " " + f[1] + " " + f[2]
  {
    assert f == [f[0]] + [f[1], f[2]];
    JoinCons(f[0], [f[1], f[2]]);
    JoinTwo(f[1], f[2]);
  }

  lemma MXRowShape(n: string, d: string, p: string)
    ensures "MX" + " " + n + " " + (d + " " + p) == "MX " + n + " " + d + " " + p
  {
    assert "MX" + " " == "MX ";
  }

  lemma MXInverse(name: string, rest: string, domainName: string) returns (p: string)
    requires MXRecord(name, rest, domainName).Ok?
    ensures var r := MXRecord(name, rest, domainName).value;
      rest == r.data + " " + p && ' ' !in p && ParseInt(p) == r.priority && r.name == name
  {
    var tail := RSplit1(rest);
    JoinTwo(tail[0], tail[1]);
    p := tail[1];
  }

  /** Splitting text whose first field is free of spaces gives that field
      back, and the rest whole. */
  lemma Split1Of(a: string, b: string)
    requires ' ' !in a
    ensures Split1(a + " " + b) == [a, b]
  {
    var f := Split1(a + " " + b);
    JoinTwo(f[0], f[1]);
    FirstFieldAt(f[0], f[1], a, b);
  }

  /** Splitting text whose first two fields are free of spaces gives those
      fields back, and the rest whole. */
  lemma Split2Of(a: string, b: string, c: string)
    requires ' ' !in a && ' ' !in b
    ensures Split2(a + " " + b + " " + c) == [a, b, c]
  {
    assert a + " " + b + " " + c == a + " " + (b + " " + c);
    Split1Of(a, b + " " + c);
    Split1Of(b, c);
  }

  /** Two ways of writing one string with a space-free first field agree. */
  lemma FirstFieldAt(x: string, y: string, a: string, b: string)
    requires ' ' !in x && ' ' !in a
    requires x + " " + y == a + " " + b
    ensures x == a && y == b
  {
    var s := a + " " + b;
    assert s[|x|] == ' ' && s[|a|] == ' ';
    assert |x| == |a|;
    assert x == s[..|x|] == a;
    assert y == s[|x| + 1..] == b;
  }

  /** Splitting at the last space gives back a space-free last field. */
  lemma RSplit1Of(a: string, b: string)
    requires ' ' !in b
    ensures RSplit1(a + " " + b) == [a, b]
  {
    var s := a + " " + b;
    var f := RSplit1(s);
    JoinTwo(f[0], f[1]);
    LastFieldAt(f[0], f[1], a, b);
  }

  lemma LastFieldAt(x: string, y: string, a: string, b: string)
    requires ' ' !in y && ' ' !in b
    requires x + " " + y == a + " " + b
    ensures x == a && y == b
  {
    var s := a + " " + b;
    assert s[|x|] == ' ' && s[|a|] == ' ';
    assert |x| == |a|;
    assert x == s[..|x|] == a;
    assert y == s[|x| + 1..] == b;
  }
}
