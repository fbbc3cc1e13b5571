/** `fetch_records`: the provider's records for a domain, with the provider's
    self-reference placeholder in a CNAME rewritten to the domain's fully
    qualified name. */
module Fetch {
  import opened Records

  /** A CNAME whose data is the provider's "@" placeholder. */
  predicate IsPlaceholder(r: Record) {
    r.rtype == "CNAME" && r.data == "@"
  }

  /** What the loop body does to one record: a placeholder gets the record's
      domain followed by a dot as its data; any other record is left alone. */
  function NormalizeOne(r: Record): (n: Record)
    ensures IsPlaceholder(r) ==> n == r.(data := r.domainName + ".")
    ensures !IsPlaceholder(r) ==> n == r
    ensures !IsPlaceholder(n)
  {
    DottedIsNotAt(r.domainName);
    if IsPlaceholder(r) then r.(data := r.domainName + ".") else r
  }

  /** The records after the loop: each one normalised in its place. */
  function Normalized(s: seq<Record>): (t: seq<Record>)
    ensures |t| == |s|
    ensures forall k :: 0 <= k < |s| ==> t[k] == NormalizeOne(s[k])
  {
    seq(|s|, k requires 0 <= k < |s| => NormalizeOne(s[k]))
  }

  /** The loop of `fetch_records`, which assigns `record.data` in place for
      every placeholder record of the fetched list. */
  method NormalizeFetched(a: array<Record>)
    modifies a
    ensures a[..] == Normalized(old(a[..]))
  {
    var i := 0;
    while i < a.Length
      invariant 0 <= i <= a.Length
      invariant a[..i] == Normalized(old(a[..]))[..i]
      invariant forall k :: i <= k < a.Length ==> a[k] == old(a[k])
    {
      if a[i].rtype == "CNAME" && a[i].data == "@" {
        a[i] := a[i].(data := a[i].domainName + ".");
      }
      assert a[i] == NormalizeOne(old(a[i]));
      i := i + 1;
    }
  }

  /** Normalisation keeps the length and the order, and changes a record
      exactly when it is a placeholder, only in its data. */
  lemma NormalizedRewritesExactly(s: seq<Record>)
    ensures |Normalized(s)| == |s|
    ensures forall k :: 0 <= k < |s| ==> (Normalized(s)[k] != s[k] <==> IsPlaceholder(s[k]))
    ensures forall k :: 0 <= k < |s| && IsPlaceholder(s[k]) ==>
              Normalized(s)[k].data == s[k].domainName + "." && Normalized(s)[k] == s[k].(data := Normalized(s)[k].data)
  {
    forall k | 0 <= k < |s| && IsPlaceholder(s[k]) ensures Normalized(s)[k] != s[k] {
      DottedIsNotAt(s[k].domainName);
    }
  }

  /** A name followed by a dot is never the placeholder itself. */
  lemma DottedIsNotAt(d: string)
    ensures d + "." != "@"
  {
    assert (d + ".")[|d|] == '.';
  }

  /** Normalisation leaves a list unchanged exactly when it holds no
      placeholder; so a second pass finds nothing left to rewrite. */
  lemma NormalizedFixes(s: seq<Record>)
    ensures Normalized(s) == s <==> forall x <- s :: !IsPlaceholder(x)
    ensures Normalized(Normalized(s)) == Normalized(s)
  {
  }
}
