/** The BigQuery spec parser of the stats-extender integration test: a spec
    `bigquery://project.dataset.table` is split into its three parts, checked
    first for the scheme prefix and then against the anchored expression
    `^bigquery://([^.]+)\.([^.]+)\.([^.]+)$`. */
module BigQuerySpec {
  import opened Wrappers

  const Scheme: string := "bigquery://"

  /** Why a spec was rejected. */
  datatype SpecError =
    | MissingScheme            // the spec does not begin with `bigquery://`
    | Malformed(spec: string)  // it does, but the rest is not `p.d.t`

  /** Go's four results `(project, dataset, table, err)`. */
  datatype Parsed = Parsed(project: string, dataset: string, table: string, err: Option<SpecError>)

  /** One capture group `[^.]+`: non-empty and free of dots. */
  predicate Segment(s: string) {
    |s| > 0 && '.' !in s
  }

  /** The spec string that names a table. */
  function Format(project: string, dataset: string, table: string): string {
    Scheme + project + "." + dataset + "." + table
  }

  /** The position of the first dot in `s`, or `|s|` when there is none. */
  function IndexOfDot(s: string): (i: nat)
    ensures i <= |s|
    ensures '.' !in s[..i]
    ensures i < |s| ==> s[i] == '.'
  {
    if s == [] || s[0] == '.' then 0
    else
      var j := IndexOfDot(s[1..]);
      assert s[..j + 1] == [s[0]] + s[1..][..j];
      j + 1
  }

  /** The submatches of the anchored expression, when it matches. */
  function MatchSpec(spec: string): (m: Option<(string, string, string)>)
    ensures m.Some? ==> Scheme <= spec
    ensures m.Some? ==> Segment(m.value.0) && Segment(m.value.1) && Segment(m.value.2)
  {
    if !(Scheme <= spec) then None
    else
      var rest := spec[|Scheme|..];
      var i := IndexOfDot(rest);
      if i == |rest| then None
      else
        var tail := rest[i + 1..];
        var j := IndexOfDot(tail);
        if j == |tail| then None
        else
          var p, d, t := rest[..i], tail[..j], tail[j + 1..];
          if Segment(p) && Segment(d) && Segment(t) then Some((p, d, t)) else None
  }

  /** parseBigQuerySpec: no partial triple ever escapes a failed parse. */
  function ParseBigQuerySpec(spec: string): (r: Parsed)
    ensures !(Scheme <= spec) ==> r == Parsed("", "", "", Some(MissingScheme))
    ensures Scheme <= spec && r.err.Some? ==> r == Parsed("", "", "", Some(Malformed(spec)))
    ensures r.err.None? ==>
              Segment(r.project) && Segment(r.dataset) && Segment(r.table) &&
              Format(r.project, r.dataset, r.table) == spec
  {
    if !(Scheme <= spec) then Parsed("", "", "", Some(MissingScheme))
    else
      match MatchSpec(spec)
      case None => Parsed("", "", "", Some(Malformed(spec)))
      case Some((p, d, t)) =>
        MatchSpecSound(spec, p, d, t);
        Parsed(p, d, t, None)
  }

  /** Every match rebuilds the spec from segments. */
  lemma MatchSpecSound(spec: string, p: string, d: string, t: string)
    requires MatchSpec(spec) == Some((p, d, t))
    ensures Segment(p) && Segment(d) && Segment(t)
    ensures Format(p, d, t) == spec
  {
    var rest := spec[|Scheme|..];
    var i := IndexOfDot(rest);
    assert i < |rest|;
    var tail := rest[i + 1..];
    var j := IndexOfDot(tail);
    assert j < |tail|;
    assert p == rest[..i] && d == tail[..j] && t == tail[j + 1..];
    assert tail == d + "." + t by {
      assert tail == tail[..j] + [tail[j]] + tail[j + 1..];
    }
    assert rest == p + "." + tail by {
      assert rest == rest[..i] + [rest[i]] + rest[i + 1..];
    }
    assert spec == Scheme + rest;
    calc {
      Format(p, d, t);
      Scheme + p + "." + d + "." + t;
      { assert Scheme + p + "." + d + "." + t == Scheme + (p + "." + (d + "." + t)); }
      Scheme + (p + "." + tail);
    }
  }

  /** The first dot of `a + "." + b` is the one after `a`, when `a` has none. */
  lemma IndexOfDotAfterSegment(a: string, b: string)
    requires '.' !in a
    ensures IndexOfDot(a + "." + b) == |a|
  {
    var s := a + "." + b;
    assert s[|a|] == '.';
  }

  /** Every spec built from three segments matches, with those segments. */
  lemma MatchSpecComplete(p: string, d: string, t: string)
    requires Segment(p) && Segment(d) && Segment(t)
    ensures MatchSpec(Format(p, d, t)) == Some((p, d, t))
  {
    var spec := Format(p, d, t);
    var tail := d + "." + t;
    var rest := p + "." + tail;
    assert spec == Scheme + rest;
    assert spec[|Scheme|..] == rest;
    IndexOfDotAfterSegment(p, tail);
    assert rest[|p| + 1..] == tail;
    assert rest[..|p|] == p;
    IndexOfDotAfterSegment(d, t);
    assert tail[..|d|] == d;
    assert tail[|d| + 1..] == t;
  }

  /** Round trip: a spec rebuilt from three segments parses back to them. */
  lemma {:induction false} ParseFormat(p: string, d: string, t: string)
    requires Segment(p) && Segment(d) && Segment(t)
    ensures ParseBigQuerySpec(Format(p, d, t)) == Parsed(p, d, t, None)
  {
    MatchSpecComplete(p, d, t);
  }

  /** The parse succeeds exactly on the specs that name a table. */
  lemma ParseSucceedsIff(spec: string)
    ensures ParseBigQuerySpec(spec).err.None? <==>
            exists p, d, t :: Segment(p) && Segment(d) && Segment(t) && Format(p, d, t) == spec
  {
    var r := ParseBigQuerySpec(spec);
    if r.err.None? {
      assert Segment(r.project) && Segment(r.dataset) && Segment(r.table) &&
             Format(r.project, r.dataset, r.table) == spec;
    }
    if exists p, d, t :: Segment(p) && Segment(d) && Segment(t) && Format(p, d, t) == spec {
      var p, d, t :| Segment(p) && Segment(d) && Segment(t) && Format(p, d, t) == spec;
      ParseFormat(p, d, t);
    }
  }

  /** The number of dots in a string. */
  function Dots(s: string): nat {
    if s == [] then 0 else (if s[0] == '.' then 1 else 0) + Dots(s[1..])
  }

  lemma {:induction false} DotsAppend(a: string, b: string)
    ensures Dots(a + b) == Dots(a) + Dots(b)
  {
    if a == [] {
      assert a + b == b;
    } else {
      assert (a + b)[1..] == a[1..] + b;
      DotsAppend(a[1..], b);
    }
  }

  lemma {:induction false} NoDots(s: string)
    requires '.' !in s
    ensures Dots(s) == 0
  {
    if s != [] {
      assert '.' !in s[1..] by {
        forall k | 0 <= k < |s| - 1 ensures s[1..][k] != '.' {
          assert s[1..][k] == s[k + 1];
        }
      }
      NoDots(s[1..]);
    }
  }

  /** A spec whose path after the scheme has fewer or more than two dots is
      rejected as malformed. */
  lemma RejectsWrongDotCount(spec: string)
    requires Scheme <= spec
    requires Dots(spec[|Scheme|..]) != 2
    ensures ParseBigQuerySpec(spec) == Parsed("", "", "", Some(Malformed(spec)))
  {
    var r := ParseBigQuerySpec(spec);
    if r.err.None? {
      var p, d, t := r.project, r.dataset, r.table;
      assert spec[|Scheme|..] == p + "." + d + "." + t;
      DotsAppend(p + "." + d + ".", t);
      DotsAppend(p + "." + d, ".");
      DotsAppend(p + ".", d);
      DotsAppend(p, ".");
      NoDots(p);
      NoDots(d);
      NoDots(t);
    }
  }
}
