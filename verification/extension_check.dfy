/** The data check of the stats-extender integration test (getBigQueryData):
    the cluster's ConfigMap says which values four tracked extensions must
    have, the rows returned by the BigQuery query say which values were
    reported, and every tracked extension that is missing or wrong is
    reported. The Kubernetes and BigQuery calls are inputs here. */
module ExtensionCheck {
  import opened Wrappers
  import opened BigQuerySpec

  /** The tracked extension names, in the order they are checked. */
  const Extensions: seq<string> :=
    ["accountID", "certificatesStrategy", "installerPlatform", "tectonicUpdaterEnabled"]

  const ClusterIDKey: string := "clusterID"

  /** A column value of a result row: a string, or a value of any other type. */
  datatype Value = Str(s: string) | NonString

  /** One result row: its `extensions_name` and `extensions_value` columns. */
  datatype Row = Row(name: Value, value: Value)

  /** How the row cursor ended after the rows it yielded. */
  datatype CursorEnd = Done | NextFailed

  /** The query as the test sees it: `q.Read` failed, or a cursor over rows. */
  datatype Query = ReadFailed | Cursor(rows: seq<Row>, end: CursorEnd)

  /** One entry of the `wrong` list. */
  datatype Complaint =
    | DidNotFind(name: string)
    | WrongValue(name: string, expected: string, got: string)

  /** The errors getBigQueryData can return. */
  datatype DataError =
    | SpecInvalid(cause: SpecError)
    | ConfigUnavailable
    | NoClusterID
    | ClientFailed
    | QueryReadFailed
    | NextRowFailed
    | NameNotString
    | ValueNotString
    | Mismatch(wrong: seq<Complaint>)

  predicate WellTyped(row: Row) {
    row.name.Str? && row.value.Str?
  }

  /** A map lookup that reads a missing key as "", as Go does. */
  function Lookup(m: map<string, string>, key: string): string {
    if key in m then m[key] else ""
  }

  // ---------------------------------------------------------------- expected

  /** The tracked names the ConfigMap holds, with their ConfigMap values. */
  function ExpectedFrom(config: map<string, string>): map<string, string> {
    map n | n in Extensions && n in config :: config[n]
  }

  /** The loop that fills `expected`: each tracked name the ConfigMap holds,
      with its ConfigMap value. */
  method BuildExpected(config: map<string, string>) returns (expected: map<string, string>)
    ensures forall n :: n in expected <==> n in Extensions && n in config
    ensures forall n :: n in expected ==> expected[n] == config[n]
    ensures expected == ExpectedFrom(config)
  {
    expected := map[];
    var i := 0;
    while i < |Extensions|
      invariant 0 <= i <= |Extensions|
      invariant forall n :: n in expected <==> n in Extensions[..i] && n in config
      invariant forall n :: n in expected ==> expected[n] == config[n]
    {
      var name := Extensions[i];
      assert Extensions[..i + 1] == Extensions[..i] + [name];
      if name in config {
        expected := expected[name := config[name]];
      }
      i := i + 1;
    }
    assert Extensions[..i] == Extensions;
  }

  // ------------------------------------------------------------------- found

  /** What the row loop leaves in `found`: the well-typed rows folded in
      order, a later row overwriting an earlier one of the same name. */
  function Folded(rows: seq<Row>): map<string, string> {
    if rows == [] then map[]
    else
      var last := rows[|rows| - 1];
      var init := Folded(rows[..|rows| - 1]);
      if WellTyped(last) then init[last.name.s := last.value.s] else init
  }

  /** Row `i` exists and carries the name `n`. */
  ghost predicate NamedAt(rows: seq<Row>, i: int, n: string) {
    0 <= i < |rows| && rows[i].name == Str(n)
  }

  /** Row `i` is the last row carrying the name `n`. */
  ghost predicate LastNamedAt(rows: seq<Row>, i: int, n: string) {
    NamedAt(rows, i, n) && forall j :: i < j < |rows| ==> rows[j].name != Str(n)
  }

  /** `found` maps exactly the names that occur in `rows`, each to the value of
      the last row carrying that name. */
  ghost predicate LastWins(found: map<string, string>, rows: seq<Row>) {
    && (forall n :: n in found <==> exists i :: NamedAt(rows, i, n))
    && (forall n :: n in found ==>
          exists i :: LastNamedAt(rows, i, n) && rows[i].value == Str(found[n]))
  }

  lemma FoldedKeys(init: seq<Row>, last: Row, n: string)
    requires WellTyped(last)
    requires n in Folded(init) <==> exists i :: NamedAt(init, i, n)
    ensures n in Folded(init + [last]) <==> exists i :: NamedAt(init + [last], i, n)
  {
    var rows := init + [last];
    assert rows[..|rows| - 1] == init;
    assert Folded(rows) == Folded(init)[last.name.s := last.value.s];
    if n == last.name.s {
      assert NamedAt(rows, |rows| - 1, n);
    }
    if exists i :: NamedAt(init, i, n) {
      var i :| NamedAt(init, i, n);
      assert NamedAt(rows, i, n);
    }
    if exists i :: NamedAt(rows, i, n) {
      var i :| NamedAt(rows, i, n);
      if i < |init| {
        assert NamedAt(init, i, n);
      }
    }
  }

  lemma FoldedValue(init: seq<Row>, last: Row, n: string)
    requires WellTyped(last)
    requires n in Folded(init + [last])
    requires n in Folded(init) ==> exists i :: LastNamedAt(init, i, n) && init[i].value == Str(Folded(init)[n])
    ensures exists i :: LastNamedAt(init + [last], i, n) && (init + [last])[i].value == Str(Folded(init + [last])[n])
  {
    var rows := init + [last];
    assert rows[..|rows| - 1] == init;
    var f, g := Folded(rows), Folded(init);
    if n == last.name.s {
      assert LastNamedAt(rows, |rows| - 1, n);
    } else {
      var i :| LastNamedAt(init, i, n) && init[i].value == Str(g[n]);
      assert rows[i] == init[i];
      forall j | i < j < |rows| ensures rows[j].name != Str(n) {
        if j < |init| {
          assert rows[j] == init[j];
        }
      }
      assert LastNamedAt(rows, i, n);
    }
  }

  /** The fold keeps the value of the last row of each name. */
  lemma {:induction false} FoldedLastWins(rows: seq<Row>)
    requires forall i :: 0 <= i < |rows| ==> WellTyped(rows[i])
    ensures LastWins(Folded(rows), rows)
  {
    if rows != [] {
      var init, last := rows[..|rows| - 1], rows[|rows| - 1];
      assert rows == init + [last];
      FoldedLastWins(init);
      forall n ensures n in Folded(rows) <==> exists i :: NamedAt(rows, i, n) {
        FoldedKeys(init, last, n);
      }
      forall n | n in Folded(rows)
        ensures exists i :: LastNamedAt(rows, i, n) && rows[i].value == Str(Folded(rows)[n])
      {
        FoldedValue(init, last, n);
      }
    }
  }

  /** The row loop: folds the rows into `found`, aborting on the first row
      whose name or value is not a string, and on a cursor error. */
  method FoldRows(rows: seq<Row>, end: CursorEnd) returns (found: map<string, string>, err: Option<DataError>)
    ensures err.None? <==> (forall i :: 0 <= i < |rows| ==> WellTyped(rows[i])) && end == Done
    ensures err.None? ==> found == Folded(rows)
    ensures err.Some? ==> err.value in {NameNotString, ValueNotString, NextRowFailed}
    ensures (forall i :: 0 <= i < |rows| ==> WellTyped(rows[i])) && end == NextFailed ==>
              err == Some(NextRowFailed)
    ensures forall k :: 0 <= k < |rows| && !WellTyped(rows[k]) &&
                        (forall i :: 0 <= i < k ==> WellTyped(rows[i])) ==>
              err == Some(if rows[k].name.Str? then ValueNotString else NameNotString)
  {
    found := map[];
    var k := 0;
    while k < |rows|
      invariant 0 <= k <= |rows|
      invariant forall i :: 0 <= i < k ==> WellTyped(rows[i])
      invariant found == Folded(rows[..k])
    {
      var row := rows[k];
      if !row.name.Str? {
        return found, Some(NameNotString);
      }
      if !row.value.Str? {
        return found, Some(ValueNotString);
      }
      assert rows[..k + 1][..k] == rows[..k];
      found := found[row.name.s := row.value.s];
      k := k + 1;
    }
    assert rows[..k] == rows;
    if end == NextFailed {
      return found, Some(NextRowFailed);
    }
    err := None;
  }

  // ------------------------------------------------------------------- wrong

  /** The verdict on one tracked name: without an expected value it must be
      present; with one, the found value (a missing one read as "") must
      equal it. */
  function CheckExtension(name: string, expected: map<string, string>, found: map<string, string>): (c: Option<Complaint>)
    ensures c.Some? ==> c.value.name == name
    ensures c.None? <==> (if name in expected then Lookup(found, name) == expected[name] else name in found)
    ensures c.Some? && c.value.WrongValue? ==> c.value.got != c.value.expected
  {
    if name !in expected then
      if name in found then None else Some(DidNotFind(name))
    else if Lookup(found, name) != expected[name] then
      Some(WrongValue(name, expected[name], Lookup(found, name)))
    else None
  }

  /** The complaints about `names`, in the order of `names`. */
  function Complaints(names: seq<string>, expected: map<string, string>, found: map<string, string>): seq<Complaint> {
    if names == [] then []
    else
      var init := Complaints(names[..|names| - 1], expected, found);
      match CheckExtension(names[|names| - 1], expected, found)
      case None => init
      case Some(c) => init + [c]
  }

  /** The comparison loop that appends to `wrong`. */
  method CompareExtensions(expected: map<string, string>, found: map<string, string>) returns (wrong: seq<Complaint>)
    ensures wrong == Complaints(Extensions, expected, found)
  {
    wrong := [];
    var i := 0;
    while i < |Extensions|
      invariant 0 <= i <= |Extensions|
      invariant wrong == Complaints(Extensions[..i], expected, found)
    {
      var name := Extensions[i];
      assert Extensions[..i + 1][..i] == Extensions[..i];
      if name !in expected {
        if name !in found {
          wrong := wrong + [DidNotFind(name)];
        }
      } else {
        var foundValue := Lookup(found, name);
        if foundValue != expected[name] {
          wrong := wrong + [WrongValue(name, expected[name], foundValue)];
        }
      }
      i := i + 1;
    }
    assert Extensions[..i] == Extensions;
  }

  /** No complaint at all exactly when every name passes. */
  lemma {:induction false} ComplaintsEmptyIff(names: seq<string>, expected: map<string, string>, found: map<string, string>)
    ensures Complaints(names, expected, found) == [] <==>
            forall i :: 0 <= i < |names| ==> CheckExtension(names[i], expected, found).None?
  {
    if names != [] {
      var init := names[..|names| - 1];
      ComplaintsEmptyIff(init, expected, found);
      forall i | 0 <= i < |init| ensures init[i] == names[i] { }
    }
  }

  /** The complaints are exactly those of the failing names, at most one each,
      in the order of `names`: `Positions` gives the index in `names` of each
      complaint, strictly increasing. */
  lemma {:induction false} ComplaintsInOrder(names: seq<string>, expected: map<string, string>, found: map<string, string>)
    returns (positions: seq<nat>)
    ensures |positions| == |Complaints(names, expected, found)| <= |names|
    ensures forall k :: 0 <= k < |positions| ==>
              positions[k] < |names| &&
              CheckExtension(names[positions[k]], expected, found) == Some(Complaints(names, expected, found)[k])
    ensures forall k, l :: 0 <= k < l < |positions| ==> positions[k] < positions[l]
    ensures forall i :: 0 <= i < |names| && CheckExtension(names[i], expected, found).Some? ==> i in positions
  {
    if names == [] {
      positions := [];
    } else {
      var init := names[..|names| - 1];
      var before := ComplaintsInOrder(init, expected, found);
      forall i | 0 <= i < |init| ensures init[i] == names[i] { }
      if CheckExtension(names[|names| - 1], expected, found).Some? {
        positions := before + [|names| - 1];
      } else {
        positions := before;
      }
    }
  }

  /** The per-extension verdict in terms of the ConfigMap: a tracked name the
      ConfigMap lacks is reported iff no row carries it; one the ConfigMap
      holds is reported iff the found value, "" when absent, differs. */
  lemma ExtensionVerdict(config: map<string, string>, found: map<string, string>, name: string)
    requires name in Extensions
    ensures var expected := ExpectedFrom(config);
            && (name !in config ==>
                  (CheckExtension(name, expected, found) == Some(DidNotFind(name)) <==> name !in found))
            && (name !in config ==>
                  (CheckExtension(name, expected, found).None? <==> name in found))
            && (name in config ==>
                  (CheckExtension(name, expected, found).None? <==> Lookup(found, name) == config[name]))
            && (name in config && CheckExtension(name, expected, found).Some? ==>
                  CheckExtension(name, expected, found) == Some(WrongValue(name, config[name], Lookup(found, name))))
  {
  }

  /** An expected "" is met by a missing row. */
  lemma EmptyExpectedPassesWhenAbsent(expected: map<string, string>, found: map<string, string>, name: string)
    requires name in expected && expected[name] == ""
    requires name !in found
    ensures CheckExtension(name, expected, found).None?
  {
  }

  // ----------------------------------------------------------- the whole check

  /** The query was read and every row came back as two strings. */
  predicate RowsReadable(query: Query) {
    && query.Cursor?
    && (forall i :: 0 <= i < |query.rows| ==> WellTyped(query.rows[i]))
    && query.end == Done
  }

  /** Every tracked name passes its check. */
  predicate AllTrackedPass(expected: map<string, string>, found: map<string, string>) {
    forall n :: n in Extensions ==> CheckExtension(n, expected, found).None?
  }

  /** The spec parses and the ConfigMap was fetched and holds `clusterID`:
      the steps before the BigQuery client is created all passed. */
  predicate PreludePasses(spec: string, config: Option<map<string, string>>) {
    ParseBigQuerySpec(spec).err.None? && config.Some? && ClusterIDKey in config.value
  }

  /** A name without rows is not in the fold. */
  lemma {:induction false} FoldedWithoutName(rows: seq<Row>, name: string)
    requires forall i :: 0 <= i < |rows| ==> rows[i].name != Str(name)
    ensures name !in Folded(rows)
  {
    if rows != [] {
      var init := rows[..|rows| - 1];
      assert forall i :: 0 <= i < |init| ==> init[i] == rows[i];
      FoldedWithoutName(init, name);
    }
  }

  /** The complaint about a failing name is in the list. */
  lemma {:induction false} ComplaintListed(names: seq<string>, expected: map<string, string>, found: map<string, string>, i: int)
    requires 0 <= i < |names| && CheckExtension(names[i], expected, found).Some?
    ensures CheckExtension(names[i], expected, found).value in Complaints(names, expected, found)
  {
    var init := names[..|names| - 1];
    if i < |init| {
      assert init[i] == names[i];
      ComplaintListed(init, expected, found, i);
    }
  }

  /** A tracked extension that is neither in the ConfigMap nor in any row is
      reported as not found. */
  lemma AbsentEverywhereReported(config: map<string, string>, rows: seq<Row>, name: string)
    requires name in Extensions && name !in config
    requires forall i :: 0 <= i < |rows| ==> rows[i].name != Str(name)
    ensures DidNotFind(name) in Complaints(Extensions, ExpectedFrom(config), Folded(rows))
  {
    FoldedWithoutName(rows, name);
    var i :| 0 <= i < |Extensions| && Extensions[i] == name;
    ComplaintListed(Extensions, ExpectedFrom(config), Folded(rows), i);
  }

  /** getBigQueryData, with the ConfigMap fetch (`None` on error), the client
      creation and the query as inputs. */
  method GetBigQueryData(spec: string, config: Option<map<string, string>>, clientOk: bool, query: Query)
    returns (r: Outcome<DataError>)
    ensures ParseBigQuerySpec(spec).err.Some? ==> r == Fail(SpecInvalid(ParseBigQuerySpec(spec).err.value))
    ensures ParseBigQuerySpec(spec).err.None? && config.None? ==> r == Fail(ConfigUnavailable)
    ensures ParseBigQuerySpec(spec).err.None? && config.Some? && ClusterIDKey !in config.value ==>
              r == Fail(NoClusterID)
    ensures PreludePasses(spec, config) && !clientOk ==> r == Fail(ClientFailed)
    ensures PreludePasses(spec, config) && clientOk && query.ReadFailed? ==> r == Fail(QueryReadFailed)
    ensures PreludePasses(spec, config) && clientOk && query.Cursor? ==>
              forall k :: 0 <= k < |query.rows| && !WellTyped(query.rows[k]) &&
                          (forall i :: 0 <= i < k ==> WellTyped(query.rows[i])) ==>
                r == Fail(if query.rows[k].name.Str? then ValueNotString else NameNotString)
    ensures PreludePasses(spec, config) && clientOk && query.Cursor? && query.end == NextFailed &&
            (forall i :: 0 <= i < |query.rows| ==> WellTyped(query.rows[i])) ==>
              r == Fail(NextRowFailed)
    ensures PreludePasses(spec, config) && clientOk && RowsReadable(query) &&
            Complaints(Extensions, ExpectedFrom(config.value), Folded(query.rows)) != [] ==>
              r == Fail(Mismatch(Complaints(Extensions, ExpectedFrom(config.value), Folded(query.rows))))
    ensures r.Pass? <==>
              && PreludePasses(spec, config)
              && clientOk
              && RowsReadable(query)
              && AllTrackedPass(ExpectedFrom(config.value), Folded(query.rows))
    ensures r.Fail? && r.error.Mismatch? ==>
              && config.Some? && RowsReadable(query)
              && r.error.wrong == Complaints(Extensions, ExpectedFrom(config.value), Folded(query.rows))
              && 0 < |r.error.wrong| <= |Extensions|
  {
    var parsed := ParseBigQuerySpec(spec);
    if parsed.err.Some? {
      return Fail(SpecInvalid(parsed.err.value));
    }
    if config.None? {
      return Fail(ConfigUnavailable);
    }
    var cm := config.value;
    if ClusterIDKey !in cm {
      return Fail(NoClusterID);
    }
    if !clientOk {
      return Fail(ClientFailed);
    }
    var expected := BuildExpected(cm);
    if query.ReadFailed? {
      return Fail(QueryReadFailed);
    }
    var found, err := FoldRows(query.rows, query.end);
    if err.Some? {
      return Fail(err.value);
    }
    var wrong := CompareExtensions(expected, found);
    ComplaintsEmptyIff(Extensions, expected, found);
    if |wrong| != 0 {
      var positions := ComplaintsInOrder(Extensions, expected, found);
      return Fail(Mismatch(wrong));
    }
    forall n | n in Extensions
      ensures CheckExtension(n, expected, found).None?
    {
      var i :| 0 <= i < |Extensions| && Extensions[i] == n;
    }
    return Pass;
  }
}
