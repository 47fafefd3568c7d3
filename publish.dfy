/**
 * The row loop of `Verdict.publish` in verdict.py: the first spreadsheet row
 * names the columns, every later row becomes a record keyed by them,
 * configuration rows go through untouched, the two name columns are derived
 * from each other, the configured filters decide which records are kept, and
 * the kept records are written as JSON, as JSONP and as CSV.
 */
module Publish {
  import opened Results

  /** A Python dict from column name to cell text. */
  type Dict = map<string, string>

  /** One configured filter: `{'key': ..., 'value': ...}`. */
  datatype Filter = Filter(key: string, value: string)

  /** What makes `publish` raise: no rows at all, or a `KeyError`. */
  datatype PublishError = NoHeaderRow | MissingKey(key: string)

  /** The kept records, and the spreadsheet rows they came from, in order. */
  datatype Kept = Kept(records: seq<Dict>, rows: seq<seq<string>>)

  /** The text of the `.json` and the `.jsonp` file. */
  datatype Files = Files(json: string, jsonp: string)

  /** All that one call writes: the records, the CSV rows (header first) and the JSON files if any. */
  datatype Published = Published(records: seq<Dict>, csvRows: seq<seq<string>>, files: Option<Files>)

  function Min(a: nat, b: nat): nat { if a <= b then a else b }

  // ---------------------------------------------------------------------
  // dict(zip(keys, row))

  /** The dict of the first `n` pairs; a later pair overwrites an earlier one with the same key. */
  function ZipPrefix(keys: seq<string>, row: seq<string>, n: nat): Dict
    requires n <= |keys| && n <= |row|
  {
    if n == 0 then map[] else ZipPrefix(keys, row, n - 1)[keys[n - 1] := row[n - 1]]
  }

  /** `dict(zip(keys, row))`: `zip` stops at the shorter of the two. */
  function Zip(keys: seq<string>, row: seq<string>): Dict
  {
    ZipPrefix(keys, row, Min(|keys|, |row|))
  }

  lemma {:induction false} ZipPrefixKeys(keys: seq<string>, row: seq<string>, n: nat)
    requires n <= |keys| && n <= |row|
    ensures forall k :: k in ZipPrefix(keys, row, n) <==> exists i | 0 <= i < n :: keys[i] == k
  {
    if n > 0 {
      ZipPrefixKeys(keys, row, n - 1);
    }
  }

  lemma {:induction false} ZipPrefixValues(keys: seq<string>, row: seq<string>, n: nat)
    requires n <= |keys| && n <= |row|
    ensures forall i | 0 <= i < n && (forall j | i < j < n :: keys[j] != keys[i]) ::
      keys[i] in ZipPrefix(keys, row, n) && ZipPrefix(keys, row, n)[keys[i]] == row[i]
  {
    if n > 0 {
      ZipPrefixValues(keys, row, n - 1);
      var m := ZipPrefix(keys, row, n);
      forall i | 0 <= i < n && (forall j | i < j < n :: keys[j] != keys[i])
        ensures keys[i] in m && m[keys[i]] == row[i]
      {
        if i < n - 1 {
          assert keys[n - 1] != keys[i];
          assert forall j | i < j < n - 1 :: keys[j] != keys[i];
        }
      }
    }
  }

  /**
   * The keys of the record are the keys paired with a cell, and each one
   * holds the cell of its last occurrence among them.
   */
  lemma ZipContents(keys: seq<string>, row: seq<string>)
    ensures forall k :: k in Zip(keys, row) <==> exists i | 0 <= i < Min(|keys|, |row|) :: keys[i] == k
    ensures forall i | 0 <= i < Min(|keys|, |row|) && (forall j | i < j < Min(|keys|, |row|) :: keys[j] != keys[i]) ::
      keys[i] in Zip(keys, row) && Zip(keys, row)[keys[i]] == row[i]
  {
    ZipPrefixKeys(keys, row, Min(|keys|, |row|));
    ZipPrefixValues(keys, row, Min(|keys|, |row|));
  }

  // ---------------------------------------------------------------------
  // Names

  /** `s.split(' ')[-1]`: what follows the last space, or all of `s` if it has none. */
  function LastToken(s: string): (t: string)
    ensures |t| <= |s| && t == s[|s| - |t|..] && ' ' !in t
    ensures |t| < |s| ==> s[|s| - |t| - 1] == ' '
  {
    if s == [] || s[|s| - 1] == ' ' then [] else LastToken(s[..|s| - 1]) + [s[|s| - 1]]
  }

  /** `name_last` from `name_full` if it is present, otherwise `name_full` from the two parts. */
  function Derive(record: Dict): Result<Dict, PublishError>
  {
    if "name_full" in record then Success(record["name_last" := LastToken(record["name_full"])])
    else if "name_first" !in record then Failure(MissingKey("name_first"))
    else if "name_last" !in record then Failure(MissingKey("name_last"))
    else Success(record["name_full" := record["name_first"] + " " + record["name_last"]])
  }

  /**
   * After the derivation a record has both names, agreeing with each other,
   * and every other column as it was; it fails exactly when neither
   * `name_full` nor both parts are present, naming `name_first` first.
   */
  lemma DeriveNames(record: Dict)
    ensures Derive(record).Failure? <==> "name_full" !in record && ("name_first" !in record || "name_last" !in record)
    ensures Derive(record).Failure? ==> Derive(record).error == MissingKey(if "name_first" !in record then "name_first" else "name_last")
    ensures Derive(record).Success? ==> var d := Derive(record).value;
      && "name_full" in d && "name_last" in d
      && (forall k | k != "name_full" && k != "name_last" :: (k in d <==> k in record) && (k in d ==> d[k] == record[k]))
      && ("name_full" in record ==> d["name_full"] == record["name_full"] && d["name_last"] == LastToken(record["name_full"]))
      && ("name_full" !in record ==> d["name_full"] == record["name_first"] + " " + record["name_last"] && d["name_last"] == record["name_last"])
  {
    assert "name_full" != "name_last" by {
      assert "name_full"[5] != "name_last"[5];
    }
  }

  // ---------------------------------------------------------------------
  // Filters

  /** Python's `sub in s` on strings. */
  function Contains(s: string, sub: string): bool
  {
    if sub <= s then true
    else if s == [] then false
    else Contains(s[1..], sub)
  }

  /** `sub` starts at some position of `s`. */
  ghost predicate IsSubstring(sub: string, s: string)
  {
    exists i | 0 <= i <= |s| :: sub <= s[i..]
  }

  lemma {:induction false} ContainsMeansSubstring(s: string, sub: string)
    ensures Contains(s, sub) <==> IsSubstring(sub, s)
  {
    if sub <= s {
      assert s[0..] == s;
    } else if s == [] {
    } else {
      ContainsMeansSubstring(s[1..], sub);
      if IsSubstring(sub, s[1..]) {
        var i :| 0 <= i <= |s[1..]| && sub <= s[1..][i..];
        assert s[1..][i..] == s[i + 1..];
      }
      if IsSubstring(sub, s) {
        var i :| 0 <= i <= |s| && sub <= s[i..];
        assert i != 0;
        assert s[1..][i - 1..] == s[i..];
      }
    }
  }

  /** Whether one filter rejects the record; a missing column is a `KeyError`. */
  function Rejects(record: Dict, item: Filter): Result<bool, PublishError>
  {
    if item.key == "Year" then
      if "Date" !in record then Failure(MissingKey("Date"))
      else Success(!Contains(record["Date"], item.value))
    else if item.key !in record then Failure(MissingKey(item.key))
    else Success(record[item.key] != item.value)
  }

  /**
   * The `publish` flag after the filter loop: every filter is evaluated in
   * turn, even once the flag is down, so a later missing column still raises.
   */
  function Passes(record: Dict, filters: seq<Filter>): Result<bool, PublishError>
    decreases |filters|
  {
    if filters == [] then Success(true)
    else
      match Passes(record, filters[..|filters| - 1])
      case Failure(e) => Failure(e)
      case Success(publish) =>
        match Rejects(record, filters[|filters| - 1])
        case Failure(e) => Failure(e)
        case Success(rejects) => Success(publish && !rejects)
  }

  /** The record satisfies the filter: a substring of `Date` for `Year`, equal to the column otherwise. */
  ghost predicate Matches(record: Dict, item: Filter)
  {
    if item.key == "Year" then "Date" in record && IsSubstring(item.value, record["Date"])
    else item.key in record && record[item.key] == item.value
  }

  /** Every filter can look up the column it needs. */
  predicate Applicable(record: Dict, filters: seq<Filter>)
  {
    forall i | 0 <= i < |filters| :: if filters[i].key == "Year" then "Date" in record else filters[i].key in record
  }

  /**
   * The filters raise exactly when one of them lacks its column, and
   * otherwise keep the record exactly when it satisfies every one of them.
   */
  lemma {:induction false} PassesMeans(record: Dict, filters: seq<Filter>)
    ensures Passes(record, filters).Failure? <==> !Applicable(record, filters)
    ensures Passes(record, filters) == Success(true) <==> forall i | 0 <= i < |filters| :: Matches(record, filters[i])
    decreases |filters|
  {
    if filters != [] {
      var n := |filters| - 1;
      var prefix := filters[..n];
      PassesMeans(record, prefix);
      assert forall i | 0 <= i < n :: prefix[i] == filters[i];
      var item := filters[n];
      if item.key == "Year" && "Date" in record {
        ContainsMeansSubstring(record["Date"], item.value);
      }
    }
  }

  lemma NoFiltersPass(record: Dict)
    ensures Passes(record, []) == Success(true)
  {
  }

  // ---------------------------------------------------------------------
  // The loop

  /**
   * One row after the header: a configuration record (one with a `sheet`
   * column) is kept as it is; any other is kept, with its names derived,
   * when it passes the filters.
   */
  function Process(keys: seq<string>, row: seq<string>, filters: seq<Filter>): Result<Option<Dict>, PublishError>
  {
    var record := Zip(keys, row);
    if "sheet" in record then Success(Some(record))
    else
      match Derive(record)
      case Failure(e) => Failure(e)
      case Success(derived) =>
        match Passes(derived, filters)
        case Failure(e) => Failure(e)
        case Success(publish) => if publish then Success(Some(derived)) else Success(None)
  }

  /** A configuration row is kept unchanged whatever the filters, and never raises. */
  lemma ConfigRowPasses(keys: seq<string>, row: seq<string>, filters: seq<Filter>)
    requires "sheet" in Zip(keys, row)
    ensures Process(keys, row, filters) == Success(Some(Zip(keys, row)))
  {
  }

  /** Any other row is kept exactly when its names derive and it satisfies every filter. */
  lemma DataRowKept(keys: seq<string>, row: seq<string>, filters: seq<Filter>)
    requires "sheet" !in Zip(keys, row)
    ensures Process(keys, row, filters).Success? && Process(keys, row, filters).value.Some?
      <==> Derive(Zip(keys, row)).Success? && forall i | 0 <= i < |filters| :: Matches(Derive(Zip(keys, row)).value, filters[i])
    ensures Process(keys, row, filters).Success? && Process(keys, row, filters).value.Some? ==>
      Process(keys, row, filters).value.value == Derive(Zip(keys, row)).value
  {
    if Derive(Zip(keys, row)).Success? {
      PassesMeans(Derive(Zip(keys, row)).value, filters);
    }
  }

  /** The positions in `data` of the rows Collect keeps, in order. */
  function KeptIndices(keys: seq<string>, data: seq<seq<string>>, filters: seq<Filter>): seq<nat>
    decreases |data|
  {
    if data == [] then []
    else
      var last := Process(keys, data[|data| - 1], filters);
      KeptIndices(keys, data[..|data| - 1], filters) + (if last.Success? && last.value.Some? then [|data| - 1] else [])
  }

  /** The rows after the header, in order; the first `KeyError` ends the loop. */
  function Collect(keys: seq<string>, data: seq<seq<string>>, filters: seq<Filter>): Result<Kept, PublishError>
    decreases |data|
  {
    if data == [] then Success(Kept([], []))
    else
      match Collect(keys, data[..|data| - 1], filters)
      case Failure(e) => Failure(e)
      case Success(kept) =>
        var row := data[|data| - 1];
        match Process(keys, row, filters)
        case Failure(e) => Failure(e)
        case Success(None) => Success(kept)
        case Success(Some(record)) => Success(Kept(kept.records + [record], kept.rows + [row]))
  }

  const JsonpOpen := "verdict_callback("
  const JsonpClose := ");"

  /** What the JSON files hold for the kept records: nothing is written when none is kept. */
  function Write(records: seq<Dict>, encode: seq<Dict> -> string): (files: Option<Files>)
    ensures files.None? <==> records == []
    ensures files.Some? ==> files.value.json == encode(records)
  {
    if records == [] then None
    else Some(Files(encode(records), "verdict_callback(" + encode(records) + ");"))
  }

  /** The JSON inside a JSONP text, as the page's callback receives it. */
  function Unwrap(jsonp: string): Option<string>
  {
    if |JsonpOpen| + |JsonpClose| <= |jsonp| && jsonp[..|JsonpOpen|] == JsonpOpen
       && jsonp[|jsonp| - |JsonpClose|..] == JsonpClose
    then Some(jsonp[|JsonpOpen|..|jsonp| - |JsonpClose|])
    else None
  }

  /** The JSONP file wraps exactly the text of the JSON file. */
  lemma WrittenFilesAgree(records: seq<Dict>, encode: seq<Dict> -> string)
    requires records != []
    ensures Unwrap(Write(records, encode).value.jsonp) == Some(Write(records, encode).value.json)
  {
    var json := encode(records);
    var jsonp := JsonpOpen + json + JsonpClose;
    assert Write(records, encode).value.jsonp == jsonp;
    assert jsonp[..|JsonpOpen|] == JsonpOpen;
    assert jsonp[|jsonp| - |JsonpClose|..] == JsonpClose;
    assert jsonp[|JsonpOpen|..|jsonp| - |JsonpClose|] == json;
  }

  /** The whole call: the header row supplies the keys and heads the CSV; it never becomes a record. */
  function PublishSpec(rows: seq<seq<string>>, filters: seq<Filter>, encode: seq<Dict> -> string): Result<Published, PublishError>
  {
    if rows == [] then Failure(NoHeaderRow)
    else
      match Collect(rows[0], rows[1..], filters)
      case Failure(e) => Failure(e)
      case Success(kept) => Success(Published(kept.records, [rows[0]] + kept.rows, Write(kept.records, encode)))
  }

  /** Combining the outcome of two consecutive stretches of rows. */
  function Then(a: Result<Kept, PublishError>, b: Result<Kept, PublishError>): Result<Kept, PublishError>
  {
    match a
    case Failure(e) => Failure(e)
    case Success(x) =>
      match b
      case Failure(e) => Failure(e)
      case Success(y) => Success(Kept(x.records + y.records, x.rows + y.rows))
  }

  /**
   * Collecting two stretches of rows is collecting each and concatenating:
   * the kept records of the first stretch precede those of the second, and
   * the first error, if any, wins.
   */
  lemma {:induction false} CollectConcat(keys: seq<string>, a: seq<seq<string>>, b: seq<seq<string>>, filters: seq<Filter>)
    ensures Collect(keys, a + b, filters) == Then(Collect(keys, a, filters), Collect(keys, b, filters))
    decreases |b|
  {
    if b == [] {
      assert a + b == a;
      if Collect(keys, a, filters).Success? {
        var x := Collect(keys, a, filters).value;
        assert x.records + [] == x.records && x.rows + [] == x.rows;
      }
    } else {
      var n := |b| - 1;
      CollectConcat(keys, a, b[..n], filters);
      assert (a + b)[..|a + b| - 1] == a + b[..n];
      assert (a + b)[|a + b| - 1] == b[n];
      var ca, cb := Collect(keys, a, filters), Collect(keys, b[..n], filters);
      if ca.Success? && cb.Success? {
        match Process(keys, b[n], filters)
        case Failure(e) =>
        case Success(None) =>
        case Success(Some(record)) =>
          assert ca.value.records + (cb.value.records + [record]) == (ca.value.records + cb.value.records) + [record];
          assert ca.value.rows + (cb.value.rows + [b[n]]) == (ca.value.rows + cb.value.rows) + [b[n]];
      }
    }
  }

  /**
   * Each kept record is what its own row processes to, and the CSV row kept
   * beside it is that row.
   */
  lemma {:induction false} CollectAligned(keys: seq<string>, data: seq<seq<string>>, filters: seq<Filter>)
    requires Collect(keys, data, filters).Success?
    ensures var kept := Collect(keys, data, filters).value;
      && |kept.records| == |kept.rows| <= |data|
      && forall j | 0 <= j < |kept.rows| :: Process(keys, kept.rows[j], filters) == Success(Some(kept.records[j]))
    decreases |data|
  {
    if data != [] {
      CollectAligned(keys, data[..|data| - 1], filters);
    }
  }

  /**
   * The kept CSV rows are a subsequence of `data`: the rows at KeptIndices,
   * in their original order.
   */
  lemma {:induction false} CollectSubsequence(keys: seq<string>, data: seq<seq<string>>, filters: seq<Filter>)
    requires Collect(keys, data, filters).Success?
    ensures var kept := Collect(keys, data, filters).value;
      var idx := KeptIndices(keys, data, filters);
      && |idx| == |kept.rows|
      && (forall j | 0 <= j < |idx| :: idx[j] < |data| && kept.rows[j] == data[idx[j]])
      && (forall j, k | 0 <= j < k < |idx| :: idx[j] < idx[k])
    decreases |data|
  {
    if data != [] {
      var prefix := data[..|data| - 1];
      var n := |data| - 1;
      CollectSubsequence(keys, prefix, filters);
      var before := Collect(keys, prefix, filters).value;
      var idx0 := KeptIndices(keys, prefix, filters);
      var kept := Collect(keys, data, filters).value;
      var idx := KeptIndices(keys, data, filters);
      if Process(keys, data[n], filters).value.Some? {
        assert kept.rows == before.rows + [data[n]];
        assert idx == idx0 + [n];
        SubsequenceGrows(data, before.rows, idx0);
      } else {
        assert kept == before && idx == idx0;
        forall j | 0 <= j < |idx| ensures kept.rows[j] == data[idx[j]] {
          assert data[idx[j]] == prefix[idx[j]];
        }
      }
    }
  }

  /** Rows picked at increasing indices of `data` minus its last row stay so with the last row added. */
  lemma SubsequenceGrows(data: seq<seq<string>>, rows: seq<seq<string>>, idx: seq<nat>)
    requires data != [] && |idx| == |rows|
    requires forall j | 0 <= j < |idx| :: idx[j] < |data| - 1 && rows[j] == data[..|data| - 1][idx[j]]
    requires forall j, k | 0 <= j < k < |idx| :: idx[j] < idx[k]
    ensures var idx' := idx + [|data| - 1]; var rows' := rows + [data[|data| - 1]];
      && (forall j | 0 <= j < |idx'| :: idx'[j] < |data| && rows'[j] == data[idx'[j]])
      && (forall j, k | 0 <= j < k < |idx'| :: idx'[j] < idx'[k])
  {
    var idx' := idx + [|data| - 1];
    var rows' := rows + [data[|data| - 1]];
    forall j | 0 <= j < |idx'| ensures idx'[j] < |data| && rows'[j] == data[idx'[j]] {
      if j < |idx| {
        assert idx'[j] == idx[j] && rows'[j] == rows[j];
      }
    }
    forall j, k | 0 <= j < k < |idx'| ensures idx'[j] < idx'[k] {
      assert idx'[j] == idx[j];
      if k < |idx| { assert idx'[k] == idx[k]; }
    }
  }

  /** Every row of `data` whose index KeptIndices leaves out is one that Process drops. */
  lemma {:induction false} CollectDrops(keys: seq<string>, data: seq<seq<string>>, filters: seq<Filter>)
    requires Collect(keys, data, filters).Success?
    ensures var idx := KeptIndices(keys, data, filters);
      forall i | 0 <= i < |data| && i !in idx :: Process(keys, data[i], filters) == Success(None)
    decreases |data|
  {
    if data != [] {
      var prefix := data[..|data| - 1];
      var n := |data| - 1;
      var out := Process(keys, data[n], filters);
      assert Collect(keys, prefix, filters).Success? && out.Success?;
      CollectDrops(keys, prefix, filters);
      var idx0 := KeptIndices(keys, prefix, filters);
      var last: seq<nat> := if out.value.Some? then [n] else [];
      var idx := KeptIndices(keys, data, filters);
      assert idx == idx0 + last;
      forall i | 0 <= i < |data| && i !in idx ensures Process(keys, data[i], filters) == Success(None) {
        if i < n {
          assert i !in idx0;
          assert data[i] == prefix[i];
        } else {
          assert last == [];
        }
      }
    }
  }

  lemma {:induction false} NoFiltersKeepAll(keys: seq<string>, data: seq<seq<string>>)
    requires forall i | 0 <= i < |data| :: "sheet" in Zip(keys, data[i]) || Derive(Zip(keys, data[i])).Success?
    ensures Collect(keys, data, []).Success?
    ensures Collect(keys, data, []).value.rows == data
    decreases |data|
  {
    if data != [] {
      var n := |data| - 1;
      NoFiltersKeepAll(keys, data[..n]);
      assert data[..n] + [data[n]] == data;
    }
  }

  /**
   * The filter loop of `publish` on one record: the `publish` flag goes down
   * on every filter the record fails; a missing column raises.
   */
  method RunFilters(record: Dict, filters: seq<Filter>) returns (result: Result<bool, PublishError>)
    ensures result == Passes(record, filters)
  {
    var publish := true;
    if filters != [] {
      var j := 0;
      while j < |filters|
        invariant 0 <= j <= |filters|
        invariant Passes(record, filters[..j]) == Success(publish)
      {
        var item := filters[j];
        assert filters[..j + 1][..j] == filters[..j];
        if item.key == "Year" {
          if "Date" !in record {
            PassesFails(record, filters, j + 1, MissingKey("Date"));
            return Failure(MissingKey("Date"));
          }
          if !Contains(record["Date"], item.value) {
            publish := false;
          }
        } else if item.key !in record {
          PassesFails(record, filters, j + 1, MissingKey(item.key));
          return Failure(MissingKey(item.key));
        } else if record[item.key] != item.value {
          publish := false;
        }
        j := j + 1;
      }
      assert filters[..j] == filters;
    }
    return Success(publish);
  }

  /**
   * The body of the row loop on one row after the header: build the record,
   * let a configuration record through, derive the names, run the filters.
   */
  method RunRow(keys: seq<string>, row: seq<string>, filters: seq<Filter>) returns (result: Result<Option<Dict>, PublishError>)
    ensures result == Process(keys, row, filters)
  {
    var record := Zip(keys, row);
    if "sheet" in record {
      return Success(Some(record));
    }
    if "name_full" in record {
      record := record["name_last" := LastToken(record["name_full"])];
    } else {
      if "name_first" !in record {
        return Failure(MissingKey("name_first"));
      }
      if "name_last" !in record {
        return Failure(MissingKey("name_last"));
      }
      record := record["name_full" := record["name_first"] + " " + record["name_last"]];
    }
    var publish := RunFilters(record, filters);
    match publish
    case Failure(e) => return Failure(e);
    case Success(keep) => return if keep then Success(Some(record)) else Success(None);
  }

  /**
   * The `for` loop of `publish` over the rows after the header: each row is
   * processed in turn, and a `KeyError` ends the loop with that error.
   */
  method KeepRows(keys: seq<string>, data: seq<seq<string>>, filters: seq<Filter>)
    returns (result: Result<Kept, PublishError>)
    ensures result == Collect(keys, data, filters)
  {
    var records: seq<Dict> := [];
    var keptRows: seq<seq<string>> := [];
    var i := 0;
    while i < |data|
      invariant 0 <= i <= |data|
      invariant Collect(keys, data[..i], filters) == Success(Kept(records, keptRows))
    {
      var row := data[i];
      var kept := RunRow(keys, row, filters);
      if kept.Failure? {
        CollectFails(keys, data, i + 1, filters, kept.error);
        return Failure(kept.error);
      }
      CollectStep(keys, data, i, filters, Kept(records, keptRows));
      if kept.value.Some? {
        keptRows := keptRows + [row];
        records := records + [kept.value.value];
      }
      i := i + 1;
    }
    assert data[..i] == data;
    return Success(Kept(records, keptRows));
  }

  /**
   * `publish`: the header row names the columns, the loop keeps the data
   * rows, and the JSON files are written from the kept records.
   */
  method Publish(rows: seq<seq<string>>, filters: seq<Filter>, encode: seq<Dict> -> string)
    returns (result: Result<Published, PublishError>)
    ensures result == PublishSpec(rows, filters, encode)
  {
    if rows == [] {
      return Failure(NoHeaderRow);
    }
    var keys := rows[0];
    var kept := KeepRows(keys, rows[1..], filters);
    if kept.Failure? {
      return Failure(kept.error);
    }
    var csvRows := [keys] + kept.value.rows;
    return Success(Published(kept.value.records, csvRows, Write(kept.value.records, encode)));
  }

  /**
   * One step of the loop over a data row that processes without error:
   * Collect over one more row keeps its record and the row behind what was
   * kept, or leaves what was kept as it was.
   */
  lemma CollectStep(keys: seq<string>, data: seq<seq<string>>, i: nat, filters: seq<Filter>, kept: Kept)
    requires i < |data|
    requires Collect(keys, data[..i], filters) == Success(kept)
    requires Process(keys, data[i], filters).Success?
    ensures var out := Process(keys, data[i], filters).value;
      Collect(keys, data[..i + 1], filters)
        == if out.Some? then Success(Kept(kept.records + [out.value], kept.rows + [data[i]])) else Success(kept)
  {
    assert data[..i + 1][..i] == data[..i];
  }

  /** An error in the filters of a prefix is the error of all the filters. */
  lemma {:induction false} PassesFails(record: Dict, filters: seq<Filter>, n: nat, e: PublishError)
    requires 0 < n <= |filters|
    requires Passes(record, filters[..n - 1]).Success? && Rejects(record, filters[n - 1]) == Failure(e)
    ensures Passes(record, filters) == Failure(e)
    decreases |filters| - n
  {
    assert filters[..n][..n - 1] == filters[..n - 1];
    if n < |filters| {
      PassesPrefixFails(record, filters, n, e);
    } else {
      assert filters[..n] == filters;
    }
  }

  lemma {:induction false} PassesPrefixFails(record: Dict, filters: seq<Filter>, n: nat, e: PublishError)
    requires 0 < n <= |filters|
    requires Passes(record, filters[..n]) == Failure(e)
    ensures Passes(record, filters) == Failure(e)
    decreases |filters| - n
  {
    if n < |filters| {
      assert filters[..n + 1][..n] == filters[..n];
      PassesPrefixFails(record, filters, n + 1, e);
    } else {
      assert filters[..n] == filters;
    }
  }

  /** An error on the row at `i` of `rows` (the header being row 0) is the error of the whole loop. */
  lemma CollectFails(keys: seq<string>, data: seq<seq<string>>, i: nat, filters: seq<Filter>, e: PublishError)
    requires 0 < i <= |data|
    requires Collect(keys, data[..i - 1], filters).Success? && Process(keys, data[i - 1], filters) == Failure(e)
    ensures Collect(keys, data, filters) == Failure(e)
  {
    assert data[..i][..i - 1] == data[..i - 1];
    CollectConcat(keys, data[..i], data[i..], filters);
    assert data[..i] + data[i..] == data;
  }

  /**
   * A call that completes heads the CSV with the header row and then, for
   * each kept record, the row it came from, in the order of the rows; the
   * header itself is never a record.
   */
  lemma PublishShape(rows: seq<seq<string>>, filters: seq<Filter>, encode: seq<Dict> -> string)
    requires PublishSpec(rows, filters, encode).Success?
    ensures var p := PublishSpec(rows, filters, encode).value;
      && rows != [] && p.csvRows != [] && p.csvRows[0] == rows[0]
      && |p.records| == |p.csvRows| - 1 <= |rows| - 1
      && (forall j | 0 <= j < |p.records| :: Process(rows[0], p.csvRows[j + 1], filters) == Success(Some(p.records[j])))
      && (p.files.None? <==> p.records == [])
      && (p.files.Some? ==> p.files.value.json == encode(p.records))
    ensures var p := PublishSpec(rows, filters, encode).value;
      var idx := KeptIndices(rows[0], rows[1..], filters);
      && |idx| == |p.records|
      && (forall j | 0 <= j < |idx| :: 1 <= idx[j] + 1 < |rows| && p.csvRows[j + 1] == rows[idx[j] + 1])
      && (forall j, k | 0 <= j < k < |idx| :: idx[j] < idx[k])
  {
    var kept := Collect(rows[0], rows[1..], filters).value;
    var p := PublishSpec(rows, filters, encode).value;
    assert p == Published(kept.records, [rows[0]] + kept.rows, Write(kept.records, encode));
    CollectAligned(rows[0], rows[1..], filters);
    CollectSubsequence(rows[0], rows[1..], filters);
    HeaderThenKept(rows, kept.rows, KeptIndices(rows[0], rows[1..], filters));
  }

  /** Rows picked from `rows[1..]` sit after the header at one position further on. */
  lemma HeaderThenKept(rows: seq<seq<string>>, kept: seq<seq<string>>, idx: seq<nat>)
    requires rows != [] && |idx| == |kept|
    requires forall j | 0 <= j < |idx| :: idx[j] < |rows[1..]| && kept[j] == rows[1..][idx[j]]
    ensures ([rows[0]] + kept)[0] == rows[0]
    ensures forall j | 0 <= j < |idx| :: 1 <= idx[j] + 1 < |rows| && ([rows[0]] + kept)[j + 1] == rows[idx[j] + 1]
  {
    forall j | 0 <= j < |idx| ensures ([rows[0]] + kept)[j + 1] == rows[idx[j] + 1] {
      assert ([rows[0]] + kept)[j + 1] == kept[j];
    }
  }
}
