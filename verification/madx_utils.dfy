/** The table and naming helpers of pyhdtoolkit/cpymadtools/utils.py: the
    K-strings of magnet orders, turning a MAD-X table into a TFS frame, and
    the header defaulting done before a table is exported.

    A MAD-X table is its columns, by name and in table order; name columns
    hold text and every other column numbers. Writing the file to disk is
    not modelled: `ExportMadxTable` returns the frame that would be written.
 */
module MadxUtils {
  import opened Errors
  import opened Text
  import ListOperations

  // ---------------------------------------------------------------------------
  // _get_k_strings
  // ---------------------------------------------------------------------------

  /** The suffixes an orientation stands for: "" for straight, "S" for skew,
      both in that order; any other orientation is a ValueError. */
  function OrientationSuffixes(orientation: string): (r: Result<seq<string>>)
    ensures r.Err? <==> orientation != "straight" && orientation != "skew" && orientation != "both"
    ensures r.Err? ==> r.error == ValueError
    ensures r.Ok? ==> 1 <= |r.value| <= 2 && r.value[0] == (if orientation == "skew" then "S" else "")
    ensures r.Ok? && |r.value| == 2 ==> orientation == "both" && r.value[1] == "S"
  {
    if orientation == "straight" then Ok([""])
    else if orientation == "skew" then Ok(["S"])
    else if orientation == "both" then Ok(["", "S"])
    else Err(ValueError)
  }

  /** `f"K{order:d}{suffix}L"`. */
  function KString(order: int, suffix: string): string {
    "K" + IntToString(order) + suffix + "L"
  }

  /** `len(range(start, stop))`. */
  function OrderCount(start: int, stop: int): nat {
    if start < stop then stop - start else 0
  }

  /** Dropping the first pair moves every later position one pair down. */
  lemma HalfStep(k: int)
    requires k >= 2
    ensures (k - 2) / 2 == k / 2 - 1 && (k - 2) % 2 == k % 2
  {
  }

  /** Putting order `start`'s pair in front of the later orders' pairs. */
  lemma PairRowsAt(start: int, suffixes: seq<string>, name: (int, string) -> string, row: seq<string>, rest: seq<string>)
    requires |suffixes| == 2 && |row| == 2
    requires row[0] == name(start, suffixes[0]) && row[1] == name(start, suffixes[1])
    requires forall k :: 0 <= k < |rest| ==> rest[k] == name(start + 1 + k / 2, suffixes[k % 2])
    ensures forall k :: 0 <= k < |row + rest| ==> (row + rest)[k] == name(start + k / 2, suffixes[k % 2])
  {
    forall k | 0 <= k < |row + rest|
      ensures (row + rest)[k] == name(start + k / 2, suffixes[k % 2])
    {
      if k >= 2 {
        HalfStep(k);
        var o := start + 1 + (k - 2) / 2;
        assert o == start + k / 2;
        assert (row + rest)[k] == rest[k - 2] == name(o, suffixes[(k - 2) % 2]);
      } else {
        assert k / 2 == 0 && k % 2 == k;
        assert (row + rest)[k] == row[k];
      }
    }
  }

  /** Orders `start` to `stop - 1`, each followed by all of its (one or two)
      suffixes: the order is the outer loop. `name` builds one entry. */
  function KStringRows(start: int, stop: int, suffixes: seq<string>, name: (int, string) -> string): (names: seq<string>)
    requires 1 <= |suffixes| <= 2
    ensures |names| == OrderCount(start, stop) * |suffixes|
    ensures |suffixes| == 1 ==> forall k :: 0 <= k < |names| ==> names[k] == name(start + k, suffixes[0])
    ensures |suffixes| == 2 ==> forall k :: 0 <= k < |names| ==> names[k] == name(start + k / 2, suffixes[k % 2])
    decreases stop - start
  {
    if stop <= start then []
    else
      var n := |suffixes|;
      var row := seq(n, j requires 0 <= j < n => name(start, suffixes[j]));
      var rest := KStringRows(start + 1, stop, suffixes, name);
      assert OrderCount(start, stop) * n == n + OrderCount(start + 1, stop) * n;
      if n == 2 then
        PairRowsAt(start, suffixes, name, row, rest);
        row + rest
      else
        row + rest
  }

  /** `_get_k_strings(start, stop, orientation)`: the names K{i}L and/or
      K{i}SL for every order `i` in `range(start, stop)`. The defaults are
      start 0 and stop 8. */
  function KStrings(start: int, stop: int, orientation: string): (r: Result<seq<string>>)
    ensures r.Err? <==> OrientationSuffixes(orientation).Err?
    ensures r.Err? ==> r.error == ValueError
    ensures orientation == "straight" ==> r.Ok? && |r.value| == OrderCount(start, stop) && forall k :: 0 <= k < |r.value| ==> r.value[k] == KString(start + k, "")
    ensures orientation == "skew" ==> r.Ok? && |r.value| == OrderCount(start, stop) && forall k :: 0 <= k < |r.value| ==> r.value[k] == KString(start + k, "S")
    ensures orientation == "both" ==> r.Ok? && |r.value| == 2 * OrderCount(start, stop) && forall k :: 0 <= k < |r.value| ==>
              r.value[k] == KString(start + k / 2, if k % 2 == 0 then "" else "S")
  {
    match OrientationSuffixes(orientation)
    case Err(e) => Err(e)
    case Ok(suffixes) => Ok(KStringRows(start, stop, suffixes, KString))
  }

  /** "both" interleaves the straight and the skew names, order by order. */
  lemma KStringsBothInterleaves(start: int, stop: int, i: nat)
    requires start + i < stop
    ensures KStrings(start, stop, "both").value[2 * i] == KStrings(start, stop, "straight").value[i]
    ensures KStrings(start, stop, "both").value[2 * i + 1] == KStrings(start, stop, "skew").value[i]
  {
    assert (2 * i) / 2 == i && (2 * i) % 2 == 0;
    assert (2 * i + 1) / 2 == i && (2 * i + 1) % 2 == 1;
  }

  /** The default call names the sixteen K-strings of orders 0 to 7. */
  lemma KStringsDefaultCount()
    ensures |KStrings(0, 8, "both").value| == 16
  {
  }

  /** The name of a single-digit order. */
  lemma KStringOfDigit(d: nat, suffix: string)
    requires d < 10
    ensures KString(d, suffix) == ['K', DigitChar(d)] + suffix + ['L']
  {
  }

  /** `_get_k_strings(stop=2, orientation="both")`: order 0 then order 1,
      straight before skew. */
  lemma KStringsBothExample()
    ensures KStrings(0, 2, "both") == Ok(["K0L", "K0SL", "K1L", "K1SL"])
  {
    var r := KStrings(0, 2, "both").value;
    KStringOfDigit(0, "");
    KStringOfDigit(0, "S");
    KStringOfDigit(1, "");
    KStringOfDigit(1, "S");
    var e: seq<string> := ["K0L", "K0SL", "K1L", "K1SL"];
    assert |r| == 4;
    assert r[0] == e[0] && r[1] == e[1] && r[2] == e[2] && r[3] == e[3];
    assert r == e;
  }

  // ---------------------------------------------------------------------------
  // get_table_tfs
  // ---------------------------------------------------------------------------

  /** A column of a MAD-X table. */
  datatype Column = Texts(texts: seq<string>) | Numbers(numbers: seq<real>)

  function Length(c: Column): nat {
    match c
    case Texts(t) => |t|
    case Numbers(x) => |x|
  }

  /** A MAD-X table: its columns, by name, in table order. */
  type Table = seq<(string, Column)>

  /** A header value: the first entry of a column of the headers table. */
  datatype Header = TextHeader(text: string) | NumberHeader(number: real)

  /** A TFS frame: its columns and its headers. */
  datatype TfsFrame = TfsFrame(columns: Table, headers: map<string, Header>)

  /** MAD-X never gives two columns of a table the same name. */
  predicate ColumnNamesDistinct(t: Table) {
    forall i, j :: 0 <= i < j < |t| ==> t[i].0 != t[j].0
  }

  /** Every column has as many entries as the first. */
  predicate Rectangular(t: Table) {
    forall i :: 0 <= i < |t| ==> Length(t[i].1) == Length(t[0].1)
  }

  /** `dframe.NAME.str.upper()` works: at most one column is called NAME, and
      it holds text. */
  predicate NameColumnUsable(t: Table) {
    (forall i :: 0 <= i < |t| && t[i].0 == "NAME" ==> t[i].1.Texts?)
    && (forall i, j :: 0 <= i < j < |t| && t[i].0 == "NAME" ==> t[j].0 != "NAME")
  }

  /** The table with upper-cased column names and, in the NAME column only,
      upper-cased contents. */
  function UpperCased(t: Table): (r: Table)
    requires NameColumnUsable(UpperColumnNames(t))
    ensures |r| == |t|
    ensures forall i :: 0 <= i < |t| ==> r[i].0 == Upper(t[i].0)
    ensures forall i :: 0 <= i < |t| && r[i].0 != "NAME" ==> r[i].1 == t[i].1
    ensures forall i :: 0 <= i < |t| && r[i].0 == "NAME" ==> r[i].1 == Texts(UpperAll(t[i].1.texts))
  {
    var u := UpperColumnNames(t);
    seq(|u|, i requires 0 <= i < |u| => if u[i].0 == "NAME" then (u[i].0, Texts(UpperAll(u[i].1.texts))) else u[i])
  }

  function UpperColumnNames(t: Table): (r: Table)
    ensures |r| == |t|
    ensures forall i :: 0 <= i < |t| ==> r[i] == (Upper(t[i].0), t[i].1)
  {
    seq(|t|, i requires 0 <= i < |t| => (Upper(t[i].0), t[i].1))
  }

  function First(c: Column): Header
    requires Length(c) > 0
  {
    match c
    case Texts(t) => TextHeader(t[0])
    case Numbers(x) => NumberHeader(x[0])
  }

  /** The upper-cased names of the columns from `from` on. */
  function HeaderKeys(t: Table, from: nat): set<string> {
    set i | from <= i < |t| :: Upper(t[i].0)
  }

  lemma HeaderKeysStep(t: Table, from: nat)
    requires from < |t|
    ensures HeaderKeys(t, from) == {Upper(t[from].0)} + HeaderKeys(t, from + 1)
  {
  }

  /** `{var.upper(): table[var][0] for var in table}`, scanning from column
      `from` onwards into `acc`: an empty column is an IndexError, and of two
      columns with the same upper-cased name the later one wins. */
  function HeadersFrom(t: Table, from: nat, acc: map<string, Header>): (r: Result<map<string, Header>>)
    requires from <= |t|
    ensures r.Ok? <==> forall i :: from <= i < |t| ==> Length(t[i].1) > 0
    ensures r.Err? ==> r.error == IndexError
    ensures r.Ok? ==> r.value.Keys == acc.Keys + HeaderKeys(t, from)
    decreases |t| - from
  {
    if from == |t| then Ok(acc)
    else if Length(t[from].1) == 0 then Err(IndexError)
    else
      HeaderKeysStep(t, from);
      HeadersFrom(t, from + 1, acc[Upper(t[from].0) := First(t[from].1)])
  }

  /** Each header holds the first entry of the last column with its
      upper-cased name; a value already collected stays unless a later
      column has its name. */
  lemma {:induction false} HeadersFromValues(t: Table, from: nat, acc: map<string, Header>)
    requires from <= |t|
    requires HeadersFrom(t, from, acc).Ok?
    ensures var h := HeadersFrom(t, from, acc).value;
            forall i :: from <= i < |t| && (forall j :: i < j < |t| ==> Upper(t[j].0) != Upper(t[i].0)) ==>
              h[Upper(t[i].0)] == First(t[i].1)
    ensures var h := HeadersFrom(t, from, acc).value;
            forall k :: k in acc && (forall j :: from <= j < |t| ==> Upper(t[j].0) != k) ==> h[k] == acc[k]
    decreases |t| - from
  {
    if from < |t| {
      var key := Upper(t[from].0);
      var next := acc[key := First(t[from].1)];
      HeadersFromValues(t, from + 1, next);
      var h := HeadersFrom(t, from + 1, next).value;
      assert HeadersFrom(t, from, acc).value == h;
      forall i | from <= i < |t| && (forall j :: i < j < |t| ==> Upper(t[j].0) != Upper(t[i].0))
        ensures h[Upper(t[i].0)] == First(t[i].1)
      {
        if i == from {
          assert key in next && forall j :: from + 1 <= j < |t| ==> Upper(t[j].0) != key;
        }
      }
      forall k | k in acc && (forall j :: from <= j < |t| ==> Upper(t[j].0) != k)
        ensures h[k] == acc[k]
      {
        assert k != key && next[k] == acc[k];
      }
    }
  }

  /** `get_table_tfs(madx, table_name, headers_table)`. The checks happen in
      the source's order: the table must exist (KeyError), its columns must
      have equal lengths (ValueError, from building the frame), the NAME
      column must be a single text column (AttributeError from `.str`), the
      headers table must exist (KeyError) and none of its columns may be
      empty (IndexError). */
  function GetTableTfs(tables: map<string, Table>, tableName: string, headersTable: string): (r: Result<TfsFrame>)
    requires forall name :: name in tables ==> ColumnNamesDistinct(tables[name])
    ensures r.Ok? <==> tableName in tables && Rectangular(tables[tableName])
                       && NameColumnUsable(UpperColumnNames(tables[tableName])) && headersTable in tables
                       && forall i :: 0 <= i < |tables[headersTable]| ==> Length(tables[headersTable][i].1) > 0
    ensures tableName !in tables ==> r == Err(KeyError(tableName))
    ensures tableName in tables && !Rectangular(tables[tableName]) ==> r == Err(ValueError)
    ensures (tableName in tables && Rectangular(tables[tableName])
             && !NameColumnUsable(UpperColumnNames(tables[tableName]))) ==> r == Err(AttributeError("str"))
    ensures (tableName in tables && Rectangular(tables[tableName])
             && NameColumnUsable(UpperColumnNames(tables[tableName])) && headersTable !in tables) ==>
              r == Err(KeyError(headersTable))
    ensures (tableName in tables && Rectangular(tables[tableName])
             && NameColumnUsable(UpperColumnNames(tables[tableName])) && headersTable in tables
             && exists i :: 0 <= i < |tables[headersTable]| && Length(tables[headersTable][i].1) == 0) ==>
              r == Err(IndexError)
    ensures r.Ok? ==> var t := tables[tableName];
              |r.value.columns| == |t|
              && (forall i :: 0 <= i < |t| ==> r.value.columns[i].0 == Upper(t[i].0))
              && (forall i :: 0 <= i < |t| && Upper(t[i].0) != "NAME" ==> r.value.columns[i].1 == t[i].1)
              && (forall i :: 0 <= i < |t| && Upper(t[i].0) == "NAME" ==>
                    t[i].1.Texts? && r.value.columns[i].1 == Texts(UpperAll(t[i].1.texts)))
    ensures r.Ok? ==> Rectangular(r.value.columns) && NameColumnUsable(r.value.columns)
    ensures r.Ok? ==> r.value.headers.Keys == HeaderKeys(tables[headersTable], 0)
    ensures r.Ok? ==> var ht := tables[headersTable];
              forall i :: 0 <= i < |ht| && (forall j :: i < j < |ht| ==> Upper(ht[j].0) != Upper(ht[i].0)) ==>
                r.value.headers[Upper(ht[i].0)] == First(ht[i].1)
  {
    if tableName !in tables then Err(KeyError(tableName))
    else
      var t := tables[tableName];
      if !Rectangular(t) then Err(ValueError)
      else if !NameColumnUsable(UpperColumnNames(t)) then Err(AttributeError("str"))
      else if headersTable !in tables then Err(KeyError(headersTable))
      else
        var cols := UpperCased(t);
        assert Rectangular(cols) by {
          forall i | 0 <= i < |cols|
            ensures Length(cols[i].1) == Length(cols[0].1)
          {
            assert Length(cols[i].1) == Length(t[i].1);
            assert Length(cols[0].1) == Length(t[0].1);
          }
        }
        match HeadersFrom(tables[headersTable], 0, map[])
        case Err(e) => Err(e)
        case Ok(h) =>
          HeadersFromValues(tables[headersTable], 0, map[]);
          Ok(TfsFrame(cols, h))
  }

  /** Column names come back in upper case whatever case MAD-X used. */
  lemma GetTableTfsCaseOfNames(tables: map<string, Table>, tableName: string, headersTable: string, i: nat)
    requires forall name :: name in tables ==> ColumnNamesDistinct(tables[name])
    requires GetTableTfs(tables, tableName, headersTable).Ok?
    requires i < |GetTableTfs(tables, tableName, headersTable).value.columns|
    ensures Upper(GetTableTfs(tables, tableName, headersTable).value.columns[i].0) ==
            GetTableTfs(tables, tableName, headersTable).value.columns[i].0
  {
    var t := tables[tableName];
    UpperIdempotent(t[i].0);
  }

  lemma UpperIdempotent(s: string)
    ensures Upper(Upper(s)) == Upper(s)
  {
  }

  // ---------------------------------------------------------------------------
  // export_madx_table
  // ---------------------------------------------------------------------------

  /** The NAME and TYPE headers MAD-X needs to read a table back, set to
      "EXPORT" only where they are missing. */
  function DefaultHeaders(h: map<string, Header>): (r: map<string, Header>)
    ensures r.Keys == h.Keys + {"NAME", "TYPE"}
    ensures forall k :: k in h ==> r[k] == h[k]
    ensures "NAME" !in h ==> r["NAME"] == TextHeader("EXPORT")
    ensures "TYPE" !in h ==> r["TYPE"] == TextHeader("EXPORT")
  {
    var named := if "NAME" in h then h else h["NAME" := TextHeader("EXPORT")];
    if "TYPE" in named then named else named["TYPE" := TextHeader("EXPORT")]
  }

  /** Defaulting the headers of an exported table a second time changes nothing. */
  lemma DefaultHeadersIdempotent(h: map<string, Header>)
    ensures DefaultHeaders(DefaultHeaders(h)) == DefaultHeaders(h)
  {
  }

  /** Position of the NAME column. */
  function NameIndex(t: Table): (i: nat)
    requires exists k :: 0 <= k < |t| && t[k].0 == "NAME"
    ensures i < |t| && t[i].0 == "NAME" && forall k :: 0 <= k < i ==> t[k].0 != "NAME"
    decreases |t|
  {
    if t[0].0 == "NAME" then 0
    else
      assert exists k :: 0 <= k < |t[1..]| && t[1..][k].0 == "NAME" by {
        var k :| 0 <= k < |t| && t[k].0 == "NAME";
        assert t[1..][k - 1].0 == "NAME";
      }
      1 + NameIndex(t[1..])
  }

  function Keep(c: Column, flags: seq<bool>): (r: Column)
    requires Length(c) == |flags|
    ensures Length(r) == ListOperations.Count(flags, true)
  {
    match c
    case Texts(t) => Texts(ListOperations.Pick(t, flags, true))
    case Numbers(x) => Numbers(ListOperations.Pick(x, flags, true))
  }

  /** `set_index("NAME").filter(regex=pattern, axis="index").reset_index()`:
      the rows whose name the pattern finds (`matches`, as `re.search`), with
      the NAME column moved to the front and the others kept in order. A frame
      without a NAME column is a KeyError. */
  function FilterByName(f: TfsFrame, pattern: string, matches: (string, string) -> bool): (r: Result<TfsFrame>)
    requires Rectangular(f.columns) && NameColumnUsable(f.columns)
    ensures r.Err? <==> forall k :: 0 <= k < |f.columns| ==> f.columns[k].0 != "NAME"
    ensures r.Err? ==> r.error == KeyError("NAME")
    ensures r.Ok? ==> r.value.headers == f.headers && |r.value.columns| == |f.columns|
    ensures r.Ok? ==> var names := f.columns[NameIndex(f.columns)].1.texts;
              r.value.columns[0] == ("NAME", Texts(ListOperations.Filter(names, n => matches(pattern, n))))
    ensures r.Ok? ==> var j := NameIndex(f.columns);
              var flags := ListOperations.Map(f.columns[j].1.texts, n => matches(pattern, n));
              var others := f.columns[..j] + f.columns[j + 1..];
              forall i :: 0 <= i < |others| ==>
                Length(others[i].1) == |flags| && r.value.columns[1 + i] == (others[i].0, Keep(others[i].1, flags))
  {
    if forall k :: 0 <= k < |f.columns| ==> f.columns[k].0 != "NAME" then Err(KeyError("NAME"))
    else
      var j := NameIndex(f.columns);
      var names := f.columns[j].1.texts;
      var flags := ListOperations.Map(names, n => matches(pattern, n));
      ListOperations.PickFlagsIsFilter(names, n => matches(pattern, n));
      var others := f.columns[..j] + f.columns[j + 1..];
      var kept := seq(|others|, i requires 0 <= i < |others| =>
                        (others[i].0, Keep(others[i].1, flags)));
      Ok(TfsFrame([("NAME", Texts(ListOperations.Pick(names, flags, true)))] + kept, f.headers))
  }

  /** `export_madx_table(madx, table_name, file_name, pattern, headers_table)`:
      the frame written to disk. A non-empty `pattern` keeps the rows it
      finds; NAME and TYPE headers are added only when absent. */
  function ExportMadxTable(tables: map<string, Table>, tableName: string, pattern: string,
                           matches: (string, string) -> bool, headersTable: string): (r: Result<TfsFrame>)
    requires forall name :: name in tables ==> ColumnNamesDistinct(tables[name])
    ensures GetTableTfs(tables, tableName, headersTable).Err? ==> r == GetTableTfs(tables, tableName, headersTable)
    ensures r.Ok? ==> var h := GetTableTfs(tables, tableName, headersTable).value.headers;
              "NAME" in r.value.headers && "TYPE" in r.value.headers
              && (forall k :: k in h ==> k in r.value.headers && r.value.headers[k] == h[k])
    ensures r.Ok? ==> r.value.headers == DefaultHeaders(GetTableTfs(tables, tableName, headersTable).value.headers)
    ensures pattern == "" ==>
              (r.Ok? <==> GetTableTfs(tables, tableName, headersTable).Ok?)
              && (r.Ok? ==> r.value.columns == GetTableTfs(tables, tableName, headersTable).value.columns)
    ensures pattern != "" && GetTableTfs(tables, tableName, headersTable).Ok? ==>
              var f := GetTableTfs(tables, tableName, headersTable).value;
              var g := FilterByName(f, pattern, matches);
              (g.Err? ==> r == Err(KeyError("NAME")))
              && (g.Ok? ==> r == Ok(TfsFrame(g.value.columns, DefaultHeaders(f.headers))))
  {
    match GetTableTfs(tables, tableName, headersTable)
    case Err(e) => Err(e)
    case Ok(f) =>
      var filtered := if pattern == "" then Ok(f) else FilterByName(f, pattern, matches);
      match filtered
      case Err(e) => Err(e)
      case Ok(g) => Ok(g.(headers := DefaultHeaders(g.headers)))
  }

  /** With a pattern, exactly the names of the table that the pattern finds
      are exported. */
  lemma ExportMadxTableFilters(tables: map<string, Table>, tableName: string, pattern: string,
                               matches: (string, string) -> bool, headersTable: string, name: string)
    requires forall name :: name in tables ==> ColumnNamesDistinct(tables[name])
    requires pattern != ""
    requires ExportMadxTable(tables, tableName, pattern, matches, headersTable).Ok?
    ensures var r := ExportMadxTable(tables, tableName, pattern, matches, headersTable).value;
            r.columns[0].0 == "NAME" && r.columns[0].1.Texts?
            && (name in r.columns[0].1.texts <==>
                  matches(pattern, name)
                  && name in GetTableTfs(tables, tableName, headersTable).value.columns[
                       NameIndex(GetTableTfs(tables, tableName, headersTable).value.columns)].1.texts)
  {
  }
}
