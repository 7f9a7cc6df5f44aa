/** Tune footprints of pyhdtoolkit/cpymadtools/tune.py.

    A DYNAP table holds one tune point per starting particle: row 0 for the
    particle at zero amplitude, then ANGLE rows for each further amplitude.
    `_get_dynap_string_rep` writes the table as a comma-separated text,
    `_make_tune_groups` parses that text back into one group of points per
    amplitude, and `_Footprint.get_plottable` walks the groups to produce the
    line that `get_footprint_lines` plots.

    Tune values are carried as the text Python formats them with: nothing here
    computes with them, and `float(repr(x)) == x` for every float.
 */
module Footprint {
  import opened Errors
  import opened Text

  // ---------------------------------------------------------------------------
  // Float literals: what `float(text)` accepts
  // ---------------------------------------------------------------------------

  /** Characters a float literal is written with. */
  predicate FloatChar(c: char) {
    IsDigit(c) || c == '+' || c == '-' || c == '.' || InfNanLetter(c)
  }

  /** A letter of "inf", "infinity", "nan" or of the exponent mark, in either case. */
  predicate InfNanLetter(c: char) {
    var l := LowerChar(c);
    l == 'i' || l == 'n' || l == 'f' || l == 't' || l == 'y' || l == 'a' || l == 'e'
  }

  /** States of a left-to-right reading of a float literal between optional
      whitespace margins. */
  datatype ScanState =
    | Begin             // nothing but whitespace read
    | Signed            // a sign
    | Int               // sign? digits
    | PointNoInt        // sign? '.'
    | Frac              // a mantissa with its '.' and at least one digit
    | ExpMark           // mantissa 'e'
    | ExpSign           // mantissa 'e' sign
    | Exp               // mantissa 'e' sign? digits
    | Word(w: string)   // sign? and a lower-cased prefix of "infinity" or "nan"
    | Trail             // a complete literal followed by whitespace
    | Reject

  predicate IsPrefix(w: string, word: string) {
    |w| <= |word| && word[..|w|] == w
  }

  function Next(st: ScanState, c: char): ScanState {
    if IsSpace(c) then
      if st == Begin then Begin else if Accepting(st) then Trail else Reject
    else match st
    case Begin | Signed =>
      if IsDigit(c) then Int
      else if c == '.' then PointNoInt
      else if st == Begin && (c == '+' || c == '-') then Signed
      else NextWord("", c)
    case Int => if IsDigit(c) then Int else if c == '.' then Frac else if LowerChar(c) == 'e' then ExpMark else Reject
    case PointNoInt => if IsDigit(c) then Frac else Reject
    case Frac => if IsDigit(c) then Frac else if LowerChar(c) == 'e' then ExpMark else Reject
    case ExpMark => if IsDigit(c) then Exp else if c == '+' || c == '-' then ExpSign else Reject
    case ExpSign | Exp => if IsDigit(c) then Exp else Reject
    case Word(w) => NextWord(w, c)
    case Trail | Reject => Reject
  }

  function NextWord(w: string, c: char): ScanState {
    var w' := w + [LowerChar(c)];
    if IsPrefix(w', "infinity") || IsPrefix(w', "nan") then Word(w') else Reject
  }

  predicate Accepting(st: ScanState) {
    st == Int || st == Frac || st == Exp || st == Trail
    || st == Word("inf") || st == Word("infinity") || st == Word("nan")
  }

  /** Reads `s` from state `st`. */
  predicate Scan(s: string, st: ScanState)
    decreases |s|
  {
    if |s| == 0 then Accepting(st)
    else Next(st, s[0]) != Reject && Scan(s[1..], Next(st, s[0]))
  }

  /** Text that `float()` accepts: optional whitespace, an optional sign, then
      digits with an optional '.', at least one digit, and an optional exponent
      `e`/`E`, sign, digits, or else inf / infinity / nan in any letter case;
      then optional whitespace. (Digit-group underscores are not modelled.) */
  predicate FloatText(t: string) {
    Scan(t, Begin)
  }

  /** `float(t)`; the value is kept as the text it was read from. */
  function ParseFloat(t: string): (r: Result<string>)
    ensures r.Ok? <==> FloatText(t)
    ensures r.Ok? ==> r.value == t
    ensures r.Err? ==> r.error == ValueError
  {
    if FloatText(t) then Ok(t) else Err(ValueError)
  }

  lemma NextWordChar(w: string, c: char)
    requires NextWord(w, c) != Reject
    ensures FloatChar(c)
  {
    var w' := w + [LowerChar(c)];
    var k := |w|;
    if IsPrefix(w', "infinity") {
      assert LowerChar(c) == "infinity"[k];
      assert k < 8;
      assert "infinity"[k] in "infty";
    } else {
      assert LowerChar(c) == "nan"[k];
      assert k < 3;
      assert "nan"[k] in "na";
    }
  }

  /** Only whitespace and float characters move the scanner off `Reject`. */
  lemma NextChar(st: ScanState, c: char)
    requires Next(st, c) != Reject
    ensures IsSpace(c) || FloatChar(c)
  {
    if !IsSpace(c) {
      match st
      case Begin | Signed =>
        if !IsDigit(c) && c != '.' && c != '+' && c != '-' {
          NextWordChar("", c);
        }
      case Word(w) => NextWordChar(w, c);
      case _ =>
    }
  }

  lemma {:induction false} ScanChars(s: string, st: ScanState)
    requires Scan(s, st)
    ensures forall i :: 0 <= i < |s| ==> IsSpace(s[i]) || FloatChar(s[i])
    decreases |s|
  {
    if |s| > 0 {
      NextChar(st, s[0]);
      ScanChars(s[1..], Next(st, s[0]));
      forall i | 0 < i < |s| ensures IsSpace(s[i]) || FloatChar(s[i]) {
        assert s[i] == s[1..][i - 1];
      }
    }
  }

  /** The characters the string representation uses as delimiters. */
  predicate Delimiter(c: char) {
    c == ',' || c == ';' || c == '<' || c == '>'
  }

  predicate NoDelimiter(t: string) {
    forall i :: 0 <= i < |t| ==> !Delimiter(t[i])
  }

  lemma CharNoDelimiter(c: char)
    requires IsSpace(c) || FloatChar(c)
    ensures !Delimiter(c)
  {
  }

  /** Text `float()` accepts is non-empty and holds only whitespace and float
      characters, so none of the delimiters. */
  lemma FloatTextChars(t: string)
    requires FloatText(t)
    ensures |t| > 0 && NoDelimiter(t)
  {
    ScanChars(t, Begin);
    forall i | 0 <= i < |t| ensures !Delimiter(t[i]) {
      CharNoDelimiter(t[i]);
    }
  }

  // ---------------------------------------------------------------------------
  // The DYNAP table and its string representation
  // ---------------------------------------------------------------------------

  /** One tracked particle's horizontal and vertical tune. */
  datatype TunePoint = TunePoint(h: string, v: string)

  predicate ValidPoint(p: TunePoint) {
    FloatText(p.h) && FloatText(p.v)
  }

  /** The DYNAP table: its AMPLITUDE, ANGLE and DSIGMA headers and its
      (tunx, tuny) rows under the default row index 0, 1, 2, ... */
  datatype DynapFrame = DynapFrame(amplitude: int, angle: int, dsigma: real, rows: seq<TunePoint>)

  predicate ValidRows(f: DynapFrame) {
    forall k :: 0 <= k < |f.rows| ==> ValidPoint(f.rows[k])
  }

  /** How many points each amplitude holds: `range(angle)` is empty below 1. */
  function Width(f: DynapFrame): nat {
    if f.angle > 0 then f.angle else 0
  }

  /** Row of the first particle started at amplitude `n` >= 1: one row for
      amplitude 0, then `Width` rows for each amplitude before `n`. */
  function Start(f: DynapFrame, n: int): (s: int)
    ensures s >= 1
    decreases n
  {
    if n <= 1 then 1 else Start(f, n - 1) + Width(f)
  }

  lemma {:induction false} StartFormula(f: DynapFrame, n: int)
    requires n >= 1
    ensures Start(f, n) == 1 + (n - 1) * Width(f)
    decreases n
  {
    if n > 1 {
      StartFormula(f, n - 1);
      assert (n - 1) * Width(f) == (n - 2) * Width(f) + Width(f);
    }
  }

  /** Rows the string representation reads: row 0, then `Width` rows for each
      amplitude 1 .. AMPLITUDE - 1. */
  function RowsNeeded(f: DynapFrame): int {
    if f.amplitude >= 1 then Start(f, f.amplitude) else 1
  }

  lemma {:induction false} StartMonotone(f: DynapFrame, a: int, b: int)
    requires 1 <= a <= b
    ensures Start(f, a) <= Start(f, b)
    decreases b - a
  {
    if a < b {
      StartMonotone(f, a, b - 1);
    }
  }

  /** `f",<{x};{y}>"` without the comma. */
  function PointItem(p: TunePoint): string {
    "<" + p.h + ";" + p.v + ">"
  }

  /** `dynap_dframe.tunx[k]` and `.tuny[k]`: label access, KeyError when the
      row does not exist. */
  function Row(f: DynapFrame, k: int): (r: Result<TunePoint>)
    ensures r.Ok? <==> 0 <= k < |f.rows|
    ensures r.Ok? ==> r.value == f.rows[k]
    ensures r.Err? ==> r.error == KeyError(IntToString(k))
  {
    if 0 <= k < |f.rows| then Ok(f.rows[k]) else Err(KeyError(IntToString(k)))
  }

  /** The inner loop over `m in range(m0, angle)` for amplitude `n`. */
  function AngleItems(f: DynapFrame, n: int, m: int): Result<seq<string>>
    requires n >= 1 && m >= 0
    decreases f.angle - m
  {
    if m >= f.angle then Ok([])
    else
      var p :- Row(f, 1 + (n - 1) * f.angle + m);
      var rest :- AngleItems(f, n, m + 1);
      Ok([PointItem(p)] + rest)
  }

  /** The outer loop over `n in range(n0, amplitude)`. */
  function AmplitudeItems(f: DynapFrame, n: int): Result<seq<string>>
    requires n >= 1
    decreases f.amplitude - n
  {
    if n >= f.amplitude then Ok([])
    else
      var block :- AngleItems(f, n, 0);
      var rest :- AmplitudeItems(f, n + 1);
      Ok([IntToString(f.angle)] + block + rest)
  }

  /** The comma-separated fields of the string representation. */
  function DynapItems(f: DynapFrame): Result<seq<string>> {
    var first :- Row(f, 0);
    var rest :- AmplitudeItems(f, 1);
    Ok(["TMPNAME", IntToString(f.amplitude), "1", PointItem(first)] + rest)
  }

  /** `_get_dynap_string_rep(dynap_dframe)`. */
  function DynapStringRep(f: DynapFrame): (r: Result<string>)
    ensures r.Ok? ==> StartsWith(r.value, "TMPNAME,")
  {
    var items :- DynapItems(f);
    JoinHead(items, ',');
    Ok(Join(items, ','))
  }

  lemma {:induction false} JoinHead(parts: seq<string>, sep: char)
    requires |parts| >= 2
    ensures Join(parts, sep)[..|parts[0]| + 1] == parts[0] + [sep]
  {
    assert Join(parts, sep) == parts[0] + [sep] + Join(parts[1..], sep);
  }

  lemma {:induction false} JoinLast(parts: seq<string>, sep: char)
    requires |parts| >= 1 && |parts[|parts| - 1]| > 0
    ensures var s := Join(parts, sep); var l := parts[|parts| - 1];
            |s| > 0 && s[|s| - 1] == l[|l| - 1]
    decreases |parts|
  {
    if |parts| > 1 {
      JoinLast(parts[1..], sep);
      assert parts[1..][|parts[1..]| - 1] == parts[|parts| - 1];
    }
  }

  // ---------------------------------------------------------------------------
  // Which rows the representation reads, and its failure
  // ---------------------------------------------------------------------------

  lemma {:induction false} AngleItemsOutcome(f: DynapFrame, n: int, m: int)
    requires n >= 1 && m >= 0
    requires m < f.angle ==> Start(f, n) + m <= |f.rows|
    ensures AngleItems(f, n, m).Ok? <==> (m >= f.angle || Start(f, n) + f.angle <= |f.rows|)
    ensures AngleItems(f, n, m).Err? ==> AngleItems(f, n, m).error == KeyError(IntToString(|f.rows|))
    decreases f.angle - m
  {
    if m < f.angle {
      StartFormula(f, n);
      if Start(f, n) + m < |f.rows| {
        AngleItemsOutcome(f, n, m + 1);
      }
    }
  }

  lemma {:induction false} AmplitudeItemsOutcome(f: DynapFrame, n: int)
    requires n >= 1 && Start(f, n) <= |f.rows|
    ensures AmplitudeItems(f, n).Ok? <==> (n >= f.amplitude || Start(f, f.amplitude) <= |f.rows|)
    ensures AmplitudeItems(f, n).Err? ==> AmplitudeItems(f, n).error == KeyError(IntToString(|f.rows|))
    decreases f.amplitude - n
  {
    if n < f.amplitude {
      AngleItemsOutcome(f, n, 0);
      assert Start(f, n + 1) == Start(f, n) + Width(f);
      StartMonotone(f, n + 1, f.amplitude);
      if AngleItems(f, n, 0).Ok? {
        assert Start(f, n + 1) <= |f.rows|;
        AmplitudeItemsOutcome(f, n + 1);
      }
    }
  }

  /** The representation exists exactly when the table has every row it reads;
      otherwise the first missing row, `len(rows)`, raises KeyError. */
  lemma DynapStringRepOutcome(f: DynapFrame)
    ensures DynapStringRep(f).Ok? <==> |f.rows| >= RowsNeeded(f)
    ensures DynapStringRep(f).Err? ==> DynapStringRep(f).error == KeyError(IntToString(|f.rows|))
  {
    if |f.rows| >= 1 {
      AmplitudeItemsOutcome(f, 1);
    }
  }

  // ---------------------------------------------------------------------------
  // Parsing the representation back into tune groups
  // ---------------------------------------------------------------------------

  /** `int(item)`. */
  function ParseCount(item: string): (r: Result<int>)
    ensures r.Ok? <==> ParseInt(item).Some?
    ensures r.Ok? ==> r.value == ParseInt(item).value
    ensures r.Err? ==> r.error == ValueError
  {
    match ParseInt(item)
    case Some(n) => Ok(n)
    case None => Err(ValueError)
  }

  /** `item.lstrip("<").rstrip(">").split(";")`, then `float` of the first two
      parts; the horizontal value is converted before the second part is
      looked up. */
  function ParseTunePoint(item: string): (r: Result<TunePoint>)
    ensures r.Err? ==> r.error == IndexError || r.error == ValueError
  {
    var parts := Split(RStripChar(LStripChar(item, '<'), '>'), ';');
    var h :- ParseFloat(parts[0]);
    if |parts| < 2 then Err(IndexError)
    else
      var v :- ParseFloat(parts[1]);
      Ok(TunePoint(h, v))
  }

  /** `count` consecutive fields at the head of `rest`, each read with
      `parse`; also returns the fields after them. Running out of fields is
      `items[current]` failing. */
  function ParseFields<T>(rest: seq<string>, count: nat, parse: string -> Result<T>): (r: Result<(seq<T>, seq<string>)>)
    ensures r.Ok? ==> |r.value.0| == count && count <= |rest| && r.value.1 == rest[count..]
    decreases count
  {
    if count == 0 then Ok(([], rest))
    else if |rest| == 0 then Err(IndexError)
    else
      var x :- parse(rest[0]);
      var more :- ParseFields(rest[1..], count - 1, parse);
      Ok(([x] + more.0, more.1))
  }

  /** `remaining` groups, each a count field followed by that many fields
      read with `parse` (the inner loop of `_make_tune_groups`); a negative
      count gives an empty group. */
  function ParseGroups<T>(rest: seq<string>, remaining: nat, parse: string -> Result<T>): (r: Result<(seq<seq<T>>, seq<string>)>)
    ensures r.Ok? ==> |r.value.0| == remaining && |r.value.1| <= |rest|
    decreases remaining
  {
    if remaining == 0 then Ok(([], rest))
    else if |rest| == 0 then Err(IndexError)
    else
      var angle :- ParseCount(rest[0]);
      var points :- ParseFields(rest[1..], if angle > 0 then angle else 0, parse);
      var more :- ParseGroups(points.1, remaining - 1, parse);
      Ok(([points.0] + more.0, more.1))
  }

  /** `_make_tune_groups(dynap_string_rep, dsigma)`: field 0 is ignored, field 1
      is the number of groups, and the groups follow from field 2. `dsigma` is
      not used. */
  function MakeTuneGroups(rep: string, dsigma: real): (r: Result<seq<seq<TunePoint>>>)
    ensures r.Err? ==> r.error == IndexError || r.error == ValueError
  {
    var items := Split(Strip(rep), ',');
    if |items| < 2 then Err(IndexError)
    else
      var amplitude :- ParseCount(items[1]);
      var remaining := if amplitude > 0 then amplitude else 0;
      assert KnownErrors(ParseTunePoint) by {
        forall x ensures KnownError(ParseTunePoint(x)) { }
      }
      ParseGroupsErrors(items[2..], remaining, ParseTunePoint);
      var groups :- ParseGroups(items[2..], remaining, ParseTunePoint);
      Ok(groups.0)
  }

  /** A success, or a failure with IndexError or ValueError. */
  predicate KnownError<T>(r: Result<T>) {
    r.Err? ==> r.error == IndexError || r.error == ValueError
  }

  /** A parser that fails only with IndexError or ValueError. */
  ghost predicate KnownErrors<T>(parse: string -> Result<T>) {
    forall x :: KnownError(parse(x))
  }

  /** Reading fields fails only by running out of them or by `parse` failing. */
  lemma {:induction false} ParseFieldsErrors<T>(rest: seq<string>, count: nat, parse: string -> Result<T>)
    requires KnownErrors(parse)
    ensures KnownError(ParseFields(rest, count, parse))
    decreases count
  {
    if count > 0 && |rest| > 0 && parse(rest[0]).Ok? {
      var left := count - 1;
      ParseFieldsErrors(rest[1..], left, parse);
    }
  }

  /** Reading groups fails only with IndexError, with the ValueError of a bad
      count, or with an error of `parse`. */
  lemma {:induction false} ParseGroupsErrors<T>(rest: seq<string>, remaining: nat, parse: string -> Result<T>)
    requires KnownErrors(parse)
    ensures KnownError(ParseGroups(rest, remaining, parse))
    decreases remaining
  {
    var r := ParseGroups(rest, remaining, parse);
    if remaining == 0 || |rest| == 0 {
      assert r == if remaining == 0 then Ok(([], rest)) else Err(IndexError);
    } else {
      var count := ParseCount(rest[0]);
      if count.Err? {
        assert r == Err(ValueError);
      } else {
        var size := if count.value > 0 then count.value else 0;
        ParseFieldsErrors(rest[1..], size, parse);
        var points := ParseFields(rest[1..], size, parse);
        if points.Err? {
          assert r == Err(points.error);
        } else {
          var tail, left := points.value.1, remaining - 1;
          ParseGroupsErrors(tail, left, parse);
          var more := ParseGroups(tail, left, parse);
          assert more.Err? ==> r == Err(more.error);
        }
      }
    }
  }

  // ---------------------------------------------------------------------------
  // Round trip
  // ---------------------------------------------------------------------------

  /** The points of amplitude `n` >= 1: rows `Start(n) .. Start(n + 1)`. */
  function GroupRows(f: DynapFrame, n: int): (g: seq<TunePoint>)
    requires n >= 1 && Start(f, n + 1) <= |f.rows|
    ensures |g| == Width(f)
  {
    assert Start(f, n + 1) == Start(f, n) + Width(f);
    f.rows[Start(f, n)..Start(f, n + 1)]
  }

  /** The groups of amplitudes n .. AMPLITUDE - 1. */
  function GroupsFrom(f: DynapFrame, n: int): seq<seq<TunePoint>>
    requires n >= 1 && (n >= f.amplitude || Start(f, f.amplitude) <= |f.rows|)
    decreases f.amplitude - n
  {
    if n >= f.amplitude then []
    else
      StartMonotone(f, n + 1, f.amplitude);
      [GroupRows(f, n)] + GroupsFrom(f, n + 1)
  }

  /** The tune groups a table stands for: `[[row 0]]` and then one group of
      `Width` rows per further amplitude; none when AMPLITUDE < 1. */
  function TuneGroups(f: DynapFrame): seq<seq<TunePoint>>
    requires |f.rows| >= RowsNeeded(f)
  {
    if f.amplitude < 1 then [] else [[f.rows[0]]] + GroupsFrom(f, 1)
  }

  lemma {:induction false} GroupsFromIndex(f: DynapFrame, n0: int, n: int)
    requires 1 <= n0 <= n < f.amplitude && Start(f, f.amplitude) <= |f.rows|
    ensures |GroupsFrom(f, n0)| == f.amplitude - n0
    ensures Start(f, n + 1) <= |f.rows| && GroupsFrom(f, n0)[n - n0] == GroupRows(f, n)
    decreases n - n0
  {
    StartMonotone(f, n + 1, f.amplitude);
    GroupsFromLength(f, n0);
    if n0 < n {
      GroupsFromIndex(f, n0 + 1, n);
    }
  }

  lemma {:induction false} GroupsFromLength(f: DynapFrame, n: int)
    requires n >= 1 && (n >= f.amplitude || Start(f, f.amplitude) <= |f.rows|)
    ensures |GroupsFrom(f, n)| == if n >= f.amplitude then 0 else f.amplitude - n
    decreases f.amplitude - n
  {
    if n < f.amplitude {
      GroupsFromLength(f, n + 1);
    }
  }

  /** There is one group per amplitude, and group 0 is row 0 alone. */
  lemma TuneGroupsShape(f: DynapFrame)
    requires |f.rows| >= RowsNeeded(f)
    ensures |TuneGroups(f)| == if f.amplitude > 0 then f.amplitude else 0
    ensures f.amplitude >= 1 ==> TuneGroups(f)[0] == [f.rows[0]]
  {
    if f.amplitude >= 1 {
      GroupsFromLength(f, 1);
    }
  }

  /** Slot m of group n >= 1 is row 1 + (n - 1) * ANGLE + m. */
  lemma TuneGroupsSlot(f: DynapFrame, n: int, m: int)
    requires |f.rows| >= RowsNeeded(f) && 1 <= n < f.amplitude && 0 <= m < Width(f)
    ensures |TuneGroups(f)| == f.amplitude && |TuneGroups(f)[n]| == Width(f)
    ensures Start(f, n) == 1 + (n - 1) * f.angle && Start(f, n) + m < |f.rows|
    ensures TuneGroups(f)[n][m] == f.rows[Start(f, n) + m]
  {
    var gs := GroupsFrom(f, 1);
    GroupsFromIndex(f, 1, n);
    assert TuneGroups(f) == [[f.rows[0]]] + gs;
    var g := GroupRows(f, n);
    assert TuneGroups(f)[n] == gs[n - 1] == g;
    assert Start(f, n + 1) == Start(f, n) + Width(f);
    assert g[m] == f.rows[Start(f, n) + m];
    StartFormula(f, n);
    assert Width(f) == f.angle;
  }

  function PointItems(ps: seq<TunePoint>): (items: seq<string>)
    ensures |items| == |ps| && forall k :: 0 <= k < |ps| ==> items[k] == PointItem(ps[k])
  {
    seq(|ps|, k requires 0 <= k < |ps| => PointItem(ps[k]))
  }

  /** The inner loop writes the point items of the rows it reads. */
  lemma {:induction false} AngleItemsValue(f: DynapFrame, n: int, m: int)
    requires n >= 1 && 0 <= m <= Width(f) && Start(f, n) + Width(f) <= |f.rows|
    ensures AngleItems(f, n, m) == Ok(PointItems(f.rows[Start(f, n) + m..Start(f, n) + Width(f)]))
    decreases Width(f) - m
  {
    if m < f.angle {
      AngleItemsValue(f, n, m + 1);
      AngleItemsStep(f, n, m);
      PointItemsCons(f.rows, Start(f, n) + m, Start(f, n) + Width(f));
    } else {
      assert f.rows[Start(f, n) + m..Start(f, n) + Width(f)] == [];
    }
  }

  /** One pass of the inner loop: slot `m` of amplitude `n` is row
      `Start(n) + m`. */
  lemma AngleItemsStep(f: DynapFrame, n: int, m: int)
    requires n >= 1 && 0 <= m < f.angle && Start(f, n) + m < |f.rows|
    requires AngleItems(f, n, m + 1).Ok?
    ensures AngleItems(f, n, m) == Ok([PointItem(f.rows[Start(f, n) + m])] + AngleItems(f, n, m + 1).value)
  {
    StartFormula(f, n);
  }

  lemma PointItemsCons(s: seq<TunePoint>, a: int, b: int)
    requires 0 <= a < b <= |s|
    ensures PointItems(s[a..b]) == [PointItem(s[a])] + PointItems(s[a + 1..b])
  {
    assert s[a..b][1..] == s[a + 1..b];
  }

  /** Every point of every group is a valid point. */
  predicate ValidGroups(gs: seq<seq<TunePoint>>) {
    forall i, k :: 0 <= i < |gs| && 0 <= k < |gs[i]| ==> ValidPoint(gs[i][k])
  }

  /** The fields written for a run of groups: for each, the count field and
      then the point items of the group. */
  function Blocks(count: string, gs: seq<seq<TunePoint>>): seq<string>
    decreases |gs|
  {
    if |gs| == 0 then [] else [count] + PointItems(gs[0]) + Blocks(count, gs[1..])
  }

  lemma BlocksCons(count: string, gs: seq<seq<TunePoint>>, tail: seq<string>)
    requires |gs| > 0
    ensures Blocks(count, gs) + tail == [count] + (PointItems(gs[0]) + (Blocks(count, gs[1..]) + tail))
  {
  }

  /** The outer loop writes, per amplitude, ANGLE and the items of its rows. */
  lemma {:induction false} AmplitudeItemsValue(f: DynapFrame, n: int)
    requires n >= 1 && (n >= f.amplitude || Start(f, f.amplitude) <= |f.rows|)
    ensures AmplitudeItems(f, n) == Ok(Blocks(IntToString(f.angle), GroupsFrom(f, n)))
    decreases f.amplitude - n
  {
    if n < f.amplitude {
      BlocksOfGroupsFrom(IntToString(f.angle), f, n);
      AngleItemsOfGroup(f, n);
      AmplitudeItemsValue(f, n + 1);
      AmplitudeItemsStep(f, n);
    } else {
      assert GroupsFrom(f, n) == [];
    }
  }

  /** The fields of the groups from amplitude `n` on: those of group `n`, then
      those of the later groups. */
  lemma BlocksOfGroupsFrom(count: string, f: DynapFrame, n: int)
    requires 1 <= n < f.amplitude && Start(f, f.amplitude) <= |f.rows|
    ensures Start(f, n + 1) <= |f.rows|
    ensures Blocks(count, GroupsFrom(f, n)) == [count] + PointItems(GroupRows(f, n)) + Blocks(count, GroupsFrom(f, n + 1))
  {
    GroupsFromStep(f, n);
    BlocksOfCons(count, GroupRows(f, n), GroupsFrom(f, n + 1));
  }

  /** The inner loop for amplitude `n` writes the items of its group. */
  lemma AngleItemsOfGroup(f: DynapFrame, n: int)
    requires n >= 1 && Start(f, n + 1) <= |f.rows|
    ensures AngleItems(f, n, 0) == Ok(PointItems(GroupRows(f, n)))
  {
    assert Start(f, n + 1) == Start(f, n) + Width(f);
    AngleItemsValue(f, n, 0);
    assert f.rows[Start(f, n)..Start(f, n) + Width(f)] == GroupRows(f, n);
  }

  lemma GroupsFromStep(f: DynapFrame, n: int)
    requires 1 <= n < f.amplitude && Start(f, f.amplitude) <= |f.rows|
    ensures Start(f, n + 1) <= |f.rows|
    ensures GroupsFrom(f, n) == [GroupRows(f, n)] + GroupsFrom(f, n + 1)
  {
    StartMonotone(f, n + 1, f.amplitude);
  }

  lemma BlocksOfCons(count: string, g: seq<TunePoint>, rest: seq<seq<TunePoint>>)
    ensures Blocks(count, [g] + rest) == [count] + PointItems(g) + Blocks(count, rest)
  {
    assert ([g] + rest)[1..] == rest;
  }

  lemma AmplitudeItemsStep(f: DynapFrame, n: int)
    requires 1 <= n < f.amplitude && AngleItems(f, n, 0).Ok? && AmplitudeItems(f, n + 1).Ok?
    ensures AmplitudeItems(f, n) == Ok([IntToString(f.angle)] + AngleItems(f, n, 0).value + AmplitudeItems(f, n + 1).value)
  {
  }

  /** The groups of amplitudes n .. AMPLITUDE - 1 are valid and `Width` long. */
  lemma {:induction false} GroupsFromShape(f: DynapFrame, n: int)
    requires ValidRows(f)
    requires n >= 1 && (n >= f.amplitude || Start(f, f.amplitude) <= |f.rows|)
    ensures ValidGroups(GroupsFrom(f, n))
    ensures forall i :: 0 <= i < |GroupsFrom(f, n)| ==> |GroupsFrom(f, n)[i]| == Width(f)
    decreases f.amplitude - n
  {
    if n < f.amplitude {
      StartMonotone(f, n + 1, f.amplitude);
      GroupsFromShape(f, n + 1);
      var gs := GroupsFrom(f, n);
      var g := GroupRows(f, n);
      assert gs == [g] + GroupsFrom(f, n + 1);
      RowsValid(f, Start(f, n), Start(f, n + 1));
      forall i, k | 0 <= i < |gs| && 0 <= k < |gs[i]| ensures ValidPoint(gs[i][k]) {
        if i > 0 {
          assert gs[i] == GroupsFrom(f, n + 1)[i - 1];
        }
      }
    }
  }

  lemma StripBrackets(h: string, v: string)
    requires |h| > 0 && |v| > 0 && NoDelimiter(h) && NoDelimiter(v)
    ensures RStripChar(LStripChar(PointItem(TunePoint(h, v)), '<'), '>') == h + ";" + v
  {
    var inner := h + ";" + v;
    assert PointItem(TunePoint(h, v)) == ['<'] + (inner + ['>']);
    assert !Delimiter(h[0]) && !Delimiter(v[|v| - 1]);
    assert (inner + ['>'])[0] == h[0] && inner[|inner| - 1] == v[|v| - 1];
    LStripOne(inner + ['>'], '<');
    RStripOne(inner, '>');
  }

  /** Stripping one leading `c` off a text that does not go on with `c`. */
  lemma LStripOne(x: string, c: char)
    requires |x| > 0 && x[0] != c
    ensures LStripChar([c] + x, c) == x
  {
    assert ([c] + x)[1..] == x;
  }

  /** Stripping one trailing `c` off a text that does not end in `c`. */
  lemma RStripOne(x: string, c: char)
    requires |x| > 0 && x[|x| - 1] != c
    ensures RStripChar(x + [c], c) == x
  {
    assert (x + [c])[..|x|] == x;
  }

  lemma SplitPair(h: string, v: string)
    requires NoDelimiter(h) && NoDelimiter(v)
    ensures Split(h + ";" + v, ';') == [h, v]
  {
    assert Join([h, v], ';') == h + ";" + v;
    assert forall i :: 0 <= i < |h| ==> !Delimiter(h[i]);
    assert forall i :: 0 <= i < |v| ==> !Delimiter(v[i]);
    SplitJoin([h, v], ';');
  }


  /** A point written by `PointItem` parses back to itself. */
  lemma PointItemRoundTrip(p: TunePoint)
    requires ValidPoint(p)
    ensures ParseTunePoint(PointItem(p)) == Ok(p)
  {
    FloatTextChars(p.h);
    FloatTextChars(p.v);
    StripBrackets(p.h, p.v);
    SplitPair(p.h, p.v);
  }

  lemma {:induction false} ParseFieldsOf<T>(items: seq<string>, vs: seq<T>, tail: seq<string>, parse: string -> Result<T>)
    requires |items| == |vs|
    requires forall k :: 0 <= k < |vs| ==> parse(items[k]) == Ok(vs[k])
    ensures ParseFields(items + tail, |vs|, parse) == Ok((vs, tail))
    decreases |vs|
  {
    if |vs| > 0 {
      var all := items + tail;
      assert all[0] == items[0];
      assert all[1..] == items[1..] + tail;
      ParseFieldsOf(items[1..], vs[1..], tail, parse);
      assert [vs[0]] + vs[1..] == vs;
    }
  }

  /** One group: its count field, its points, then the remaining groups. */
  lemma ParseGroupsStep<T>(count: string, n: int, size: nat, points: seq<string>, ps: seq<T>, rest: seq<string>,
                           more: nat, groups: seq<seq<T>>, tail: seq<string>, parse: string -> Result<T>)
    requires ParseCount(count) == Ok(n) && size == if n > 0 then n else 0
    requires ParseFields(points + rest, size, parse) == Ok((ps, rest))
    requires ParseGroups(rest, more, parse) == Ok((groups, tail))
    ensures ParseGroups([count] + (points + rest), more + 1, parse) == Ok(([ps] + groups, tail))
  {
    var all := [count] + (points + rest);
    assert all[0] == count && all[1..] == points + rest;
  }

  lemma RowsValid(f: DynapFrame, a: int, b: int)
    requires ValidRows(f) && 0 <= a <= b <= |f.rows|
    ensures forall k :: 0 <= k < b - a ==> ValidPoint(f.rows[a..b][k])
  {
  }

  /** Every group holds `size` points. */
  predicate SizedGroups(gs: seq<seq<TunePoint>>, size: nat) {
    forall i :: 0 <= i < |gs| ==> |gs[i]| == size
  }

  /** `parse` reads every point's item back as that point. */
  predicate PointsReadBack(ps: seq<TunePoint>, parse: string -> Result<TunePoint>) {
    forall k :: 0 <= k < |ps| ==> parse(PointItem(ps[k])) == Ok(ps[k])
  }

  predicate GroupsReadBack(gs: seq<seq<TunePoint>>, parse: string -> Result<TunePoint>) {
    forall i :: 0 <= i < |gs| ==> PointsReadBack(gs[i], parse)
  }

  lemma GroupsSplit(gs: seq<seq<TunePoint>>, size: nat, parse: string -> Result<TunePoint>)
    requires |gs| > 0 && SizedGroups(gs, size) && GroupsReadBack(gs, parse)
    ensures |gs[0]| == size && PointsReadBack(gs[0], parse)
    ensures SizedGroups(gs[1..], size) && GroupsReadBack(gs[1..], parse)
  {
    assert forall i :: 0 <= i < |gs| - 1 ==> gs[1..][i] == gs[i + 1];
  }

  /** The items of points that `parse` reads back are read back in order. */
  lemma ParsePointItems(ps: seq<TunePoint>, tail: seq<string>, parse: string -> Result<TunePoint>)
    requires PointsReadBack(ps, parse)
    ensures ParseFields(PointItems(ps) + tail, |ps|, parse) == Ok((ps, tail))
  {
    var items := PointItems(ps);
    assert forall k :: 0 <= k < |ps| ==> parse(items[k]) == Ok(ps[k]);
    ParseFieldsOf(items, ps, tail, parse);
  }

  /** Parsing the fields of a run of same-sized groups gives the groups back. */
  lemma {:induction false} ParseBlocks(count: string, n: int, gs: seq<seq<TunePoint>>, tail: seq<string>,
                                       parse: string -> Result<TunePoint>)
    requires ParseCount(count) == Ok(n)
    requires SizedGroups(gs, if n > 0 then n else 0) && GroupsReadBack(gs, parse)
    ensures ParseGroups(Blocks(count, gs) + tail, |gs|, parse) == Ok((gs, tail))
    decreases |gs|
  {
    if |gs| == 0 {
      assert Blocks(count, gs) + tail == tail && gs == [];
    } else {
      var size: nat := if n > 0 then n else 0;
      GroupsSplit(gs, size, parse);
      ParseBlocks(count, n, gs[1..], tail, parse);
      ParseBlocksStep(count, n, size, gs, tail, parse);
    }
  }

  /** One more group in front of groups that already read back. */
  lemma ParseBlocksStep(count: string, n: int, size: nat, gs: seq<seq<TunePoint>>, tail: seq<string>,
                        parse: string -> Result<TunePoint>)
    requires ParseCount(count) == Ok(n) && size == if n > 0 then n else 0
    requires |gs| > 0 && |gs[0]| == size && PointsReadBack(gs[0], parse)
    requires ParseGroups(Blocks(count, gs[1..]) + tail, |gs[1..]|, parse) == Ok((gs[1..], tail))
    ensures ParseGroups(Blocks(count, gs) + tail, |gs|, parse) == Ok((gs, tail))
  {
    var g, more := gs[0], gs[1..];
    var left: nat := |more|;
    var rest := Blocks(count, more) + tail;
    ParsePointItems(g, rest, parse);
    ParseGroupsStep(count, n, size, PointItems(g), g, rest, left, more, tail, parse);
    BlocksCons(count, gs, tail);
    assert [g] + more == gs && left + 1 == |gs|;
  }

  /** Every field of the representation is non-empty, holds no comma, and does
      not end in whitespace. */
  predicate Field(x: string) {
    |x| > 0 && ',' !in x && !IsSpace(x[|x| - 1])
  }

  predicate AllFields(items: seq<string>) {
    forall k :: 0 <= k < |items| ==> Field(items[k])
  }

  lemma AllFieldsConcat(a: seq<string>, b: seq<string>)
    requires AllFields(a) && AllFields(b)
    ensures AllFields(a + b)
  {
  }

  lemma PointItemField(p: TunePoint)
    requires ValidPoint(p)
    ensures Field(PointItem(p))
  {
    FloatTextChars(p.h);
    FloatTextChars(p.v);
    DelimitedField(p.h, p.v);
  }

  lemma DelimitedField(h: string, v: string)
    requires NoDelimiter(h) && NoDelimiter(v)
    ensures Field(PointItem(TunePoint(h, v)))
  {
    var item := PointItem(TunePoint(h, v));
    assert item[|item| - 1] == '>';
    forall i | 0 <= i < |item| ensures item[i] != ',' {
      if 1 <= i < 1 + |h| {
        assert item[i] == h[i - 1];
      } else if 1 + |h| < i < |item| - 1 {
        assert item[i] == v[i - 2 - |h|];
      }
    }
  }

  lemma IntToStringField(n: int)
    ensures Field(IntToString(n))
  {
    var s := IntToString(n);
    if n < 0 {
      var d := NatToString(-n);
      assert forall i :: 0 < i < |s| ==> s[i] == d[i - 1];
    }
  }

  lemma PointItemsFields(ps: seq<TunePoint>)
    requires forall k :: 0 <= k < |ps| ==> ValidPoint(ps[k])
    ensures AllFields(PointItems(ps))
  {
    forall k | 0 <= k < |ps| ensures Field(PointItems(ps)[k]) {
      PointItemField(ps[k]);
    }
  }

  lemma {:induction false} BlocksFields(count: string, gs: seq<seq<TunePoint>>)
    requires Field(count) && ValidGroups(gs)
    ensures AllFields(Blocks(count, gs))
    decreases |gs|
  {
    if |gs| > 0 {
      assert forall i :: 0 <= i < |gs| - 1 ==> gs[1..][i] == gs[i + 1];
      BlocksFields(count, gs[1..]);
      assert forall k :: 0 <= k < |gs[0]| ==> ValidPoint(gs[0][k]);
      PointItemsFields(gs[0]);
      AllFieldsConcat([count], PointItems(gs[0]));
      AllFieldsConcat([count] + PointItems(gs[0]), Blocks(count, gs[1..]));
    }
  }

  /** Joining fields with commas and splitting the stripped text gives them back. */
  lemma SplitStripJoin(items: seq<string>)
    requires |items| >= 1 && AllFields(items) && !IsSpace(items[0][0])
    ensures Split(Strip(Join(items, ',')), ',') == items
  {
    assert Field(items[0]) && Field(items[|items| - 1]);
    var rep := Join(items, ',');
    JoinLast(items, ',');
    JoinFirst(items, ',');
    StripNoEdgeSpace(rep);
    SplitJoin(items, ',');
  }

  lemma {:induction false} JoinFirst(parts: seq<string>, sep: char)
    requires |parts| >= 1 && |parts[0]| > 0
    ensures |Join(parts, sep)| > 0 && Join(parts, sep)[0] == parts[0][0]
  {
  }

  /** `_make_tune_groups` on a text whose fields are known: the second field
      is the group count and the groups follow. */
  lemma MakeTuneGroupsOfItems(rep: string, dsigma: real, amplitude: int, amplitudeText: string,
                              groupItems: seq<string>, groups: seq<seq<TunePoint>>)
    requires Split(Strip(rep), ',') == ["TMPNAME", amplitudeText] + groupItems
    requires ParseCount(amplitudeText) == Ok(amplitude)
    requires ParseGroups(groupItems, if amplitude > 0 then amplitude else 0, ParseTunePoint).Ok?
    requires ParseGroups(groupItems, if amplitude > 0 then amplitude else 0, ParseTunePoint).value.0 == groups
    ensures MakeTuneGroups(rep, dsigma) == Ok(groups)
  {
    var items := Split(Strip(rep), ',');
    assert items[1] == amplitudeText && items[2..] == groupItems;
  }

  /** Group 0 is written with count "1" and its single point. */
  lemma ParseHeadGroup<T>(one: string, first: T, firstItem: string, rest: seq<string>, gs: seq<seq<T>>,
                          amplitude: int, parse: string -> Result<T>)
    requires ParseCount(one) == Ok(1)
    requires amplitude >= 1 && parse(firstItem) == Ok(first)
    requires ParseGroups(rest, amplitude - 1, parse) == Ok((gs, []))
    ensures ParseGroups([one] + ([firstItem] + rest), amplitude, parse) == Ok(([[first]] + gs, []))
  {
    var more := amplitude - 1;
    assert more + 1 == amplitude;
    ParseFieldsOf([firstItem], [first], rest, parse);
    ParseGroupsStep(one, 1, 1, [firstItem], [first], rest, more, gs, [], parse);
  }

  lemma ParseCountOne()
    ensures ParseCount("1") == Ok(1)
  {
    ParseIntOfIntToString(1);
  }

  /** The representation of a table is its header and group fields joined by
      commas. */
  lemma DynapStringRepOfBlocks(f: DynapFrame)
    requires |f.rows| >= RowsNeeded(f)
    ensures DynapStringRep(f) == Ok(Join(["TMPNAME", IntToString(f.amplitude)] + GroupItems(f), ','))
  {
    AmplitudeItemsValue(f, 1);
    var a, b, c, d := "TMPNAME", IntToString(f.amplitude), "1", PointItem(f.rows[0]);
    var rest := Blocks(IntToString(f.angle), GroupsFrom(f, 1));
    assert [a, b, c, d] + rest == [a, b] + ([c] + ([d] + rest));
  }

  /** The fields after the header: group 0 as count "1" and row 0, then the
      further groups. */
  function GroupItems(f: DynapFrame): seq<string>
    requires |f.rows| >= RowsNeeded(f)
  {
    ["1"] + ([PointItem(f.rows[0])] + Blocks(IntToString(f.angle), GroupsFrom(f, 1)))
  }

  /** The text splits back into the fields that were joined. */
  lemma DynapStringRepFields(f: DynapFrame)
    requires ValidRows(f) && |f.rows| >= RowsNeeded(f)
    ensures DynapStringRep(f).Ok?
    ensures Split(Strip(DynapStringRep(f).value), ',') == ["TMPNAME", IntToString(f.amplitude)] + GroupItems(f)
  {
    DynapStringRepOfBlocks(f);
    GroupItemsFields(f);
    IntToStringField(f.amplitude);
    AllFieldsConcat(["TMPNAME", IntToString(f.amplitude)], GroupItems(f));
    SplitStripJoin(["TMPNAME", IntToString(f.amplitude)] + GroupItems(f));
  }

  lemma GroupItemsFields(f: DynapFrame)
    requires ValidRows(f) && |f.rows| >= RowsNeeded(f)
    ensures AllFields(GroupItems(f))
  {
    var first := f.rows[0];
    var blocks := Blocks(IntToString(f.angle), GroupsFrom(f, 1));
    GroupsFromShape(f, 1);
    IntToStringField(f.angle);
    BlocksFields(IntToString(f.angle), GroupsFrom(f, 1));
    PointItemField(first);
    AllFieldsConcat([PointItem(first)], blocks);
    AllFieldsConcat(["1"], [PointItem(first)] + blocks);
  }

  /** The further groups have `Width` points each, and each point reads back. */
  lemma GroupsFromReadBack(f: DynapFrame)
    requires ValidRows(f) && |f.rows| >= RowsNeeded(f) && f.amplitude >= 1
    ensures SizedGroups(GroupsFrom(f, 1), Width(f))
    ensures GroupsReadBack(GroupsFrom(f, 1), ParseTunePoint)
  {
    var gs := GroupsFrom(f, 1);
    GroupsFromShape(f, 1);
    forall i | 0 <= i < |gs| ensures PointsReadBack(gs[i], ParseTunePoint) {
      forall k | 0 <= k < |gs[i]| ensures ParseTunePoint(PointItem(gs[i][k])) == Ok(gs[i][k]) {
        PointItemRoundTrip(gs[i][k]);
      }
    }
  }

  /** The fields after the header parse back into the tune groups. */
  lemma ParseGroupItems(f: DynapFrame)
    requires ValidRows(f) && |f.rows| >= RowsNeeded(f)
    ensures var r := ParseGroups(GroupItems(f), if f.amplitude > 0 then f.amplitude else 0, ParseTunePoint);
            r.Ok? && r.value.0 == TuneGroups(f)
  {
    if f.amplitude >= 1 {
      var first := f.rows[0];
      var c := IntToString(f.angle);
      var gs := GroupsFrom(f, 1);
      var blocks := Blocks(c, gs);
      GroupsFromReadBack(f);
      GroupsFromLength(f, 1);
      ParseIntOfIntToString(f.angle);
      assert ParseCount(c) == Ok(f.angle);
      ParseBlocks(c, f.angle, gs, [], ParseTunePoint);
      assert blocks + [] == blocks;
      PointItemRoundTrip(first);
      ParseCountOne();
      ParseHeadGroup("1", first, PointItem(first), blocks, gs, f.amplitude, ParseTunePoint);
      assert GroupItems(f) == ["1"] + ([PointItem(first)] + blocks);
      TuneGroupsUnfold(f);
    } else {
      TuneGroupsUnfold(f);
    }
  }

  lemma TuneGroupsUnfold(f: DynapFrame)
    requires |f.rows| >= RowsNeeded(f)
    ensures TuneGroups(f) == if f.amplitude < 1 then [] else [[f.rows[0]]] + GroupsFrom(f, 1)
  {
  }

  /** Writing a table and parsing the text gives back its tune groups. */
  lemma MakeTuneGroupsOfDynapStringRep(f: DynapFrame, dsigma: real)
    requires ValidRows(f) && |f.rows| >= RowsNeeded(f)
    ensures DynapStringRep(f).Ok?
    ensures MakeTuneGroups(DynapStringRep(f).value, dsigma) == Ok(TuneGroups(f))
  {
    DynapStringRepFields(f);
    ParseGroupItems(f);
    ParseIntOfIntToString(f.amplitude);
    MakeTuneGroupsOfItems(DynapStringRep(f).value, dsigma, f.amplitude, IntToString(f.amplitude), GroupItems(f), TuneGroups(f));
  }
}
