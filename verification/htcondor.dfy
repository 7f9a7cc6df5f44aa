/** The `condor_q` report reader of pyhdtoolkit/utils/htcondor.py.

    `read_condor_q` walks the report line by line: a "-- Schedd:" line names
    the scheduler, an "OWNER" header opens the block of task lines, a blank
    line closes it, and the remaining lines are the three "Total for ..."
    summaries (the query, the querying user, all users). Each kind of line has
    a fixed-format parser that raises a typed error when the line does not
    fit. The two regular expressions are modelled by hand-written matchers that
    give the result Python's backtracking `re.search` gives.
 */
module HtCondor {
  import opened Errors
  import opened Text

  // ---------------------------------------------------------------------------
  // str.splitlines()
  // ---------------------------------------------------------------------------

  /** The line boundaries `str.splitlines` recognises. */
  predicate IsLineBreak(c: char) {
    c == '\n' || c == '\r' || c == '\U{B}' || c == '\U{C}' || ('\U{1C}' <= c <= '\U{1E}')
    || c == '\U{85}' || c == '\U{2028}' || c == '\U{2029}'
  }

  predicate NoBreak(l: string) {
    forall i :: 0 <= i < |l| ==> !IsLineBreak(l[i])
  }

  /** Position of the first line boundary in `s`, or `|s|` when there is none. */
  function BreakIndex(s: string): (i: nat)
    ensures i <= |s|
    ensures i < |s| ==> IsLineBreak(s[i])
    ensures forall j :: 0 <= j < i ==> !IsLineBreak(s[j])
    decreases |s|
  {
    if |s| == 0 then 0 else if IsLineBreak(s[0]) then 0 else 1 + BreakIndex(s[1..])
  }

  lemma BreakIndexUnique(s: string, k: nat)
    requires k < |s| && IsLineBreak(s[k])
    requires forall j :: 0 <= j < k ==> !IsLineBreak(s[j])
    ensures BreakIndex(s) == k
  {
  }

  /** `s.splitlines()`: "\r\n" counts as one boundary, and a final boundary
      does not open an empty last line. */
  function SplitLines(s: string): (lines: seq<string>)
    ensures forall k :: 0 <= k < |lines| ==> NoBreak(lines[k])
    ensures s == [] <==> lines == []
    decreases |s|
  {
    if s == [] then []
    else
      var i := BreakIndex(s);
      if i == |s| then [s]
      else
        var j := if s[i] == '\r' && i + 1 < |s| && s[i + 1] == '\n' then i + 2 else i + 1;
        [s[..i]] + SplitLines(s[j..])
  }

  /** Lines each terminated by "\n", as a command writes them. */
  function JoinLines(lines: seq<string>): string
    decreases |lines|
  {
    if lines == [] then "" else lines[0] + "\n" + JoinLines(lines[1..])
  }

  /** Splitting "\n"-terminated lines gives them back. */
  lemma {:induction false} SplitLinesOfJoinLines(lines: seq<string>)
    requires forall k :: 0 <= k < |lines| ==> NoBreak(lines[k])
    ensures SplitLines(JoinLines(lines)) == lines
    decreases |lines|
  {
    if lines != [] {
      var l := lines[0];
      var rest := JoinLines(lines[1..]);
      var s := l + "\n" + rest;
      assert s == JoinLines(lines);
      assert s[|l|] == '\n';
      assert forall j :: 0 <= j < |l| ==> s[j] == l[j];
      BreakIndexUnique(s, |l|);
      assert s[..|l|] == l;
      assert s[|l| + 1..] == rest;
      SplitLinesOfJoinLines(lines[1..]);
    }
  }

  // ---------------------------------------------------------------------------
  // re.search: the leftmost start at which an anchored matcher succeeds
  // ---------------------------------------------------------------------------

  /** `pattern.search(s)` for a pattern whose anchored match at the front of a
      string is `at`: starts are tried from 0 to `|s|` and the first success wins. */
  function Search<T>(s: string, at: string -> Option<T>): (r: Option<T>)
    ensures r.Some? <==> exists i :: 0 <= i <= |s| && at(s[i..]).Some?
    ensures r.Some? ==> exists i :: 0 <= i <= |s| && at(s[i..]) == r && forall j :: 0 <= j < i ==> at(s[j..]).None?
    decreases |s|
  {
    assert s[0..] == s;
    if at(s).Some? then at(s)
    else if |s| == 0 then None
    else
      var r := Search(s[1..], at);
      assert forall i :: 0 <= i <= |s| - 1 ==> s[1..][i..] == s[i + 1..];
      assert r.Some? ==> exists i :: 0 <= i <= |s| && at(s[i..]).Some? by {
        if r.Some? {
          var i :| 0 <= i <= |s| - 1 && at(s[1..][i..]).Some?;
          assert at(s[i + 1..]).Some?;
        }
      }
      assert (exists i :: 0 <= i <= |s| && at(s[i..]).Some?) ==> r.Some? by {
        if exists i :: 0 <= i <= |s| && at(s[i..]).Some? {
          var i :| 0 <= i <= |s| && at(s[i..]).Some?;
          assert i != 0;
          assert at(s[1..][i - 1..]).Some?;
        }
      }
      assert r.Some? ==> exists i :: 0 <= i <= |s| && at(s[i..]) == r && forall j :: 0 <= j < i ==> at(s[j..]).None? by {
        if r.Some? {
          var i :| 0 <= i <= |s| - 1 && at(s[1..][i..]) == r && forall j :: 0 <= j < i ==> at(s[1..][j..]).None?;
          assert at(s[i + 1..]) == r;
          forall j | 0 <= j < i + 1
            ensures at(s[j..]).None?
          {
            if j > 0 {
              assert at(s[1..][j - 1..]).None?;
            }
          }
        }
      }
      r
  }

  /** The search result is the anchored match at the first start where one exists. */
  lemma SearchFirst<T>(s: string, at: string -> Option<T>, i: nat)
    requires i <= |s| && at(s[i..]).Some?
    requires forall j :: 0 <= j < i ==> at(s[j..]).None?
    ensures Search(s, at) == at(s[i..])
  {
    var r := Search(s, at);
    assert r.Some?;
    var i' :| 0 <= i' <= |s| && at(s[i'..]) == r && forall j :: 0 <= j < i' ==> at(s[j..]).None?;
    assert i' == i;
  }

  // ---------------------------------------------------------------------------
  // _SCHEDD_RE: Schedd:\s+(?P<cluster>[^.]+)\.cern\.ch
  // ---------------------------------------------------------------------------

  const SchedTag: string := "Schedd:"
  const SchedDomain: string := ".cern.ch"

  /** Length of the whitespace run at the front of `s`. */
  function SpaceRun(s: string): (n: nat)
    ensures n <= |s|
    ensures forall j :: 0 <= j < n ==> IsSpace(s[j])
    ensures n < |s| ==> !IsSpace(s[n])
    decreases |s|
  {
    if |s| > 0 && IsSpace(s[0]) then 1 + SpaceRun(s[1..]) else 0
  }

  /** One way for the scheduler pattern to match at the front of `s`: the tag,
      `w >= 1` whitespace characters, the capture `c` (no '.'), the domain. */
  predicate SchedMatchAt(s: string, w: nat, c: string) {
    StartsWith(s, SchedTag) && w >= 1 && 7 + w <= |s|
    && (forall k :: 7 <= k < 7 + w ==> IsSpace(s[k]))
    && |c| > 0 && '.' !in c
    && StartsWith(s[7 + w..], c + SchedDomain)
  }

  ghost predicate SchedMatches(s: string) {
    exists w: nat, c: string :: SchedMatchAt(s, w, c)
  }

  /** The anchored match of the scheduler pattern. `\s+` is greedy, and
      `[^.]+` must run up to the first '.', so the capture is what lies
      between the whitespace run and the first dot; when the dot follows the
      whitespace directly, `\s+` gives its last character back to the capture. */
  function SchedAt(s: string): Option<string> {
    if !StartsWith(s, SchedTag) then None
    else
      var t := s[7..];
      var w := SpaceRun(t);
      var d := IndexOf(t, '.');
      if w == 0 || d == |t| || !StartsWith(t[d..], SchedDomain) then None
      else if d > w then Some(t[w..d])
      else if w >= 2 then Some(t[w - 1..d])
      else None
  }

  /** The anchored matcher succeeds exactly when the pattern can match, its
      capture is one the pattern allows, and it is the shortest such capture
      (the one the greedy whitespace run leaves). */
  lemma SchedAtMeaning(s: string)
    ensures SchedAt(s).Some? <==> SchedMatches(s)
    ensures SchedAt(s).Some? ==> exists w: nat :: SchedMatchAt(s, w, SchedAt(s).value)
    ensures SchedAt(s).Some? ==> forall w: nat, c :: SchedMatchAt(s, w, c) ==> |SchedAt(s).value| <= |c|
  {
    if SchedAt(s).Some? {
      SchedAtSound(s);
    }
    forall w: nat, c | SchedMatchAt(s, w, c)
      ensures SchedAt(s).Some? && |SchedAt(s).value| <= |c|
    {
      SchedAtComplete(s, w, c);
    }
  }

  lemma SchedAtSound(s: string)
    requires SchedAt(s).Some?
    ensures exists w: nat :: SchedMatchAt(s, w, SchedAt(s).value)
  {
    var t := s[7..];
    var w := SpaceRun(t);
    var d := IndexOf(t, '.');
    var c := SchedAt(s).value;
    SchedAtFacts(s);
    var v: nat := if d > w then w else w - 1;
    assert 1 <= v < d && c == t[v..d];
    SpacesAfter(s, 7, v);
    NotInSlice(t, '.', v, d);
    SliceDrop(s, 7, v);
    SliceSplit(t, v, d, |SchedDomain|);
    assert StartsWith(s[7 + v..], c + SchedDomain);
    assert SchedMatchAt(s, v, c);
  }

  /** What a successful anchored match tells about the line. */
  lemma SchedAtFacts(s: string)
    requires SchedAt(s).Some?
    ensures StartsWith(s, SchedTag)
    ensures var t := s[7..];
            var w := SpaceRun(t);
            var d := IndexOf(t, '.');
            && 1 <= w <= d < |t| && t[d..][..|SchedDomain|] == SchedDomain
            && (d > w || w >= 2)
            && SchedAt(s).value == (if d > w then t[w..d] else t[w - 1..d])
  {
    var t := s[7..];
    var w := SpaceRun(t);
    var d := IndexOf(t, '.');
    assert !IsSpace('.');
    assert d >= w;
  }

  lemma SpacesAfter(s: string, a: nat, n: nat)
    requires a + n <= |s| && forall j :: 0 <= j < n ==> IsSpace(s[a..][j])
    ensures forall k :: a <= k < a + n ==> IsSpace(s[k])
  {
    forall k | a <= k < a + n
      ensures IsSpace(s[k])
    {
      assert s[k] == s[a..][k - a];
    }
  }

  lemma NotInSlice(t: string, x: char, v: nat, d: nat)
    requires v <= d <= |t| && forall j :: 0 <= j < d ==> t[j] != x
    ensures x !in t[v..d]
  {
    assert forall j :: 0 <= j < d - v ==> t[v..d][j] == t[v + j];
  }

  lemma SliceDrop(s: string, a: nat, b: nat)
    requires a + b <= |s|
    ensures s[a..][b..] == s[a + b..]
  {
  }

  lemma SliceSplit(t: string, v: nat, d: nat, n: nat)
    requires v <= d && d + n <= |t|
    ensures t[v..][..d - v + n] == t[v..d] + t[d..][..n]
  {
  }

  lemma SchedAtComplete(s: string, w: nat, c: string)
    requires SchedMatchAt(s, w, c)
    ensures SchedAt(s).Some? && |SchedAt(s).value| <= |c|
  {
    var t := s[7..];
    var d := w + |c|;
    SliceDrop(s, 7, w);
    StartsWithSplit(t[w..], c, SchedDomain);
    SliceDrop(t, w, |c|);
    SpacesBefore(s, 7, w);
    assert !IsSpace('.');
    NoCharThrough(t, '.', w, c);
    assert t[d] == t[d..][0] == '.';
    IndexOfUnique(t, '.', d);
    assert SpaceRun(t) >= w;
  }

  lemma SpacesBefore(s: string, a: nat, n: nat)
    requires a + n <= |s| && forall k :: a <= k < a + n ==> IsSpace(s[k])
    ensures forall j :: 0 <= j < n ==> IsSpace(s[a..][j])
  {
    forall j | 0 <= j < n
      ensures IsSpace(s[a..][j])
    {
      assert s[a..][j] == s[a + j];
    }
  }

  /** A character absent from the first `w` positions and from the text `c`
      that follows them is absent through the end of `c`. */
  lemma NoCharThrough(t: string, x: char, w: nat, c: string)
    requires w + |c| <= |t| && t[w..][..|c|] == c && x !in c
    requires forall j :: 0 <= j < w ==> t[j] != x
    ensures forall j :: 0 <= j < w + |c| ==> t[j] != x
  {
    forall j | w <= j < w + |c|
      ensures t[j] != x
    {
      assert t[j] == t[w..][..|c|][j - w];
    }
  }

  /** `_process_scheduler_information_line(line)`. */
  function ParseSchedulerLine(line: string): (r: Result<string>)
    ensures r.Ok? <==> exists i :: 0 <= i <= |line| && SchedMatches(line[i..])
    ensures r.Err? ==> r.error == SchedulerInformationParseError(line)
    ensures r.Ok? ==> |r.value| > 0 && '.' !in r.value
  {
    SearchSchedMeaning(line);
    match Search(line, SchedAt)
    case Some(c) => Ok(c)
    case None => Err(SchedulerInformationParseError(line))
  }

  lemma SearchSchedMeaning(line: string)
    ensures Search(line, SchedAt).Some? <==> exists i :: 0 <= i <= |line| && SchedMatches(line[i..])
    ensures Search(line, SchedAt).Some? ==> |Search(line, SchedAt).value| > 0 && '.' !in Search(line, SchedAt).value
  {
    var found := Search(line, SchedAt);
    if found.Some? {
      var i :| 0 <= i <= |line| && SchedAt(line[i..]) == found;
      SchedAtMeaning(line[i..]);
    } else {
      forall i | 0 <= i <= |line|
        ensures !SchedMatches(line[i..])
      {
        SchedAtMeaning(line[i..]);
      }
    }
  }

  /** The scheduler line condor_q prints. */
  function SchedulerLineText(name: string, tail: string): string {
    "-- " + SchedTag + " " + name + SchedDomain + tail
  }

  /** A scheduler name without dots, not starting with whitespace, is read back
      from its line. */
  lemma ParseSchedulerLineOfText(name: string, tail: string)
    requires |name| > 0 && '.' !in name && !IsSpace(name[0])
    ensures ParseSchedulerLine(SchedulerLineText(name, tail)) == Ok(name)
  {
    var line := SchedulerLineText(name, tail);
    SchedulerLineTextShape(name, tail);
    SchedAtOfText(name, tail);
    SearchFirst(line, SchedAt, 3);
  }

  /** The scheduler pattern cannot match in the leading "-- ". */
  lemma SchedulerLineTextShape(name: string, tail: string)
    ensures var line := SchedulerLineText(name, tail);
            && line[3..] == SchedTag + " " + name + SchedDomain + tail
            && forall j :: 0 <= j < 3 ==> SchedAt(line[j..]).None?
  {
    var r := SchedTag + " " + name + SchedDomain + tail;
    assert SchedulerLineText(name, tail) == "-- " + r;
    NoSchedInDashes(r);
  }

  lemma NoSchedInDashes(r: string)
    ensures forall j :: 0 <= j < 3 ==> SchedAt(("-- " + r)[j..]).None?
  {
    var line := "-- " + r;
    NoSchedAt(line[0..]);
    NoSchedAt(line[1..]);
    NoSchedAt(line[2..]);
  }

  lemma NoSchedAt(s: string)
    requires |s| > 0 && s[0] != 'S'
    ensures SchedAt(s).None?
  {
    if |s| >= 7 {
      assert s[..7][0] == s[0];
    }
  }

  lemma SchedAtOfText(name: string, tail: string)
    requires |name| > 0 && '.' !in name && !IsSpace(name[0])
    ensures SchedAt(SchedTag + " " + name + SchedDomain + tail) == Some(name)
  {
    var s := SchedTag + " " + name + SchedDomain + tail;
    var t := s[7..];
    assert t == " " + name + SchedDomain + tail;
    assert SpaceRun(t) == 1 by {
      assert t[1] == name[0];
      assert SpaceRun(t) == 1 + SpaceRun(t[1..]);
      assert t[1..][0] == name[0];
    }
    var d := 1 + |name|;
    forall j | 0 <= j < d
      ensures t[j] != '.'
    {
      if j > 0 {
        assert t[j] == name[j - 1];
      }
    }
    assert t[d] == '.';
    IndexOfUnique(t, '.', d);
    assert t[d..][..8] == SchedDomain;
    assert t[1..d] == name;
  }

  // ---------------------------------------------------------------------------
  // _CLUSTER_SUMMARY_RE_TEMPLATE
  // ---------------------------------------------------------------------------

  /** One summary line: the seven counts of condor_q's "Total for" lines. */
  datatype Summary = Summary(jobs: nat, completed: nat, removed: nat, idle: nat,
                             running: nat, held: nat, suspended: nat)

  /** The text after each `(\d+)` group of the template, in order. */
  const CountLabels: seq<string> :=
    [" jobs; ", " completed, ", " removed, ", " idle, ", " running, ", " held, ", " suspended"]

  predicate LabelsStartWithNonDigit(labels: seq<string>) {
    forall i :: 0 <= i < |labels| ==> |labels[i]| > 0 && !IsDigit(labels[i][0])
  }

  /** Length of the run of ASCII digits at the front of `s`. */
  function DigitRun(s: string): (n: nat)
    ensures n <= |s|
    ensures forall j :: 0 <= j < n ==> IsDigit(s[j])
    ensures n < |s| ==> !IsDigit(s[n])
    decreases |s|
  {
    if |s| > 0 && IsDigit(s[0]) then 1 + DigitRun(s[1..]) else 0
  }

  /** The anchored match of `(\d+)<label>` for each label in turn: the numbers
      the digit groups denote. */
  function MatchCounts(s: string, labels: seq<string>): (r: Option<seq<nat>>)
    ensures r.Some? ==> |r.value| == |labels|
    decreases |labels|
  {
    if labels == [] then Some([])
    else
      var n := DigitRun(s);
      if n == 0 || !StartsWith(s[n..], labels[0]) then None
      else
        match MatchCounts(s[n + |labels[0]|..], labels[1..])
        case None => None
        case Some(rest) => Some([DigitsValue(s[..n])] + rest)
  }

  /** One step of the matcher: a digit run and the first label, then the rest. */
  lemma MatchCountsCons(s: string, labels: seq<string>)
    requires labels != [] && DigitRun(s) > 0 && StartsWith(s[DigitRun(s)..], labels[0])
    ensures var n := DigitRun(s);
            var t := MatchCounts(s[n + |labels[0]|..], labels[1..]);
            && (MatchCounts(s, labels).Some? <==> t.Some?)
            && (t.Some? ==> MatchCounts(s, labels).value[0] == DigitsValue(s[..n]))
            && (t.Some? ==> MatchCounts(s, labels).value[1..] == t.value)
  {
  }

  /** The digit groups followed by their labels. */
  function CountsText(digits: seq<string>, labels: seq<string>): string
    requires |digits| == |labels|
    decreases |digits|
  {
    if digits == [] then "" else digits[0] + (labels[0] + CountsText(digits[1..], labels[1..]))
  }

  predicate DigitGroups(digits: seq<string>) {
    forall i :: 0 <= i < |digits| ==> |digits[i]| > 0 && AllDigits(digits[i])
  }

  function Values(digits: seq<string>): (vs: seq<nat>)
    requires DigitGroups(digits)
    ensures |vs| == |digits|
    ensures forall i :: 0 <= i < |digits| ==> vs[i] == DigitsValue(digits[i])
  {
    if digits == [] then [] else [DigitsValue(digits[0])] + Values(digits[1..])
  }

  /** Whenever digit groups and labels spell the front of `s`, the matcher reads
      exactly the numbers those groups denote: the digit runs cannot be split
      differently because every label starts with a non-digit. */
  lemma {:induction false} MatchCountsComplete(s: string, digits: seq<string>, labels: seq<string>)
    requires |digits| == |labels| && DigitGroups(digits) && LabelsStartWithNonDigit(labels)
    requires StartsWith(s, CountsText(digits, labels))
    ensures MatchCounts(s, labels) == Some(Values(digits))
    decreases |labels|
  {
    if labels != [] {
      var g, l := digits[0], labels[0];
      var rest := CountsText(digits[1..], labels[1..]);
      assert CountsText(digits, labels) == g + (l + rest);
      StartsWithSplit(s, g, l + rest);
      var u := s[|g|..];
      StartsWithSplit(u, l, rest);
      assert forall j :: 0 <= j < |g| ==> s[j] == s[..|g|][j];
      assert s[|g|] == u[..|l|][0];
      DigitRunUnique(s, |g|);
      assert s[|g| + |l|..] == u[|l|..];
      assert DigitGroups(digits[1..]);
      MatchCountsComplete(u[|l|..], digits[1..], labels[1..]);
      assert s[..|g|] == g;
      assert DigitRun(s) == |g| > 0 && StartsWith(s[|g|..], l);
      MatchCountsCons(s, labels);
      assert Values(digits) == [DigitsValue(g)] + Values(digits[1..]);
    }
  }

  lemma DigitRunUnique(s: string, k: nat)
    requires k < |s| && !IsDigit(s[k])
    requires forall j :: 0 <= j < k ==> IsDigit(s[j])
    ensures DigitRun(s) == k
  {
  }

  /** Whatever the matcher reads was spelled by digit groups and labels. */
  lemma {:induction false} MatchCountsSound(s: string, labels: seq<string>)
    requires MatchCounts(s, labels).Some?
    ensures exists digits :: |digits| == |labels| && DigitGroups(digits)
              && StartsWith(s, CountsText(digits, labels)) && Values(digits) == MatchCounts(s, labels).value
    decreases |labels|
  {
    if labels == [] {
      var none: seq<string> := [];
      assert CountsText(none, labels) == "";
      assert s[..0] == "";
      assert Values(none) == [];
    } else {
      var n := DigitRun(s);
      var l := labels[0];
      var s' := s[n + |l|..];
      var g := s[..n];
      assert MatchCounts(s, labels).value == [DigitsValue(g)] + MatchCounts(s', labels[1..]).value;
      MatchCountsSound(s', labels[1..]);
      var ds :| |ds| == |labels[1..]| && DigitGroups(ds) && StartsWith(s', CountsText(ds, labels[1..]))
                && Values(ds) == MatchCounts(s', labels[1..]).value;
      var digits := [g] + ds;
      var rest := CountsText(ds, labels[1..]);
      assert digits[1..] == ds;
      assert CountsText(digits, labels) == g + (l + rest);
      assert s[n..][|l|..] == s';
      StartsWithConcat(s[n..], l, rest);
      assert s[|g|..] == s[n..];
      StartsWithConcat(s, g, l + rest);
      ValuesCons(g, ds);
      assert |digits| == |labels| && DigitGroups(digits) && StartsWith(s, CountsText(digits, labels))
             && Values(digits) == MatchCounts(s, labels).value;
    }
  }

  lemma ValuesCons(g: string, ds: seq<string>)
    requires |g| > 0 && AllDigits(g) && DigitGroups(ds)
    ensures DigitGroups([g] + ds) && Values([g] + ds) == [DigitsValue(g)] + Values(ds)
  {
    var digits := [g] + ds;
    forall i | 0 <= i < |digits|
      ensures |digits[i]| > 0 && AllDigits(digits[i])
    {
      if i > 0 {
        assert digits[i] == ds[i - 1];
      }
    }
    assert digits[1..] == ds;
  }

  /** The `{query}` slot: `re.escape(owner)` when an owner is known, otherwise
      the wildcard `[^:]+`. */
  datatype QueryPattern = Literal(text: string) | Wildcard

  predicate QueryMatches(q: QueryPattern, text: string) {
    match q
    case Literal(t) => text == t
    case Wildcard => |text| > 0 && ':' !in text
  }

  /** Where the `{query}` slot ends at the front of `t`, given that ": " must
      follow it. A literal matches itself; the wildcard must stop at the first
      colon, since it cannot run past one and the text after it starts with one. */
  function QueryEnd(t: string, q: QueryPattern): Option<nat> {
    match q
    case Literal(x) => if StartsWith(t, x) then Some(|x|) else None
    case Wildcard =>
      var k := IndexOf(t, ':');
      if 0 < k < |t| then Some(k) else None
  }

  const SummaryTag: string := "Total for "

  function SummaryOf(vs: seq<nat>): Summary
    requires |vs| == 7
  {
    Summary(vs[0], vs[1], vs[2], vs[3], vs[4], vs[5], vs[6])
  }

  /** The anchored match of the summary pattern for query slot `q`. */
  function SummaryAt(s: string, q: QueryPattern): Option<Summary> {
    if !StartsWith(s, SummaryTag) then None
    else
      var t := s[10..];
      var k :- QueryEnd(t, q);
      if !StartsWith(t[k..], ": ") then None
      else
        var vs :- MatchCounts(t[k + 2..], CountLabels);
        Some(SummaryOf(vs))
  }

  /** The matcher past the tag, the query slot ending at `k` and ": ". */
  lemma SummaryAtOf(s: string, q: QueryPattern, k: nat)
    requires StartsWith(s, SummaryTag) && QueryEnd(s[10..], q) == Some(k)
    requires StartsWith(s[10..][k..], ": ")
    ensures var m := MatchCounts(s[10..][k + 2..], CountLabels);
            && (SummaryAt(s, q).Some? <==> m.Some?)
            && (m.Some? ==> SummaryAt(s, q).value == SummaryOf(m.value))
  {
  }

  /** The text of a summary line for the query text `qtext` and digit groups. */
  function SummaryText(qtext: string, digits: seq<string>): string
    requires |digits| == 7
  {
    SummaryTag + (qtext + (": " + CountsText(digits, CountLabels)))
  }

  /** The summary matcher reads a line exactly when the line begins with the
      template filled with a query text the slot accepts and seven digit
      groups, and then yields the seven numbers in template order. */
  lemma SummaryAtComplete(s: string, q: QueryPattern, qtext: string, digits: seq<string>)
    requires |digits| == 7 && DigitGroups(digits) && QueryMatches(q, qtext)
    requires StartsWith(s, SummaryText(qtext, digits))
    ensures SummaryAt(s, q) == Some(SummaryOf(Values(digits)))
  {
    var body := CountsText(digits, CountLabels);
    StartsWithSplit(s, SummaryTag, qtext + (": " + body));
    var t := s[10..];
    StartsWithSplit(t, qtext, ": " + body);
    var u := t[|qtext|..];
    StartsWithSplit(u, ": ", body);
    assert QueryEnd(t, q) == Some(|qtext|) by {
      if q.Wildcard? {
        forall j | 0 <= j < |qtext|
          ensures t[j] != ':'
        {
          assert t[j] == t[..|qtext|][j];
        }
        assert t[|qtext|] == u[..2][0];
        IndexOfUnique(t, ':', |qtext|);
      }
    }
    assert u[2..] == t[|qtext| + 2..];
    CountLabelsStartWithNonDigit();
    MatchCountsComplete(t[|qtext| + 2..], digits, CountLabels);
    SummaryAtOf(s, q, |qtext|);
  }

  lemma ConcatRightAssoc(a: string, b: string, c: string, d: string)
    ensures a + b + c + d == a + (b + (c + d))
  {
  }

  lemma CountLabelsStartWithNonDigit()
    ensures LabelsStartWithNonDigit(CountLabels)
  {
  }

  lemma SummaryAtSound(s: string, q: QueryPattern)
    requires SummaryAt(s, q).Some?
    ensures exists qtext, digits :: |digits| == 7 && DigitGroups(digits) && QueryMatches(q, qtext)
              && StartsWith(s, SummaryText(qtext, digits)) && SummaryAt(s, q) == Some(SummaryOf(Values(digits)))
  {
    var qtext, u := SummaryAtParts(s, q);
    var head := SummaryTag + qtext + ": ";
    MatchCountsSound(u, CountLabels);
    var digits :| |digits| == 7 && DigitGroups(digits) && StartsWith(u, CountsText(digits, CountLabels))
                   && Values(digits) == MatchCounts(u, CountLabels).value;
    StartsWithConcat(s, head, CountsText(digits, CountLabels));
    ConcatRightAssoc(SummaryTag, qtext, ": ", CountsText(digits, CountLabels));
    assert head + CountsText(digits, CountLabels) == SummaryText(qtext, digits);
    assert SummaryAt(s, q) == Some(SummaryOf(Values(digits)));
  }

  /** The pieces an anchored summary match consists of. */
  lemma SummaryAtParts(s: string, q: QueryPattern) returns (qtext: string, u: string)
    requires SummaryAt(s, q).Some?
    ensures QueryMatches(q, qtext)
    ensures StartsWith(s, SummaryTag + qtext + ": ") && u == s[|SummaryTag + qtext + ": "|..]
    ensures MatchCounts(u, CountLabels).Some? && SummaryAt(s, q) == Some(SummaryOf(MatchCounts(u, CountLabels).value))
  {
    var t := s[10..];
    var k := QueryEnd(t, q).value;
    qtext := t[..k];
    assert QueryMatches(q, qtext) by {
      if q.Wildcard? {
        assert forall j :: 0 <= j < k ==> qtext[j] == t[j];
      }
    }
    u := t[k + 2..];
    assert StartsWith(t[k..], ": ");
    SummaryAtOf(s, q, k);
    assert StartsWith(t, qtext);
    assert t[|qtext|..] == t[k..];
    StartsWithConcat(t, qtext, ": ");
    assert s[|SummaryTag|..] == t;
    StartsWithConcat(s, SummaryTag, qtext + ": ");
    assert SummaryTag + (qtext + ": ") == SummaryTag + qtext + ": ";
    assert |SummaryTag + qtext + ": "| == 10 + k + 2;
  }

  /** `_process_cluster_summary_line(line, query)`: the leftmost place where
      the template matches. */
  function ParseClusterSummaryLine(line: string, q: QueryPattern): (r: Result<Summary>)
    ensures r.Err? ==> r.error == ClusterSummaryParseError(line)
    ensures r.Ok? <==> exists i :: 0 <= i <= |line| && SummaryAt(line[i..], q).Some?
    ensures r.Ok? ==> exists i :: 0 <= i <= |line| && SummaryAt(line[i..], q) == Some(r.value)
  {
    match Search(line, (s: string) => SummaryAt(s, q))
    case Some(v) => Ok(v)
    case None => Err(ClusterSummaryParseError(line))
  }

  /** The owner summary pattern: the first task's owner escaped, or the wildcard. */
  function QueryOf(owner: Option<string>): QueryPattern {
    match owner
    case Some(o) => Literal(o)
    case None => Wildcard
  }

  /** A well-formed summary line is read back, under its own query name or
      under the wildcard when that name has no colon. */
  lemma ParseClusterSummaryLineOfText(qtext: string, digits: seq<string>, q: QueryPattern)
    requires |digits| == 7 && DigitGroups(digits) && QueryMatches(q, qtext)
    ensures ParseClusterSummaryLine(SummaryText(qtext, digits), q) == Ok(SummaryOf(Values(digits)))
  {
    var line := SummaryText(qtext, digits);
    SummaryAtComplete(line, q, qtext, digits);
    assert line[0..] == line;
  }

  // ---------------------------------------------------------------------------
  // _process_task_summary_line
  // ---------------------------------------------------------------------------

  /** One task line. The submission date is kept as its two tokens of text;
      done, run and idle stay strings, as "-" is allowed there. */
  datatype TaskSummary = TaskSummary(owner: string, batchName: int, submitted: string,
                                     done: string, run: string, idle: string,
                                     total: int, jobIds: string)

  /** `int(text)`. */
  function IntOf(text: string): (r: Result<int>)
    ensures r.Ok? <==> ParseInt(text).Some?
    ensures r.Ok? ==> r.value == ParseInt(text).value
    ensures r.Err? ==> r.error == ValueError
  {
    match ParseInt(text)
    case Some(i) => Ok(i)
    case None => Err(ValueError)
  }

  /** `_process_task_summary_line(line)`: the fields are read from the
      whitespace-separated tokens in keyword-argument order, so a short line
      raises IndexError and a non-integer batch id or total raises ValueError,
      whichever comes first. */
  function ParseTaskLine(line: string): (r: Result<TaskSummary>)
    ensures var t := Words(line);
            && (r.Ok? <==> |t| >= 10 && ParseInt(t[2]).Some? && ParseInt(t[8]).Some?)
            && (r.Err? ==> r.error == IndexError || r.error == ValueError)
            && (|t| < 3 ==> r == Err(IndexError))
            && (|t| >= 3 && ParseInt(t[2]).None? ==> r == Err(ValueError))
            && (r.Ok? ==> r.value == TaskSummary(t[0], ParseInt(t[2]).value, t[3] + " " + t[4],
                                                 t[5], t[6], t[7], ParseInt(t[8]).value, t[9]))
  {
    var t := Words(line);
    var owner :- PyIndex(t, 0);
    var batchText :- PyIndex(t, 2);
    var batch :- IntOf(batchText);
    var day :- PyIndex(t, 3);
    var time :- PyIndex(t, 4);
    var done :- PyIndex(t, 5);
    var run :- PyIndex(t, 6);
    var idle :- PyIndex(t, 7);
    var totalText :- PyIndex(t, 8);
    var total :- IntOf(totalText);
    var jobIds :- PyIndex(t, 9);
    Ok(TaskSummary(owner, batch, day + " " + time, done, run, idle, total, jobIds))
  }

  /** A task line as condor_q prints it, from its ten tokens. */
  function TaskLineText(task: TaskSummary, id: string, day: string, time: string): string {
    JoinWords([task.owner, id, IntToString(task.batchName), day, time,
               task.done, task.run, task.idle, IntToString(task.total), task.jobIds])
  }

  predicate IsToken(s: string) {
    |s| > 0 && NoSpace(s)
  }

  /** Printing a task and reading the line back gives the task. */
  lemma ParseTaskLineOfText(task: TaskSummary, id: string, day: string, time: string)
    requires IsToken(task.owner) && IsToken(id) && IsToken(day) && IsToken(time)
    requires IsToken(task.done) && IsToken(task.run) && IsToken(task.idle) && IsToken(task.jobIds)
    requires task.submitted == day + " " + time
    ensures ParseTaskLine(TaskLineText(task, id, day, time)) == Ok(task)
  {
    var b, n := IntToString(task.batchName), IntToString(task.total);
    assert IsToken(b) && IsToken(n) by {
      IntToStringIsToken(task.batchName);
      IntToStringIsToken(task.total);
    }
    var ws := [task.owner, id, b, day, time, task.done, task.run, task.idle, n, task.jobIds];
    WordsOfJoinWords(ws);
    ParseIntOfIntToString(task.batchName);
    ParseIntOfIntToString(task.total);
  }

  lemma IntToStringIsToken(i: int)
    ensures IsToken(IntToString(i))
  {
    var s := IntToString(i);
    forall j | 0 <= j < |s|
      ensures !IsSpace(s[j])
    {
      if i < 0 && j > 0 {
        assert s[j] == NatToString(-i)[j - 1];
      }
    }
  }
}
