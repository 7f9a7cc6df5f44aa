/** The part of a `cpymad.madx.Madx` instance the LHC routines touch.

    MAD-X itself is not modelled. What the routines do to it is: read and write
    global variables (`madx.globals[...]`, `madx.globals.<name>`, `madx.eval`)
    and issue commands (`madx.command.<cmd>(...)`, `madx.select`, `madx.use`,
    `madx.input`). Globals are a map from name to value; MAD-X names are
    case-insensitive, so the map is keyed by the lower-cased name. Commands are
    appended to a log, so the order of what is sent, and that nothing else is
    sent, can be stated.
 */
module Madx {
  import opened Errors
  import opened Text

  /** Global variables, keyed by lower-cased name. */
  type Globals = map<string, real>

  /** `madx.globals[name] = value`. */
  function Set(g: Globals, name: string, value: real): (r: Globals)
    ensures Lower(name) in r && r[Lower(name)] == value
    ensures forall k :: k != Lower(name) ==> (k in r <==> k in g)
    ensures forall k :: k != Lower(name) && k in g ==> r[k] == g[k]
  {
    g[Lower(name) := value]
  }

  /** `madx.globals[name]`: a KeyError when the variable is not defined. */
  function Get(g: Globals, name: string): (r: Result<real>)
    ensures r.Ok? <==> Lower(name) in g
    ensures r.Ok? ==> r.value == g[Lower(name)]
    ensures r.Err? ==> r.error == KeyError(name)
  {
    if Lower(name) in g then Ok(g[Lower(name)]) else Err(KeyError(name))
  }

  /** `madx.globals.<name>`: an AttributeError when the variable is not defined. */
  function Attr(g: Globals, name: string): (r: Result<real>)
    ensures r.Ok? <==> Lower(name) in g
    ensures r.Ok? ==> r.value == g[Lower(name)]
    ensures r.Err? ==> r.error == AttributeError(name)
  {
    if Lower(name) in g then Ok(g[Lower(name)]) else Err(AttributeError(name))
  }

  /** `madx.eval(name)` on a bare variable name: MAD-X evaluates an undefined
      variable to 0. */
  function Eval(g: Globals, name: string): (r: real)
    ensures Lower(name) in g ==> r == g[Lower(name)]
    ensures Lower(name) !in g ==> r == 0.0
  {
    if Lower(name) in g then g[Lower(name)] else 0.0
  }

  /** Variable `name` is defined with value `v`. */
  predicate Holds(g: Globals, name: string, v: real) {
    Lower(name) in g && g[Lower(name)] == v
  }

  /** Every variable outside `keys` is as it was in `g`. */
  ghost predicate SameOutside(g: Globals, r: Globals, keys: set<string>) {
    forall k :: k !in keys ==> (k in r <==> k in g) && (k in g ==> r[k] == g[k])
  }

  /** `int(x)` on a float: truncation toward zero. */
  function Trunc(x: real): (n: int)
    ensures x >= 0.0 ==> 0 <= n && n as real <= x < n as real + 1.0
    ensures x < 0.0 ==> n <= 0 && n as real - 1.0 < x <= n as real
  {
    if x >= 0.0 then x.Floor else -((-x).Floor)
  }

  /** One assignment `madx.globals[name] = value`. */
  type Write = (string, real)

  /** The assignments, performed in order. */
  function SetAll(g: Globals, ws: seq<Write>): Globals
    decreases |ws|
  {
    if ws == [] then g else SetAll(Set(g, ws[0].0, ws[0].1), ws[1..])
  }

  /** The keys a list of assignments touches. */
  function Touched(ws: seq<Write>): set<string> {
    set i | 0 <= i < |ws| :: Lower(ws[i].0)
  }

  /** A variable no assignment names keeps its state. */
  lemma {:induction false} SetAllFrame(g: Globals, ws: seq<Write>, k: string)
    requires k !in Touched(ws)
    ensures k in SetAll(g, ws) <==> k in g
    ensures k in g ==> SetAll(g, ws)[k] == g[k]
    decreases |ws|
  {
    if ws != [] {
      assert Lower(ws[0].0) in Touched(ws);
      assert Touched(ws[1..]) <= Touched(ws) by {
        forall i | 0 <= i < |ws[1..]| ensures Lower(ws[1..][i].0) in Touched(ws) {
          assert ws[1..][i] == ws[i + 1];
        }
      }
      SetAllFrame(Set(g, ws[0].0, ws[0].1), ws[1..], k);
    }
  }

  /** Assignments change nothing but the variables they name. */
  lemma SetAllSameOutside(g: Globals, ws: seq<Write>)
    ensures SameOutside(g, SetAll(g, ws), Touched(ws))
  {
    forall k | k !in Touched(ws)
      ensures (k in SetAll(g, ws) <==> k in g) && (k in g ==> SetAll(g, ws)[k] == g[k])
    {
      SetAllFrame(g, ws, k);
    }
  }

  /** A wider set of keys. */
  lemma SameOutsideWiden(g: Globals, r: Globals, keys: set<string>, wider: set<string>)
    requires SameOutside(g, r, keys) && keys <= wider
    ensures SameOutside(g, r, wider)
  {
  }

  /** The variables a list of names denotes. */
  function Keys(names: seq<string>): set<string> {
    set i | 0 <= i < |names| :: Lower(names[i])
  }

  /** The name at position `j` denotes one of the keys. */
  lemma KeysAt(names: seq<string>, j: nat)
    requires j < |names|
    ensures Lower(names[j]) in Keys(names)
  {
  }

  /** `for name in names: madx.globals[name] = v`. */
  function Assign(names: seq<string>, v: real): (ws: seq<Write>)
    ensures |ws| == |names| && forall i :: 0 <= i < |names| ==> ws[i] == (names[i], v)
  {
    seq(|names|, i requires 0 <= i < |names| => (names[i], v))
  }

  /** Giving every named variable one value: each ends with it, and nothing
      else changes. */
  lemma AssignAll(g: Globals, names: seq<string>, v: real)
    ensures SameOutside(g, SetAll(g, Assign(names, v)), Keys(names))
    ensures forall k :: k in Keys(names) ==> k in SetAll(g, Assign(names, v)) && SetAll(g, Assign(names, v))[k] == v
  {
    var ws := Assign(names, v);
    assert Touched(ws) == Keys(names);
    SetAllSameOutside(g, ws);
    forall k | k in Keys(names) ensures k in SetAll(g, ws) && SetAll(g, ws)[k] == v {
      SetAllUniform(g, ws, v, k);
    }
  }

  /** A variable ends with the value of the last assignment that names it. */
  lemma {:induction false} SetAllLastWrite(g: Globals, ws: seq<Write>, i: nat)
    requires i < |ws|
    requires forall j :: i < j < |ws| ==> Lower(ws[j].0) != Lower(ws[i].0)
    ensures Lower(ws[i].0) in SetAll(g, ws) && SetAll(g, ws)[Lower(ws[i].0)] == ws[i].1
    decreases i
  {
    var g1 := Set(g, ws[0].0, ws[0].1);
    if i == 0 {
      assert Lower(ws[0].0) !in Touched(ws[1..]) by {
        forall j | 0 <= j < |ws[1..]| ensures Lower(ws[1..][j].0) != Lower(ws[0].0) {
          assert ws[1..][j] == ws[j + 1];
        }
      }
      SetAllFrame(g1, ws[1..], Lower(ws[0].0));
    } else {
      assert ws[1..][i - 1] == ws[i];
      forall j | i - 1 < j < |ws[1..]| ensures Lower(ws[1..][j].0) != Lower(ws[1..][i - 1].0) {
        assert ws[1..][j] == ws[j + 1];
      }
      SetAllLastWrite(g1, ws[1..], i - 1);
    }
  }

  /** When every assignment writes the same value, every touched variable ends
      with it. */
  lemma {:induction false} SetAllUniform(g: Globals, ws: seq<Write>, v: real, k: string)
    requires forall i :: 0 <= i < |ws| ==> ws[i].1 == v
    requires k in Touched(ws)
    ensures k in SetAll(g, ws) && SetAll(g, ws)[k] == v
    decreases |ws|
  {
    var g1 := Set(g, ws[0].0, ws[0].1);
    if k in Touched(ws[1..]) {
      forall i | 0 <= i < |ws[1..]| ensures ws[1..][i].1 == v {
        assert ws[1..][i] == ws[i + 1];
      }
      SetAllUniform(g1, ws[1..], v, k);
    } else {
      assert k == Lower(ws[0].0) by {
        forall i | 1 <= i < |ws| ensures Lower(ws[i].0) in Touched(ws[1..]) {
          assert ws[1..][i - 1] == ws[i];
        }
      }
      SetAllFrame(g1, ws[1..], k);
    }
  }

  /** Assignments performed in two batches. */
  lemma {:induction false} SetAllAppend(g: Globals, a: seq<Write>, b: seq<Write>)
    ensures SetAll(g, a + b) == SetAll(SetAll(g, a), b)
    decreases |a|
  {
    if a != [] {
      assert (a + b)[1..] == a[1..] + b;
      SetAllAppend(Set(g, a[0].0, a[0].1), a[1..], b);
    } else {
      assert a + b == b;
    }
  }

  /** Every variable an assignment names is defined afterwards. */
  lemma {:induction false} SetAllDefines(g: Globals, ws: seq<Write>, k: string)
    requires k in Touched(ws)
    ensures k in SetAll(g, ws)
    decreases |ws|
  {
    var g1 := Set(g, ws[0].0, ws[0].1);
    if k in Touched(ws[1..]) {
      SetAllDefines(g1, ws[1..], k);
    } else {
      assert k == Lower(ws[0].0) by {
        forall i | 1 <= i < |ws| ensures Lower(ws[i].0) in Touched(ws[1..]) {
          assert ws[1..][i - 1] == ws[i];
        }
      }
      SetAllFrame(g1, ws[1..], k);
    }
  }

  /** A variable ends with `v` when every assignment naming it writes `v`. */
  lemma {:induction false} SetAllByKey(g: Globals, ws: seq<Write>, k: string, v: real)
    requires k in Touched(ws)
    requires forall i :: 0 <= i < |ws| && Lower(ws[i].0) == k ==> ws[i].1 == v
    ensures k in SetAll(g, ws) && SetAll(g, ws)[k] == v
    decreases |ws|
  {
    var g1 := Set(g, ws[0].0, ws[0].1);
    forall i | 0 <= i < |ws[1..]| && Lower(ws[1..][i].0) == k ensures ws[1..][i].1 == v {
      assert ws[1..][i] == ws[i + 1];
    }
    if k in Touched(ws[1..]) {
      SetAllByKey(g1, ws[1..], k, v);
    } else {
      assert k == Lower(ws[0].0) by {
        forall i | 1 <= i < |ws| ensures Lower(ws[i].0) in Touched(ws[1..]) {
          assert ws[1..][i - 1] == ws[i];
        }
      }
      SetAllFrame(g1, ws[1..], k);
    }
  }

  // ---------------------------------------------------------------------------
  // Python dictionaries and keyword arguments
  // ---------------------------------------------------------------------------

  /** `d[name] = value` for each pair in order, on a Python dict (exact keys). */
  function Update(d: map<string, real>, ws: seq<Write>): (r: map<string, real>)
    ensures r.Keys == d.Keys + set i | 0 <= i < |ws| :: ws[i].0
    decreases |ws|
  {
    if ws == [] then d
    else
      var r := Update(d[ws[0].0 := ws[0].1], ws[1..]);
      assert forall i :: 1 <= i < |ws| ==> ws[i] == ws[1..][i - 1];
      r
  }

  /** A key ends with `v` when every pair naming it carries `v`. */
  lemma {:induction false} UpdateByKey(d: map<string, real>, ws: seq<Write>, k: string, v: real)
    requires exists i :: 0 <= i < |ws| && ws[i].0 == k
    requires forall i :: 0 <= i < |ws| && ws[i].0 == k ==> ws[i].1 == v
    ensures Update(d, ws)[k] == v
    decreases |ws|
  {
    var d1 := d[ws[0].0 := ws[0].1];
    forall i | 0 <= i < |ws[1..]| && ws[1..][i].0 == k ensures ws[1..][i].1 == v {
      assert ws[1..][i] == ws[i + 1];
    }
    if exists i :: 0 <= i < |ws[1..]| && ws[1..][i].0 == k {
      UpdateByKey(d1, ws[1..], k, v);
    } else {
      assert ws[0].0 == k by {
        forall i | 1 <= i < |ws| ensures ws[i].0 != k {
          assert ws[1..][i - 1] == ws[i];
        }
      }
      UpdateFrame(d1, ws[1..], k);
    }
  }

  /** A key no pair names keeps its state. */
  lemma {:induction false} UpdateFrame(d: map<string, real>, ws: seq<Write>, k: string)
    requires forall i :: 0 <= i < |ws| ==> ws[i].0 != k
    requires k in d
    ensures Update(d, ws)[k] == d[k]
    decreases |ws|
  {
    if ws != [] {
      forall i | 0 <= i < |ws[1..]| ensures ws[1..][i].0 != k {
        assert ws[1..][i] == ws[i + 1];
      }
      UpdateFrame(d[ws[0].0 := ws[0].1], ws[1..], k);
    }
  }

  /** Two pairs naming the same key carry the same value. */
  ghost predicate Consistent(ws: seq<Write>) {
    forall a, b :: 0 <= a < |ws| && 0 <= b < |ws| && Lower(ws[a].0) == Lower(ws[b].0) ==> ws[a].1 == ws[b].1
  }

  /** Consistent assignments leave every variable with its value. */
  lemma SetAllConsistent(g: Globals, ws: seq<Write>, i: nat)
    requires i < |ws| && Consistent(ws)
    ensures Holds(SetAll(g, ws), ws[i].0, ws[i].1)
  {
    assert Lower(ws[i].0) in Touched(ws);
    SetAllByKey(g, ws, Lower(ws[i].0), ws[i].1);
  }

  /** ... and every dict key with its value. */
  lemma UpdateConsistent(d: map<string, real>, ws: seq<Write>, i: nat)
    requires i < |ws| && Consistent(ws)
    ensures ws[i].0 in Update(d, ws) && Update(d, ws)[ws[i].0] == ws[i].1
  {
    UpdateByKey(d, ws, ws[i].0, ws[i].1);
  }

  /** Assignments naming `names` in order touch exactly their keys. */
  lemma TouchedNames(ws: seq<Write>, names: seq<string>)
    requires |ws| == |names| && forall i :: 0 <= i < |ws| ==> ws[i].0 == names[i]
    ensures Touched(ws) == Keys(names)
    ensures (set i | 0 <= i < |ws| :: ws[i].0) == (set i | 0 <= i < |names| :: names[i])
  {
  }

  /** Assignments naming `names` in order, performed on the globals and on
      an empty dict: the dict's keys are the names, and no other global
      changes. */
  lemma AssignedExactly(g: Globals, ws: seq<Write>, names: seq<string>)
    requires |ws| == |names| && forall i :: 0 <= i < |ws| ==> ws[i].0 == names[i]
    ensures SameOutside(g, SetAll(g, ws), Keys(names))
    ensures Update(map[], ws).Keys == (set i | 0 <= i < |names| :: names[i])
  {
    SetAllSameOutside(g, ws);
    TouchedNames(ws, names);
  }

  /** Dict updates performed in two batches. */
  lemma {:induction false} UpdateAppend(d: map<string, real>, a: seq<Write>, b: seq<Write>)
    ensures Update(d, a + b) == Update(Update(d, a), b)
    decreases |a|
  {
    if a != [] {
      assert (a + b)[1..] == a[1..] + b;
      UpdateAppend(d[a[0].0 := a[0].1], a[1..], b);
    } else {
      assert a + b == b;
    }
  }

  /** Numeric keyword arguments (`**kwargs`); booleans are 0 or 1. */
  type Kwargs = map<string, real>

  /** `kwargs.get(key, default)`. */
  function GetOr(kwargs: Kwargs, key: string, default: real): (v: real)
    ensures key in kwargs ==> v == kwargs[key]
    ensures key !in kwargs ==> v == default
  {
    if key in kwargs then kwargs[key] else default
  }

  /** The value of the first of `keys` present in `m`, `fallback` when none is. */
  function FirstPresent(m: Kwargs, keys: seq<string>, fallback: real): (v: real)
    ensures (forall i :: 0 <= i < |keys| ==> keys[i] !in m) ==> v == fallback
    ensures forall i :: 0 <= i < |keys| && keys[i] in m && (forall j :: 0 <= j < i ==> keys[j] !in m) ==> v == m[keys[i]]
    decreases |keys|
  {
    if keys == [] then fallback
    else if keys[0] in m then m[keys[0]]
    else
      var rest := FirstPresent(m, keys[1..], fallback);
      assert forall i :: 1 <= i < |keys| ==> keys[i] == keys[1..][i - 1];
      rest
  }

  // ---------------------------------------------------------------------------
  // Commands
  // ---------------------------------------------------------------------------

  /** The commands the routines send. Arguments MAD-X receives as text (error
      definitions, bound expressions) are kept as text; numbers as numbers. */
  datatype Command =
    | SelectClear(flag: string)
    | SelectPattern(flag: string, pattern: string)
    | Ealign(arguments: seq<(string, string)>)
    | Etable(table: string)
    | Vary(name: string, step: real, bounds: Option<(string, string)>)
    | Match
    | Global(matched: Option<string>, targets: seq<(string, real)>)
    | Lmdif(calls: int, tolerance: real)
    | EndMatch
    | Twiss
    | Sixtrack(cavall: bool, radius: real)
    | Beam(sequence: string, particle: string, bv: int, energy: real, npart: real,
           ex: real, ey: real, sige: real, extra: map<string, real>)
    | SeqEdit(sequence: string)
    | Flatten
    | Install(element: string, elementClass: Option<string>, at: real, origin: string)
    | EndEdit
    | Use(sequence: string)
      /** A `madx.input` line whose text depends on integers only. */
    | Input(text: string)
      /** `madx.input(f"{variable} = 0.042 * pbeam * ABS({deltaq}) / SQRT({factor} * {beta}) * {sigma}")`. */
    | AcDipoleVoltage(variable: string, deltaq: real, factor: real, beta: string, sigma: real)
      /** `madx.input(f"{element}: {kind}, l=0, freq:={freq}, lag=0, volt={volt}, ramp1=…, ramp4=…;")`. */
    | AcDipoleElement(element: string, kind: string, freq: real, volt: string, ramps: seq<int>)

  /** A MAD-X process: its globals and everything sent to it so far. */
  datatype Madx = Madx(globals: Globals, log: seq<Command>)

  /** Sending commands. */
  function Send(m: Madx, cs: seq<Command>): (r: Madx)
    ensures r.globals == m.globals && r.log == m.log + cs
  {
    m.(log := m.log + cs)
  }

  /** What a routine leaves behind: the process as it stands when the routine
      returns or raises, and the return value or the exception. */
  datatype Outcome<T> = Outcome(state: Madx, result: Result<T>)
}
