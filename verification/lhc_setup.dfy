/** Orbit set-up of pyhdtoolkit/cpymadtools/lhc/_setup.py.

    `setup_lhc_orbit` writes every orbit variable from the keyword arguments,
    the chosen crossing scheme or 0, then the four "special" variables, which
    copy another variable unless given.
 */
module LhcSetup {
  import opened Errors
  import opened Text
  import opened ListOperations
  import opened Madx
  import Constants

  // ---------------------------------------------------------------------------
  // lhc_orbit_variables
  // ---------------------------------------------------------------------------

  /** `on_variables`, in order; "crab1" and "crab5" exist only in the HL-LHC. */
  const OnNames: seq<string> := [
    "crab1", "crab5",
    "x1", "sep1", "o1", "oh1", "ov1",
    "x2", "sep2", "o2", "oe2", "a2", "oh2", "ov2",
    "x5", "sep5", "o5", "oh5", "ov5",
    "x8", "sep8", "o8", "a8", "sep8h", "x8v", "oh8", "ov8",
    "alice", "sol_alice", "lhcb", "sol_atlas", "sol_cms"]

  /** The orbit variables: `on_{var}` for each of `OnNames`, then `phi_IR{ir}`
      for the four experiment IPs. */
  const OrbitVariables: seq<string> :=
    Map(OnNames, v => "on_" + v) + Map(Constants.Ips, ir => "phi_IR" + IntToString(ir))

  /** The special variables and the variable each copies, in dict order. */
  const Specials: seq<(string, string)> :=
    [("on_ssep1", "on_sep1"), ("on_xx1", "on_x1"), ("on_ssep5", "on_sep5"), ("on_xx5", "on_x5")]

  /** The names of the special variables. */
  function SpecialNames(): (r: seq<string>)
    ensures |r| == |Specials| && forall k :: 0 <= k < |Specials| ==> r[k] == Specials[k].0
  {
    Map(Specials, (p: (string, string)) => p.0)
  }

  /** Every variable `setup_lhc_orbit` writes. */
  function AllOrbitNames(): seq<string> {
    OrbitVariables + SpecialNames()
  }

  /** `lhc_orbit_variables()`: 36 variables, 32 "on_" flags in the order of
      `on_variables` followed by the four IP phases, and four specials, each
      copying one of the variables. */
  function LhcOrbitVariables(): (r: (seq<string>, seq<(string, string)>))
    ensures |r.0| == 36 && |r.1| == 4
    ensures forall i :: 0 <= i < 32 ==> r.0[i] == "on_" + OnNames[i]
    ensures forall k :: 0 <= k < 4 ==> r.0[32 + k] == "phi_IR" + IntToString(Constants.Ips[k])
    ensures forall k :: 0 <= k < 4 ==> r.1[k].1 == r.0[SourceIndices[k]]
  {
    SpecialSources();
    (OrbitVariables, Specials)
  }

  lemma SpecialSources()
    ensures |OrbitVariables| == 36
    ensures forall k :: 0 <= k < 4 ==> Specials[k].1 == OrbitVariables[SourceIndices[k]]
  {
    SpecialSourcesIp1();
    SpecialSourcesIp5();
  }

  lemma SpecialSourcesIp1()
    ensures OrbitVariables[3] == "on_sep1" && OrbitVariables[2] == "on_x1"
  {
    assert OrbitVariables[3] == "on_" + OnNames[3];
    assert OrbitVariables[2] == "on_" + OnNames[2];
  }

  lemma SpecialSourcesIp5()
    ensures OrbitVariables[15] == "on_sep5" && OrbitVariables[14] == "on_x5"
  {
    assert OrbitVariables[15] == "on_" + OnNames[15];
    assert OrbitVariables[14] == "on_" + OnNames[14];
  }

  /** Where the variable each special copies sits among the orbit variables. */
  const SourceIndices: seq<nat> := [3, 2, 15, 14]

  /** An "on_" name: the prefix, and no capital anywhere. */
  predicate OnName(s: string) {
    |s| >= 3 && s[..3] == "on_" && NoUpper(s)
  }

  /** A phase name: "phi_IR" and one digit. */
  predicate PhiName(s: string) {
    |s| == 7 && s[..6] == "phi_IR" && IsDigit(s[6])
  }

  lemma OnNamesNoUpper()
    ensures forall i :: 0 <= i < |OnNames| ==> NoUpper(OnNames[i])
  {
  }

  lemma OnNameOfSuffix(v: string)
    requires NoUpper(v)
    ensures OnName("on_" + v)
  {
  }

  lemma PhiNameOfIp(ir: int)
    requires ir in Constants.Ips
    ensures PhiName("phi_IR" + IntToString(ir))
  {
    Constants.OneDigit(ir);
  }

  /** Each name written is an "on_" name or a phase name. */
  lemma AllOrbitNamesClassified(i: nat)
    requires i < |AllOrbitNames()|
    ensures OnName(AllOrbitNames()[i]) || PhiName(AllOrbitNames()[i])
  {
    if i < 32 {
      OnNamesNoUpper();
      OnNameOfSuffix(OnNames[i]);
    } else if i < 36 {
      PhiNameOfIp(Constants.Ips[i - 32]);
    } else {
      assert AllOrbitNames()[i] == Specials[i - 36].0;
      SpecialIsOnName(i - 36);
    }
  }

  lemma SpecialIsOnName(k: nat)
    requires k < |Specials|
    ensures OnName(Specials[k].0)
  {
    var suffix := ["ssep1", "xx1", "ssep5", "xx5"][k];
    assert Specials[k].0 == "on_" + suffix;
    OnNameOfSuffix(suffix);
  }

  /** MAD-X's case folding does not merge two of these names. */
  lemma ClassifiedLowerInjective(a: string, b: string)
    requires OnName(a) || PhiName(a)
    requires OnName(b) || PhiName(b)
    requires Lower(a) == Lower(b)
    ensures a == b
  {
    if OnName(a) && OnName(b) {
      LowerOfNoUpper(a);
      LowerOfNoUpper(b);
    } else if PhiName(a) && PhiName(b) {
      forall k | 0 <= k < 7 ensures a[k] == b[k] {
        if k < 6 {
          assert a[k] == a[..6][k] && b[k] == b[..6][k];
        } else {
          assert Lower(a)[6] == Lower(b)[6];
        }
      }
    } else {
      // "on_" and "phi_IR" differ in their first character.
      assert false;
    }
  }

  /** No special variable is an orbit variable. */
  lemma SpecialsAreNotOrbitVariables(i: nat, k: nat)
    requires i < |OrbitVariables| && k < |Specials|
    ensures OrbitVariables[i] != Specials[k].0
  {
    var suffix := ["ssep1", "xx1", "ssep5", "xx5"][k];
    assert Specials[k].0 == "on_" + suffix;
    if i < 32 {
      assert OnNames[i] != suffix;
      assert ("on_" + OnNames[i])[3..] == OnNames[i] && ("on_" + suffix)[3..] == suffix;
    } else {
      assert OrbitVariables[i][0] == 'p';
    }
  }

  // ---------------------------------------------------------------------------
  // setup_lhc_orbit
  // ---------------------------------------------------------------------------

  /** `kwargs.get(var, scheme_dict.get(var, 0))`. */
  function OrbitValue(scheme: map<string, real>, kwargs: Kwargs, v: string): (x: real)
    ensures x == FirstPresent(kwargs, [v], FirstPresent(scheme, [v], 0.0))
  {
    GetOr(kwargs, v, GetOr(scheme, v, 0.0))
  }

  /** The writes of the first loop, in order. */
  function OrbitWrites(scheme: map<string, real>, kwargs: Kwargs): (ws: seq<Write>)
    ensures |ws| == |OrbitVariables|
    ensures forall i :: 0 <= i < |ws| ==> ws[i] == (OrbitVariables[i], OrbitValue(scheme, kwargs, OrbitVariables[i]))
  {
    Map(OrbitVariables, v => (v, OrbitValue(scheme, kwargs, v)))
  }

  /** The second loop: each special takes its keyword value, or the current
      global value of the variable it copies (`madx.globals[copy_from]`, a
      KeyError when that is undefined). */
  function CopySpecials(g: Globals, d: map<string, real>, specials: seq<(string, string)>, kwargs: Kwargs)
    : (r: Result<(Globals, map<string, real>)>)
    ensures r.Err? ==> exists k :: 0 <= k < |specials| && r.error == KeyError(specials[k].1)
    decreases |specials|
  {
    if specials == [] then Ok((g, d))
    else
      var (name, source) := specials[0];
      var current :- Get(g, source);
      var v := GetOr(kwargs, name, current);
      var r := CopySpecials(Set(g, name, v), d[name := v], specials[1..], kwargs);
      assert r.Err? ==> exists k :: 1 <= k < |specials| && r.error == KeyError(specials[k].1) by {
        if r.Err? {
          var k :| 0 <= k < |specials[1..]| && r.error == KeyError(specials[1..][k].1);
          assert specials[1..][k] == specials[k + 1];
        }
      }
      r
  }

  /** The writes of the second loop when no special overwrites a source:
      each source is read from `g`. */
  function SpecialWrites(g: Globals, specials: seq<(string, string)>, kwargs: Kwargs): (ws: seq<Write>)
    requires forall k :: 0 <= k < |specials| ==> Lower(specials[k].1) in g
    ensures |ws| == |specials|
    ensures forall k :: 0 <= k < |specials| ==>
              ws[k] == (specials[k].0, GetOr(kwargs, specials[k].0, g[Lower(specials[k].1)]))
  {
    seq(|specials|, k requires 0 <= k < |specials| =>
      (specials[k].0, GetOr(kwargs, specials[k].0, g[Lower(specials[k].1)])))
  }

  /** One step of the second loop: the first special's write, then the rest
      read from globals that agree on every source. */
  lemma SpecialWritesStep(g: Globals, g1: Globals, specials: seq<(string, string)>, kwargs: Kwargs)
    requires specials != []
    requires forall k :: 0 <= k < |specials| ==> Lower(specials[k].1) in g
    requires forall k :: 0 <= k < |specials| ==> Lower(specials[k].1) in g1 && g1[Lower(specials[k].1)] == g[Lower(specials[k].1)]
    ensures SpecialWrites(g, specials, kwargs)
         == [(specials[0].0, GetOr(kwargs, specials[0].0, g[Lower(specials[0].1)]))] + SpecialWrites(g1, specials[1..], kwargs)
  {
    assert forall k :: 0 <= k < |specials[1..]| ==> specials[1..][k] == specials[k + 1];
  }

  /** When every source is defined and no special is a source, the second
      loop is the writes of `SpecialWrites`, on the globals and on the dict. */
  lemma {:induction false} CopySpecialsWrites(g: Globals, d: map<string, real>, specials: seq<(string, string)>, kwargs: Kwargs)
    requires forall k :: 0 <= k < |specials| ==> Lower(specials[k].1) in g
    requires forall k, j :: 0 <= k < |specials| && 0 <= j < |specials| ==> Lower(specials[k].0) != Lower(specials[j].1)
    ensures CopySpecials(g, d, specials, kwargs)
         == Ok((SetAll(g, SpecialWrites(g, specials, kwargs)), Update(d, SpecialWrites(g, specials, kwargs))))
    decreases |specials|
  {
    if specials != [] {
      var name, source := specials[0].0, specials[0].1;
      var v := GetOr(kwargs, name, g[Lower(source)]);
      var g1 := Set(g, name, v);
      var rest := specials[1..];
      forall k | 0 <= k < |rest|
        ensures Lower(rest[k].1) in g1 && g1[Lower(rest[k].1)] == g[Lower(rest[k].1)]
        ensures Lower(specials[k + 1].1) in g1 && g1[Lower(specials[k + 1].1)] == g[Lower(specials[k + 1].1)]
      {
        assert rest[k] == specials[k + 1];
        assert Lower(name) != Lower(specials[k + 1].1);
      }
      forall k, j | 0 <= k < |rest| && 0 <= j < |rest| ensures Lower(rest[k].0) != Lower(rest[j].1) {
        assert rest[k] == specials[k + 1] && rest[j] == specials[j + 1];
      }
      CopySpecialsWrites(g1, d[name := v], rest, kwargs);
      SpecialWritesStep(g, g1, specials, kwargs);
    }
  }

  /** Every variable the specials copy has been written by the first loop. */
  lemma SourcesWritten(g: Globals, ws: seq<Write>, scheme: map<string, real>, kwargs: Kwargs)
    requires ws == OrbitWrites(scheme, kwargs)
    ensures forall k :: 0 <= k < |Specials| ==> Lower(Specials[k].1) in SetAll(g, ws)
  {
    var vars := LhcOrbitVariables().0;
    forall k | 0 <= k < |Specials| ensures Lower(Specials[k].1) in SetAll(g, ws) {
      var i := SourceIndices[k];
      assert Lower(ws[i].0) in Touched(ws);
      SetAllDefines(g, ws, Lower(ws[i].0));
    }
  }

  lemma SpecialsDoNotOverwriteSources()
    ensures forall k, j :: 0 <= k < |Specials| && 0 <= j < |Specials| ==> Lower(Specials[k].0) != Lower(Specials[j].1)
  {
    var vars := LhcOrbitVariables().0;
    forall k, j | 0 <= k < |Specials| && 0 <= j < |Specials| ensures Lower(Specials[k].0) != Lower(Specials[j].1) {
      var i := SourceIndices[j];
      AllOrbitNamesClassified(i);
      AllOrbitNamesClassified(36 + k);
      assert AllOrbitNames()[i] == vars[i] && AllOrbitNames()[36 + k] == Specials[k].0;
      SpecialsAreNotOrbitVariables(i, k);
      if Lower(Specials[k].0) == Lower(Specials[j].1) {
        ClassifiedLowerInjective(Specials[k].0, Specials[j].1);
      }
    }
  }

  /** The two loops of `setup_lhc_orbit` once the scheme is known: the
      globals afterwards and the returned dict. Every copied variable has been
      written by the first loop, so the lookups of the second succeed. */
  function ApplyOrbitScheme(g: Globals, scheme: map<string, real>, kwargs: Kwargs): (r: (Globals, map<string, real>))
    ensures var ws := OrbitSetupWrites(g, scheme, kwargs); r == (SetAll(g, ws), Update(map[], ws))
  {
    var first := OrbitWrites(scheme, kwargs);
    SourcesWritten(g, first, scheme, kwargs);
    SpecialsDoNotOverwriteSources();
    CopySpecialsWrites(SetAll(g, first), Update(map[], first), Specials, kwargs);
    var second := SpecialWrites(SetAll(g, first), Specials, kwargs);
    SetAllAppend(g, first, second);
    UpdateAppend(map[], first, second);
    CopySpecials(SetAll(g, first), Update(map[], first), Specials, kwargs).value
  }

  /** `setup_lhc_orbit(madx, scheme, **kwargs)`: a ValueError, before any
      write, for a scheme that is not one of the crossing schemes. */
  function SetupLhcOrbit(g: Globals, scheme: string, kwargs: Kwargs): (r: Result<(Globals, map<string, real>)>)
    ensures r.Err? <==> scheme !in Constants.CrossingSchemes
    ensures r.Err? ==> r.error == ValueError
    ensures r.Ok? ==> r.value == ApplyOrbitScheme(g, Constants.CrossingSchemes[scheme], kwargs)
  {
    if scheme !in Constants.CrossingSchemes then Err(ValueError)
    else Ok(ApplyOrbitScheme(g, Constants.CrossingSchemes[scheme], kwargs))
  }

  /** All writes of `setup_lhc_orbit`, in order, for a known scheme. */
  function OrbitSetupWrites(g: Globals, scheme: map<string, real>, kwargs: Kwargs): (ws: seq<Write>)
    ensures |ws| == |AllOrbitNames()|
    ensures forall i :: 0 <= i < |ws| ==> ws[i].0 == AllOrbitNames()[i]
  {
    var first := OrbitWrites(scheme, kwargs);
    SourcesWritten(g, first, scheme, kwargs);
    first + SpecialWrites(SetAll(g, first), Specials, kwargs)
  }

  /** Two written names that MAD-X sees as one are the same name. */
  lemma OrbitNamesLowerInjective(a: nat, b: nat)
    requires a < |AllOrbitNames()| && b < |AllOrbitNames()|
    requires Lower(AllOrbitNames()[a]) == Lower(AllOrbitNames()[b])
    ensures a == b || (a < 36 && b < 36 && AllOrbitNames()[a] == AllOrbitNames()[b])
  {
    var names := AllOrbitNames();
    AllOrbitNamesClassified(a);
    AllOrbitNamesClassified(b);
    ClassifiedLowerInjective(names[a], names[b]);
    if a < 36 && b >= 36 {
      SpecialsAreNotOrbitVariables(a, b - 36);
    } else if a >= 36 && b < 36 {
      SpecialsAreNotOrbitVariables(b, a - 36);
    } else if a >= 36 && b >= 36 {
      assert Specials[a - 36].0 == Specials[b - 36].0;
    }
  }

  /** The first loop's writes are consistent: a name's value depends on the
      name only. */
  lemma OrbitWritesConsistent(scheme: map<string, real>, kwargs: Kwargs)
    ensures Consistent(OrbitWrites(scheme, kwargs))
  {
    var ws := OrbitWrites(scheme, kwargs);
    forall a, b | 0 <= a < |ws| && 0 <= b < |ws| && Lower(ws[a].0) == Lower(ws[b].0) ensures ws[a].1 == ws[b].1 {
      assert AllOrbitNames()[a] == ws[a].0 && AllOrbitNames()[b] == ws[b].0;
      OrbitNamesLowerInjective(a, b);
    }
  }

  lemma OrbitSetupWritesConsistent(g: Globals, scheme: map<string, real>, kwargs: Kwargs)
    ensures Consistent(OrbitSetupWrites(g, scheme, kwargs))
  {
    var ws := OrbitSetupWrites(g, scheme, kwargs);
    forall a, b | 0 <= a < |ws| && 0 <= b < |ws| && Lower(ws[a].0) == Lower(ws[b].0) ensures ws[a].1 == ws[b].1 {
      OrbitNamesLowerInjective(a, b);
    }
  }

  /** The value each write of `OrbitSetupWrites` carries. */
  lemma OrbitSetupWriteValue(g: Globals, scheme: map<string, real>, kwargs: Kwargs, i: nat)
    requires i < |AllOrbitNames()|
    ensures var ws := OrbitSetupWrites(g, scheme, kwargs);
            i < 36 ==> ws[i].1 == OrbitValue(scheme, kwargs, OrbitVariables[i])
    ensures var ws := OrbitSetupWrites(g, scheme, kwargs);
            i >= 36 ==> ws[i].1 == GetOr(kwargs, Specials[i - 36].0, OrbitValue(scheme, kwargs, Specials[i - 36].1))
  {
    var first := OrbitWrites(scheme, kwargs);
    if i >= 36 {
      var k := i - 36;
      SourcesWritten(g, first, scheme, kwargs);
      var j := SourceIndices[k];
      assert first[j].0 == Specials[k].1;
      OrbitWritesConsistent(scheme, kwargs);
      SetAllConsistent(g, first, j);
    }
  }

  /** Each orbit variable is set, in MAD-X and in the returned dict, to its
      keyword value if given, else its scheme value, else 0. */
  lemma ApplyOrbitSchemeVariable(g: Globals, scheme: map<string, real>, kwargs: Kwargs, i: nat)
    requires i < |OrbitVariables|
    ensures var r := ApplyOrbitScheme(g, scheme, kwargs);
            var v := OrbitValue(scheme, kwargs, OrbitVariables[i]);
            Holds(r.0, OrbitVariables[i], v) && OrbitVariables[i] in r.1 && r.1[OrbitVariables[i]] == v
  {
    var ws := OrbitSetupWrites(g, scheme, kwargs);
    OrbitSetupWritesConsistent(g, scheme, kwargs);
    OrbitSetupWriteValue(g, scheme, kwargs, i);
    SetAllConsistent(g, ws, i);
    UpdateConsistent(map[], ws, i);
  }

  /** Each special is set to its keyword value if given, else to the value
      just written to the variable it copies. */
  lemma ApplyOrbitSchemeSpecial(g: Globals, scheme: map<string, real>, kwargs: Kwargs, k: nat)
    requires k < |Specials|
    ensures var r := ApplyOrbitScheme(g, scheme, kwargs);
            var name := Specials[k].0;
            var v := GetOr(kwargs, name, OrbitValue(scheme, kwargs, Specials[k].1));
            Holds(r.0, name, v) && name in r.1 && r.1[name] == v
  {
    var ws := OrbitSetupWrites(g, scheme, kwargs);
    OrbitSetupWritesConsistent(g, scheme, kwargs);
    OrbitSetupWriteValue(g, scheme, kwargs, 36 + k);
    SetAllConsistent(g, ws, 36 + k);
    UpdateConsistent(map[], ws, 36 + k);
  }

  /** Exactly the orbit variables and the specials are written: they are the
      keys of the returned dict, and every other global is unchanged. */
  lemma ApplyOrbitSchemeWritesOnlyOrbit(g: Globals, scheme: map<string, real>, kwargs: Kwargs)
    ensures var r := ApplyOrbitScheme(g, scheme, kwargs);
            r.1.Keys == (set i | 0 <= i < |AllOrbitNames()| :: AllOrbitNames()[i]) &&
            SameOutside(g, r.0, Keys(AllOrbitNames()))
  {
    AssignedExactly(g, OrbitSetupWrites(g, scheme, kwargs), AllOrbitNames());
  }

  /** Keyword arguments that name no orbit variable are ignored. */
  lemma ApplyOrbitSchemeIgnoresOtherKwargs(g: Globals, scheme: map<string, real>, kw1: Kwargs, kw2: Kwargs)
    requires forall n :: n in AllOrbitNames() ==> (n in kw1 <==> n in kw2) && (n in kw1 ==> kw1[n] == kw2[n])
    ensures ApplyOrbitScheme(g, scheme, kw1) == ApplyOrbitScheme(g, scheme, kw2)
  {
    NamesAreWritten();
    assert OrbitWrites(scheme, kw1) == OrbitWrites(scheme, kw2);
    assert OrbitSetupWrites(g, scheme, kw1) == OrbitSetupWrites(g, scheme, kw2);
  }

  lemma NamesAreWritten()
    ensures forall i :: 0 <= i < |OrbitVariables| ==> OrbitVariables[i] in AllOrbitNames()
    ensures forall k :: 0 <= k < |Specials| ==> Specials[k].0 in AllOrbitNames()
  {
    forall i | 0 <= i < |OrbitVariables| ensures OrbitVariables[i] in AllOrbitNames() {
      assert AllOrbitNames()[i] == OrbitVariables[i];
    }
    forall k | 0 <= k < |Specials| ensures Specials[k].0 in AllOrbitNames() {
      assert AllOrbitNames()[36 + k] == Specials[k].0;
    }
  }

  /** With the "lhc_top" scheme and no keyword, on_xx1 copies on_x1's -160. */
  lemma SetupLhcOrbitTopExample(g: Globals)
    ensures SetupLhcOrbit(g, "lhc_top", map[]).Ok?
    ensures var r := SetupLhcOrbit(g, "lhc_top", map[]).value;
            Holds(r.0, "on_x1", -160.0) && Holds(r.0, "on_xx1", -160.0)
  {
    var top := Constants.CrossingSchemes["lhc_top"];
    TopSchemeX1();
    ApplyOrbitSchemeVariable(g, top, map[], 2);
    ApplyOrbitSchemeSpecial(g, top, map[], 1);
  }

  lemma TopSchemeX1()
    ensures OrbitVariables[2] == "on_x1" && Specials[1] == ("on_xx1", "on_x1")
    ensures OrbitValue(Constants.CrossingSchemes["lhc_top"], map[], "on_x1") == -160.0
  {
    assert Constants.CrossingSchemes["lhc_top"] == Constants.LhcTopScheme;
    assert OrbitVariables[2] == "on_" + "x1";
  }
}
