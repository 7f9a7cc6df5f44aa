/** The small pure helpers of pyhdtoolkit/plotting/utils.py: choosing the
    axis from keyword arguments, the distance from a segment's start to an
    IP around the ring, the IP positions of a TWISS frame, and the default
    axis labels of segment-by-segment plots.

    Frames are modelled by what these helpers read: element names and their
    longitudinal positions S.
 */
module PlotUtils {
  import opened Errors
  import opened Text

  // ---------------------------------------------------------------------------
  // maybe_get_ax
  // ---------------------------------------------------------------------------

  /** `maybe_get_ax(**kwargs)`: the axis under "ax", else under "axis", else
      the current axis (`plt.gca()`, here the parameter `current`), with the
      key that was used removed from the returned keyword arguments. */
  function MaybeGetAx<V>(kwargs: map<string, V>, current: V): (r: (V, map<string, V>))
    ensures "ax" in kwargs ==> r.0 == kwargs["ax"] && r.1 == kwargs - {"ax"}
    ensures "ax" !in kwargs && "axis" in kwargs ==> r.0 == kwargs["axis"] && r.1 == kwargs - {"axis"}
    ensures "ax" !in kwargs && "axis" !in kwargs ==> r == (current, kwargs)
  {
    if "ax" in kwargs then (kwargs["ax"], kwargs - {"ax"})
    else if "axis" in kwargs then (kwargs["axis"], kwargs - {"axis"})
    else (current, kwargs)
  }

  /** Nothing is lost: putting the axis back under the key it came from gives
      the original arguments, and the returned ones no longer hold "ax". */
  lemma MaybeGetAxRestores<V>(kwargs: map<string, V>, current: V)
    ensures var r := MaybeGetAx(kwargs, current);
            "ax" !in r.1
            && ("ax" in kwargs ==> r.1["ax" := r.0] == kwargs)
            && ("ax" !in kwargs && "axis" in kwargs ==> r.1["axis" := r.0] == kwargs)
            && ("ax" !in kwargs && "axis" !in kwargs ==> r.1 == kwargs)
  {
    var r := MaybeGetAx(kwargs, current);
    if "ax" in kwargs {
      assert r.1["ax" := r.0].Keys == kwargs.Keys;
    } else if "axis" in kwargs {
      assert r.1["axis" := r.0].Keys == kwargs.Keys;
    }
  }

  // ---------------------------------------------------------------------------
  // find_ip_s_from_segment_start
  // ---------------------------------------------------------------------------

  /** A model TWISS: element names with their S, in table order. */
  type Twiss = seq<(string, real)>

  /** `model_df[name == model_df.NAME].S.to_numpy()[0]`: the S of the first
      element of that name, or an IndexError when there is none. */
  function FirstS(model: Twiss, name: string): (r: Result<real>)
    ensures r.Ok? <==> exists i :: 0 <= i < |model| && model[i].0 == name
    ensures r.Err? ==> r.error == IndexError
    ensures r.Ok? ==> exists i :: 0 <= i < |model| && model[i] == (name, r.value)
                                  && forall j :: 0 <= j < i ==> model[j].0 != name
    decreases |model|
  {
    if model == [] then Err(IndexError)
    else if model[0].0 == name then Ok(model[0].1)
    else
      var r := FirstS(model[1..], name);
      assert r.Ok? ==> exists i :: 0 <= i < |model| && model[i] == (name, r.value)
                                   && forall j :: 0 <= j < i ==> model[j].0 != name by {
        if r.Ok? {
          var i :| 0 <= i < |model[1..]| && model[1..][i] == (name, r.value)
                   && forall j :: 0 <= j < i ==> model[1..][j].0 != name;
          assert model[i + 1] == (name, r.value);
          assert forall j :: 0 <= j < i + 1 ==> model[j].0 != name by {
            forall j | 0 <= j < i + 1
              ensures model[j].0 != name
            {
              if j > 0 {
                assert model[j] == model[1..][j - 1];
              }
            }
          }
        }
      }
      assert (exists i :: 0 <= i < |model| && model[i].0 == name) ==> r.Ok? by {
        if exists i :: 0 <= i < |model| && model[i].0 == name {
          var i :| 0 <= i < |model| && model[i].0 == name;
          assert model[1..][i - 1].0 == name;
        }
      }
      r
  }

  /** `model_df.S.to_numpy().max()`. */
  function MaxS(model: Twiss): (m: real)
    requires model != []
    ensures forall i :: 0 <= i < |model| ==> model[i].1 <= m
    ensures exists i :: 0 <= i < |model| && model[i].1 == m
    decreases |model|
  {
    if |model| == 1 then model[0].1
    else
      var rest := MaxS(model[1..]);
      assert forall i :: 1 <= i < |model| ==> model[i] == model[1..][i - 1];
      if model[0].1 >= rest then model[0].1 else rest
  }

  /** `find_ip_s_from_segment_start(segment_df, model_df, ip)`: how far the IP
      lies downstream of the segment's first element. When the IP comes
      earlier in the model, the segment runs past the end of the sequence and
      the distance wraps around it. An empty segment, or a first element or
      IP missing from the model, is an IndexError. */
  function FindIpSFromSegmentStart(segment: seq<string>, model: Twiss, ip: int): (r: Result<real>)
    ensures segment == [] ==> r == Err(IndexError)
    ensures r.Err? ==> r.error == IndexError
    ensures r.Ok? <==> segment != [] && FirstS(model, segment[0]).Ok? && FirstS(model, "IP" + IntToString(ip)).Ok?
    ensures r.Ok? ==> var start := FirstS(model, segment[0]).value;
                      var at := FirstS(model, "IP" + IntToString(ip)).value;
                      (at >= start ==> start + r.value == at)
                      && (at < start ==> start + r.value == MaxS(model) + at)
  {
    if segment == [] then Err(IndexError)
    else
      match FirstS(model, segment[0])
      case Err(e) => Err(e)
      case Ok(start) =>
        match FirstS(model, "IP" + IntToString(ip))
        case Err(e) => Err(e)
        case Ok(at) =>
          if at < start then Ok((MaxS(model) - start) + at) else Ok(at - start)
  }

  /** On a ring whose positions are all non-negative, the distance is never
      negative and never exceeds the ring's last position. */
  lemma FindIpSBounded(segment: seq<string>, model: Twiss, ip: int)
    requires forall i :: 0 <= i < |model| ==> model[i].1 >= 0.0
    requires FindIpSFromSegmentStart(segment, model, ip).Ok?
    ensures 0.0 <= FindIpSFromSegmentStart(segment, model, ip).value <= MaxS(model)
  {
  }

  // ---------------------------------------------------------------------------
  // get_lhc_ips_positions
  // ---------------------------------------------------------------------------

  /** A frame indexed by element name, with its numeric columns. */
  datatype Frame = Frame(labels: seq<string>, columns: map<string, seq<real>>)

  predicate WellFormed(f: Frame) {
    forall c :: c in f.columns ==> |f.columns[c]| == |f.labels|
  }

  /** The values of the rows labelled `name`, in order. */
  function RowsOf(labels: seq<string>, values: seq<real>, name: string): (r: seq<real>)
    requires |labels| == |values|
    ensures |r| <= |labels|
    decreases |labels|
  {
    if labels == [] then []
    else (if labels[0] == name then [values[0]] else []) + RowsOf(labels[1..], values[1..], name)
  }

  /** A name that labels exactly one row gets exactly that row's value. */
  lemma {:induction false} RowsOfUnique(labels: seq<string>, values: seq<real>, name: string, k: nat)
    requires |labels| == |values| && k < |labels| && labels[k] == name
    requires forall j :: 0 <= j < |labels| && j != k ==> labels[j] != name
    ensures RowsOf(labels, values, name) == [values[k]]
    decreases |labels|
  {
    if k == 0 {
      RowsOfAbsent(labels[1..], values[1..], name);
    } else {
      RowsOfUnique(labels[1..], values[1..], name, k - 1);
    }
  }

  lemma {:induction false} RowsOfAbsent(labels: seq<string>, values: seq<real>, name: string)
    requires |labels| == |values|
    requires forall j :: 0 <= j < |labels| ==> labels[j] != name
    ensures RowsOf(labels, values, name) == []
    decreases |labels|
  {
    if labels != [] {
      RowsOfAbsent(labels[1..], values[1..], name);
    }
  }

  /** Where `name` first labels a row; the number of rows when it does not. */
  function Position(labels: seq<string>, name: string): (k: nat)
    ensures k <= |labels|
    ensures k < |labels| <==> name in labels
    ensures k < |labels| ==> labels[k] == name
    ensures forall j :: 0 <= j < k ==> labels[j] != name
    decreases |labels|
  {
    if labels == [] then 0
    else if labels[0] == name then 0
    else
      assert forall j :: 1 <= j < |labels| ==> labels[j] == labels[1..][j - 1];
      1 + Position(labels[1..], name)
  }

  /** `frame.loc[names, column]`: for each name in turn the values of its rows.
      A missing column or a missing name is a KeyError. */
  function Loc(f: Frame, names: seq<string>, column: string): (r: Result<seq<real>>)
    requires WellFormed(f)
    ensures r.Ok? <==> column in f.columns && forall i :: 0 <= i < |names| ==> names[i] in f.labels
    ensures r.Err? ==> r.error.KeyError?
    decreases |names|
  {
    if column !in f.columns then Err(KeyError(column))
    else if names == [] then Ok([])
    else if names[0] !in f.labels then Err(KeyError(names[0]))
    else
      match Loc(f, names[1..], column)
      case Err(e) => Err(e)
      case Ok(rest) => Ok(RowsOf(f.labels, f.columns[column], names[0]) + rest)
  }

  /** With every name labelling one row, `loc` reads one value per name. */
  lemma {:induction false} LocUnique(f: Frame, names: seq<string>, column: string)
    requires WellFormed(f) && Loc(f, names, column).Ok?
    requires forall i, j :: 0 <= i < j < |f.labels| ==> f.labels[i] != f.labels[j]
    ensures var p := Loc(f, names, column).value;
            |p| == |names| && forall i :: 0 <= i < |names| ==> p[i] == f.columns[column][Position(f.labels, names[i])]
    decreases |names|
  {
    if names != [] {
      LocUnique(f, names[1..], column);
      var k := Position(f.labels, names[0]);
      RowsOfUnique(f.labels, f.columns[column], names[0], k);
      var p := Loc(f, names, column).value;
      var rest := Loc(f, names[1..], column).value;
      assert p == [f.columns[column][k]] + rest;
      forall i | 1 <= i < |names|
        ensures p[i] == f.columns[column][Position(f.labels, names[i])]
      {
        assert p[i] == rest[i - 1] && names[i] == names[1..][i - 1];
      }
    }
  }

  /** `[f"{prefix}{i:d}" for i in range(1, 9)]`, each number being one digit. */
  function IpNames(prefix: string): (names: seq<string>)
    ensures |names| == 8
    ensures forall i :: 0 <= i < 8 ==> names[i] == prefix + [DigitChar(i + 1)]
  {
    seq(8, i requires 0 <= i < 8 => prefix + [DigitChar(i + 1)])
  }

  /** The names are the formatted IP numbers. */
  lemma IpNamesFormatted(prefix: string, n: nat)
    requires 1 <= n <= 8
    ensures IpNames(prefix)[n - 1] == prefix + IntToString(n)
  {
    assert IntToString(n) == [DigitChar(n)];
  }

  /** `dict(zip(keys, values, strict=False))`: pairs up to the shorter of the
      two, a later key overwriting an earlier one. */
  function ZipToMap(keys: seq<string>, values: seq<real>): (r: map<string, real>)
    ensures forall i :: 0 <= i < |keys| && i < |values| ==> keys[i] in r
    ensures forall k :: k in r ==> k in keys
    decreases |keys|
  {
    var n := if |keys| < |values| then |keys| else |values|;
    if n == 0 then map[]
    else
      var front := ZipToMap(keys[..n - 1], values[..n - 1]);
      assert forall i :: 0 <= i < n - 1 ==> keys[..n - 1][i] == keys[i];
      front[keys[n - 1] := values[n - 1]]
  }

  /** A key maps to the value paired with its last occurrence. */
  lemma {:induction false} ZipToMapAt(keys: seq<string>, values: seq<real>, i: nat)
    requires i < |keys| && i < |values|
    requires forall j :: i < j < |keys| && j < |values| ==> keys[j] != keys[i]
    ensures ZipToMap(keys, values)[keys[i]] == values[i]
    decreases |keys|
  {
    var n := if |keys| < |values| then |keys| else |values|;
    if i < n - 1 {
      var ks, vs := keys[..n - 1], values[..n - 1];
      assert ks[i] == keys[i] && vs[i] == values[i];
      ZipToMapAt(ks, vs, i);
      assert keys[n - 1] != keys[i];
    }
  }

  /** Without repeated keys, each key maps to the value at its position. */
  lemma ZipToMapDistinct(keys: seq<string>, values: seq<real>, i: nat)
    requires i < |keys| && i < |values|
    requires forall a, b :: 0 <= a < b < |keys| ==> keys[a] != keys[b]
    ensures ZipToMap(keys, values)[keys[i]] == values[i]
  {
    ZipToMapAt(keys, values, i);
  }

  /** Of two equal keys the later value is kept. */
  lemma ZipToMapRepeatedKey()
    ensures ZipToMap(["a", "a"], [1.0, 2.0]) == map["a" := 2.0]
  {
    ZipToMapAt(["a", "a"], [1.0, 2.0], 1);
  }

  /** The eight IP names differ: their third characters are different digits. */
  lemma IpNamesDistinct(prefix: string)
    requires |prefix| == 2
    ensures forall a, b :: 0 <= a < b < 8 ==> IpNames(prefix)[a] != IpNames(prefix)[b]
  {
    forall a, b | 0 <= a < b < 8
      ensures IpNames(prefix)[a] != IpNames(prefix)[b]
    {
      assert IpNames(prefix)[a][2] != IpNames(prefix)[b][2];
    }
  }

  lemma UpperIpPrefixes()
    ensures Upper("IP") == "IP" && Upper("ip") == "IP"
  {
    var u, l := Upper("IP"), Upper("ip");
    assert u[0] == 'I' && u[1] == 'P';
    assert l[0] == UpperChar('i') == 'I' && l[1] == UpperChar('p') == 'P';
  }

  /** Upper-casing either spelling gives the upper-case names. */
  lemma UpperIpNames(prefix: string)
    requires Upper(prefix) == "IP"
    ensures UpperAll(IpNames(prefix)) == IpNames("IP")
  {
    forall i | 0 <= i < 8
      ensures UpperAll(IpNames(prefix))[i] == IpNames("IP")[i]
    {
      UpperConcat(prefix, [DigitChar(i + 1)]);
    }
  }

  /** `get_lhc_ips_positions(dataframe)`: the S of IP1 to IP8, read from the
      upper-case names and column S, or when that is a KeyError from the
      lower-case names and column s; the keys are upper-cased either way.
      When both fail the second KeyError propagates. */
  function LhcIpsPositions(f: Frame): (r: Result<map<string, real>>)
    requires WellFormed(f)
    ensures r.Ok? <==> Loc(f, IpNames("IP"), "S").Ok? || Loc(f, IpNames("ip"), "s").Ok?
    ensures r.Err? ==> r.error.KeyError?
    ensures r.Ok? ==> forall k :: k in r.value <==> k in IpNames("IP")
  {
    var upper := Loc(f, IpNames("IP"), "S");
    var names := if upper.Ok? then IpNames("IP") else IpNames("ip");
    var found := if upper.Ok? then upper else Loc(f, names, "s");
    match found
    case Err(e) => Err(e)
    case Ok(p) =>
      var keys := UpperAll(names);
      assert keys == IpNames("IP") by {
        UpperIpPrefixes();
        UpperIpNames(if upper.Ok? then "IP" else "ip");
      }
      assert |p| >= 8 by {
        LocAtLeast(f, names, if upper.Ok? then "S" else "s");
      }
      Ok(ZipToMap(keys, p))
  }

  /** Every name found contributes at least one value. */
  lemma {:induction false} LocAtLeast(f: Frame, names: seq<string>, column: string)
    requires WellFormed(f) && Loc(f, names, column).Ok?
    ensures |Loc(f, names, column).value| >= |names|
    decreases |names|
  {
    if names != [] {
      LocAtLeast(f, names[1..], column);
      var k :| 0 <= k < |f.labels| && f.labels[k] == names[0];
      RowsOfPresent(f.labels, f.columns[column], names[0], k);
    }
  }

  lemma {:induction false} RowsOfPresent(labels: seq<string>, values: seq<real>, name: string, k: nat)
    requires |labels| == |values| && k < |labels| && labels[k] == name
    ensures |RowsOf(labels, values, name)| >= 1
    decreases |labels|
  {
    if k > 0 {
      RowsOfPresent(labels[1..], values[1..], name, k - 1);
    }
  }

  /** The positions are read from the upper-case names when all of them are
      there, from the lower-case names otherwise. */
  lemma LhcIpsPositionsSource(f: Frame)
    requires WellFormed(f) && LhcIpsPositions(f).Ok?
    ensures var upper := Loc(f, IpNames("IP"), "S");
            var lower := Loc(f, IpNames("ip"), "s");
            (upper.Ok? ==> LhcIpsPositions(f).value == ZipToMap(IpNames("IP"), upper.value))
            && (upper.Err? ==> lower.Ok? && LhcIpsPositions(f).value == ZipToMap(IpNames("IP"), lower.value))
  {
    UpperIpPrefixes();
    UpperIpNames("IP");
    UpperIpNames("ip");
  }

  /** In a frame whose element names are unique, IP`n` maps to the S of the
      element called IP`n`. */
  lemma LhcIpsPositionsUpper(f: Frame, n: nat)
    requires WellFormed(f) && 1 <= n <= 8
    requires forall i, j :: 0 <= i < j < |f.labels| ==> f.labels[i] != f.labels[j]
    requires Loc(f, IpNames("IP"), "S").Ok?
    ensures var name := IpNames("IP")[n - 1];
            name in f.labels && LhcIpsPositions(f).value[name] == f.columns["S"][Position(f.labels, name)]
  {
    var names := IpNames("IP");
    IpNamesDistinct("IP");
    ZipLoc(f, names, "S", n - 1);
    var m := ZipToMap(names, Loc(f, names, "S").value);
    LhcIpsPositionsSource(f);
    assert LhcIpsPositions(f).value == m;
  }

  /** Zipping distinct names with what `loc` reads for them maps each name
      to the value of its row. */
  lemma ZipLoc(f: Frame, names: seq<string>, column: string, i: nat)
    requires WellFormed(f) && Loc(f, names, column).Ok? && i < |names|
    requires forall a, b :: 0 <= a < b < |f.labels| ==> f.labels[a] != f.labels[b]
    requires forall a, b :: 0 <= a < b < |names| ==> names[a] != names[b]
    ensures names[i] in f.labels && |Loc(f, names, column).value| == |names|
    ensures ZipToMap(names, Loc(f, names, column).value)[names[i]] == f.columns[column][Position(f.labels, names[i])]
  {
    var p := Loc(f, names, column).value;
    LocUnique(f, names, column);
    ZipToMapDistinct(names, p, i);
  }

  /** Without upper-case IPs the lower-case ones are used, under upper-case keys. */
  lemma LhcIpsPositionsLower(f: Frame, n: nat)
    requires WellFormed(f) && 1 <= n <= 8
    requires forall i, j :: 0 <= i < j < |f.labels| ==> f.labels[i] != f.labels[j]
    requires Loc(f, IpNames("IP"), "S").Err? && Loc(f, IpNames("ip"), "s").Ok?
    ensures var name := IpNames("ip")[n - 1];
            name in f.labels && LhcIpsPositions(f).value[IpNames("IP")[n - 1]] == f.columns["s"][Position(f.labels, name)]
  {
    var names := IpNames("ip");
    var p := Loc(f, names, "s").value;
    LhcIpsPositionsSource(f);
    IpNamesDistinct("IP");
    LocUnique(f, names, "s");
    ZipToMapDistinct(IpNames("IP"), p, n - 1);
  }

  // ---------------------------------------------------------------------------
  // Default segment-by-segment labels
  // ---------------------------------------------------------------------------

  /** `_determine_default_sbs_coupling_ylabel(rdt, component)`: the rdt must be
      F1001 or F1010 and the component ABS, RE or IM, all in any case,
      otherwise a ValueError; ABS gives `$|f_{…}|$`, RE `$\Re f_{…}$` and IM
      `$\Im f_{…}$`. */
  function CouplingYLabel(rdt: string, component: string): (r: Result<string>)
    ensures r.Ok? <==> (Upper(rdt) == "F1001" || Upper(rdt) == "F1010")
                       && (Upper(component) == "ABS" || Upper(component) == "RE" || Upper(component) == "IM")
    ensures r.Err? ==> r.error == ValueError
    ensures r.Ok? ==>
              var term := if Upper(rdt) == "F1001" then "f_{1001}" else "f_{1010}";
              (Upper(component) == "ABS" ==> r.value == "$|" + term + "|$")
              && (Upper(component) == "RE" ==> r.value == "$\\Re " + term + "$")
              && (Upper(component) == "IM" ==> r.value == "$\\Im " + term + "$")
  {
    var rdtUp := Upper(rdt);
    var part := Upper(component);
    if rdtUp != "F1001" && rdtUp != "F1010" then Err(ValueError)
    else if part != "ABS" && part != "RE" && part != "IM" then Err(ValueError)
    else
      var opening := if part == "ABS" then "|" else if part == "RE" then "\\Re " else "\\Im ";
      var closing := if part == "ABS" then "|" else "";
      var term := if rdtUp == "F1001" then "f_{1001}" else "f_{1010}";
      Ok("$" + opening + term + closing + "$")
  }

  /** The label depends on the case of neither argument. */
  lemma CouplingYLabelCaseInsensitive(r1: string, r2: string, c1: string, c2: string)
    requires Upper(r1) == Upper(r2) && Upper(c1) == Upper(c2)
    ensures CouplingYLabel(r1, c1) == CouplingYLabel(r2, c2)
  {
  }

  /** The two RDTs never share a label. */
  lemma CouplingYLabelsDiffer(rdt1: string, rdt2: string, component: string)
    requires CouplingYLabel(rdt1, component).Ok? && CouplingYLabel(rdt2, component).Ok?
    requires Upper(rdt1) != Upper(rdt2)
    ensures CouplingYLabel(rdt1, component).value != CouplingYLabel(rdt2, component).value
  {
    var l1 := CouplingYLabel(rdt1, component).value;
    var l2 := CouplingYLabel(rdt2, component).value;
    var k := if Upper(component) == "ABS" then 8 else 11;
    assert l1[k] != l2[k];
  }

  /** `"F1111"` is not a coupling RDT. */
  lemma CouplingYLabelRejectsF1111()
    ensures CouplingYLabel("F1111", "abs") == Err(ValueError)
  {
    assert Upper("F1111")[2] == UpperChar('1') == '1';
  }

  /** `_determine_default_sbs_phase_ylabel(plane)`: `$\Delta \phi_{x}$` or
      `$\Delta \phi_{y}$` for a plane X or Y in any case, otherwise a
      ValueError. */
  function PhaseYLabel(plane: string): (r: Result<string>)
    ensures r.Ok? <==> Upper(plane) == "X" || Upper(plane) == "Y"
    ensures r.Err? ==> r.error == ValueError
    ensures r.Ok? ==> r.value == "$\\Delta \\phi_{" + (if Upper(plane) == "X" then "x" else "y") + "}$"
  {
    var p := Upper(plane);
    if p != "X" && p != "Y" then Err(ValueError)
    else
      var term := if p == "X" then "\\phi_{x}" else "\\phi_{y}";
      Ok("$" + "\\Delta " + term + "$")
  }

  /** Exactly the one-letter planes x, X, y and Y are accepted. */
  lemma PhaseYLabelPlanes(plane: string)
    ensures PhaseYLabel(plane).Ok? <==> plane == "x" || plane == "X" || plane == "y" || plane == "Y"
  {
    if |plane| == 1 {
      assert Upper(plane) == [UpperChar(plane[0])];
    } else {
      assert |Upper(plane)| != 1;
    }
  }
}
