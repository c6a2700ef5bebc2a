/** What `analyze` guarantees about the three lists it builds. The loop's
    bookkeeping is proved once, by induction over any sequence of
    per-descriptor decisions; the `Analyze...` lemmas then read those facts
    back in terms of the descriptors. */
module AnalyzeProperties {
  import opened Wrappers
  import opened Library
  import opened Strings
  import opened Transformations
  import opened FunctionParameters

  /** Some surface parameter was derived from native parameter `i`. */
  ghost predicate OnSurface(rust: seq<RustParameter>, i: int)
  {
    exists j :: 0 <= j < |rust| && rust[j].indC == i
  }

  ghost predicate AllValid(ls: seq<Lowered>)
  {
    forall i :: 0 <= i < |ls| ==> ValidLowered(ls[i])
  }

  lemma LoweringsValid(x: Input)
    ensures AllValid(Lowerings(x))
  {
    forall i | 0 <= i < |Lowerings(x)|
      ensures ValidLowered(Lowerings(x)[i])
    {
      assert Lowerings(x)[i] == LoweredAt(x, i);
    }
  }

  /** One iteration only appends: the earlier entries of all three lists
      are kept, the new native entry and its steps sit at the end, and a
      well-indexed state stays well indexed. */
  lemma PushParameterExtends(acc: Parameters, l: Lowered)
    ensures var r := PushParameter(acc, l);
      && r.cParameters[..|acc.cParameters|] == acc.cParameters
      && r.cParameters[|acc.cParameters|] == l.cParameter
      && r.rustParameters[..|acc.rustParameters|] == acc.rustParameters
      && (l.included ==> r.rustParameters[|acc.rustParameters|].indC == |acc.cParameters|)
      && r.transformations[..|acc.transformations|] == acc.transformations
      && r.transformations[|r.transformations| - 1] ==
           Transformation(|acc.cParameters|, if l.included then Some(|acc.rustParameters|) else None, l.primary)
    ensures WellIndexed(acc) ==> WellIndexed(PushParameter(acc, l))
  {
  }

  lemma {:induction false} AssembleNativeList(ls: seq<Lowered>, n: nat)
    requires n <= |ls|
    ensures |Assemble(ls, n).cParameters| == n
    ensures forall i :: 0 <= i < n ==> Assemble(ls, n).cParameters[i] == ls[i].cParameter
  {
    if n > 0 {
      AssembleNativeList(ls, n - 1);
    }
  }

  /** The surface list after `n` descriptors extends the one after `n - 1`
      by the `n - 1`-th descriptor's entry when it is included. */
  lemma AssembleSurfaceStep(ls: seq<Lowered>, n: nat)
    requires 0 < n <= |ls|
    ensures var l := ls[n - 1];
      Assemble(ls, n).rustParameters ==
        if l.included
        then Assemble(ls, n - 1).rustParameters
          + [RustParameter(n - 1, l.cParameter.name, l.cParameter.typ, l.allowNone)]
        else Assemble(ls, n - 1).rustParameters
  {
    AssembleNativeList(ls, n - 1);
  }

  /** Each surface entry repeats the name and type of the native parameter
      it points at, and the entries come in native order. */
  lemma {:induction false} AssembleSurfaceEntries(ls: seq<Lowered>, n: nat)
    requires n <= |ls|
    ensures var rust := Assemble(ls, n).rustParameters;
      forall j :: 0 <= j < |rust| ==>
        && rust[j].indC < n
        && rust[j] == RustParameter(rust[j].indC, ls[rust[j].indC].cParameter.name,
                                    ls[rust[j].indC].cParameter.typ, ls[rust[j].indC].allowNone)
    ensures var rust := Assemble(ls, n).rustParameters;
      forall j1, j2 :: 0 <= j1 < j2 < |rust| ==> rust[j1].indC < rust[j2].indC
  {
    if n > 0 {
      AssembleSurfaceEntries(ls, n - 1);
      AssembleSurfaceStep(ls, n);
      var rust := Assemble(ls, n).rustParameters;
      var rust0 := Assemble(ls, n - 1).rustParameters;
      forall j | 0 <= j < |rust|
        ensures rust[j].indC < n
        ensures rust[j] == RustParameter(rust[j].indC, ls[rust[j].indC].cParameter.name,
                                    ls[rust[j].indC].cParameter.typ, ls[rust[j].indC].allowNone)
      {
        if j < |rust0| {
          assert rust[j] == rust0[j];
        }
      }
      forall j1, j2 | 0 <= j1 < j2 < |rust|
        ensures rust[j1].indC < rust[j2].indC
      {
        assert rust[j1] == rust0[j1];
        if j2 < |rust0| {
          assert rust[j2] == rust0[j2];
        }
      }
    }
  }

  /** A native parameter is on the surface exactly when it was included. */
  lemma {:induction false} AssembleSurfaceMembership(ls: seq<Lowered>, n: nat)
    requires n <= |ls|
    ensures var rust := Assemble(ls, n).rustParameters;
      forall i :: 0 <= i < n ==>
        (OnSurface(rust, i) <==> ls[i].included)
  {
    if n > 0 {
      AssembleSurfaceMembership(ls, n - 1);
      AssembleSurfaceEntries(ls, n - 1);
      AssembleSurfaceStep(ls, n);
      var rust := Assemble(ls, n).rustParameters;
      var rust0 := Assemble(ls, n - 1).rustParameters;
      forall i | 0 <= i < n
        ensures OnSurface(rust, i) <==> ls[i].included
      {
        if OnSurface(rust, i) {
          var j :| 0 <= j < |rust| && rust[j].indC == i;
          if j < |rust0| {
            assert rust0[j] == rust[j];
            assert i < n - 1 && OnSurface(rust0, i);
          }
        }
        if i < n - 1 && ls[i].included {
          assert OnSurface(rust0, i);
          var j :| 0 <= j < |rust0| && rust0[j].indC == i;
          assert rust[j] == rust0[j];
        } else if ls[i].included {
          assert rust[|rust0|].indC == i;
        }
      }
    }
  }

  lemma {:induction false} AssembleIndices(ls: seq<Lowered>, n: nat)
    requires n <= |ls|
    ensures var p := Assemble(ls, n);
      forall k :: 0 <= k < |p.transformations| ==> p.transformations[k].indC < n
    ensures var p := Assemble(ls, n);
      forall k :: 0 <= k < |p.transformations| && p.transformations[k].indRust.Some? ==>
        p.transformations[k].indRust.value < |p.rustParameters|
        && p.rustParameters[p.transformations[k].indRust.value].indC == p.transformations[k].indC
  {
    if n > 0 {
      AssembleIndices(ls, n - 1);
      AssembleNativeList(ls, n - 1);
      var p0 := Assemble(ls, n - 1);
      var p := Assemble(ls, n);
      var l := ls[n - 1];
      var t0 := p0.transformations;
      var t := p.transformations;
      var lengthSteps := if l.lengthStep.Some? then [Transformation(n - 1, None, l.lengthStep.value)] else [];
      var primary := Transformation(n - 1, if l.included then Some(|p0.rustParameters|) else None, l.primary);
      assert t == t0 + lengthSteps + [primary];
      assert p.rustParameters[..|p0.rustParameters|] == p0.rustParameters;
      forall k | 0 <= k < |t|
        ensures t[k].indC < n
        ensures t[k].indRust.Some? ==>
          t[k].indRust.value < |p.rustParameters|
          && p.rustParameters[t[k].indRust.value].indC == t[k].indC
      {
        if k < |t0| {
          assert t[k] == t0[k];
          if t[k].indRust.Some? {
            assert p.rustParameters[t[k].indRust.value] == p0.rustParameters[t[k].indRust.value];
          }
        } else if k == |t| - 1 {
          assert t[k] == primary;
        } else {
          assert t[k] == lengthSteps[0];
        }
      }
    }
  }

  /** Some primary step applies to native parameter `i`. */
  ghost predicate HasPrimary(t: seq<Transformation>, i: int)
  {
    exists k :: 0 <= k < |t| && !t[k].transformationType.Length? && t[k].indC == i
  }

  /** Each primary step carries the decision for its parameter and names a
      surface parameter exactly when that parameter is included. */
  lemma {:induction false} AssemblePrimariesPlaced(ls: seq<Lowered>, n: nat)
    requires n <= |ls|
    requires AllValid(ls)
    ensures var t := Assemble(ls, n).transformations;
      forall k :: 0 <= k < |t| && !t[k].transformationType.Length? ==>
        && t[k].indC < n
        && t[k].transformationType == ls[t[k].indC].primary
        && (t[k].indRust.Some? <==> ls[t[k].indC].included)
  {
    if n > 0 {
      AssemblePrimariesPlaced(ls, n - 1);
      AssembleStep(ls, n);
      var l := ls[n - 1];
      assert ValidLowered(l);
      var t0 := Assemble(ls, n - 1).transformations;
      var t := Assemble(ls, n).transformations;
      forall k | 0 <= k < |t| && !t[k].transformationType.Length?
        ensures t[k].indC < n && t[k].transformationType == ls[t[k].indC].primary
        ensures t[k].indRust.Some? <==> ls[t[k].indC].included
      {
        if k < |t0| {
          assert t[k] == t0[k];
        } else {
          assert k == |t| - 1;
        }
      }
    }
  }

  /** Every parameter gets a primary step. */
  lemma {:induction false} AssemblePrimariesCover(ls: seq<Lowered>, n: nat)
    requires n <= |ls|
    requires AllValid(ls)
    ensures forall i :: 0 <= i < n ==> HasPrimary(Assemble(ls, n).transformations, i)
  {
    if n > 0 {
      AssemblePrimariesCover(ls, n - 1);
      AssembleStep(ls, n);
      assert ValidLowered(ls[n - 1]);
      var t0 := Assemble(ls, n - 1).transformations;
      var t := Assemble(ls, n).transformations;
      forall i | 0 <= i < n
        ensures HasPrimary(t, i)
      {
        if i < n - 1 {
          assert HasPrimary(t0, i);
          var k :| 0 <= k < |t0| && !t0[k].transformationType.Length? && t0[k].indC == i;
          assert t[k] == t0[k];
        } else {
          assert t[|t| - 1].indC == i && !t[|t| - 1].transformationType.Length?;
        }
      }
    }
  }

  /** Primary steps come in strictly increasing native position. */
  lemma {:induction false} AssemblePrimariesOrdered(ls: seq<Lowered>, n: nat)
    requires n <= |ls|
    requires AllValid(ls)
    ensures var t := Assemble(ls, n).transformations;
      forall k1, k2 :: (0 <= k1 < k2 < |t|
        && !t[k1].transformationType.Length? && !t[k2].transformationType.Length?) ==>
        t[k1].indC < t[k2].indC
  {
    if n > 0 {
      AssemblePrimariesOrdered(ls, n - 1);
      AssembleIndices(ls, n - 1);
      AssembleStep(ls, n);
      assert ValidLowered(ls[n - 1]);
      var t0 := Assemble(ls, n - 1).transformations;
      var t := Assemble(ls, n).transformations;
      forall k1, k2 | (0 <= k1 < k2 < |t|
        && !t[k1].transformationType.Length? && !t[k2].transformationType.Length?)
        ensures t[k1].indC < t[k2].indC
      {
        if k2 < |t0| {
          assert t[k1] == t0[k1] && t[k2] == t0[k2];
        } else {
          assert k2 == |t| - 1 && t[k2].indC == n - 1;
          if k1 < |t0| {
            assert t[k1] == t0[k1];
          }
        }
      }
    }
  }

  /** Some `Length` step applies to native parameter `i`. */
  ghost predicate HasLengthStep(t: seq<Transformation>, i: int)
  {
    exists k :: 0 <= k < |t| && t[k].transformationType.Length? && t[k].indC == i
  }

  /** The step at `k` is the `Length` step decided for its parameter,
      names no surface parameter, and is followed by that parameter's
      primary step, which names no surface parameter either. */
  ghost predicate LengthStepPlaced(ls: seq<Lowered>, t: seq<Transformation>, k: int)
    requires 0 <= k < |t|
  {
    && t[k].indC < |ls|
    && ls[t[k].indC].lengthStep == Some(t[k].transformationType)
    && t[k].indRust.None?
    && k + 1 < |t|
    && t[k + 1].indC == t[k].indC
    && t[k + 1].transformationType == ls[t[k].indC].primary
    && t[k + 1].indRust.None?
  }

  /** The lists after `n` descriptors extend those after `n - 1` by the
      `n - 1`-th descriptor's steps. */
  lemma AssembleStep(ls: seq<Lowered>, n: nat)
    requires 0 < n <= |ls|
    ensures var p0 := Assemble(ls, n - 1);
      var l := ls[n - 1];
      Assemble(ls, n).transformations == p0.transformations
        + (if l.lengthStep.Some? then [Transformation(n - 1, None, l.lengthStep.value)] else [])
        + [Transformation(n - 1, if l.included then Some(|p0.rustParameters|) else None, l.primary)]
  {
    AssembleNativeList(ls, n - 1);
  }

  /** Each `Length` step is the one decided for its parameter and is
      followed by that parameter's primary step. */
  lemma {:induction false} AssembleLengthStepsPlaced(ls: seq<Lowered>, n: nat)
    requires n <= |ls|
    requires AllValid(ls)
    ensures var t := Assemble(ls, n).transformations;
      forall k :: 0 <= k < |t| && t[k].transformationType.Length? ==>
        t[k].indC < n && LengthStepPlaced(ls, t, k)
  {
    if n > 0 {
      AssembleLengthStepsPlaced(ls, n - 1);
      AssembleStep(ls, n);
      var l := ls[n - 1];
      assert ValidLowered(l);
      var t0 := Assemble(ls, n - 1).transformations;
      var t := Assemble(ls, n).transformations;
      forall k | 0 <= k < |t| && t[k].transformationType.Length?
        ensures t[k].indC < n && LengthStepPlaced(ls, t, k)
      {
        if k < |t0| {
          assert t[k] == t0[k];
          assert LengthStepPlaced(ls, t0, k);
          if k + 1 < |t0| {
            assert t[k + 1] == t0[k + 1];
          }
        } else {
          assert k == |t0|;
        }
      }
    }
  }

  /** Every parameter with a decided `Length` step gets one. */
  lemma {:induction false} AssembleLengthStepsCover(ls: seq<Lowered>, n: nat)
    requires n <= |ls|
    requires AllValid(ls)
    ensures forall i :: 0 <= i < n && ls[i].lengthStep.Some? ==>
      HasLengthStep(Assemble(ls, n).transformations, i)
  {
    if n > 0 {
      AssembleLengthStepsCover(ls, n - 1);
      AssembleStep(ls, n);
      assert ValidLowered(ls[n - 1]);
      var t0 := Assemble(ls, n - 1).transformations;
      var t := Assemble(ls, n).transformations;
      forall i | 0 <= i < n && ls[i].lengthStep.Some?
        ensures HasLengthStep(t, i)
      {
        if i < n - 1 {
          assert HasLengthStep(t0, i);
          var k :| 0 <= k < |t0| && t0[k].transformationType.Length? && t0[k].indC == i;
          assert t[k] == t0[k];
        } else {
          assert t[|t0|].indC == i && t[|t0|].transformationType == ls[i].lengthStep.value;
        }
      }
    }
  }

  /** `Length` steps come in strictly increasing native position. */
  lemma {:induction false} AssembleLengthStepsOrdered(ls: seq<Lowered>, n: nat)
    requires n <= |ls|
    requires AllValid(ls)
    ensures var t := Assemble(ls, n).transformations;
      forall k1, k2 :: (0 <= k1 < k2 < |t|
        && t[k1].transformationType.Length? && t[k2].transformationType.Length?) ==>
        t[k1].indC < t[k2].indC
  {
    if n > 0 {
      AssembleLengthStepsOrdered(ls, n - 1);
      AssembleIndices(ls, n - 1);
      AssembleStep(ls, n);
      var l := ls[n - 1];
      assert ValidLowered(l);
      var t0 := Assemble(ls, n - 1).transformations;
      var t := Assemble(ls, n).transformations;
      forall k1, k2 | (0 <= k1 < k2 < |t|
        && t[k1].transformationType.Length? && t[k2].transformationType.Length?)
        ensures t[k1].indC < t[k2].indC
      {
        if k2 < |t0| {
          assert t[k1] == t0[k1] && t[k2] == t0[k2];
        } else {
          assert k2 == |t0| && t[k2].indC == n - 1;
          assert t[k1] == t0[k1];
        }
      }
    }
  }

  /** The native list is 1:1 with the descriptors: entry `i` is the native
      parameter of descriptor `i`, named as the descriptor is for an
      instance parameter and keyword-mangled otherwise. */
  lemma AnalyzeNativeList(x: Input)
    ensures |Analyze(x).cParameters| == |x.params|
    ensures forall i :: 0 <= i < |x.params| ==> Analyze(x).cParameters[i] == CParamAt(x, i)
    ensures forall i :: 0 <= i < |x.params| ==>
      Analyze(x).cParameters[i].name ==
        (if x.params[i].instanceParameter then x.params[i].name
         else x.env.mangleKeywords(x.params[i].name))
  {
    AssembleNativeList(Lowerings(x), |x.params|);
  }

  /** The surface list holds, in descriptor order, exactly the parameters
      that the direction rule admits, that the async rule does not drop and
      that no array claims as its length; each points at the native entry
      with its name and type. */
  lemma AnalyzeSurfaceList(x: Input)
    ensures |Analyze(x).cParameters| == |x.params|
    ensures var p := Analyze(x);
      forall j :: 0 <= j < |p.rustParameters| ==>
        && p.rustParameters[j].indC < |x.params|
        && p.rustParameters[j].name == p.cParameters[p.rustParameters[j].indC].name
        && p.rustParameters[j].typ == p.cParameters[p.rustParameters[j].indC].typ
        && p.rustParameters[j].allowNone == x.params[p.rustParameters[j].indC].allowNone
    ensures var rust := Analyze(x).rustParameters;
      forall j1, j2 :: 0 <= j1 < j2 < |rust| ==> rust[j1].indC < rust[j2].indC
    ensures var rust := Analyze(x).rustParameters;
      forall i :: 0 <= i < |x.params| ==>
        (OnSurface(rust, i) <==>
          && (|| x.params[i].direction == In
              || x.params[i].direction == InOut
              || (x.params[i].direction == Out && !x.env.canAsReturn(x.params[i]) && !x.asyncFunc))
          && !(x.asyncFunc && EndsWith(x.params[i].name, "data"))
          && ArrayNameAt(x, i).None?)
  {
    var ls := Lowerings(x);
    AssembleNativeList(ls, |x.params|);
    AssembleSurfaceEntries(ls, |x.params|);
    AssembleSurfaceMembership(ls, |x.params|);
    forall i | 0 <= i < |x.params|
      ensures IncludedAt(x, i) <==>
          && (|| x.params[i].direction == In
              || x.params[i].direction == InOut
              || (x.params[i].direction == Out && !x.env.canAsReturn(x.params[i]) && !x.asyncFunc))
          && !(x.asyncFunc && EndsWith(x.params[i].name, "data"))
          && ArrayNameAt(x, i).None?
    {
    }
  }

  /** Every stored index is valid: the list `analyze` returns is well
      indexed and 1:1 with its input. */
  lemma AnalyzeWellIndexed(x: Input)
    ensures |Analyze(x).cParameters| == |x.params|
    ensures WellIndexed(Analyze(x))
  {
    var ls := Lowerings(x);
    AssembleNativeList(ls, |x.params|);
    AssembleSurfaceEntries(ls, |x.params|);
    AssembleIndices(ls, |x.params|);
  }

  /** A primary step for native parameter `i` carries the conversion of
      its category after the async substitution, and names a surface
      parameter exactly when descriptor `i` is on the surface list. */
  lemma AnalyzePrimarySteps(x: Input)
    ensures var t := Analyze(x).transformations;
      forall k :: 0 <= k < |t| && !t[k].transformationType.Length? ==>
        && t[k].indC < |x.params|
        && t[k].transformationType == PrimaryTypeAt(x, t[k].indC)
        && (t[k].indRust.Some? <==> IncludedAt(x, t[k].indC))
  {
    var ls := Lowerings(x);
    LoweringsValid(x);
    AssemblePrimariesPlaced(ls, |x.params|);
    var t := Analyze(x).transformations;
    assert t == Assemble(ls, |x.params|).transformations;
    forall k | 0 <= k < |t| && !t[k].transformationType.Length?
      ensures t[k].indC < |x.params|
      ensures t[k].transformationType == PrimaryTypeAt(x, t[k].indC)
      ensures t[k].indRust.Some? <==> IncludedAt(x, t[k].indC)
    {
      var i := t[k].indC;
      assert i < |ls| == |x.params|;
      var l := LoweredAt(x, i);
      assert ls[i] == l;
      assert t[k].transformationType == l.primary;
      assert t[k].indRust.Some? <==> l.included;
    }
  }

  /** Each descriptor gets a primary step, and the primary steps come in
      strictly increasing descriptor order, so there is exactly one per
      descriptor. */
  lemma AnalyzePrimaryStepPerParameter(x: Input)
    ensures forall i :: 0 <= i < |x.params| ==> HasPrimary(Analyze(x).transformations, i)
    ensures var t := Analyze(x).transformations;
      forall k1, k2 :: (0 <= k1 < k2 < |t|
        && !t[k1].transformationType.Length? && !t[k2].transformationType.Length?) ==>
        t[k1].indC < t[k2].indC
    ensures var t := Analyze(x).transformations;
      forall k1, k2 :: (0 <= k1 < |t| && 0 <= k2 < |t|
        && !t[k1].transformationType.Length? && !t[k2].transformationType.Length?
        && t[k1].indC == t[k2].indC) ==> k1 == k2
  {
    var ls := Lowerings(x);
    LoweringsValid(x);
    AssemblePrimariesCover(ls, |x.params|);
    AssemblePrimariesOrdered(ls, |x.params|);
    assert Analyze(x).transformations == Assemble(ls, |x.params|).transformations;
  }

  /** Every step that is not a primary one is the `Length` step of a
      parameter with a resolved array, names no surface parameter, and
      stands immediately before that parameter's primary step, which names
      no surface parameter either. Each such parameter has exactly one, in
      descriptor order. */
  lemma AnalyzeLengthSteps(x: Input)
    ensures var t := Analyze(x).transformations;
      forall k :: 0 <= k < |t| && t[k].transformationType.Length? ==>
        && t[k].indC < |x.params|
        && ArrayNameAt(x, t[k].indC).Some?
        && t[k].transformationType == LengthStepAt(x, t[k].indC)
        && t[k].indRust.None?
        && k + 1 < |t|
        && t[k + 1].indC == t[k].indC
        && t[k + 1].transformationType == PrimaryTypeAt(x, t[k].indC)
        && t[k + 1].indRust.None?
  {
    var ls := Lowerings(x);
    LoweringsValid(x);
    AssembleLengthStepsPlaced(ls, |x.params|);
    var t := Analyze(x).transformations;
    assert t == Assemble(ls, |x.params|).transformations;
    forall k | 0 <= k < |t| && t[k].transformationType.Length?
      ensures t[k].indC < |x.params| && t[k].indRust.None?
      ensures ArrayNameAt(x, t[k].indC).Some? && t[k].transformationType == LengthStepAt(x, t[k].indC)
      ensures k + 1 < |t| && t[k + 1].indC == t[k].indC && t[k + 1].indRust.None?
      ensures t[k + 1].transformationType == PrimaryTypeAt(x, t[k].indC)
    {
      assert LengthStepPlaced(ls, t, k);
      var i := t[k].indC;
      var l := LoweredAt(x, i);
      assert ls[i] == l;
      assert l.lengthStep == Some(t[k].transformationType);
    }
  }

  /** Every parameter with a resolved array gets its `Length` step, and the
      `Length` steps come in descriptor order, so there is one per such
      parameter. */
  lemma AnalyzeLengthStepsPerArray(x: Input)
    ensures forall i :: 0 <= i < |x.params| && ArrayNameAt(x, i).Some? ==>
      HasLengthStep(Analyze(x).transformations, i)
    ensures var t := Analyze(x).transformations;
      forall k1, k2 :: (0 <= k1 < k2 < |t|
        && t[k1].transformationType.Length? && t[k2].transformationType.Length?) ==>
        t[k1].indC < t[k2].indC
  {
    var ls := Lowerings(x);
    LoweringsValid(x);
    AssembleLengthStepsCover(ls, |x.params|);
    AssembleLengthStepsOrdered(ls, |x.params|);
    assert Analyze(x).transformations == Assemble(ls, |x.params|).transformations;
    forall i | 0 <= i < |x.params| && ArrayNameAt(x, i).Some?
      ensures ls[i].lengthStep.Some?
    {
      var l := LoweredAt(x, i);
      assert ls[i] == l;
    }
  }

  /** The return-value post-pass keeps the result of `analyze` well
      indexed and the native list 1:1 with the descriptors. */
  lemma AnalyzeThenReturnWellIndexed(x: Input, ret: Option<Parameter>)
    ensures |AnalyzeReturn(x.env, Analyze(x), ret).cParameters| == |x.params|
    ensures WellIndexed(AnalyzeReturn(x.env, Analyze(x), ret))
  {
    AnalyzeWellIndexed(x);
  }
}
