/** The result of the pass on concrete signatures, worked out by proof:
    the length heuristic, the async slots, the flag erasure of scalars, the
    nullable-object suffix, and the length heuristic switched off. */
module Scenarios {
  import opened Wrappers
  import opened Library
  import opened Environment
  import opened Strings
  import opened Transformations
  import opened LengthDetection
  import opened FunctionParameters

  const Bytes := TypeId(0, 1)
  const Size := TypeId(0, 2)
  const Callback := TypeId(0, 3)
  const OpaquePointer := TypeId(0, 4)
  const Widget := TypeId(0, 5)

  /** A library with a byte array, an unsigned size, a callback type, an
      opaque pointer and a non-final class. */
  function SampleEnv(): Env
  {
    Env(
      map[Bytes := CArray(TypeId(0, 0)), Size := Fundamental(OtherFundamental)],
      t => false,
      t => t == Widget,
      t => false,
      t => if t == Bytes || t == OpaquePointer || t == Widget then Pointer
           else if t == Callback then Unknown
           else Scalar,
      t => if t == Size then "usize" else "T",
      s => s,
      p => false,
      (t, c) => t,
      (p, immutable, selfInTrait) => ByRef)
  }

  function InParam(name: string, typ: TypeId): Parameter
  {
    Parameter(name, typ, "", false, In, NoTransfer, false, false, false, None, false, Call, None, None)
  }

  function NoConfig(): string -> seq<ConfiguredParameter>
  {
    name => []
  }

  /** `(data: bytes, len: size)` with the length heuristic on. */
  function ArrayAndLength(): Input
  {
    Input(SampleEnv(), [InParam("data", Bytes), InParam("len", Size)], NoConfig(), false, false, false)
  }

  lemma NameHeuristic()
    ensures IsLength(InParam("len", Size))
    ensures !IsLength(InParam("data", Bytes))
  {
    var name := "data";
    assert name[1..4][2] != "len"[2];
    assert Find(name, "length").None?;
  }

  lemma ArrayAndLengthDecisions()
    ensures ArrayNameAt(ArrayAndLength(), 0).None?
    ensures ArrayNameAt(ArrayAndLength(), 1) == Some("data")
  {
    var x := ArrayAndLength();
    NameHeuristic();
    assert HasLength(x.env, Bytes);
    assert BackLinksPrefix(x.params, 1) == map[];
    assert BackLinks(x.params) == map[];
    assert DetectLength(x.env, x.params, 0).None?;
    assert DetectLength(x.env, x.params, 1) == Some("data");
  }

  lemma ArrayAndLengthLowered()
    ensures LoweredAt(ArrayAndLength(), 0).included
    ensures LoweredAt(ArrayAndLength(), 0).lengthStep.None?
    ensures LoweredAt(ArrayAndLength(), 0).primary.ToGlibPointer?
    ensures LoweredAt(ArrayAndLength(), 0).cParameter.name == "data"
    ensures !LoweredAt(ArrayAndLength(), 1).included
    ensures LoweredAt(ArrayAndLength(), 1).lengthStep == Some(Length("data", "len", "usize"))
    ensures LoweredAt(ArrayAndLength(), 1).primary == ToGlibScalar("len", false)
  {
    ArrayAndLengthDecisions();
  }

  /** Detection folds `len` into a `Length` step placed right after the
      array's step; `len` leaves the surface list but keeps its native
      entry and its own scalar step. */
  lemma LengthHeuristicFolds()
    ensures var p := Analyze(ArrayAndLength());
      && |p.cParameters| == 2
      && p.rustParameters == [RustParameter(0, "data", Bytes, false)]
      && |p.transformations| == 3
      && p.transformations[0].indC == 0 && p.transformations[0].indRust == Some(0)
      && p.transformations[0].transformationType.ToGlibPointer?
      && p.transformations[1] == Transformation(1, None, Length("data", "len", "usize"))
      && p.transformations[2] == Transformation(1, None, ToGlibScalar("len", false))
  {
    ArrayAndLengthLowered();
    var x := ArrayAndLength();
    var ls := Lowerings(x);
    assert ls[0] == LoweredAt(x, 0) && ls[1] == LoweredAt(x, 1);
    assert Analyze(x) == Assemble(ls, 2);
  }

  /** The same signature with detection switched off: `len` stays on the
      surface list with an ordinary scalar step. */
  function ArrayAndLengthNoDetect(): Input
  {
    ArrayAndLength().(disableLengthDetect := true)
  }

  lemma NoDetectKeepsLength()
    ensures var p := Analyze(ArrayAndLengthNoDetect());
      && p.rustParameters == [RustParameter(0, "data", Bytes, false), RustParameter(1, "len", Size, false)]
      && |p.transformations| == 2
      && p.transformations[1] == Transformation(1, Some(1), ToGlibScalar("len", false))
  {
    var x := ArrayAndLengthNoDetect();
    assert BackLinksPrefix(x.params, 1) == map[];
    assert BackLinks(x.params) == map[];
    assert ArrayNameAt(x, 0).None? && ArrayNameAt(x, 1).None?;
    var ls := Lowerings(x);
    assert ls[0] == LoweredAt(x, 0) && ls[1] == LoweredAt(x, 1);
    assert Analyze(x) == Assemble(ls, 2);
  }

  /** An async function `(callback, user_data)`. */
  function AsyncCallback(): Input
  {
    Input(SampleEnv(), [InParam("callback", Callback), InParam("user_data", OpaquePointer)],
          NoConfig(), false, true, false)
  }

  lemma AsyncNames()
    ensures !IsLength(InParam("callback", Callback))
    ensures !IsLength(InParam("user_data", OpaquePointer))
  {
    var cb := "callback";
    assert cb[5..8][2] != "len"[2];
    assert Find(cb, "length").None? by {
      MismatchAt(cb, "length", 0, 0);
      MismatchAt(cb, "length", 1, 0);
      MismatchAt(cb, "length", 2, 1);
    }
    var ud := "user_data";
    assert ud[6..9][2] != "len"[2];
    assert Find(ud, "length").None? by {
      MismatchAt(ud, "length", 0, 0);
      MismatchAt(ud, "length", 1, 0);
      MismatchAt(ud, "length", 2, 0);
      MismatchAt(ud, "length", 3, 0);
    }
  }

  lemma AsyncCallbackDecisions()
    ensures ArrayNameAt(AsyncCallback(), 0).None?
    ensures ArrayNameAt(AsyncCallback(), 1).None?
    ensures AsyncParamToRemove("user_data")
    ensures !AsyncParamToRemove("callback")
  {
    var x := AsyncCallback();
    AsyncNames();
    assert BackLinksPrefix(x.params, 1) == map[];
    assert BackLinks(x.params) == map[];
    assert "callback"[4..][0] != "data"[0];
  }

  lemma AsyncCallbackLowered()
    ensures LoweredAt(AsyncCallback(), 0).included
    ensures LoweredAt(AsyncCallback(), 0).lengthStep.None?
    ensures LoweredAt(AsyncCallback(), 0).cParameter.name == "callback"
    ensures LoweredAt(AsyncCallback(), 0).cParameter.typ == Callback
    ensures LoweredAt(AsyncCallback(), 0).primary == ToSome("callback")
    ensures !LoweredAt(AsyncCallback(), 1).included
    ensures LoweredAt(AsyncCallback(), 1).lengthStep.None?
    ensures LoweredAt(AsyncCallback(), 1).primary == IntoRaw("user_data")
  {
    AsyncCallbackDecisions();
  }

  /** The callback slot becomes `ToSome`, the user-data slot becomes
      `IntoRaw` and leaves the surface list. */
  lemma AsyncSlotsSubstituted()
    ensures var p := Analyze(AsyncCallback());
      && p.rustParameters == [RustParameter(0, "callback", Callback, false)]
      && p.transformations == [Transformation(0, Some(0), ToSome("callback")),
                               Transformation(1, None, IntoRaw("user_data"))]
  {
    AsyncCallbackLowered();
    var x := AsyncCallback();
    var ls := Lowerings(x);
    assert ls[0] == LoweredAt(x, 0) && ls[1] == LoweredAt(x, 1);
    assert Analyze(x) == Assemble(ls, 2);
  }

  /** A scalar declared with full transfer and caller allocation loses both
      flags. */
  lemma ScalarFlagsErased()
    ensures var x := Input(SampleEnv(), [InParam("n", Size).(transfer := Full, callerAllocates := true)],
                           NoConfig(), false, false, false);
      CParamAt(x, 0).transfer == NoTransfer && !CParamAt(x, 0).callerAllocates
  {
  }

  /** A nullable, non-final class parameter that is not the receiver gets a
      nullable pointer step with the ".as_ref()" suffix. */
  lemma NullableObjectSuffix()
    ensures var x := Input(SampleEnv(), [InParam("widget", Widget).(nullable := true)],
                           NoConfig(), false, false, false);
      && PrimaryTypeAt(x, 0).ToGlibPointer?
      && PrimaryTypeAt(x, 0).nullable
      && PrimaryTypeAt(x, 0).toGlibExtra == ".as_ref()"
  {
  }

  /** A first parameter that looks like a length: a debug build of the
      source stops on `pos - 1`, the model reports no array. */
  lemma FirstLengthUnderflows()
    ensures DetectLengthDebug(SampleEnv(), [InParam("len", Size)], 0).Underflow?
    ensures DetectLength(SampleEnv(), [InParam("len", Size)], 0).None?
  {
    NameHeuristic();
  }
}
