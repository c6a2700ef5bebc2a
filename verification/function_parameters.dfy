/** The parameter-lowering pass: from one native function's parameter
    descriptors, build the surface parameter list, the native parameter
    list and the ordered conversion steps (`function_parameters::analyze`),
    then the step for the return value's array length
    (`Parameters::analyze_return`). */
module FunctionParameters {
  import opened Wrappers
  import opened Library
  import opened Environment
  import opened Strings
  import opened Transformations
  import opened LengthDetection

  /** The arguments of one `analyze` call. `config` is
      `configured_functions.matched_parameters`: the configuration entries
      that match a (mangled) parameter name. */
  datatype Input = Input(
    env: Env,
    params: seq<Parameter>,
    config: string -> seq<ConfiguredParameter>,
    disableLengthDetect: bool,
    asyncFunc: bool,
    inTrait: bool
  )

  /** `async_param_to_remove`: in an async function, the user-data slot is
      not a surface parameter. */
  predicate AsyncParamToRemove(name: string)
    ensures AsyncParamToRemove(name) <==> EndsWith(name, "data")
  {
    assert name == "user_data" ==> name[|name| - 4..] == "data";
    name == "user_data" || EndsWith(name, "data")
  }

  /** The working name: an instance parameter keeps its name, every other
      one is keyword-mangled. */
  function NameAt(x: Input, i: nat): string
    requires i < |x.params|
  {
    if x.params[i].instanceParameter then x.params[i].name
    else x.env.mangleKeywords(x.params[i].name)
  }

  function ConfiguredAt(x: Input, i: nat): seq<ConfiguredParameter>
    requires i < |x.params|
  {
    x.config(NameAt(x, i))
  }

  /** The working type, after a configured string-type override. */
  function TypeAt(x: Input, i: nat): TypeId
    requires i < |x.params|
  {
    x.env.overrideStringType(x.params[i].typ, ConfiguredAt(x, i))
  }

  /** Surface inclusion before length folding: by direction, then the async
      user-data exclusion. */
  predicate SurfaceByDirection(x: Input, i: nat)
    requires i < |x.params|
    ensures SurfaceByDirection(x, i) <==>
      && (|| x.params[i].direction == In
          || x.params[i].direction == InOut
          || (x.params[i].direction == Out && !x.env.canAsReturn(x.params[i]) && !x.asyncFunc))
      && !(x.asyncFunc && EndsWith(x.params[i].name, "data"))
  {
    var par := x.params[i];
    var byDirection :=
      match par.direction
      case In => true
      case InOut => true
      case Return => false
      case Out => !x.env.canAsReturn(par) && !x.asyncFunc;
    if x.asyncFunc && AsyncParamToRemove(par.name) then false else byDirection
  }

  /** The (unmangled) name of the array whose length parameter `i` is: the
      first configured `length_of`, else the back-link map, else, when
      detection is enabled, the naming heuristic. */
  function ArrayNameAt(x: Input, i: nat): (r: Option<string>)
    requires i < |x.params|
    ensures forall j :: IsFirstSome(LengthOfs(ConfiguredAt(x, i)), j) ==>
      r == ConfiguredAt(x, i)[j].lengthOf
    ensures (forall j :: 0 <= j < |ConfiguredAt(x, i)| ==> ConfiguredAt(x, i)[j].lengthOf.None?) ==>
      forall q :: LastLink(x.params, |x.params|, i, q) ==> r == Some(x.params[q].name)
    ensures ((forall j :: 0 <= j < |ConfiguredAt(x, i)| ==> ConfiguredAt(x, i)[j].lengthOf.None?)
      && !LinkedWithin(x.params, |x.params|, i)) ==>
      r == (if x.disableLengthDetect then None else DetectLength(x.env, x.params, i))
  {
    var configured := FirstSome(LengthOfs(ConfiguredAt(x, i)));
    if configured.Some? then configured
    else if i in BackLinks(x.params) then Some(BackLinks(x.params)[i])
    else if !x.disableLengthDetect then DetectLength(x.env, x.params, i)
    else None
  }

  /** Whether parameter `i` ends up on the surface list. */
  predicate IncludedAt(x: Input, i: nat)
    requires i < |x.params|
  {
    SurfaceByDirection(x, i) && ArrayNameAt(x, i).None?
  }

  /** `configured_parameters.iter().any(|p| p.constant)`. */
  predicate AnyConstant(configured: seq<ConfiguredParameter>)
  {
    exists j :: 0 <= j < |configured| && configured[j].constant
  }

  /** The first configured nullability, else the declared one. */
  function ResolveNullable(configured: seq<ConfiguredParameter>, declared: bool): (r: bool)
    ensures forall j :: IsFirstSome(Nullables(configured), j) ==> r == configured[j].nullable.value
    ensures (forall j :: 0 <= j < |configured| ==> configured[j].nullable.None?) ==> r == declared
  {
    var nullableOverride := FirstSome(Nullables(configured));
    if nullableOverride.Some? then nullableOverride.value else declared
  }

  /** The native parameter for descriptor `i`: value types shed transfer and
      caller-allocates, and a configured nullability wins. */
  function CParamAt(x: Input, i: nat): (r: CParameter)
    requires i < |x.params|
    ensures r.name == (if x.params[i].instanceParameter then x.params[i].name
                       else x.env.mangleKeywords(x.params[i].name))
    ensures r.typ == TypeAt(x, i)
    ensures x.env.conversionOf(TypeAt(x, i)) in {Direct, Scalar} ==>
      !r.callerAllocates && r.transfer == NoTransfer
    ensures x.env.conversionOf(TypeAt(x, i)) !in {Direct, Scalar} ==>
      r.callerAllocates == x.params[i].callerAllocates && r.transfer == x.params[i].transfer
    ensures forall j :: IsFirstSome(Nullables(ConfiguredAt(x, i)), j) ==>
      r.nullable == ConfiguredAt(x, i)[j].nullable.value
    ensures (forall j :: 0 <= j < |ConfiguredAt(x, i)| ==> ConfiguredAt(x, i)[j].nullable.None?) ==>
      r.nullable == x.params[i].nullable
    ensures r.cType == x.params[i].cType && r.direction == x.params[i].direction
    ensures r.instanceParameter == x.params[i].instanceParameter
    ensures r.isError == x.params[i].isError && r.scope == x.params[i].scope
    ensures r.userDataIndex == x.params[i].closure && r.destroyIndex == x.params[i].destroy
    ensures r.refMode == x.env.refModeOf(x.params[i], AnyConstant(ConfiguredAt(x, i)),
                                         x.inTrait && x.params[i].instanceParameter)
  {
    var par := x.params[i];
    var configured := ConfiguredAt(x, i);
    var typ := TypeAt(x, i);
    var conversion := x.env.conversionOf(typ);
    var valueType := conversion == Direct || conversion == Scalar;
    var callerAllocates := if valueType then false else par.callerAllocates;
    var transfer := if valueType then NoTransfer else par.transfer;
    var refMode := x.env.refModeOf(par, AnyConstant(configured), x.inTrait && par.instanceParameter);
    var nullable := ResolveNullable(configured, par.nullable);
    CParameter(
      NameAt(x, i), typ, par.cType, par.instanceParameter, par.direction, nullable,
      transfer, callerAllocates, par.isError, par.scope, par.closure, par.destroy, refMode)
  }

  /** The `Length` step of a parameter with a resolved array: the array
      name is mangled, the length name is the descriptor's own. */
  function LengthStepAt(x: Input, i: nat): (r: TransformationType)
    requires i < |x.params|
    requires ArrayNameAt(x, i).Some?
    ensures r.Length?
    ensures r.arrayName == x.env.mangleKeywords(ArrayNameAt(x, i).value)
    ensures r.arrayLengthName == x.params[i].name
    ensures r.arrayLengthType == x.env.rustType(TypeAt(x, i))
  {
    GetLengthType(x.env, x.env.mangleKeywords(ArrayNameAt(x, i).value), x.params[i].name, TypeAt(x, i))
  }

  /** The primary step chosen by conversion category. A nullable pointer
      to a non-receiver interface or class is marked nullable, and gets the
      ".as_ref()" suffix unless the type is final. The type tests look at
      the descriptor's type, not the overridden one. */
  function ToGlibType(x: Input, i: nat): (r: TransformationType)
    requires i < |x.params|
    ensures !r.Length?
    ensures r.ToGlibPointer? <==> x.env.conversionOf(TypeAt(x, i)) == Pointer
    ensures r.ToGlibPointer? ==>
      (r.nullable <==>
        !x.params[i].instanceParameter && CParamAt(x, i).nullable
        && (x.env.isInterface(x.params[i].typ) || x.env.isClass(x.params[i].typ)))
    ensures r.ToGlibPointer? ==>
      (r.toGlibExtra == ".as_ref()" <==> r.nullable && !x.env.isFinalType(x.params[i].typ))
    ensures r.ToGlibPointer? ==> r.toGlibExtra in {"", ".as_ref()"}
    ensures r.ToGlibPointer? ==>
      r.transfer == x.params[i].transfer && r.instanceParameter == x.params[i].instanceParameter
      && r.explicitTargetType == "" && r.pointerCast == "" && r.inTrait == x.inTrait
    ensures r.ToGlibScalar? ==> r.nullable == CParamAt(x, i).nullable
    ensures !r.ToGlibBorrow? ==> r.name == NameAt(x, i)
  {
    var par := x.params[i];
    var name := NameAt(x, i);
    var cPar := CParamAt(x, i);
    var nullable := cPar.nullable;
    var plain := par.instanceParameter || !nullable
      || (!x.env.isInterface(par.typ) && !x.env.isClass(par.typ));
    var transNullable := if plain then false else nullable;
    var toGlibExtra :=
      if plain then ""
      else if !x.env.isFinalType(par.typ) then ".as_ref()"
      else "";
    match x.env.conversionOf(TypeAt(x, i))
    case Direct => ToGlibDirect(name)
    case Scalar => ToGlibScalar(name, nullable)
    case Pointer =>
      ToGlibPointer(name, par.instanceParameter, cPar.transfer, cPar.refMode,
                    toGlibExtra, "", "", x.inTrait, transNullable)
    case Borrow => ToGlibBorrow
    case Unknown => ToGlibUnknown(name)
  }

  /** Each conversion category selects its own step kind, and a pointer
      step carries the native parameter's reference mode. */
  lemma ToGlibTypeByCategory(x: Input, i: nat)
    requires i < |x.params|
    ensures ToGlibType(x, i).ToGlibDirect? <==> x.env.conversionOf(TypeAt(x, i)) == Direct
    ensures ToGlibType(x, i).ToGlibScalar? <==> x.env.conversionOf(TypeAt(x, i)) == Scalar
    ensures ToGlibType(x, i).ToGlibPointer? <==> x.env.conversionOf(TypeAt(x, i)) == Pointer
    ensures ToGlibType(x, i).ToGlibBorrow? <==> x.env.conversionOf(TypeAt(x, i)) == Borrow
    ensures ToGlibType(x, i).ToGlibUnknown? <==> x.env.conversionOf(TypeAt(x, i)) == Unknown
    ensures ToGlibType(x, i).ToGlibPointer? ==> ToGlibType(x, i).refMode == CParamAt(x, i).refMode
  {
  }

  /** The late substitution of async functions: the callback slot is
      always supplied, the user-data slot smuggles the boxed completion. */
  function AsyncSubstitute(asyncFunc: bool, t: TransformationType): (r: TransformationType)
    ensures !asyncFunc ==> r == t
    ensures asyncFunc && (t.ToGlibDirect? || t.ToGlibUnknown?) && t.name == "callback" ==>
      r == ToSome(t.name)
    ensures asyncFunc && t.ToGlibPointer? && t.name == "user_data" ==> r == IntoRaw(t.name)
    ensures (!((t.ToGlibDirect? || t.ToGlibUnknown?) && t.name == "callback")
      && !(t.ToGlibPointer? && t.name == "user_data")) ==> r == t
    ensures r.Length? == t.Length?
  {
    match t
    case ToGlibDirect(name) => if asyncFunc && name == "callback" then ToSome(name) else t
    case ToGlibUnknown(name) => if asyncFunc && name == "callback" then ToSome(name) else t
    case ToGlibPointer(name, _, _, _, _, _, _, _, _) =>
      if asyncFunc && name == "user_data" then IntoRaw(name) else t
    case _ => t
  }

  function PrimaryTypeAt(x: Input, i: nat): TransformationType
    requires i < |x.params|
  {
    AsyncSubstitute(x.asyncFunc, ToGlibType(x, i))
  }

  /** What one iteration of the loop of `analyze` decides for descriptor
      `i`; only the list positions depend on the earlier iterations. */
  datatype Lowered = Lowered(
    cParameter: CParameter,
    included: bool,
    allowNone: bool,
    lengthStep: Option<TransformationType>,
    primary: TransformationType
  )

  /** The `Length` step comes only with a resolved array, which takes the
      parameter off the surface list; the primary step is a to-glib one. */
  ghost predicate ValidLowered(l: Lowered)
  {
    && !l.primary.Length?
    && (l.lengthStep.Some? ==> l.lengthStep.value.Length? && !l.included)
  }

  function LoweredAt(x: Input, i: nat): (r: Lowered)
    requires i < |x.params|
    ensures ValidLowered(r)
    ensures r.cParameter == CParamAt(x, i)
    ensures r.included == IncludedAt(x, i)
    ensures r.lengthStep.Some? <==> ArrayNameAt(x, i).Some?
    ensures r.lengthStep.Some? ==> r.lengthStep.value == LengthStepAt(x, i)
    ensures r.primary == PrimaryTypeAt(x, i)
  {
    var arrayName := ArrayNameAt(x, i);
    Lowered(
      CParamAt(x, i),
      IncludedAt(x, i),
      x.params[i].allowNone,
      if arrayName.Some? then Some(LengthStepAt(x, i)) else None,
      PrimaryTypeAt(x, i))
  }

  function Lowerings(x: Input): (r: seq<Lowered>)
    ensures |r| == |x.params|
    ensures forall i :: 0 <= i < |x.params| ==> r[i] == LoweredAt(x, i)
  {
    seq(|x.params|, i requires 0 <= i < |x.params| => LoweredAt(x, i))
  }

  /** Appends the lists' entries for one descriptor: the native parameter,
      the surface parameter if it is included, the `Length` step if an
      array was resolved, then the primary step. */
  function PushParameter(acc: Parameters, l: Lowered): (r: Parameters)
    ensures |r.cParameters| == |acc.cParameters| + 1
    ensures |r.rustParameters| == |acc.rustParameters| + (if l.included then 1 else 0)
    ensures |acc.transformations| < |r.transformations| <= |acc.transformations| + 2
  {
    var indC := |acc.cParameters|;
    var indRust := if l.included then Some(|acc.rustParameters|) else None;
    var rustParameters :=
      if l.included
      then acc.rustParameters + [RustParameter(indC, l.cParameter.name, l.cParameter.typ, l.allowNone)]
      else acc.rustParameters;
    var lengthSteps :=
      if l.lengthStep.Some? then [Transformation(indC, None, l.lengthStep.value)] else [];
    Parameters(
      rustParameters,
      acc.cParameters + [l.cParameter],
      acc.transformations + lengthSteps + [Transformation(indC, indRust, l.primary)])
  }

  /** The state of the loop of `analyze` after the first `n` descriptors. */
  function Assemble(ls: seq<Lowered>, n: nat): (r: Parameters)
    requires n <= |ls|
    ensures |r.cParameters| == n && |r.rustParameters| <= n
    ensures n <= |r.transformations| <= 2 * n
  {
    if n == 0 then Parameters([], [], [])
    else PushParameter(Assemble(ls, n - 1), ls[n - 1])
  }

  /** `analyze`. */
  function Analyze(x: Input): (r: Parameters)
    ensures |r.cParameters| == |x.params| && |r.rustParameters| <= |x.params|
    ensures |x.params| <= |r.transformations| <= 2 * |x.params|
  {
    Assemble(Lowerings(x), |x.params|)
  }

  /** `Parameters::analyze_return`: when the return value names a native
      parameter as its array length, append one `Length` step for it. */
  function AnalyzeReturn(env: Env, p: Parameters, ret: Option<Parameter>): (r: Parameters)
    ensures r.rustParameters == p.rustParameters && r.cParameters == p.cParameters
    ensures (ret.None? || ret.value.arrayLength.None? || ret.value.arrayLength.value >= |p.cParameters|)
      ==> r == p
    ensures (ret.Some? && ret.value.arrayLength.Some? && ret.value.arrayLength.value < |p.cParameters|) ==>
      var indC := ret.value.arrayLength.value;
      && |r.transformations| == |p.transformations| + 1
      && r.transformations[..|p.transformations|] == p.transformations
      && r.transformations[|p.transformations|]
         == Transformation(indC, None,
              Length("", p.cParameters[indC].name, env.rustType(p.cParameters[indC].typ)))
    ensures WellIndexed(p) ==> WellIndexed(r)
  {
    if ret.None? || ret.value.arrayLength.None? then p
    else
      var indC := ret.value.arrayLength.value;
      if indC >= |p.cParameters| then p
      else
        var par := p.cParameters[indC];
        p.(transformations := p.transformations
             + [Transformation(indC, None, GetLengthType(env, "", par.name, par.typ))])
  }
}
