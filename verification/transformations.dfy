/** The records the parameter analysis builds: the surface (Rust-side)
    parameters, the native (C-side) parameters, and the per-parameter
    conversion steps that link them. */
module Transformations {
  import opened Wrappers
  import opened Library
  import opened Environment

  /** What callers of the generated binding see. `indC` is the position of
      the native parameter it was derived from. */
  datatype RustParameter = RustParameter(
    indC: nat,
    name: string,
    typ: TypeId,
    allowNone: bool
  )

  /** What the foreign call needs. */
  datatype CParameter = CParameter(
    name: string,
    typ: TypeId,
    cType: string,
    instanceParameter: bool,
    direction: Direction,
    nullable: bool,
    transfer: Transfer,
    callerAllocates: bool,
    isError: bool,
    scope: ParameterScope,
    userDataIndex: Option<nat>,
    destroyIndex: Option<nat>,
    refMode: RefMode
  )

  /** One conversion step. Every variant except `Length` converts a surface
      value into its native counterpart; `Length` links an array to the
      parameter that carries its element count. */
  datatype TransformationType =
    | ToGlibDirect(name: string)
    | ToGlibScalar(name: string, nullable: bool)
    | ToGlibPointer(
        name: string,
        instanceParameter: bool,
        transfer: Transfer,
        refMode: RefMode,
        toGlibExtra: string,
        explicitTargetType: string,
        pointerCast: string,
        inTrait: bool,
        nullable: bool)
    | ToGlibBorrow
    | ToGlibUnknown(name: string)
    | Length(arrayName: string, arrayLengthName: string, arrayLengthType: string)
    | IntoRaw(name: string)
    | ToSome(name: string)
  {
    /** `is_to_glib`: every variant but `Length` is a to-glib conversion. */
    predicate IsToGlib()
      ensures IsToGlib() <==> !Length?
    {
      match this
      case ToGlibDirect(_) => true
      case ToGlibScalar(_, _) => true
      case ToGlibPointer(_, _, _, _, _, _, _, _, _) => true
      case ToGlibBorrow => true
      case ToGlibUnknown(_) => true
      case ToSome(_) => true
      case IntoRaw(_) => true
      case _ => false
    }

    /** Replaces the extra conversion suffix of a pointer conversion; every
        other variant is returned as it is. */
    function SetToGlibExtra(extra: string): (r: TransformationType)
      ensures r.ToGlibPointer? <==> this.ToGlibPointer?
      ensures r.ToGlibPointer? ==> r.toGlibExtra == extra
      ensures r.ToGlibPointer? ==> r.(toGlibExtra := this.toGlibExtra) == this
      ensures !this.ToGlibPointer? ==> r == this
    {
      match this
      case ToGlibPointer(name, inst, transfer, refMode, _, target, cast, inTrait, nullable) =>
        ToGlibPointer(name, inst, transfer, refMode, extra, target, cast, inTrait, nullable)
      case _ => this
    }
  }

  /** A step applied to native parameter `indC`; `indRust` is the surface
      parameter it was derived from, if it has one. */
  datatype Transformation = Transformation(
    indC: nat,
    indRust: Option<nat>,
    transformationType: TransformationType
  )

  datatype Parameters = Parameters(
    rustParameters: seq<RustParameter>,
    cParameters: seq<CParameter>,
    transformations: seq<Transformation>
  )

  /** Every stored index points into the list it names, and a surface
      parameter and the native parameter it points at agree on the name. */
  ghost predicate WellIndexed(p: Parameters)
  {
    && (forall j :: 0 <= j < |p.rustParameters| ==>
          p.rustParameters[j].indC < |p.cParameters|
          && p.cParameters[p.rustParameters[j].indC].name == p.rustParameters[j].name)
    && (forall k :: 0 <= k < |p.transformations| ==>
          p.transformations[k].indC < |p.cParameters|)
    && (forall k :: 0 <= k < |p.transformations| && p.transformations[k].indRust.Some? ==>
          p.transformations[k].indRust.value < |p.rustParameters|
          && p.rustParameters[p.transformations[k].indRust.value].indC == p.transformations[k].indC)
  }

  /** Setting the suffix twice keeps the second; every variant keeps its
      kind. */
  lemma SetToGlibExtraLastWins(t: TransformationType, first: string, second: string)
    ensures t.SetToGlibExtra(first).SetToGlibExtra(second) == t.SetToGlibExtra(second)
    ensures t.SetToGlibExtra(first).IsToGlib() == t.IsToGlib()
  {
  }
}
