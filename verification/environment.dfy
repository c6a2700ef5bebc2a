/** The collaborators of the parameter analysis. Their internals are not
    part of this model: each is a fixed, deterministic function carried by
    the read-only environment `Env`. */
module Environment {
  import opened Wrappers
  import opened Library

  /** How a value crosses the native boundary (`ConversionType`). */
  datatype ConversionType = Direct | Scalar | Pointer | Borrow | Unknown

  /** How the generated code refers to a value (`RefMode`). */
  datatype RefMode = ByValue | ByRef | ByRefMut | ByRefImmut | ByRefConst | ByRefFake

  /** One matching `[[object.function.parameter]]` configuration entry. */
  datatype ConfiguredParameter = ConfiguredParameter(
    lengthOf: Option<string>,
    nullable: Option<bool>,
    constant: bool,
    stringType: Option<string>
  )

  datatype Env = Env(
    /** `env.library.type_`: the library's type table. */
    types: map<TypeId, LibType>,
    /** `env.type_(t).is_interface()`, `.is_class()`, `.is_final_type()`. */
    isInterface: TypeId -> bool,
    isClass: TypeId -> bool,
    isFinalType: TypeId -> bool,
    /** `ConversionType::of`. */
    conversionOf: TypeId -> ConversionType,
    /** `rust_type(..).into_string()`: the printable target-language type. */
    rustType: TypeId -> string,
    /** `nameutil::mangle_keywords`. */
    mangleKeywords: string -> string,
    /** `out_parameters::can_as_return`. */
    canAsReturn: Parameter -> bool,
    /** `override_string_type_parameter`. */
    overrideStringType: (TypeId, seq<ConfiguredParameter>) -> TypeId,
    /** `RefMode::without_unneeded_mut(env, par, immutable, self_in_trait)`. */
    refModeOf: (Parameter, bool, bool) -> RefMode
  )

  /** The library type behind `t`; an id absent from the table reads as a
      type of no particular shape. */
  function TypeOf(env: Env, t: TypeId): LibType
  {
    if t in env.types then env.types[t] else OtherType
  }

  function LengthOfs(cfg: seq<ConfiguredParameter>): seq<Option<string>>
  {
    seq(|cfg|, j requires 0 <= j < |cfg| => cfg[j].lengthOf)
  }

  function Nullables(cfg: seq<ConfiguredParameter>): seq<Option<bool>>
  {
    seq(|cfg|, j requires 0 <= j < |cfg| => cfg[j].nullable)
  }
}
