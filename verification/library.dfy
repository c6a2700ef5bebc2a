/** The language-neutral description of a native function parameter, as
    read from the interface description, and the type table it refers to. */
module Library {
  import opened Wrappers

  datatype TypeId = TypeId(nsId: nat, id: nat)

  datatype FundamentalKind = Utf8 | Filename | OsString | OtherFundamental

  /** The shapes of library type that the length heuristic distinguishes;
      every other shape is `OtherType`. */
  datatype LibType =
    | Fundamental(kind: FundamentalKind)
    | CArray(element: TypeId)
    | FixedArray(element: TypeId, size: Option<nat>)
    | Array(element: TypeId)
    | PtrArray(element: TypeId)
    | List(element: TypeId)
    | SList(element: TypeId)
    | HashTable(key: TypeId, value: TypeId)
    | Alias(target: TypeId)
    | OtherType

  datatype Direction = In | Out | InOut | Return

  datatype Transfer = NoTransfer | Container | Full

  datatype ParameterScope = Call | Forever | Notified

  /** One parameter of a native function (a `library::Parameter`).
      `arrayLength` is the position of the parameter holding this array's
      length; `closure` and `destroy` are the positions of a callback's
      user-data and destroy-notify parameters. */
  datatype Parameter = Parameter(
    name: string,
    typ: TypeId,
    cType: string,
    instanceParameter: bool,
    direction: Direction,
    transfer: Transfer,
    callerAllocates: bool,
    nullable: bool,
    allowNone: bool,
    arrayLength: Option<nat>,
    isError: bool,
    scope: ParameterScope,
    closure: Option<nat>,
    destroy: Option<nat>
  )
}
