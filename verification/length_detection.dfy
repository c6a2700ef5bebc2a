/** Recognising length parameters: the back-link map built from the
    descriptors' own `array_length` links, and the naming heuristic that
    pairs a `...len` / `...length...` parameter with the array before it. */
module LengthDetection {
  import opened Wrappers
  import opened Library
  import opened Environment
  import opened Strings
  import opened Transformations

  /** The `Length` step linking `arrayName` to its length parameter. */
  function GetLengthType(env: Env, arrayName: string, lengthName: string, lengthTyp: TypeId): (r: TransformationType)
    ensures r.Length? && !r.IsToGlib()
    ensures r.arrayName == arrayName && r.arrayLengthName == lengthName
    ensures r.arrayLengthType == env.rustType(lengthTyp)
  {
    Length(arrayName, lengthName, env.rustType(lengthTyp))
  }

  /** The back-link map of the first `n` descriptors: length position =>
      array name, built left to right so that a later array naming the same
      length position replaces an earlier one. */
  function BackLinksPrefix(params: seq<Parameter>, n: nat): map<nat, string>
    requires n <= |params|
  {
    if n == 0 then map[]
    else
      var m := BackLinksPrefix(params, n - 1);
      var p := params[n - 1];
      if p.arrayLength.Some? then m[p.arrayLength.value := p.name] else m
  }

  /** `array_lengths`: length position => the name of the array that
      declares it, the last such array when there are several. */
  function BackLinks(params: seq<Parameter>): (m: map<nat, string>)
    ensures forall k :: k in m <==> LinkedWithin(params, |params|, k)
    ensures forall k: nat, i :: LastLink(params, |params|, k, i) ==> k in m && m[k] == params[i].name
  {
    BackLinksPrefixKeys(params, |params|);
    BackLinksPrefixLastWins(params, |params|);
    BackLinksPrefix(params, |params|)
  }

  /** One of the first `n` descriptors names position `k` as its length. */
  ghost predicate LinkedWithin(params: seq<Parameter>, n: nat, k: nat)
    requires n <= |params|
  {
    exists i :: 0 <= i < n && params[i].arrayLength == Some(k)
  }

  /** Descriptor `i` is the last of the first `n` to name position `k`. */
  ghost predicate LastLink(params: seq<Parameter>, n: nat, k: nat, i: int)
    requires n <= |params|
  {
    && 0 <= i < n
    && params[i].arrayLength == Some(k)
    && forall q :: i < q < n ==> params[q].arrayLength != Some(k)
  }

  /** A position has a back-link exactly when some descriptor names it. */
  lemma {:induction false} BackLinksPrefixKeys(params: seq<Parameter>, n: nat)
    requires n <= |params|
    ensures forall k :: k in BackLinksPrefix(params, n) <==> LinkedWithin(params, n, k)
  {
    if n > 0 {
      BackLinksPrefixKeys(params, n - 1);
      forall k
        ensures k in BackLinksPrefix(params, n) <==> LinkedWithin(params, n, k)
      {
        if LinkedWithin(params, n - 1, k) {
          var i :| 0 <= i < n - 1 && params[i].arrayLength == Some(k);
          assert 0 <= i < n && params[i].arrayLength == Some(k);
        }
        if params[n - 1].arrayLength == Some(k) {
          assert 0 <= n - 1 < n && params[n - 1].arrayLength == Some(k);
        }
        if LinkedWithin(params, n, k) && !LinkedWithin(params, n - 1, k) {
          var i :| 0 <= i < n && params[i].arrayLength == Some(k);
          assert i == n - 1;
        }
      }
    }
  }

  /** The back-link of a position names the last descriptor linking it. */
  lemma {:induction false} BackLinksPrefixLastWins(params: seq<Parameter>, n: nat)
    requires n <= |params|
    ensures forall k: nat, i :: LastLink(params, n, k, i) ==>
      k in BackLinksPrefix(params, n) && BackLinksPrefix(params, n)[k] == params[i].name
  {
    if n > 0 {
      BackLinksPrefixLastWins(params, n - 1);
      forall k: nat, i | LastLink(params, n, k, i)
        ensures k in BackLinksPrefix(params, n) && BackLinksPrefix(params, n)[k] == params[i].name
      {
        if i < n - 1 {
          assert LastLink(params, n - 1, k, i);
        }
      }
    }
  }

  /** `is_length`: an input parameter whose name ends in "len" or contains
      "length". */
  predicate IsLength(par: Parameter)
    ensures IsLength(par) <==>
      par.direction == In
      && (EndsWith(par.name, "len") || exists k :: OccursAt(par.name, "length", k))
  {
    if par.direction != In then false
    else
      var len := |par.name|;
      if len >= 3 && par.name[len - 3..len] == "len" then true
      else Find(par.name, "length").Some?
  }

  /** The shapes `has_length` accepts once aliases are resolved. */
  predicate LengthBearing(t: LibType)
  {
    match t
    case Fundamental(kind) => kind.Utf8? || kind.Filename? || kind.OsString?
    case CArray(_) => true
    case FixedArray(_, _) => true
    case Array(_) => true
    case PtrArray(_) => true
    case List(_) => true
    case SList(_) => true
    case HashTable(_, _) => true
    case Alias(_) => false
    case OtherType => false
  }

  /** `has_length`, following at most `fuel` alias links. */
  predicate HasLengthWithin(env: Env, t: TypeId, fuel: nat)
    decreases fuel
  {
    match TypeOf(env, t)
    case Fundamental(kind) =>
      (match kind
       case Utf8 => true
       case Filename => true
       case OsString => true
       case _ => false)
    case CArray(_) => true
    case FixedArray(_, _) => true
    case Array(_) => true
    case PtrArray(_) => true
    case List(_) => true
    case SList(_) => true
    case HashTable(_, _) => true
    case Alias(target) => if fuel == 0 then false else HasLengthWithin(env, target, fuel - 1)
    case _ => false
  }

  /** `has_length`. An acyclic alias chain has no more links than the type
      table has entries, so this bound cuts off only cyclic chains. */
  predicate HasLength(env: Env, t: TypeId)
    ensures HasLength(env, t) <==> LengthBearing(TypeOf(env, Follow(env, t, |env.types|)))
  {
    HasLengthResolvesAliases(env, t, |env.types|);
    HasLengthWithin(env, t, |env.types|)
  }

  /** The type reached from `t` after following up to `k` alias links. */
  function Follow(env: Env, t: TypeId, k: nat): TypeId
    decreases k
  {
    if k == 0 then t
    else match TypeOf(env, t)
      case Alias(target) => Follow(env, target, k - 1)
      case _ => t
  }

  /** `has_length` holds exactly when the type its alias chain resolves to
      is length-bearing. */
  lemma {:induction false} HasLengthResolvesAliases(env: Env, t: TypeId, fuel: nat)
    ensures HasLengthWithin(env, t, fuel) <==> LengthBearing(TypeOf(env, Follow(env, t, fuel)))
    decreases fuel
  {
    if fuel > 0 && TypeOf(env, t).Alias? {
      HasLengthResolvesAliases(env, TypeOf(env, t).target, fuel - 1);
    }
  }

  /** Once the alias chain has ended, more fuel changes nothing. */
  lemma {:induction false} HasLengthFuelStable(env: Env, t: TypeId, k: nat, fuel: nat)
    requires !TypeOf(env, Follow(env, t, k)).Alias?
    requires k <= fuel
    ensures HasLengthWithin(env, t, fuel) == HasLengthWithin(env, t, k)
    decreases k
  {
    if k > 0 && TypeOf(env, t).Alias? {
      HasLengthFuelStable(env, TypeOf(env, t).target, k - 1, fuel - 1);
    }
  }

  /** The first `k` types of the alias chain from `t` are aliases, and
      no type repeats among them. */
  ghost predicate AcyclicChain(env: Env, t: TypeId, k: nat)
  {
    && (forall j :: 0 <= j < k ==> TypeOf(env, Follow(env, t, j)).Alias?)
    && (forall j1, j2 :: 0 <= j1 < j2 < k ==> Follow(env, t, j1) != Follow(env, t, j2))
  }

  /** The first `k` types of the alias chain from `t`. */
  ghost function ChainSet(env: Env, t: TypeId, k: nat): set<TypeId>
  {
    set j | 0 <= j < k :: Follow(env, t, j)
  }

  /** The distinct aliases of a chain are entries of the type table. */
  lemma {:induction false} ChainTypes(env: Env, t: TypeId, k: nat)
    requires AcyclicChain(env, t, k)
    ensures |ChainSet(env, t, k)| == k && ChainSet(env, t, k) <= env.types.Keys
  {
    if k > 0 {
      assert AcyclicChain(env, t, k - 1);
      ChainTypes(env, t, k - 1);
      var x := Follow(env, t, k - 1);
      assert ChainSet(env, t, k) == ChainSet(env, t, k - 1) + {x};
      assert x !in ChainSet(env, t, k - 1);
      assert TypeOf(env, x).Alias?;
    }
  }

  /** An acyclic alias chain has at most as many links as the type table
      has entries. */
  lemma AcyclicChainFitsTable(env: Env, t: TypeId, k: nat)
    requires AcyclicChain(env, t, k)
    ensures k <= |env.types|
  {
    ChainTypes(env, t, k);
    SubsetCard(ChainSet(env, t, k), env.types.Keys);
    assert |env.types.Keys| == |env.types|;
  }

  lemma {:induction false} SubsetCard<T>(a: set<T>, b: set<T>)
    requires a <= b
    ensures |a| <= |b|
    decreases a
  {
    if a != {} {
      var e :| e in a;
      SubsetCard(a - {e}, b - {e});
    }
  }

  /** The bound in `HasLength` never cuts off an acyclic chain: when the
      chain ends after `k` distinct aliases, `has_length` is decided by the
      type it ends at. */
  lemma HasLengthAcyclic(env: Env, t: TypeId, k: nat)
    requires AcyclicChain(env, t, k)
    requires !TypeOf(env, Follow(env, t, k)).Alias?
    ensures HasLength(env, t) <==> LengthBearing(TypeOf(env, Follow(env, t, k)))
  {
    AcyclicChainFitsTable(env, t, k);
    HasLengthFuelStable(env, t, k, |env.types|);
    HasLengthResolvesAliases(env, t, k);
  }

  /** `detect_length` for the parameter at `pos`: the name of the preceding
      parameter when this one looks like a length and that one has a
      length-bearing type. At `pos == 0` there is no preceding parameter
      and the answer is "no array". */
  function DetectLength(env: Env, params: seq<Parameter>, pos: nat): (r: Option<string>)
    requires pos < |params|
    ensures r.Some? <==>
      IsLength(params[pos]) && pos > 0 && HasLength(env, params[pos - 1].typ)
    ensures r.Some? ==> r.value == params[pos - 1].name
  {
    if !IsLength(params[pos]) then None
    else if pos == 0 then None
    else if HasLength(env, params[pos - 1].typ) then Some(params[pos - 1].name)
    else None
  }

  /** The outcome of an operation that can stop on an unsigned underflow. */
  datatype Checked<T> = Value(value: T) | Underflow

  /** `detect_length` as written, with the `pos - 1` of an unsigned
      position checked as a debug build checks it. */
  function DetectLengthDebug(env: Env, params: seq<Parameter>, pos: nat): (r: Checked<Option<string>>)
    requires pos < |params|
    ensures r.Underflow? <==> IsLength(params[pos]) && pos == 0
    ensures r.Value? ==> r.value == DetectLength(env, params, pos)
  {
    if !IsLength(params[pos]) then Value(None)
    else if pos == 0 then Underflow
    else Value(if HasLength(env, params[pos - 1].typ) then Some(params[pos - 1].name) else None)
  }
}
