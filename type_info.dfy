/**
 * The type-information tree of the DSLX type checker and the arena that owns
 * its nodes.
 *
 * A TypeInfo records, for the AST nodes of one module, their deduced concrete
 * types and constant values. A TypeInfo created for a parametric
 * instantiation has a parent; a lookup it cannot answer locally is delegated
 * to that parent and so on up to the module's root. Module-wide facts
 * (imports, invocation bindings, slice bounds, implicit-token flags and
 * top-level proc TypeInfos) are kept on the root only. The TypeInfoOwner
 * arena owns every TypeInfo and registers exactly one root per module.
 */
module TypeInfoTree {
  import opened Wrappers
  import opened Dslx

  /** What an import node resolved to: the imported module and its root TypeInfo. */
  datatype ImportedInfo = ImportedInfo(importedModule: ModuleId, typeInfo: TypeInfo)

  /** The concrete (start, width) of a bit slice. */
  datatype StartAndWidth = StartAndWidth(start: int64, width: int64)

  /** The start/width of one slice node, per parametric environment of its enclosing function. */
  datatype SliceData = SliceData(node: NodeId, bindingsToStartWidth: map<ParametricEnv, StartAndWidth>)

  /** What an invocation resolved to for one caller environment. */
  datatype InvocationCalleeData = InvocationCalleeData(calleeBindings: ParametricEnv, derivedTypeInfo: TypeInfo)

  /** The instantiations of one invocation node; `caller` is None at module top level. */
  datatype InvocationData =
    InvocationData(node: NodeId, caller: Option<NodeId>, envToCalleeData: map<ParametricEnv, InvocationCalleeData>)

  /** A const-expr fact: no entry, an entry without a value (known non-constant), or a value. */
  datatype ConstExprFact = Unknown | KnownNonConst | KnownConst(value: InterpValue)

  /** The callee data recorded for `invocation` under the caller environment `env`, if any. */
  function CalleeDataFor(invocations: map<NodeId, InvocationData>, invocation: NodeId, env: ParametricEnv)
    : Option<InvocationCalleeData>
  {
    if invocation in invocations && env in invocations[invocation].envToCalleeData
    then Some(invocations[invocation].envToCalleeData[env])
    else None
  }

  /**
   * The invocation table after recording `calleeData` for the pair
   * (`invocation`, `callerEnv`): the entry is created on first use and
   * updated in place afterwards.
   */
  function RecordInvocation(invocations: map<NodeId, InvocationData>, invocation: NodeId, caller: Option<NodeId>,
                            callerEnv: ParametricEnv, calleeData: InvocationCalleeData): (r: map<NodeId, InvocationData>)
    requires invocation in invocations ==> invocations[invocation].caller == caller
    ensures r.Keys == invocations.Keys + {invocation}
    ensures r[invocation].caller == caller
    ensures CalleeDataFor(r, invocation, callerEnv) == Some(calleeData)
    ensures forall i, e | i != invocation || e != callerEnv :: CalleeDataFor(r, i, e) == CalleeDataFor(invocations, i, e)
    ensures forall i | i in invocations && i != invocation :: r[i] == invocations[i]
  {
    if invocation in invocations then
      var data := invocations[invocation];
      invocations[invocation := data.(envToCalleeData := data.envToCalleeData[callerEnv := calleeData])]
    else
      invocations[invocation := InvocationData(invocation, caller, map[callerEnv := calleeData])]
  }

  /** Recording the same (invocation, caller environment) pair twice is the same as recording it once. */
  lemma RecordInvocationIdempotent(invocations: map<NodeId, InvocationData>, invocation: NodeId, caller: Option<NodeId>,
                                   callerEnv: ParametricEnv, calleeData: InvocationCalleeData)
    requires invocation in invocations ==> invocations[invocation].caller == caller
    ensures var once := RecordInvocation(invocations, invocation, caller, callerEnv, calleeData);
            RecordInvocation(once, invocation, caller, callerEnv, calleeData) == once
  {
    var once := RecordInvocation(invocations, invocation, caller, callerEnv, calleeData);
    var data := once[invocation];
    assert data.envToCalleeData[callerEnv := calleeData] == data.envToCalleeData;
  }

  /** The slice table after noting `startWidth` for `node` under `env`. */
  function RecordSlice(slices: map<NodeId, SliceData>, node: NodeId, env: ParametricEnv, startWidth: StartAndWidth)
    : (r: map<NodeId, SliceData>)
    ensures r.Keys == slices.Keys + {node}
    ensures env in r[node].bindingsToStartWidth && r[node].bindingsToStartWidth[env] == startWidth
    ensures forall e | e != env ::
              (e in r[node].bindingsToStartWidth <==> node in slices && e in slices[node].bindingsToStartWidth)
    ensures forall e | e != env && node in slices && e in slices[node].bindingsToStartWidth ::
              r[node].bindingsToStartWidth[e] == slices[node].bindingsToStartWidth[e]
    ensures forall n | n in slices && n != node :: r[n] == slices[n]
  {
    var previous := if node in slices then slices[node].bindingsToStartWidth else map[];
    slices[node := SliceData(node, previous[env := startWidth])]
  }

  class TypeInfo {
    /** The module whose AST nodes this TypeInfo describes. */
    const moduleId: ModuleId
    /** The TypeInfo lookups are delegated to; null on a module's root. Not owned. */
    const parent: TypeInfo?
    /** Distance to the root; a parent is strictly shallower, so parent links never form a cycle. */
    ghost const depth: nat

    /** AST node to deduced type (on every TypeInfo). */
    var dict: map<NodeId, ConcreteType>
    /** AST node to constant value; an entry holding None marks a known non-constant. */
    var constExprs: map<NodeId, Option<InterpValue>>

    // The following are only written on the root; see Root().
    var imports: map<NodeId, ImportedInfo>
    var invocations: map<NodeId, InvocationData>
    var slices: map<NodeId, SliceData>
    var requiresImplicitToken: map<NodeId, bool>
    var topLevelProcTypeInfo: map<NodeId, TypeInfo>

    /** The parent chain above this TypeInfo is finite. */
    ghost predicate WellFounded()
      decreases depth
    {
      parent != null ==> parent.depth < depth && parent.WellFounded()
    }

    /** This TypeInfo and all its ancestors. */
    ghost function Chain(): set<TypeInfo>
      requires WellFounded()
      decreases depth
    {
      {this} + if parent == null then {} else parent.Chain()
    }

    /** No fact of any kind is recorded here. */
    ghost predicate IsEmpty()
      reads this
    {
      && dict == map[] && constExprs == map[] && imports == map[] && invocations == map[]
      && slices == map[] && requiresImplicitToken == map[] && topLevelProcTypeInfo == map[]
    }

    /**
     * The module-wide tables hold entries only on a root: a derived TypeInfo
     * never records imports, invocations, slices, implicit-token flags or
     * top-level proc TypeInfos.
     */
    ghost predicate RootTablesOnlyOnRoot()
      reads this
    {
      parent != null ==>
        && imports == map[] && invocations == map[] && slices == map[]
        && requiresImplicitToken == map[] && topLevelProcTypeInfo == map[]
    }

    constructor (moduleId: ModuleId, parent: TypeInfo?)
      requires parent != null ==> parent.WellFounded()
      ensures this.moduleId == moduleId && this.parent == parent
      ensures WellFounded() && IsEmpty() && RootTablesOnlyOnRoot()
    {
      this.moduleId := moduleId;
      this.parent := parent;
      this.depth := if parent == null then 0 else parent.depth + 1;
      dict, constExprs, imports, invocations := map[], map[], map[], map[];
      slices, requiresImplicitToken, topLevelProcTypeInfo := map[], map[], map[];
    }

    // ---- Root navigation

    /** The parent-most TypeInfo of the chain: the one ancestor without a parent. */
    function Root(): (r: TypeInfo)
      requires WellFounded()
      decreases depth
      ensures r.parent == null && r.WellFounded() && r in Chain()
    {
      if parent == null then this else parent.Root()
    }

    /** Follows the parent links up to the root. */
    method GetRoot() returns (t: TypeInfo)
      requires WellFounded()
      ensures t == Root()
    {
      t := this;
      while t.parent != null
        invariant t.WellFounded() && t.Root() == Root()
        decreases t.depth
      {
        t := t.parent;
      }
    }

    /** Whether this is the module's root rather than a derived TypeInfo. */
    function IsRoot(): (r: bool)
      requires WellFounded()
      ensures r <==> parent == null
    {
      IsRootIffNoParent(this);
      this == Root()
    }

    // ---- Node-to-type map

    /** The type of `key`: the local entry, else the nearest ancestor's. */
    function GetItem(key: NodeId): (r: Option<ConcreteType>)
      requires WellFounded()
      reads Chain()
      decreases depth
      ensures key in dict ==> r == Some(dict[key])
      ensures key !in dict ==> r == if parent != null then parent.GetItem(key) else None
      ensures r.None? <==> forall t :: t in Chain() ==> key !in t.dict
      ensures r.Some? ==> exists t :: t in Chain() && key in t.dict && t.dict[key] == r.value
    {
      if key in dict then Some(dict[key])
      else if parent != null then parent.GetItem(key)
      else None
    }

    /** As GetItem, with NotFound when no TypeInfo of the chain has a type for `key`. */
    function GetItemOrError(key: NodeId): (r: Result<ConcreteType, Status>)
      requires WellFounded()
      reads Chain()
      ensures r.Failure? <==> forall t :: t in Chain() ==> key !in t.dict
      ensures r.Failure? ==> r.error == NotFound
      ensures r.Success? ==> GetItem(key) == Some(r.value)
    {
      match GetItem(key)
      case Some(t) => Success(t)
      case None => Failure(NotFound)
    }

    /** Whether some TypeInfo of the chain has a type for `key`. */
    function Contains(key: NodeId): (r: bool)
      requires WellFounded()
      reads Chain()
      ensures r <==> exists t :: t in Chain() && key in t.dict
    {
      GetItem(key).Some?
    }

    /**
     * The type of `key` checked against the variant `kind`: NotFound when no
     * type is recorded, FailedPrecondition when the recorded type is another
     * variant, the type itself otherwise.
     */
    function GetItemAs(key: NodeId, kind: TypeKind): (r: Result<ConcreteType, Status>)
      requires WellFounded()
      reads Chain()
      ensures r == Failure(NotFound) <==> GetItem(key).None?
      ensures r == Failure(FailedPrecondition) <==> GetItem(key).Some? && GetItem(key).value.Kind() != kind
      ensures r.Success? <==> GetItem(key).Some? && GetItem(key).value.Kind() == kind
      ensures r.Success? ==> GetItem(key) == Some(r.value) && r.value.Kind() == kind
    {
      match GetItem(key)
      case None => Failure(NotFound)
      case Some(t) => if t.Kind() == kind then Success(t) else Failure(FailedPrecondition)
    }

    /**
     * Records the type of `key`, which must belong to this TypeInfo's module.
     * The entry is local: it shadows, and does not change, any ancestor's entry.
     */
    method SetItem(key: NodeId, value: ConcreteType)
      requires WellFounded()
      requires key.owner == moduleId
      modifies this`dict
      ensures old(RootTablesOnlyOnRoot()) ==> RootTablesOnlyOnRoot()
      ensures dict == old(dict)[key := value]
      ensures GetItem(key) == Some(value)
      ensures forall k | k != key :: GetItem(k) == old(GetItem(k))
      ensures parent != null ==> forall k :: parent.GetItem(k) == old(parent.GetItem(k))
    {
      NotOwnAncestor(this);
      dict := dict[key := value];
    }

    // ---- Const-expr facts

    /** The const-expr fact for `node`: the local entry decides; only a missing entry falls through to the parent. */
    function ConstExprFactOf(node: NodeId): (f: ConstExprFact)
      requires WellFounded()
      reads Chain()
      decreases depth
      ensures node in constExprs ==>
                f == if constExprs[node].Some? then KnownConst(constExprs[node].value) else KnownNonConst
      ensures node !in constExprs ==> f == if parent != null then parent.ConstExprFactOf(node) else Unknown
      ensures f == Unknown <==> forall t :: t in Chain() ==> node !in t.constExprs
      ensures f.KnownConst? ==> exists t :: t in Chain() && node in t.constExprs && t.constExprs[node] == Some(f.value)
      ensures f.KnownNonConst? ==> exists t :: t in Chain() && node in t.constExprs && t.constExprs[node].None?
    {
      if node in constExprs then
        match constExprs[node]
        case Some(v) => KnownConst(v)
        case None => KnownNonConst
      else if parent != null then parent.ConstExprFactOf(node)
      else Unknown
    }

    /** Whether a value is known for `node`. */
    function IsKnownConstExpr(node: NodeId): (r: bool)
      requires WellFounded()
      reads Chain()
      ensures r <==> ConstExprFactOf(node).KnownConst?
      ensures r ==> exists t :: t in Chain() && node in t.constExprs && t.constExprs[node].Some?
    {
      ConstExprFactOf(node).KnownConst?
    }

    /** Whether `node` is known not to be constant; such a node is never also known constant. */
    function IsKnownNonConstExpr(node: NodeId): (r: bool)
      requires WellFounded()
      reads Chain()
      ensures r <==> ConstExprFactOf(node).KnownNonConst?
      ensures r ==> !IsKnownConstExpr(node)
      ensures r ==> exists t :: t in Chain() && node in t.constExprs && t.constExprs[node].None?
      ensures node in constExprs ==> (r <==> constExprs[node].None?)
    {
      ConstExprFactOf(node).KnownNonConst?
    }

    /** The value of `node`, or NotFound when none is known (absent or known non-constant). */
    function GetConstExpr(node: NodeId): (r: Result<InterpValue, Status>)
      requires WellFounded()
      reads Chain()
      ensures r.Success? <==> IsKnownConstExpr(node)
      ensures r.Success? ==> ConstExprFactOf(node) == KnownConst(r.value)
      ensures r.Failure? ==> r.error == NotFound
      ensures r.Success? ==> exists t :: t in Chain() && node in t.constExprs && t.constExprs[node] == Some(r.value)
    {
      match ConstExprFactOf(node)
      case KnownConst(v) => Success(v)
      case _ => Failure(NotFound)
    }

    /** As GetConstExpr, with None in place of the error. */
    function GetConstExprOption(node: NodeId): (r: Option<InterpValue>)
      requires WellFounded()
      reads Chain()
      ensures r.Some? <==> GetConstExpr(node).Success?
      ensures r.Some? ==> GetConstExpr(node) == Success(r.value)
    {
      match GetConstExpr(node)
      case Success(v) => Some(v)
      case Failure(_) => None
    }

    /**
     * Notes the value of a constant expression on this TypeInfo itself, not
     * on the root: the ancestors' facts are unchanged.
     */
    method NoteConstExpr(node: NodeId, value: InterpValue)
      requires WellFounded()
      modifies this`constExprs
      ensures old(RootTablesOnlyOnRoot()) ==> RootTablesOnlyOnRoot()
      ensures constExprs == old(constExprs)[node := Some(value)]
      ensures GetConstExpr(node) == Success(value)
      ensures forall n | n != node :: ConstExprFactOf(n) == old(ConstExprFactOf(n))
      ensures parent != null ==> forall n :: parent.ConstExprFactOf(n) == old(parent.ConstExprFactOf(n))
    {
      NotOwnAncestor(this);
      constExprs := constExprs[node := Some(value)];
    }

    // ---- Root-only tables: read and written through Root()

    /** The invocation table; only the root may be asked for it. */
    function Invocations(): (r: map<NodeId, InvocationData>)
      requires WellFounded() && IsRoot()
      reads this
      ensures r == Root().invocations
    {
      invocations
    }

    /** The invocation table of this tree, held on its root. */
    function GetRootInvocations(): (r: map<NodeId, InvocationData>)
      requires WellFounded()
      reads Chain()
      ensures r == Root().Invocations()
    {
      Root().Invocations()
    }

    /**
     * Records that, under caller environment `callerEnv`, `invocation`
     * instantiates its callee with `calleeEnv` and `derivedTypeInfo`. An
     * invocation is always recorded with the same enclosing function.
     */
    method AddInvocationTypeInfo(invocation: NodeId, caller: Option<NodeId>, callerEnv: ParametricEnv,
                                 calleeEnv: ParametricEnv, derivedTypeInfo: TypeInfo)
      requires WellFounded()
      requires invocation in Root().invocations ==> Root().invocations[invocation].caller == caller
      modifies Root()`invocations
      ensures old(RootTablesOnlyOnRoot()) ==> RootTablesOnlyOnRoot()
      ensures Root().invocations == RecordInvocation(old(Root().invocations), invocation, caller, callerEnv,
                                                     InvocationCalleeData(calleeEnv, derivedTypeInfo))
      ensures GetInvocationTypeInfo(invocation, callerEnv) == Some(derivedTypeInfo)
      ensures GetInvocationCalleeBindings(invocation, callerEnv) == Some(calleeEnv)
      ensures forall i, e | i != invocation || e != callerEnv ::
                GetInvocationTypeInfo(i, e) == old(GetInvocationTypeInfo(i, e))
    {
      var top := GetRoot();
      assert top.invocations == old(Root().invocations);
      top.invocations := RecordInvocation(top.invocations, invocation, caller, callerEnv,
                                          InvocationCalleeData(calleeEnv, derivedTypeInfo));
    }

    /** The TypeInfo derived for `invocation` under caller environment `callerEnv`, if recorded. */
    function GetInvocationTypeInfo(invocation: NodeId, callerEnv: ParametricEnv): (r: Option<TypeInfo>)
      requires WellFounded()
      reads Chain()
      ensures r.Some? <==> CalleeDataFor(Root().invocations, invocation, callerEnv).Some?
      ensures r.Some? ==> r.value == CalleeDataFor(Root().invocations, invocation, callerEnv).value.derivedTypeInfo
    {
      match CalleeDataFor(Root().invocations, invocation, callerEnv)
      case Some(data) => Some(data.derivedTypeInfo)
      case None => None
    }

    /** As GetInvocationTypeInfo, with NotFound when nothing is recorded. */
    function GetInvocationTypeInfoOrError(invocation: NodeId, callerEnv: ParametricEnv): (r: Result<TypeInfo, Status>)
      requires WellFounded()
      reads Chain()
      ensures r.Failure? <==> GetInvocationTypeInfo(invocation, callerEnv).None?
      ensures r.Failure? ==> r.error == NotFound
      ensures r.Success? ==> GetInvocationTypeInfo(invocation, callerEnv) == Some(r.value)
    {
      match GetInvocationTypeInfo(invocation, callerEnv)
      case Some(t) => Success(t)
      case None => Failure(NotFound)
    }

    /**
     * The callee's parametric environment for `invocation` under `callerEnv`;
     * present exactly when a derived TypeInfo is, so absent for callees that
     * were never recorded (the non-parametric ones).
     */
    function GetInvocationCalleeBindings(invocation: NodeId, callerEnv: ParametricEnv): (r: Option<ParametricEnv>)
      requires WellFounded()
      reads Chain()
      ensures r.Some? <==> GetInvocationTypeInfo(invocation, callerEnv).Some?
      ensures r.Some? ==> CalleeDataFor(Root().invocations, invocation, callerEnv).value.calleeBindings == r.value
    {
      match CalleeDataFor(Root().invocations, invocation, callerEnv)
      case Some(data) => Some(data.calleeBindings)
      case None => None
    }

    /** Notes the start and width of `node` under `env`, on the root. */
    method AddSliceStartAndWidth(node: NodeId, env: ParametricEnv, startWidth: StartAndWidth)
      requires WellFounded()
      modifies Root()`slices
      ensures old(RootTablesOnlyOnRoot()) ==> RootTablesOnlyOnRoot()
      ensures Root().slices == RecordSlice(old(Root().slices), node, env, startWidth)
      ensures GetSliceStartAndWidth(node, env) == Some(startWidth)
      ensures forall n, e | n != node || e != env ::
                GetSliceStartAndWidth(n, e) == old(GetSliceStartAndWidth(n, e))
    {
      var top := GetRoot();
      assert top.slices == old(Root().slices);
      top.slices := RecordSlice(top.slices, node, env, startWidth);
    }

    /** The start and width of `node` under `env`, if noted anywhere in this tree. */
    function GetSliceStartAndWidth(node: NodeId, env: ParametricEnv): (r: Option<StartAndWidth>)
      requires WellFounded()
      reads Chain()
      ensures r.Some? <==> node in Root().slices && env in Root().slices[node].bindingsToStartWidth
      ensures r.Some? ==> Root().slices[node].bindingsToStartWidth[env] == r.value
    {
      var top := Root();
      if node in top.slices && env in top.slices[node].bindingsToStartWidth
      then Some(top.slices[node].bindingsToStartWidth[env])
      else None
    }

    /** Records what the import node `importNode` resolved to, on the root. */
    method AddImport(importNode: NodeId, importedModule: ModuleId, typeInfo: TypeInfo)
      requires WellFounded()
      modifies Root()`imports
      ensures old(RootTablesOnlyOnRoot()) ==> RootTablesOnlyOnRoot()
      ensures Root().imports == old(Root().imports)[importNode := ImportedInfo(importedModule, typeInfo)]
      ensures GetImported(importNode) == Some(ImportedInfo(importedModule, typeInfo))
      ensures forall i | i != importNode :: GetImported(i) == old(GetImported(i))
    {
      var top := GetRoot();
      assert top.imports == old(Root().imports);
      top.imports := top.imports[importNode := ImportedInfo(importedModule, typeInfo)];
    }

    /** What `importNode` resolved to, if recorded. */
    function GetImported(importNode: NodeId): (r: Option<ImportedInfo>)
      requires WellFounded()
      reads Chain()
      ensures r.Some? <==> importNode in Root().imports
      ensures r.Some? ==> Root().imports[importNode] == r.value
    {
      var top := Root();
      if importNode in top.imports then Some(top.imports[importNode]) else None
    }

    /** As GetImported, with NotFound when nothing is recorded. */
    function GetImportedOrError(importNode: NodeId): (r: Result<ImportedInfo, Status>)
      requires WellFounded()
      reads Chain()
      ensures r.Failure? <==> importNode !in Root().imports
      ensures r.Failure? ==> r.error == NotFound
      ensures r.Success? ==> GetImported(importNode) == Some(r.value)
    {
      match GetImported(importNode)
      case Some(info) => Success(info)
      case None => Failure(NotFound)
    }

    /**
     * The TypeInfo for module `m`: the root when `m` is this tree's module,
     * otherwise the TypeInfo of an import of `m`, otherwise None.
     */
    method GetImportedTypeInfo(m: ModuleId) returns (r: Option<TypeInfo>)
      requires WellFounded()
      ensures m == Root().moduleId ==> r == Some(Root())
      ensures m != Root().moduleId ==>
                (r.None? <==> forall i :: i in Root().imports ==> Root().imports[i].importedModule != m)
      ensures m != Root().moduleId && r.Some? ==>
                exists i :: i in Root().imports && Root().imports[i] == ImportedInfo(m, r.value)
    {
      var top := GetRoot();
      if m == top.moduleId {
        return Some(top);
      }
      var remaining := top.imports.Keys;
      while remaining != {}
        invariant remaining <= top.imports.Keys
        invariant forall i :: i in top.imports && i !in remaining ==> top.imports[i].importedModule != m
        decreases remaining
      {
        var i :| i in remaining;
        if top.imports[i].importedModule == m {
          return Some(top.imports[i].typeInfo);
        }
        remaining := remaining - {i};
      }
      return None;
    }

    /** Notes whether function `f` needs an implicit token parameter, on the root. */
    method NoteRequiresImplicitToken(f: NodeId, isRequired: bool)
      requires WellFounded()
      modifies Root()`requiresImplicitToken
      ensures old(RootTablesOnlyOnRoot()) ==> RootTablesOnlyOnRoot()
      ensures Root().requiresImplicitToken == old(Root().requiresImplicitToken)[f := isRequired]
      ensures GetRequiresImplicitToken(f) == Some(isRequired)
      ensures forall g | g != f :: GetRequiresImplicitToken(g) == old(GetRequiresImplicitToken(g))
    {
      var top := GetRoot();
      assert top.requiresImplicitToken == old(Root().requiresImplicitToken);
      top.requiresImplicitToken := top.requiresImplicitToken[f := isRequired];
    }

    /** Whether function `f` needs an implicit token, if determined. */
    function GetRequiresImplicitToken(f: NodeId): (r: Option<bool>)
      requires WellFounded()
      reads Chain()
      ensures r.Some? <==> f in Root().requiresImplicitToken
      ensures r.Some? ==> Root().requiresImplicitToken[f] == r.value
    {
      var top := Root();
      if f in top.requiresImplicitToken then Some(top.requiresImplicitToken[f]) else None
    }

    /** Records the top-level TypeInfo of proc `p`; only a root accepts it. */
    method SetTopLevelProcTypeInfo(p: NodeId, ti: TypeInfo) returns (error: Option<Status>)
      requires WellFounded()
      modifies this`topLevelProcTypeInfo
      ensures old(RootTablesOnlyOnRoot()) ==> RootTablesOnlyOnRoot()
      ensures error.None? <==> IsRoot()
      ensures error.Some? ==> error.value == NotRoot && topLevelProcTypeInfo == old(topLevelProcTypeInfo)
      ensures error.None? ==> topLevelProcTypeInfo == old(topLevelProcTypeInfo)[p := ti]
      ensures error.None? ==> GetTopLevelProcTypeInfo(p) == Success(ti)
    {
      if parent != null {
        return Some(NotRoot);
      }
      topLevelProcTypeInfo := topLevelProcTypeInfo[p := ti];
      return None;
    }

    /** The top-level TypeInfo of proc `p`, or NotFound; it can only succeed on a root. */
    function GetTopLevelProcTypeInfo(p: NodeId): (r: Result<TypeInfo, Status>)
      reads this
      ensures RootTablesOnlyOnRoot() && parent != null ==> r == Failure(NotFound)
      ensures r.Success? <==> p in topLevelProcTypeInfo
      ensures r.Success? ==> r.value == topLevelProcTypeInfo[p]
      ensures r.Failure? ==> r.error == NotFound
    {
      if p in topLevelProcTypeInfo then Success(topLevelProcTypeInfo[p]) else Failure(NotFound)
    }
  }

  // ---- Facts about the parent chain

  /** Every ancestor is well founded and no deeper than `t`. */
  lemma {:induction false} ChainDepth(t: TypeInfo)
    requires t.WellFounded()
    ensures forall a :: a in t.Chain() ==> a.WellFounded() && a.depth <= t.depth
    decreases t.depth
  {
    if t.parent != null {
      ChainDepth(t.parent);
    }
  }

  /** A TypeInfo is not among its parent's ancestors, so writing it leaves every ancestor's lookups unchanged. */
  lemma NotOwnAncestor(t: TypeInfo)
    requires t.WellFounded()
    ensures t.parent != null ==> t !in t.parent.Chain()
  {
    if t.parent != null {
      ChainDepth(t.parent);
    }
  }

  /** IsRoot (this is its own root) holds exactly when there is no parent. */
  lemma IsRootIffNoParent(t: TypeInfo)
    requires t.WellFounded()
    ensures t == t.Root() <==> t.parent == null
  {
  }

  /** The root is the only ancestor without a parent. */
  lemma {:induction false} RootIsOnlyParentlessAncestor(t: TypeInfo, a: TypeInfo)
    requires t.WellFounded()
    requires a in t.Chain() && a.parent == null
    ensures a == t.Root()
    decreases t.depth
  {
    if t.parent != null && a != t {
      RootIsOnlyParentlessAncestor(t.parent, a);
    }
  }

  /**
   * Every ancestor has the same root, hence sees the same module-wide facts
   * (invocations, slices, imports, implicit-token flags).
   */
  lemma {:induction false} AncestorsShareRoot(t: TypeInfo, a: TypeInfo)
    requires t.WellFounded()
    requires a in t.Chain()
    ensures a.WellFounded() && a.Root() == t.Root()
    decreases t.depth
  {
    if a != t {
      AncestorsShareRoot(t.parent, a);
    }
  }

  /**
   * The arena of all TypeInfos of a compilation: it owns every TypeInfo it
   * creates, never removes one, and keeps exactly one root per module.
   */
  class TypeInfoOwner {
    /** Module to its root TypeInfo. */
    var moduleToRoot: map<ModuleId, TypeInfo>
    /** Every TypeInfo created so far, in creation order. */
    var typeInfos: seq<TypeInfo>

    /**
     * Every TypeInfo has a finite parent chain whose members are all in the
     * arena; the registered roots are the parentless TypeInfos of the arena,
     * one per module.
     */
    ghost predicate Valid()
      reads this
    {
      && (forall m | m in moduleToRoot ::
            moduleToRoot[m] in typeInfos && moduleToRoot[m].parent == null && moduleToRoot[m].moduleId == m)
      && (forall i | 0 <= i < |typeInfos| :: typeInfos[i].WellFounded())
      && (forall i | 0 <= i < |typeInfos| && typeInfos[i].parent != null :: typeInfos[i].parent in typeInfos)
      && (forall i | 0 <= i < |typeInfos| && typeInfos[i].parent == null ::
            typeInfos[i].moduleId in moduleToRoot && moduleToRoot[typeInfos[i].moduleId] == typeInfos[i])
    }

    constructor ()
      ensures Valid() && typeInfos == [] && moduleToRoot == map[]
    {
      moduleToRoot := map[];
      typeInfos := [];
    }

    /**
     * Creates a TypeInfo for `moduleId` under `parent` (an arena member).
     * Fails iff a root is requested for a module that already has one; a
     * root becomes the module's registered root, a derived TypeInfo leaves
     * the registry unchanged.
     */
    method New(moduleId: ModuleId, parent: TypeInfo?) returns (r: Result<TypeInfo, Status>)
      requires Valid()
      requires parent != null ==> parent in typeInfos
      modifies this
      ensures Valid()
      ensures r.Failure? <==> parent == null && moduleId in old(moduleToRoot)
      ensures r.Failure? ==> r.error == DuplicateRoot && typeInfos == old(typeInfos) && moduleToRoot == old(moduleToRoot)
      ensures r.Success? ==>
                && fresh(r.value) && r.value.moduleId == moduleId && r.value.parent == parent
                && r.value.WellFounded() && r.value.IsEmpty() && r.value.RootTablesOnlyOnRoot()
                && typeInfos == old(typeInfos) + [r.value]
                && moduleToRoot == if parent == null then old(moduleToRoot)[moduleId := r.value] else old(moduleToRoot)
    {
      if parent == null && moduleId in moduleToRoot {
        return Failure(DuplicateRoot);
      }
      var t := new TypeInfo(moduleId, parent);
      typeInfos := typeInfos + [t];
      if parent == null {
        moduleToRoot := moduleToRoot[moduleId := t];
      }
      return Success(t);
    }

    /**
     * The root TypeInfo of `moduleId`: the one parentless TypeInfo of the
     * arena for that module, or NotFound when the module has none.
     */
    function GetRootTypeInfo(moduleId: ModuleId): (r: Result<TypeInfo, Status>)
      requires Valid()
      reads this
      ensures r.Success? <==>
                exists i :: 0 <= i < |typeInfos| && typeInfos[i].parent == null && typeInfos[i].moduleId == moduleId
      ensures r.Failure? ==> r.error == NotFound
      ensures r.Success? ==> r.value in typeInfos && r.value.parent == null && r.value.moduleId == moduleId
      ensures r.Success? ==>
                forall i | 0 <= i < |typeInfos| && typeInfos[i].parent == null && typeInfos[i].moduleId == moduleId ::
                  typeInfos[i] == r.value
    {
      if moduleId in moduleToRoot then Success(moduleToRoot[moduleId]) else Failure(NotFound)
    }
  }
}
