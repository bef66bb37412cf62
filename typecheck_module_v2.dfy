/**
 * The first phase of the v2 type checker: one in-order walk over a module's
 * AST that fills an inference table with, per node, a type variable and/or a
 * type annotation, and collects the "auto" annotations it synthesizes for
 * unannotated number literals. The second phase, resolution of the table into
 * a TypeInfo tree, is a parameter of TypecheckModuleV2.
 *
 * The walk is specified by the functions Visit and VisitChildren; the
 * visitor's methods are proved to compute exactly what they define, and the
 * lemmas relate them to the state-free reference definitions
 * FirstLiteralError, AutoLiterals and ConstantDefCount. Every table write
 * may be rejected by the table; a rejection ends the walk like a literal
 * that cannot be sized.
 */
module TypecheckV2 {
  import opened Wrappers
  import opened Dslx
  import TypeInfoTree

  // ---- The AST, as far as the walk distinguishes it

  datatype NumberKind = BoolKind | CharacterKind | OtherKind

  /**
   * An AST node. ConstantDef, NameRef, ConstRef and Number have handlers of
   * their own; every other node kind is an OtherNode, whose children the
   * default handler visits.
   */
  datatype AstNode =
    | ConstantDef(id: NodeId, nameDef: AstNode, typeAnnotation: Option<AstNode>, value: AstNode)
    | NameRef(id: NodeId, def: NodeId)
    | ConstRef(id: NodeId, def: NodeId)
    | Number(id: NodeId, kind: NumberKind, text: string, typeAnnotation: Option<AstNode>)
    | OtherNode(id: NodeId, children: seq<AstNode>)

  /** The children the default handler visits, in order (type annotations included). */
  function Children(n: AstNode): seq<AstNode>
    requires n.ConstantDef? || n.OtherNode?
  {
    match n
    case ConstantDef(_, nameDef, annotation, value) =>
      [nameDef] + (if annotation.Some? then [annotation.value] else []) + [value]
    case OtherNode(_, children) => children
  }

  /** The number of nodes in a tree; the walk's termination measure. */
  function Size(n: AstNode): nat
  {
    match n
    case ConstantDef(_, nameDef, annotation, value) =>
      1 + Size(nameDef) + (if annotation.Some? then Size(annotation.value) else 0) + Size(value)
    case OtherNode(_, children) => 1 + SizeOfAll(children)
    case _ => 1
  }

  function SizeOfAll(ns: seq<AstNode>): nat
  {
    if ns == [] then 0 else Size(ns[0]) + SizeOfAll(ns[1..])
  }

  lemma {:induction false} ElementSizeBounded(ns: seq<AstNode>, i: nat)
    requires i < |ns|
    ensures Size(ns[i]) <= SizeOfAll(ns)
    decreases i
  {
    if i > 0 {
      ElementSizeBounded(ns[1..], i - 1);
      assert ns[1..][i - 1] == ns[i];
    }
  }

  /** Every child is a strictly smaller tree. */
  lemma ChildSmaller(n: AstNode, i: nat)
    requires n.ConstantDef? || n.OtherNode?
    requires i < |Children(n)|
    ensures Size(Children(n)[i]) < Size(n)
  {
    if n.OtherNode? {
      ElementSizeBounded(n.children, i);
    } else {
      var cs := Children(n);
      assert cs[i] == n.nameDef || (n.typeAnnotation.Some? && cs[i] == n.typeAnnotation.value) || cs[i] == n.value;
    }
  }

  // ---- The inference table and the state of the walk

  /** An internal inference variable, numbered in order of definition. */
  datatype TypeVariable = TypeVariable(index: nat)

  datatype TypeAnnotation =
    | Written(node: NodeId)                                 // a type annotation in the program text
    | TypeVariableTypeAnnotation(variable: TypeVariable)    // "the type of this variable"
    | Generated(node: NodeId)                               // an annotation made by a collaborator

  /** The contents of an inference table: two maps and the variable counter. */
  datatype TableState =
    TableState(typeVariables: map<NodeId, TypeVariable>, annotations: map<NodeId, TypeAnnotation>, nextVariable: nat)

  /** The table and the visitor's set of auto (negotiable) literal annotations. */
  datatype PassState = PassState(table: TableState, autoLiteralAnnotations: set<TypeAnnotation>)

  /** The outcome of visiting a node: the first error, if any, and the state the walk left. */
  datatype Walk = Walk(error: Option<Status>, state: PassState)

  /**
   * CreateAnnotationSizedToFit: the new annotation node (a bits type just wide
   * enough for the literal) it creates, or an error.
   */
  type SizedToFit = AstNode -> Result<NodeId, Status>

  /** InferenceTableToTypeInfo: resolution of a filled table into the module's root TypeInfo. */
  type Resolver = (TableState, AstNode, set<TypeAnnotation>) -> Result<TypeInfoTree.TypeInfo, Status>

  /** One write the pass makes to the inference table. */
  datatype TableWrite =
    | DefineVariable(definer: NodeId)
    | BindVariable(node: NodeId, variable: TypeVariable)
    | BindAnnotation(node: NodeId, annotation: TypeAnnotation)

  /**
   * The inference table's own checks: the error, if any, with which a table
   * in the given state rejects a write.
   */
  type TableCheck = (TableState, TableWrite) -> Option<Status>

  /** The table accepts every write. */
  ghost predicate AcceptsAll(check: TableCheck)
  {
    forall t, w :: check(t, w).None?
  }

  function InitialState(): PassState
  {
    PassState(TableState(map[], map[], 0), {})
  }

  /** Every variable the table mentions was handed out before the counter's current value. */
  predicate VariablesBelowCounter(t: TableState)
  {
    && (forall k | k in t.typeVariables :: t.typeVariables[k].index < t.nextVariable)
    && (forall k | k in t.annotations && t.annotations[k].TypeVariableTypeAnnotation? ::
          t.annotations[k].variable.index < t.nextVariable)
  }

  // ---- What each handler does to the table when every write is accepted

  /**
   * HandleConstantDef before it visits the children: one fresh variable,
   * shared by the definition, its name and its value; the written type, if
   * any, becomes the name's annotation.
   */
  function RegisterConstantDef(t: TableState, n: AstNode): (r: TableState)
    requires n.ConstantDef?
    ensures r.nextVariable == t.nextVariable + 1
    ensures r.typeVariables.Keys == t.typeVariables.Keys + {n.id, n.nameDef.id, n.value.id}
    ensures var v := TypeVariable(t.nextVariable);
            r.typeVariables[n.id] == v && r.typeVariables[n.nameDef.id] == v && r.typeVariables[n.value.id] == v
    ensures forall k | k in t.typeVariables && k != n.id && k != n.nameDef.id && k != n.value.id ::
              r.typeVariables[k] == t.typeVariables[k]
    ensures VariablesBelowCounter(t) ==>
              TypeVariable(t.nextVariable) !in t.typeVariables.Values && VariablesBelowCounter(r)
    ensures n.typeAnnotation.Some? ==> r.annotations == t.annotations[n.nameDef.id := Written(n.typeAnnotation.value.id)]
    ensures n.typeAnnotation.None? ==> r.annotations == t.annotations
  {
    var v := TypeVariable(t.nextVariable);
    var annotations :=
      if n.typeAnnotation.Some? then t.annotations[n.nameDef.id := Written(n.typeAnnotation.value.id)]
      else t.annotations;
    TableState(t.typeVariables[n.id := v][n.nameDef.id := v][n.value.id := v], annotations, t.nextVariable + 1)
  }

  /**
   * PropagateDefToRef: the reference gets an annotation naming the
   * definition's variable, else a copy of the definition's annotation, else
   * nothing; it never gets a variable of its own.
   */
  function PropagatedToRef(t: TableState, ref: NodeId, def: NodeId): (r: TableState)
    ensures r.typeVariables == t.typeVariables && r.nextVariable == t.nextVariable
    ensures def in t.typeVariables ==>
              r.annotations == t.annotations[ref := TypeVariableTypeAnnotation(t.typeVariables[def])]
    ensures def !in t.typeVariables && def in t.annotations ==> r.annotations == t.annotations[ref := t.annotations[def]]
    ensures def !in t.typeVariables && def !in t.annotations ==> r == t
    ensures VariablesBelowCounter(t) ==> VariablesBelowCounter(r)
  {
    if def in t.typeVariables then
      t.(annotations := t.annotations[ref := TypeVariableTypeAnnotation(t.typeVariables[def])])
    else if def in t.annotations then
      t.(annotations := t.annotations[ref := t.annotations[def]])
    else
      t
  }


  /** The table after it accepted `w`. */
  function Applied(t: TableState, w: TableWrite): TableState
  {
    match w
    case DefineVariable(_) => t.(nextVariable := t.nextVariable + 1)
    case BindVariable(node, v) => t.(typeVariables := t.typeVariables[node := v])
    case BindAnnotation(node, a) => t.(annotations := t.annotations[node := a])
  }

  /**
   * One table write after `w`: skipped when the walk has already failed,
   * otherwise checked by the table, and either rejected (the walk stops with
   * the state as it is) or applied.
   */
  function Step(w: Walk, write: TableWrite, check: TableCheck): Walk
  {
    if w.error.Some? then w
    else match check(w.state.table, write)
      case Some(e) => Walk(Some(e), w.state)
      case None => Walk(None, w.state.(table := Applied(w.state.table, write)))
  }

  /**
   * HandleConstantDef's table writes, each of which may fail: define the
   * variable, bind it to the definition, its name and its value, then record
   * the written type. When all are accepted the table is
   * RegisterConstantDef's; a rejection keeps the writes made before it.
   */
  function ConstantDefWrites(s: PassState, n: AstNode, check: TableCheck): (w: Walk)
    requires n.ConstantDef?
    ensures w.state.autoLiteralAnnotations == s.autoLiteralAnnotations
    ensures w.error.None? ==> w.state.table == RegisterConstantDef(s.table, n)
    ensures check(s.table, DefineVariable(n.id)).Some? ==> w == Walk(check(s.table, DefineVariable(n.id)), s)
    ensures AcceptsAll(check) ==> w.error.None?
    ensures s.table.nextVariable <= w.state.table.nextVariable
    ensures VariablesBelowCounter(s.table) ==> VariablesBelowCounter(w.state.table)
  {
    var v := TypeVariable(s.table.nextVariable);
    var defined := Step(Walk(None, s), DefineVariable(n.id), check);
    var bound := Step(Step(Step(defined, BindVariable(n.id, v), check), BindVariable(n.nameDef.id, v), check),
                      BindVariable(n.value.id, v), check);
    if n.typeAnnotation.Some? then Step(bound, BindAnnotation(n.nameDef.id, Written(n.typeAnnotation.value.id)), check)
    else bound
  }

  /**
   * PropagateDefToRef's single table write, if any: it may fail only when the
   * definition has a variable or an annotation to carry over.
   */
  function RefWrites(s: PassState, ref: NodeId, def: NodeId, check: TableCheck): (w: Walk)
    ensures w.error.None? ==> w.state == s.(table := PropagatedToRef(s.table, ref, def))
    ensures w.error.Some? ==> w.state == s && (def in s.table.typeVariables || def in s.table.annotations)
    ensures def in s.table.typeVariables ==>
              w.error == check(s.table, BindAnnotation(ref, TypeVariableTypeAnnotation(s.table.typeVariables[def])))
    ensures def !in s.table.typeVariables && def in s.table.annotations ==>
              w.error == check(s.table, BindAnnotation(ref, s.table.annotations[def]))
    ensures VariablesBelowCounter(s.table) ==> VariablesBelowCounter(w.state.table)
  {
    var t := s.table;
    if def in t.typeVariables then
      Step(Walk(None, s), BindAnnotation(ref, TypeVariableTypeAnnotation(t.typeVariables[def])), check)
    else if def in t.annotations then
      Step(Walk(None, s), BindAnnotation(ref, t.annotations[def]), check)
    else
      Walk(None, s)
  }

  /**
   * HandleNumber: a written annotation is kept and is not auto; otherwise the
   * sized-to-fit annotation joins the auto set unless the literal is a
   * boolean, before the table is asked to record it.
   */
  function AnnotateNumber(s: PassState, n: AstNode, fit: SizedToFit, check: TableCheck): (w: Walk)
    requires n.Number?
    ensures w.state.table.typeVariables == s.table.typeVariables
    ensures w.state.table.nextVariable == s.table.nextVariable
    ensures n.typeAnnotation.Some? ==>
              var a := Written(n.typeAnnotation.value.id);
              && w.error == check(s.table, BindAnnotation(n.id, a))
              && w.state.autoLiteralAnnotations == s.autoLiteralAnnotations
              && w.state.table.annotations == if w.error.None? then s.table.annotations[n.id := a] else s.table.annotations
    ensures n.typeAnnotation.None? && fit(n).Failure? ==> w == Walk(Some(fit(n).error), s)
    ensures n.typeAnnotation.None? && fit(n).Success? ==>
              var a := Generated(fit(n).value);
              && w.error == check(s.table, BindAnnotation(n.id, a))
              && w.state.autoLiteralAnnotations == s.autoLiteralAnnotations + (if n.kind != BoolKind then {a} else {})
              && w.state.table.annotations == if w.error.None? then s.table.annotations[n.id := a] else s.table.annotations
  {
    if n.typeAnnotation.Some? then
      Step(Walk(None, s), BindAnnotation(n.id, Written(n.typeAnnotation.value.id)), check)
    else
      match fit(n)
      case Failure(e) => Walk(Some(e), s)
      case Success(node) =>
        var annotation := Generated(node);
        var autos := if n.kind != BoolKind then s.autoLiteralAnnotations + {annotation} else s.autoLiteralAnnotations;
        Step(Walk(None, s.(autoLiteralAnnotations := autos)), BindAnnotation(n.id, annotation), check)
  }

  // ---- The walk

  /** The walk of the tree rooted at `n`, dispatched on the node kind. */
  function Visit(s: PassState, n: AstNode, fit: SizedToFit, check: TableCheck): Walk
    decreases Size(n), 1, 0
  {
    match n
    case ConstantDef(_, _, _, _) =>
      var w := ConstantDefWrites(s, n, check);
      if w.error.Some? then w else VisitChildren(w.state, n, 0, fit, check)
    case NameRef(id, def) => RefWrites(s, id, def, check)
    case ConstRef(id, def) => RefWrites(s, id, def, check)
    case Number(_, _, _, _) => AnnotateNumber(s, n, fit, check)
    case OtherNode(_, _) => VisitChildren(s, n, 0, fit, check)
  }

  /** The default handler from child `i` on: children in order, stopping at the first error. */
  function VisitChildren(s: PassState, n: AstNode, i: nat, fit: SizedToFit, check: TableCheck): Walk
    requires n.ConstantDef? || n.OtherNode?
    requires i <= |Children(n)|
    decreases Size(n), 0, |Children(n)| - i
  {
    if i == |Children(n)| then Walk(None, s)
    else
      ChildSmaller(n, i);
      var w := Visit(s, Children(n)[i], fit, check);
      if w.error.Some? then w else VisitChildren(w.state, n, i + 1, fit, check)
  }

  // ---- Reference definitions, free of the table

  /** The error of the first unannotated literal, in walk order, whose sized-to-fit annotation fails. */
  function FirstLiteralError(n: AstNode, fit: SizedToFit): Option<Status>
    decreases Size(n), 1, 0
  {
    match n
    case Number(_, _, _, annotation) =>
      if annotation.None? && fit(n).Failure? then Some(fit(n).error) else None
    case NameRef(_, _) => None
    case ConstRef(_, _) => None
    case ConstantDef(_, _, _, _) => FirstLiteralErrorFrom(n, 0, fit)
    case OtherNode(_, _) => FirstLiteralErrorFrom(n, 0, fit)
  }

  function FirstLiteralErrorFrom(n: AstNode, i: nat, fit: SizedToFit): Option<Status>
    requires n.ConstantDef? || n.OtherNode?
    requires i <= |Children(n)|
    decreases Size(n), 0, |Children(n)| - i
  {
    if i == |Children(n)| then None
    else
      ChildSmaller(n, i);
      var e := FirstLiteralError(Children(n)[i], fit);
      if e.Some? then e else FirstLiteralErrorFrom(n, i + 1, fit)
  }

  /** The sized-to-fit annotations of the unannotated, non-boolean literals the walk reaches. */
  function AutoLiterals(n: AstNode, fit: SizedToFit): set<TypeAnnotation>
    decreases Size(n), 1, 0
  {
    match n
    case Number(_, kind, _, annotation) =>
      if annotation.None? && kind != BoolKind && fit(n).Success? then {Generated(fit(n).value)} else {}
    case NameRef(_, _) => {}
    case ConstRef(_, _) => {}
    case ConstantDef(_, _, _, _) => AutoLiteralsFrom(n, 0, fit)
    case OtherNode(_, _) => AutoLiteralsFrom(n, 0, fit)
  }

  function AutoLiteralsFrom(n: AstNode, i: nat, fit: SizedToFit): set<TypeAnnotation>
    requires n.ConstantDef? || n.OtherNode?
    requires i <= |Children(n)|
    decreases Size(n), 0, |Children(n)| - i
  {
    if i == |Children(n)| then {}
    else
      ChildSmaller(n, i);
      AutoLiterals(Children(n)[i], fit) + AutoLiteralsFrom(n, i + 1, fit)
  }

  /** The number of constant definitions in the tree. */
  function ConstantDefCount(n: AstNode): nat
    decreases Size(n), 1, 0
  {
    match n
    case ConstantDef(_, _, _, _) => 1 + ConstantDefCountFrom(n, 0)
    case OtherNode(_, _) => ConstantDefCountFrom(n, 0)
    case _ => 0
  }

  function ConstantDefCountFrom(n: AstNode, i: nat): nat
    requires n.ConstantDef? || n.OtherNode?
    requires i <= |Children(n)|
    decreases Size(n), 0, |Children(n)| - i
  {
    if i == |Children(n)| then 0
    else
      ChildSmaller(n, i);
      ConstantDefCount(Children(n)[i]) + ConstantDefCountFrom(n, i + 1)
  }


  // ---- Properties of the walk

  /**
   * The walk never gets past a literal it cannot size: it then fails, with
   * that literal's error unless an earlier table write failed first. When the
   * table accepts every write, the first literal error is the only error.
   */
  lemma {:induction false} VisitReportsFirstLiteralError(s: PassState, n: AstNode, fit: SizedToFit, check: TableCheck)
    ensures FirstLiteralError(n, fit).Some? ==> Visit(s, n, fit, check).error.Some?
    ensures AcceptsAll(check) ==> Visit(s, n, fit, check).error == FirstLiteralError(n, fit)
    decreases Size(n), 1, 0
  {
    match n
    case ConstantDef(_, _, _, _) =>
      var w := ConstantDefWrites(s, n, check);
      if w.error.None? {
        VisitChildrenReportsFirstLiteralError(w.state, n, 0, fit, check);
      }
    case OtherNode(_, _) =>
      VisitChildrenReportsFirstLiteralError(s, n, 0, fit, check);
    case _ =>
  }

  lemma {:induction false} VisitChildrenReportsFirstLiteralError(s: PassState, n: AstNode, i: nat, fit: SizedToFit,
                                                                 check: TableCheck)
    requires n.ConstantDef? || n.OtherNode?
    requires i <= |Children(n)|
    ensures FirstLiteralErrorFrom(n, i, fit).Some? ==> VisitChildren(s, n, i, fit, check).error.Some?
    ensures AcceptsAll(check) ==> VisitChildren(s, n, i, fit, check).error == FirstLiteralErrorFrom(n, i, fit)
    decreases Size(n), 0, |Children(n)| - i
  {
    if i < |Children(n)| {
      ChildSmaller(n, i);
      var w := Visit(s, Children(n)[i], fit, check);
      VisitReportsFirstLiteralError(s, Children(n)[i], fit, check);
      if w.error.None? {
        VisitChildrenReportsFirstLiteralError(w.state, n, i + 1, fit, check);
      }
    }
  }

  /**
   * The walk only adds to the auto set, only annotations of AutoLiterals, and
   * when it succeeds it adds all of them.
   */
  lemma {:induction false} VisitCollectsAutoLiterals(s: PassState, n: AstNode, fit: SizedToFit, check: TableCheck)
    ensures var autos := Visit(s, n, fit, check).state.autoLiteralAnnotations;
            s.autoLiteralAnnotations <= autos <= s.autoLiteralAnnotations + AutoLiterals(n, fit)
    ensures Visit(s, n, fit, check).error.None? ==>
              Visit(s, n, fit, check).state.autoLiteralAnnotations == s.autoLiteralAnnotations + AutoLiterals(n, fit)
    decreases Size(n), 1, 0
  {
    match n
    case ConstantDef(_, _, _, _) =>
      var w := ConstantDefWrites(s, n, check);
      if w.error.None? {
        VisitChildrenCollectsAutoLiterals(w.state, n, 0, fit, check);
      }
    case OtherNode(_, _) =>
      VisitChildrenCollectsAutoLiterals(s, n, 0, fit, check);
    case _ =>
  }

  lemma {:induction false} VisitChildrenCollectsAutoLiterals(s: PassState, n: AstNode, i: nat, fit: SizedToFit,
                                                             check: TableCheck)
    requires n.ConstantDef? || n.OtherNode?
    requires i <= |Children(n)|
    ensures var autos := VisitChildren(s, n, i, fit, check).state.autoLiteralAnnotations;
            s.autoLiteralAnnotations <= autos <= s.autoLiteralAnnotations + AutoLiteralsFrom(n, i, fit)
    ensures VisitChildren(s, n, i, fit, check).error.None? ==>
              VisitChildren(s, n, i, fit, check).state.autoLiteralAnnotations
                == s.autoLiteralAnnotations + AutoLiteralsFrom(n, i, fit)
    decreases Size(n), 0, |Children(n)| - i
  {
    if i < |Children(n)| {
      ChildSmaller(n, i);
      var w := Visit(s, Children(n)[i], fit, check);
      VisitCollectsAutoLiterals(s, Children(n)[i], fit, check);
      if w.error.None? {
        VisitChildrenCollectsAutoLiterals(w.state, n, i + 1, fit, check);
      }
    }
  }

  /**
   * The walk never lowers the counter and never mentions a variable it has
   * not handed out; when it succeeds it has defined exactly one variable per
   * constant definition.
   */
  lemma {:induction false} VisitDefinesOneVariablePerConstantDef(s: PassState, n: AstNode, fit: SizedToFit,
                                                                 check: TableCheck)
    ensures var t := Visit(s, n, fit, check).state.table;
            && s.table.nextVariable <= t.nextVariable
            && (VariablesBelowCounter(s.table) ==> VariablesBelowCounter(t))
    ensures Visit(s, n, fit, check).error.None? ==>
              Visit(s, n, fit, check).state.table.nextVariable == s.table.nextVariable + ConstantDefCount(n)
    decreases Size(n), 1, 0
  {
    match n
    case ConstantDef(_, _, _, _) =>
      var w := ConstantDefWrites(s, n, check);
      if w.error.None? {
        VisitChildrenDefinesOneVariablePerConstantDef(w.state, n, 0, fit, check);
      }
    case OtherNode(_, _) =>
      VisitChildrenDefinesOneVariablePerConstantDef(s, n, 0, fit, check);
    case _ =>
  }

  lemma {:induction false} VisitChildrenDefinesOneVariablePerConstantDef(s: PassState, n: AstNode, i: nat,
                                                                         fit: SizedToFit, check: TableCheck)
    requires n.ConstantDef? || n.OtherNode?
    requires i <= |Children(n)|
    ensures var t := VisitChildren(s, n, i, fit, check).state.table;
            && s.table.nextVariable <= t.nextVariable
            && (VariablesBelowCounter(s.table) ==> VariablesBelowCounter(t))
    ensures VisitChildren(s, n, i, fit, check).error.None? ==>
              VisitChildren(s, n, i, fit, check).state.table.nextVariable
                == s.table.nextVariable + ConstantDefCountFrom(n, i)
    decreases Size(n), 0, |Children(n)| - i
  {
    if i < |Children(n)| {
      ChildSmaller(n, i);
      var w := Visit(s, Children(n)[i], fit, check);
      VisitDefinesOneVariablePerConstantDef(s, Children(n)[i], fit, check);
      if w.error.None? {
        VisitChildrenDefinesOneVariablePerConstantDef(w.state, n, i + 1, fit, check);
      }
    }
  }

  /**
   * Fail fast: once a child fails, the children after it are never visited,
   * so appending more children to the node changes nothing.
   */
  lemma ErrorIgnoresLaterChildren(s: PassState, id: NodeId, children: seq<AstNode>, more: seq<AstNode>,
                                  fit: SizedToFit, check: TableCheck)
    requires Visit(s, OtherNode(id, children), fit, check).error.Some?
    ensures Visit(s, OtherNode(id, children + more), fit, check) == Visit(s, OtherNode(id, children), fit, check)
  {
    VisitChildrenIgnoresLaterChildren(s, id, children, more, 0, fit, check);
  }

  lemma {:induction false} VisitChildrenIgnoresLaterChildren(s: PassState, id: NodeId, children: seq<AstNode>,
                                                             more: seq<AstNode>, i: nat, fit: SizedToFit,
                                                             check: TableCheck)
    requires i <= |children|
    requires VisitChildren(s, OtherNode(id, children), i, fit, check).error.Some?
    ensures VisitChildren(s, OtherNode(id, children + more), i, fit, check)
            == VisitChildren(s, OtherNode(id, children), i, fit, check)
    decreases |children| - i
  {
    var short, long := OtherNode(id, children), OtherNode(id, children + more);
    assert i < |children|;
    assert Children(long)[i] == Children(short)[i];
    ChildSmaller(short, i);
    ChildSmaller(long, i);
    var w := Visit(s, Children(short)[i], fit, check);
    if w.error.None? {
      VisitChildrenIgnoresLaterChildren(w.state, id, children, more, i + 1, fit, check);
    }
  }

  // ---- The inference table and the visitor

  /**
   * The side table the walk fills: two maps and a counter, whose writes the
   * table may reject (`check`); a rejected write changes nothing.
   */
  class InferenceTable {
    const check: TableCheck
    var typeVariables: map<NodeId, TypeVariable>
    var annotations: map<NodeId, TypeAnnotation>
    var nextVariable: nat

    constructor (check: TableCheck)
      ensures this.check == check
      ensures State() == TableState(map[], map[], 0)
    {
      this.check := check;
      typeVariables, annotations, nextVariable := map[], map[], 0;
    }

    function State(): TableState
      reads this
    {
      TableState(typeVariables, annotations, nextVariable)
    }

    /** Hands out the next fresh variable for the definition `definer`. */
    method DefineInternalVariable(definer: NodeId) returns (v: TypeVariable, error: Option<Status>)
      modifies this
      ensures error == check(old(State()), DefineVariable(definer))
      ensures v == TypeVariable(old(nextVariable))
      ensures error.None? ==> State() == old(State()).(nextVariable := old(nextVariable) + 1)
      ensures error.Some? ==> State() == old(State())
    {
      v := TypeVariable(nextVariable);
      error := check(State(), DefineVariable(definer));
      if error.None? {
        nextVariable := nextVariable + 1;
      }
    }

    method SetTypeVariable(node: NodeId, v: TypeVariable) returns (error: Option<Status>)
      modifies this
      ensures error == check(old(State()), BindVariable(node, v))
      ensures error.None? ==> State() == old(State()).(typeVariables := old(typeVariables)[node := v])
      ensures error.Some? ==> State() == old(State())
    {
      error := check(State(), BindVariable(node, v));
      if error.None? {
        typeVariables := typeVariables[node := v];
      }
    }

    method SetTypeAnnotation(node: NodeId, a: TypeAnnotation) returns (error: Option<Status>)
      modifies this
      ensures error == check(old(State()), BindAnnotation(node, a))
      ensures error.None? ==> State() == old(State()).(annotations := old(annotations)[node := a])
      ensures error.Some? ==> State() == old(State())
    {
      error := check(State(), BindAnnotation(node, a));
      if error.None? {
        annotations := annotations[node := a];
      }
    }

    function GetTypeVariable(node: NodeId): (r: Option<TypeVariable>)
      reads this
      ensures r.Some? <==> node in typeVariables
      ensures r.Some? ==> typeVariables[node] == r.value
    {
      if node in typeVariables then Some(typeVariables[node]) else None
    }

    function GetTypeAnnotation(node: NodeId): (r: Option<TypeAnnotation>)
      reads this
      ensures r.Some? <==> node in annotations
      ensures r.Some? ==> annotations[node] == r.value
    {
      if node in annotations then Some(annotations[node]) else None
    }
  }

  /** Walks an AST once, filling `table` and collecting the auto literal annotations. */
  class PopulateInferenceTableVisitor {
    const table: InferenceTable
    const sizedToFit: SizedToFit
    var autoLiteralAnnotations: set<TypeAnnotation>

    constructor (table: InferenceTable, sizedToFit: SizedToFit)
      ensures this.table == table && this.sizedToFit == sizedToFit
      ensures autoLiteralAnnotations == {}
    {
      this.table := table;
      this.sizedToFit := sizedToFit;
      autoLiteralAnnotations := {};
    }

    function State(): PassState
      reads this, table
    {
      PassState(table.State(), autoLiteralAnnotations)
    }

    /** Dispatches `n` to its handler. */
    method Accept(n: AstNode) returns (error: Option<Status>)
      modifies this, table
      ensures Walk(error, State()) == Visit(old(State()), n, sizedToFit, table.check)
      decreases Size(n), 2
    {
      match n
      case ConstantDef(_, _, _, _) => error := HandleConstantDef(n);
      case NameRef(_, _) => error := HandleNameRef(n);
      case ConstRef(_, _) => error := HandleConstRef(n);
      case Number(_, _, _, _) => error := HandleNumber(n);
      case OtherNode(_, _) => error := DefaultHandler(n);
    }

    /**
     * Registers the definition's fresh variable, returning the first table
     * error, then visits the children.
     */
    method HandleConstantDef(n: AstNode) returns (error: Option<Status>)
      requires n.ConstantDef?
      modifies this, table
      ensures var w := ConstantDefWrites(old(State()), n, table.check);
              Walk(error, State()) == if w.error.Some? then w else VisitChildren(w.state, n, 0, sizedToFit, table.check)
      decreases Size(n), 1
    {
      ghost var w := Walk(None, State());
      var variable, e := table.DefineInternalVariable(n.id);
      w := Step(w, DefineVariable(n.id), table.check);
      assert w == Walk(e, State());
      if e.Some? {
        return e;
      }
      e := table.SetTypeVariable(n.id, variable);
      w := Step(w, BindVariable(n.id, variable), table.check);
      assert w == Walk(e, State());
      if e.Some? {
        return e;
      }
      e := table.SetTypeVariable(n.nameDef.id, variable);
      w := Step(w, BindVariable(n.nameDef.id, variable), table.check);
      assert w == Walk(e, State());
      if e.Some? {
        return e;
      }
      e := table.SetTypeVariable(n.value.id, variable);
      w := Step(w, BindVariable(n.value.id, variable), table.check);
      assert w == Walk(e, State());
      if e.Some? {
        return e;
      }
      if n.typeAnnotation.Some? {
        e := table.SetTypeAnnotation(n.nameDef.id, Written(n.typeAnnotation.value.id));
        w := Step(w, BindAnnotation(n.nameDef.id, Written(n.typeAnnotation.value.id)), table.check);
        assert w == Walk(e, State());
        if e.Some? {
          return e;
        }
      }
      error := DefaultHandler(n);
    }

    method HandleConstRef(n: AstNode) returns (error: Option<Status>)
      requires n.ConstRef?
      modifies table
      ensures Walk(error, State()) == RefWrites(old(State()), n.id, n.def, table.check)
    {
      error := PropagateDefToRef(n.id, n.def);
    }

    method HandleNameRef(n: AstNode) returns (error: Option<Status>)
      requires n.NameRef?
      modifies table
      ensures Walk(error, State()) == RefWrites(old(State()), n.id, n.def, table.check)
    {
      error := PropagateDefToRef(n.id, n.def);
    }

    /** Carries the definition's variable or annotation over to the reference `ref`. */
    method PropagateDefToRef(ref: NodeId, def: NodeId) returns (error: Option<Status>)
      modifies table
      ensures Walk(error, State()) == RefWrites(old(State()), ref, def, table.check)
    {
      var variable := table.GetTypeVariable(def);
      if variable.Some? {
        error := table.SetTypeAnnotation(ref, TypeVariableTypeAnnotation(variable.value));
        return;
      }
      var annotation := table.GetTypeAnnotation(def);
      if annotation.Some? {
        error := table.SetTypeAnnotation(ref, annotation.value);
        return;
      }
      error := None;
    }

    method HandleNumber(n: AstNode) returns (error: Option<Status>)
      requires n.Number?
      modifies this, table
      ensures Walk(error, State()) == AnnotateNumber(old(State()), n, sizedToFit, table.check)
    {
      var annotation: TypeAnnotation;
      if n.typeAnnotation.Some? {
        annotation := Written(n.typeAnnotation.value.id);
      } else {
        var fitted := sizedToFit(n);
        if fitted.Failure? {
          return Some(fitted.error);
        }
        annotation := Generated(fitted.value);
        if n.kind != BoolKind {
          autoLiteralAnnotations := autoLiteralAnnotations + {annotation};
        }
      }
      error := table.SetTypeAnnotation(n.id, annotation);
    }

    /** Visits the children in order and returns the first error without visiting the rest. */
    method DefaultHandler(n: AstNode) returns (error: Option<Status>)
      requires n.ConstantDef? || n.OtherNode?
      modifies this, table
      ensures Walk(error, State()) == VisitChildren(old(State()), n, 0, sizedToFit, table.check)
      decreases Size(n), 0
    {
      var children := Children(n);
      for i := 0 to |children|
        invariant VisitChildren(old(State()), n, 0, sizedToFit, table.check)
                  == VisitChildren(State(), n, i, sizedToFit, table.check)
      {
        ChildSmaller(n, i);
        error := Accept(children[i]);
        if error.Some? {
          return;
        }
      }
      error := None;
    }
  }

  // ---- The entry point

  /** Population, then, only if it succeeded, resolution of the table with the auto set. */
  function Typecheck(root: AstNode, fit: SizedToFit, check: TableCheck, resolve: Resolver)
    : Result<TypeInfoTree.TypeInfo, Status>
  {
    var w := Visit(InitialState(), root, fit, check);
    if w.error.Some? then Failure(w.error.value)
    else resolve(w.state.table, root, w.state.autoLiteralAnnotations)
  }

  /** Type checks the module `root`: fills a fresh inference table, then resolves it. */
  method TypecheckModuleV2(root: AstNode, sizedToFit: SizedToFit, tableCheck: TableCheck, resolve: Resolver)
    returns (r: Result<TypeInfoTree.TypeInfo, Status>)
    ensures r == Typecheck(root, sizedToFit, tableCheck, resolve)
  {
    var table := new InferenceTable(tableCheck);
    var visitor := new PopulateInferenceTableVisitor(table, sizedToFit);
    var error := visitor.Accept(root);
    if error.Some? {
      return Failure(error.value);
    }
    return resolve(table.State(), root, visitor.autoLiteralAnnotations);
  }

  /**
   * A module with a literal that cannot be sized never reaches resolution:
   * the population error is the result, and it is that literal's error when
   * the table accepts every write.
   */
  lemma TypecheckStopsAtFirstLiteralError(root: AstNode, fit: SizedToFit, check: TableCheck, resolve: Resolver)
    requires FirstLiteralError(root, fit).Some?
    ensures Visit(InitialState(), root, fit, check).error.Some?
    ensures Typecheck(root, fit, check, resolve) == Failure(Visit(InitialState(), root, fit, check).error.value)
    ensures AcceptsAll(check) ==> Typecheck(root, fit, check, resolve) == Failure(FirstLiteralError(root, fit).value)
  {
    VisitReportsFirstLiteralError(InitialState(), root, fit, check);
  }

  /**
   * When population succeeds, no literal failed, and resolution receives
   * exactly the auto literal annotations and a table with one variable per
   * constant definition.
   */
  lemma TypecheckResolvesWithAutoLiterals(root: AstNode, fit: SizedToFit, check: TableCheck, resolve: Resolver)
    requires Visit(InitialState(), root, fit, check).error.None?
    ensures FirstLiteralError(root, fit).None?
    ensures var t := Visit(InitialState(), root, fit, check).state.table;
            && Typecheck(root, fit, check, resolve) == resolve(t, root, AutoLiterals(root, fit))
            && t.nextVariable == ConstantDefCount(root)
            && VariablesBelowCounter(t)
  {
    VisitReportsFirstLiteralError(InitialState(), root, fit, check);
    VisitCollectsAutoLiterals(InitialState(), root, fit, check);
    VisitDefinesOneVariablePerConstantDef(InitialState(), root, fit, check);
    assert InitialState().autoLiteralAnnotations + AutoLiterals(root, fit) == AutoLiterals(root, fit);
  }
}
