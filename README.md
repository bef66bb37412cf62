# DSLX type information and the v2 inference-table pass

This project models two parts of the DSLX front end of XLS:

- **The type-information tree** (`type_info.dfy`, module `TypeInfoTree`).
  - A `TypeInfo` maps the AST nodes of one module to their deduced concrete types and constant values.
  - A TypeInfo made for a parametric instantiation has a parent. A lookup it cannot answer from its own maps is delegated up the parent chain.
  - Module-wide facts live only on the root of the tree: imports, invocation instantiations, slice bounds, implicit-token flags and top-level proc TypeInfos.
  - The `TypeInfoOwner` arena owns every TypeInfo and registers exactly one root per module.
  - Both are Dafny classes whose methods update their fields in place. Lookups are functions that read the parent chain (`Chain()`). Acyclicity of the chain is a ghost depth that strictly decreases towards the root.
- **The first phase of the v2 type checker** (`typecheck_module_v2.dfy`, module `TypecheckV2`).
  - `PopulateInferenceTableVisitor` walks a module's AST once. It gives every constant definition a fresh type variable and propagates definitions to references. It annotates number literals, and collects the annotations it synthesizes for unannotated non-boolean literals (the "auto" set). It stops at the first error.
  - `TypecheckModuleV2` runs that walk on a fresh `InferenceTable`. If the walk succeeds, it hands the table and the auto set to resolution.
  - The walk is specified by the pure functions `Visit` / `VisitChildren`. The visitor's methods are proved to compute exactly what those functions define.
  - Lemmas relate the walk to table-free reference definitions:
    - `FirstLiteralError`: the walk's error;
    - `AutoLiterals`: the auto set;
    - `ConstantDefCount`: the number of variables defined.

`dslx.dfy` holds the shared frontend values: node identities, statuses, concrete types, interpreter values and parametric environments. `wrappers.dfy` holds `Option` and `Result`.

## Model

| member | source | states |
|---|---|---|
| `TypeInfoTree.RecordInvocation` | xls/dslx/type_system/type_info.h:61-88 | The pair (invocation, caller env) maps to the new callee data. The invocation keeps its single enclosing function. Every other (invocation, env) pair is unchanged, and so is every other invocation's entry. |
| `TypeInfoTree.RecordInvocationIdempotent` | xls/dslx/type_system/type_info.h:140-156 | Recording the same invocation instantiation twice leaves the table as recording it once. |
| `TypeInfoTree.RecordSlice` | xls/dslx/type_system/type_info.h:47-59 | The slice gets the (start, width) for that env. Its other envs keep their (start, width) values, and all other slices are unchanged. |
| `TypeInfoTree.TypeInfo.constructor` | xls/dslx/type_system/type_info.h:288-294 | A new TypeInfo has the given module and parent, a finite parent chain and empty maps. A derived one holds no module-wide entries. |
| `TypeInfoTree.TypeInfo.Root` | xls/dslx/type_system/type_info.h:296-299 | The root is a parentless member of this TypeInfo's chain. |
| `TypeInfoTree.TypeInfo.GetRoot` | xls/dslx/type_system/type_info.h:300-306 | The loop over parent links returns exactly the root. |
| `TypeInfoTree.TypeInfo.IsRoot` | xls/dslx/type_system/type_info.h:311-313 | "This is its own root" holds iff there is no parent. |
| `TypeInfoTree.TypeInfo.GetItem` | xls/dslx/type_system/type_info.h:125-130 | A local entry wins. A local miss is answered by the parent's lookup, transitively, and by None at the root. The result is absent iff no TypeInfo of the chain has the key. |
| `TypeInfoTree.TypeInfo.GetItemOrError` | xls/dslx/type_system/type_info.h:185 | Fails with NotFound iff no TypeInfo of the chain has the key; otherwise returns GetItem's type. |
| `TypeInfoTree.TypeInfo.Contains` | xls/dslx/type_system/type_info.h:197 | Holds iff some TypeInfo of the chain has the key. |
| `TypeInfoTree.TypeInfo.GetItemAs` | xls/dslx/type_system/type_info.h:341-357 | NotFound iff no type is recorded. FailedPrecondition iff the recorded type is another variant. Otherwise the type, of the requested variant. |
| `TypeInfoTree.TypeInfo.SetItem` | xls/dslx/type_system/type_info.h:177-181 | Requires the key to belong to this module. The key now maps to the value and every other lookup is unchanged. The parent's lookups are untouched, because the entry is local. |
| `TypeInfoTree.TypeInfo.ConstExprFactOf` | xls/dslx/type_system/type_info.h:322-325 | A local entry decides, as a value or as known non-constant, so a known non-constant stops the fall-through. A local miss is answered by the parent, transitively. The fact is Unknown iff no TypeInfo of the chain has an entry. |
| `TypeInfoTree.TypeInfo.IsKnownConstExpr` | xls/dslx/type_system/type_info.h:247 | Holds iff the nearest entry holds a value. |
| `TypeInfoTree.TypeInfo.IsKnownNonConstExpr` | xls/dslx/type_system/type_info.h:248 | Holds iff the nearest entry is a known non-constant marker. It never holds together with IsKnownConstExpr. |
| `TypeInfoTree.TypeInfo.GetConstExpr` | xls/dslx/type_system/type_info.h:249 | Succeeds iff a value is known, and then it is the value of the nearest entry; otherwise NotFound. |
| `TypeInfoTree.TypeInfo.GetConstExprOption` | xls/dslx/type_system/type_info.h:250-251 | The optional form of GetConstExpr, with the same value. |
| `TypeInfoTree.TypeInfo.NoteConstExpr` | xls/dslx/type_system/type_info.h:234-246 | The value is noted on this TypeInfo, not the root. The node reads back its value. Other nodes' facts and all the ancestors' facts are unchanged. |
| `TypeInfoTree.TypeInfo.Invocations` | xls/dslx/type_system/type_info.h:282-286 | Only a root may be asked; it returns the root's invocation table. |
| `TypeInfoTree.TypeInfo.GetRootInvocations` | xls/dslx/type_system/type_info.h:262-270 | Every TypeInfo returns its root's invocation table. |
| `TypeInfoTree.TypeInfo.AddInvocationTypeInfo` | xls/dslx/type_system/type_info.h:140-156 | Written on the root, keeping the invocation's caller. Afterwards the derived TypeInfo and callee bindings for (invocation, caller env) read back; other pairs are unchanged. |
| `TypeInfoTree.TypeInfo.GetInvocationTypeInfo` | xls/dslx/type_system/type_info.h:158-162 | Present iff the root records the pair; the result is its derived TypeInfo. |
| `TypeInfoTree.TypeInfo.GetInvocationTypeInfoOrError` | xls/dslx/type_system/type_info.h:164-167 | NotFound iff GetInvocationTypeInfo is absent; otherwise its value. |
| `TypeInfoTree.TypeInfo.GetInvocationCalleeBindings` | xls/dslx/type_system/type_info.h:219-230 | Present iff a derived TypeInfo is recorded for the pair, so absent for a callee that was never instantiated. The result is the recorded callee env. |
| `TypeInfoTree.TypeInfo.AddSliceStartAndWidth` | xls/dslx/type_system/type_info.h:132-134 | Written on the root. The (slice, env) pair reads back the start/width; other pairs are unchanged. |
| `TypeInfoTree.TypeInfo.GetSliceStartAndWidth` | xls/dslx/type_system/type_info.h:136-138 | Present iff the root has the slice under that env; the result is the recorded value. |
| `TypeInfoTree.TypeInfo.AddImport` | xls/dslx/type_system/type_info.h:199-203 | Written on the root. The import reads back its module and TypeInfo; other imports are unchanged. |
| `TypeInfoTree.TypeInfo.GetImported` | xls/dslx/type_system/type_info.h:204 | Present iff the root records the import. |
| `TypeInfoTree.TypeInfo.GetImportedOrError` | xls/dslx/type_system/type_info.h:205 | NotFound iff the root does not record the import. |
| `TypeInfoTree.TypeInfo.GetImportedTypeInfo` | xls/dslx/type_system/type_info.h:210-212 | For this tree's module, the root. For another module, None iff no import of it is recorded; otherwise the TypeInfo of an import of it. |
| `TypeInfoTree.TypeInfo.NoteRequiresImplicitToken` | xls/dslx/type_system/type_info.h:217 | Written on the root. The function reads back the flag; other functions are unchanged. |
| `TypeInfoTree.TypeInfo.GetRequiresImplicitToken` | xls/dslx/type_system/type_info.h:214-216 | Present iff the root has a flag for the function; the result is that flag. |
| `TypeInfoTree.TypeInfo.SetTopLevelProcTypeInfo` | xls/dslx/type_system/type_info.h:169-171 | Succeeds iff called on a root, and then the proc reads back its TypeInfo. On a derived TypeInfo it fails and changes nothing, so only a root holds entries. |
| `TypeInfoTree.TypeInfo.GetTopLevelProcTypeInfo` | xls/dslx/type_system/type_info.h:173-175 | Succeeds iff the proc is recorded on this TypeInfo; otherwise NotFound. On a derived TypeInfo it is always NotFound, because only a root holds module-wide entries. |
| `TypeInfoTree.IsRootIffNoParent` | xls/dslx/type_system/type_info.h:311-313 | A TypeInfo is its own root iff it has no parent. |
| `TypeInfoTree.RootIsOnlyParentlessAncestor` | xls/dslx/type_system/type_info.h:296-306 | The root is the only ancestor without a parent. |
| `TypeInfoTree.AncestorsShareRoot` | xls/dslx/type_system/type_info.h:296-299 | Every ancestor has the same root, so all instantiations of a tree see the same module-wide facts. |
| `TypeInfoTree.TypeInfoOwner.constructor` | xls/dslx/type_system/type_info.h:110-118 | A new arena is empty and valid. |
| `TypeInfoTree.TypeInfoOwner.New` | xls/dslx/type_system/type_info.h:102-104 | Fails iff a root is requested for a module that already has one. Otherwise it appends a fresh, empty TypeInfo. A root becomes the module's registered root; a derived TypeInfo leaves the registry alone. The arena stays valid: one root per module, and every member's parent is a member. |
| `TypeInfoTree.TypeInfoOwner.GetRootTypeInfo` | xls/dslx/type_system/type_info.h:106-108 | Succeeds iff the arena has a parentless TypeInfo for the module, and it is the only one; otherwise NotFound. |
| `TypecheckV2.RegisterConstantDef` | xls/dslx/type_system_v2/typecheck_module_v2.cc:48-60 | The table once every write of the handler is accepted. One fresh variable, not yet in use, is bound to the definition, its name and its value. The counter advances by one, and the written type, if any, becomes the name's annotation. |
| `TypecheckV2.ConstantDefWrites` | xls/dslx/type_system_v2/typecheck_module_v2.cc:49-60 | The checked writes of the handler. Accepted, the table is RegisterConstantDef's. A rejected definition of the variable changes nothing. The auto set is untouched, the counter never decreases, and no unissued variable is mentioned. A table that accepts every write never fails here. |
| `TypecheckV2.PropagatedToRef` | xls/dslx/type_system_v2/typecheck_module_v2.cc:108-133 | The table once the write is accepted. The reference never gets a variable. It gets an annotation naming the def's variable, else a copy of the def's annotation, else nothing changes. |
| `TypecheckV2.RefWrites` | xls/dslx/type_system_v2/typecheck_module_v2.cc:122-132 | The one checked write, if any. Accepted, the table is PropagatedToRef's. Rejected, the state is unchanged and the error is the table's verdict on that write. It can fail only when the def has a variable or an annotation. |
| `TypecheckV2.AnnotateNumber` | xls/dslx/type_system_v2/typecheck_module_v2.cc:72-85 | A written annotation is kept and is not auto. Otherwise a failure of the sized-to-fit annotation is returned with the state unchanged. On success the generated annotation joins the auto set unless the literal is a boolean, before the table is asked to record it. The error is the table's verdict on that write, and a rejected write leaves the annotations unchanged. |
| `TypecheckV2.VisitReportsFirstLiteralError` | xls/dslx/type_system_v2/typecheck_module_v2.cc:87-92 | The walk never succeeds past a literal that cannot be sized. When the table accepts every write, the walk fails exactly with the error of the first failing unannotated literal, in walk order. |
| `TypecheckV2.VisitChildrenReportsFirstLiteralError` | xls/dslx/type_system_v2/typecheck_module_v2.cc:87-92 | The same, for the children of a node from a given index on. |
| `TypecheckV2.VisitCollectsAutoLiterals` | xls/dslx/type_system_v2/typecheck_module_v2.cc:77-82 | The walk only adds annotations of unannotated non-boolean literals to the auto set. When it succeeds, it adds all of them. |
| `TypecheckV2.VisitChildrenCollectsAutoLiterals` | xls/dslx/type_system_v2/typecheck_module_v2.cc:77-82 | The same, for the children of a node from a given index on. |
| `TypecheckV2.VisitDefinesOneVariablePerConstantDef` | xls/dslx/type_system_v2/typecheck_module_v2.cc:48-56 | The walk never mentions a variable it has not handed out. When it succeeds, it has defined one variable per constant definition. |
| `TypecheckV2.VisitChildrenDefinesOneVariablePerConstantDef` | xls/dslx/type_system_v2/typecheck_module_v2.cc:48-56 | The same, for the children of a node from a given index on. |
| `TypecheckV2.ErrorIgnoresLaterChildren` | xls/dslx/type_system_v2/typecheck_module_v2.cc:87-92 | Once a child fails, appending further children to the node changes neither the error nor the state. |
| `TypecheckV2.VisitChildrenIgnoresLaterChildren` | xls/dslx/type_system_v2/typecheck_module_v2.cc:87-92 | The same, from a given child index on. |
| `TypecheckV2.InferenceTable.constructor` | xls/dslx/type_system_v2/typecheck_module_v2.cc:146-147 | A new table has the given checks, no variables, no annotations and counter 0. |
| `TypecheckV2.InferenceTable.DefineInternalVariable` | xls/dslx/type_system_v2/typecheck_module_v2.cc:49-53 | Returns the next variable. If the table accepts the definition, the counter advances; otherwise nothing changes and the error is returned. |
| `TypecheckV2.InferenceTable.SetTypeVariable` | xls/dslx/type_system_v2/typecheck_module_v2.cc:54-56 | If the table accepts, it binds the node to the variable; otherwise nothing changes and the error is returned. |
| `TypecheckV2.InferenceTable.SetTypeAnnotation` | xls/dslx/type_system_v2/typecheck_module_v2.cc:57-59 | If the table accepts, it binds the node to the annotation; otherwise nothing changes and the error is returned. |
| `TypecheckV2.InferenceTable.GetTypeVariable` | xls/dslx/type_system_v2/typecheck_module_v2.cc:122 | Present iff the node has a variable, and then it is that variable. |
| `TypecheckV2.InferenceTable.GetTypeAnnotation` | xls/dslx/type_system_v2/typecheck_module_v2.cc:127-128 | Present iff the node has an annotation, and then it is that annotation. |
| `TypecheckV2.PopulateInferenceTableVisitor.constructor` | xls/dslx/type_system_v2/typecheck_module_v2.cc:44-46 | The visitor works on the given table, with an empty auto set. |
| `TypecheckV2.PopulateInferenceTableVisitor.Accept` | xls/dslx/type_system_v2/typecheck_module_v2.cc:89 | Dispatching a node to its handler yields exactly the walk `Visit` defines: its error and its state. |
| `TypecheckV2.PopulateInferenceTableVisitor.HandleConstantDef` | xls/dslx/type_system_v2/typecheck_module_v2.cc:48-62 | Returns the first table error among the registration writes, keeping the writes made before it. Otherwise it visits the children. |
| `TypecheckV2.PopulateInferenceTableVisitor.HandleConstRef` | xls/dslx/type_system_v2/typecheck_module_v2.cc:64-66 | Error and state are those of RefWrites for the reference and its def. |
| `TypecheckV2.PopulateInferenceTableVisitor.HandleNameRef` | xls/dslx/type_system_v2/typecheck_module_v2.cc:68-70 | Error and state are those of RefWrites for the reference and its def. |
| `TypecheckV2.PopulateInferenceTableVisitor.PropagateDefToRef` | xls/dslx/type_system_v2/typecheck_module_v2.cc:108-133 | Error and state are RefWrites of the old state: the table's verdict on the one write, and the auto set unchanged. |
| `TypecheckV2.PopulateInferenceTableVisitor.HandleNumber` | xls/dslx/type_system_v2/typecheck_module_v2.cc:72-85 | Error, table and auto set are as AnnotateNumber states. |
| `TypecheckV2.PopulateInferenceTableVisitor.DefaultHandler` | xls/dslx/type_system_v2/typecheck_module_v2.cc:87-92 | Visits the children in order and returns the first error without visiting the rest, as VisitChildren defines. |
| `TypecheckV2.TypecheckModuleV2` | xls/dslx/type_system_v2/typecheck_module_v2.cc:143-154 | Populates a fresh table with the given checks, then resolves only if population succeeded; the result is `Typecheck`. |
| `TypecheckV2.TypecheckStopsAtFirstLiteralError` | xls/dslx/type_system_v2/typecheck_module_v2.cc:150 | A module with a literal that cannot be sized never reaches resolution, whatever the resolver. The population error is the result, and it is that literal's error when the table accepts every write. |
| `TypecheckV2.TypecheckResolvesWithAutoLiterals` | xls/dslx/type_system_v2/typecheck_module_v2.cc:151-153 | When population succeeds, no literal failed. Resolution receives exactly the auto literal annotations, and a table with one variable per constant definition that mentions no variable it did not define. |

## Left out

- type_info.cc is not part of this model. The out-of-line bodies of TypeInfo are modelled from their declarations and doc comments in type_info.h. The module-wide tables for imports, invocations, slices and implicit-token flags are written and read through `Root()`, as the header describes. The top-level proc table is read and written on the receiving TypeInfo, and only a root accepts entries. `RootTablesOnlyOnRoot` states that a derived TypeInfo holds none of these entries. The constructor establishes it and every mutator preserves it.
- `ToString`, `GetImportsDebugString`, `GetTypeInfoTreeString`: debug strings, left out.
- The destructor and the plain accessors (`parent()`, `module()`, `dict()`, `imports()`): the model reads the fields directly.
- `TypeInfoOwner.New`: the header does not name the error code; the model uses `DuplicateRoot`. The parent must already be in the arena. That is a precondition, because the arena is the owner of every TypeInfo.
- `TypeInfo.SetTopLevelProcTypeInfo`: the header does not name the error for a non-root; the model uses `NotRoot`.
- `TypeInfo.SetItem`: the owner-module check is an abort in the source (`XLS_CHECK_EQ`), so it is a precondition here.
- `TypeInfo.AddInvocationTypeInfo`: the method is `void` (type_info.h:152), so recording an invocation under a second enclosing function cannot return an error. It is a precondition here: an invocation is always recorded with its one enclosing function.
- `TypeInfo.NoteRequiresImplicitToken`: modelled as an overwrite of an earlier flag.
- Known non-constant marker: the header declares no writer for it. The model keeps the state (an entry without a value), and `IsKnownNonConstExpr` reads it. Only `NoteConstExpr` writes, always with a value.
- `TypeInfo.GetItemAs`: the template downcast is modelled as a check of the concrete type's variant tag (`TypeKind`).
- `StartAndWidth`: `int64` is the signed 64-bit range; no arithmetic is done on it, so there is no overflow to model.
- xls/contrib/mlir/transforms/xls_lower.cc is context and is not part of this model.
- inference_table.h is not part of this model. Its operations become the map updates of `InferenceTable`. Each write may be rejected with a status, as the table's checks (the parameter `tableCheck`, a function of the table state and the write) decide. A rejected write changes nothing, and the handler returns its error at once. The variable's kind and its traceability name (`GenerateInternalTypeVariableName`) are dropped.
- `CreateAnnotationSizedToFit` and `InferenceTableToTypeInfo` are not part of this model. They are the parameters `sizedToFit` and `resolve` of `TypecheckModuleV2`. The generated annotation is identified by the new node's id.
- Node identity: the source creates a new `TypeVariableTypeAnnotation` node on each propagation and keys the auto set by pointer. The model compares annotations by value, so two equal annotations are one set element.
- The AST: only the node kinds with their own handlers are distinguished. Every other kind is `OtherNode`, whose children are its `GetChildren(want_types=true)` list, in order.
- `ImportData`, `WarningCollector` and `FileTable` are only passed through to collaborators, and are left out.
