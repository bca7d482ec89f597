# D language domain for Sphinx: declaration scoping and cross-reference resolution

This project models the core of `ddoc/d.py`, the Sphinx domain for the D programming language, and proves properties of that model in Dafny. The domain has two halves:

- **Directives.** The `module`, `class`, `struct`, `interface`, `function`, `template`, `alias`, `enum` and `variable` directives each work out a bare symbol name. The name is either the `:name:` option or one inferred from the signature. Each directive then qualifies the name with the dotted scope open in the document (`temp_data['d:scope']`) and records it in the domain's `objects` registry, unless `:noindex:` is given. A `module` directive replaces the scope. The class-like directives (`class`, `struct` and `interface`) append their name to the scope.
- **Roles.** A role such as `:d:var:` stamps the open scope onto the reference node and encodes its target as `d:<type>:<target>`. Resolution decodes the target and looks up the bare name first, then the scope-qualified name.

Modules:

- `Outcomes` (in `pystr.dfy`) holds `Option` and `Result`.
- `PyStr` models the Python string operations the domain relies on: `str.split` with one separator character, `str.strip()`, and the position of a character. They follow Python's semantics:
  - empty fields are kept by `split`;
  - `strip()` removes every character that `str.isspace` accepts.
- `DDecl` holds the data model and the directives' behaviour as pure functions over a `State`. The state is the open scope plus the registry. A Python exception becomes `Err(IndexError)` or `Err(KeyError)`.
- `DEnv` holds the class `Env`. Its fields `scope` and `objects` are updated in place by `RunObject`, `RunModule`, `RunClass` and `Run`, the `run` methods of the directive classes. Each method is specified against the matching `DDecl` function.
- `DXRef` models `process_link` and `resolve_xref`.
- `DScenarios` is a client of `Env`. It runs directive sequences in source order and resolves references against the registry they build.

Points where the code behaves in a way a reader may not expect; the model follows the code:

- The placeholder kinds do not fail. With no `:name:` option, `infer_name` of `module`, `function`, `template`, `alias` and `enum` returns the literal `"TODO"`, and that becomes the symbol's name. It does not raise an error.
- Signatures are split on single spaces, not on whitespace runs. `split(' ')` keeps empty fields. Only a signature with no space at all raises IndexError. For example, `"int  x"` names the variable `""`.
- A module is registered twice. `DModule.run` sets the scope to `strip(name)` before it calls `DObject.run`. So the module is first registered under `strip(name) + "." + name`, and then under the bare `name`.
- With no scope stamped on the reference node, the second candidate in resolution is the raw encoded target `d:<type>:<target>`. It is not the bare target text.

## Model

| member | source | states |
|---|---|---|
| `PyStr.Split` | ddoc/d.py:95 | `split(sep)` yields one field more than there are separators, and no field contains the separator |
| `PyStr.JoinSplit` | ddoc/d.py:95 | joining the fields of `split(sep)` with `sep` gives back the original string |
| `PyStr.SplitJoin` | ddoc/d.py:138 | splitting a join of separator-free fields gives back exactly those fields |
| `PyStr.SplitFirst` | ddoc/d.py:95 | the first field ends at the first separator and is the longest separator-free prefix; the remaining fields are the split of the text after that separator |
| `PyStr.Strip` | ddoc/d.py:67 | `strip()` neither starts nor ends with whitespace |
| `PyStr.StripRemovesOnlyEdges` | ddoc/d.py:67 | the result of `strip()` is a slice of the input with only whitespace before and after it |
| `PyStr.StripIdempotent` | ddoc/d.py:67 | stripping twice is stripping once |
| `PyStr.StripUnchanged` | ddoc/d.py:67 | a name without surrounding whitespace is left unchanged by `strip()` |
| `DDecl.ObjTypeInjective` | ddoc/d.py:82-141 | the nine kinds store nine distinct tags, so struct and interface are not folded into class |
| `DDecl.InferVariable` | ddoc/d.py:137-138 | the variable name is defined exactly when the signature has a space, and is then the field that starts right after the first space; otherwise IndexError |
| `DDecl.VariableSignature` | ddoc/d.py:137-138 | for every signature `<type> <name>[ ...]` with space-free type and name, the inferred name is `name` |
| `DDecl.InferClass` | ddoc/d.py:94-95 | the class name fails exactly when the variable rule fails (IndexError); otherwise it is the `(`-free prefix of the second field, cut at its first `(` |
| `DDecl.ClassSignature` | ddoc/d.py:94-95 | for every signature `<keyword> <name>` followed by nothing, a space or `(...`, the inferred name is `name` |
| `DDecl.InferName` | ddoc/d.py:79-138 | module, function, template, alias and enum infer `"TODO"`; class-like kinds and variables succeed exactly when the signature has a space |
| `DDecl.GetName` | ddoc/d.py:43-47 | the `:name:` option is returned verbatim; the name fails (IndexError) exactly when there is no option, the kind reads its signature, and the signature has no space |
| `DDecl.FullNameParts` | ddoc/d.py:49-54 | a name qualified by scope `s` is `s`, then a dot, then the bare name |
| `DDecl.FullNameInjective` | ddoc/d.py:49-54 | under one scope, distinct bare names have distinct fully qualified names |
| `DDecl.Register` | ddoc/d.py:38-39 | with `:noindex:` the registry is unchanged; otherwise exactly the key is added or overwritten, and every other entry is kept |
| `DDecl.ObjectRun` | ddoc/d.py:32-41 | `DObject.run` leaves the scope alone; a failing name changes nothing and gives IndexError; otherwise it registers the entry (document, tag) under the qualified name and returns that name |
| `DDecl.ModuleRun` | ddoc/d.py:63-77 | the scope becomes `strip(name)` whatever it was and even with `:noindex:`; the result is `strip(name) + "." + name`; without `:noindex:` the registry gains the entries `strip(name).name` and `name`, both tagged module |
| `DDecl.ClassRun` | ddoc/d.py:86-92 | registers under the old scope (unless `:noindex:`); with a scope open it appends `"." + name` to it, even with `:noindex:`; with no scope it gives KeyError after registering, and the scope stays unset |
| `DDecl.Run` | ddoc/d.py:170-180 | dispatches on the kind through the directive table; no key ever leaves the registry; `:noindex:` leaves the registry unchanged; kinds other than module and class-like keep the scope |
| `DDecl.RegistryOnlyGrows` | ddoc/d.py:38-71 | over any stream of directives the set of registry keys only grows |
| `DDecl.NoindexStreamRegistersNothing` | ddoc/d.py:38-71 | a stream in which every directive has `:noindex:` leaves the registry as it was |
| `DDecl.ScopeOnlyGrows` | ddoc/d.py:86-92 | without module directives the open scope is only extended, as a prefix of every later scope, and an unset scope stays unset |
| `DDecl.ModuleResetsScope` | ddoc/d.py:63-67 | the scope after a module directive does not depend on the scope before it |
| `DDecl.LastWriteWins` | ddoc/d.py:32-41 | from any prior state, whatever earlier directives registered, a non-module directive (class-like ones included) that registers leaves its own document and tag under its qualified name |
| `DDecl.ModuleLastWriteWins` | ddoc/d.py:63-77 | from any prior state, a registering module directive leaves its own document and the tag module under both `strip(name).name` and `name` |
| `DEnv.Env.constructor` | ddoc/d.py:194-196 | a document starts with no scope open, over the registry built so far |
| `DEnv.Env.RunObject` | ddoc/d.py:32-41 | the in-place `DObject.run` has exactly the effect of `ObjectRun`: scope kept, qualified name returned, and the registry overwritten at that one key unless `:noindex:` |
| `DEnv.Env.RunModule` | ddoc/d.py:63-77 | the in-place `DModule.run` has exactly the effect of `ModuleRun`: scope reset to the stripped name, and two registry entries unless `:noindex:` |
| `DEnv.Env.RunClass` | ddoc/d.py:86-92 | the in-place `DClass.run` has exactly the effect of `ClassRun`: registration under the old scope, then the scope extended, or KeyError with no scope |
| `DEnv.Env.Run` | ddoc/d.py:170-180 | the in-place dispatch has exactly the effect of `DDecl.Run`, and no registry key is removed |
| `DXRef.TargetName` | ddoc/d.py:204 | `target.split(':')[2]` is defined exactly when the target has at least two colons, otherwise IndexError; the field has no colon |
| `DXRef.TargetRoundTrip` | ddoc/d.py:149-204 | decoding `d:<type>:<target>` with a colon-free type gives back the target up to its first colon |
| `DXRef.ProcessLink` | ddoc/d.py:149-152 | the node records the open scope, or none, and the title is kept; a colon-free target is decoded by resolution to itself |
| `DXRef.ResolveXref` | ddoc/d.py:201-215 | fails exactly when the target cannot be decoded; otherwise the bare name wins, then the scope-qualified name (the raw target with no scope); with neither registered the result is no match, not an error; the match carries the registered document |
| `DXRef.ResolveIgnoresType` | ddoc/d.py:201-215 | the role's type never changes the resolution |
| `DXRef.LinkThenResolve` | ddoc/d.py:149-215 | a colon-free reference under a scope resolves to the bare entry if registered, else to the scope-qualified entry, else, with no scope, to a key equal to the encoded target, else to nothing |
| `DXRef.DeclaredIsResolvable` | ddoc/d.py:32-215 | a function, template, alias, enum or variable just declared inside an open scope (these kinds keep the scope) is found by a reference from that scope, and when its bare name is not itself a key it resolves to the new entry |
| `DXRef.ClassNotFoundFromOwnScope` | ddoc/d.py:86-215 | a class, struct or interface `c` declared in scope `s` opens scope `s.c`, and a reference to `c` from there finds nothing (it tries `c` and `s.c.c`), unless one of those keys was registered earlier |
| `DScenarios.ClassExample` | ddoc/d.py:94-95 | `class Foo(T)` names the class `Foo` |
| `DScenarios.StructExample` | ddoc/d.py:94-102 | `struct Foo(T)` names the struct `Foo`, inferring as class does |
| `DScenarios.InterfaceExample` | ddoc/d.py:94-106 | `interface Foo(T)` names the interface `Foo`, inferring as class does |
| `DScenarios.VariableExample` | ddoc/d.py:137-138 | `int count` names the variable `count` |
| `DScenarios.ClassDirectiveName` | ddoc/d.py:43-95 | a class directive `class <c>` without `:name:` is named `c` |
| `DScenarios.VariableDirectiveName` | ddoc/d.py:43-138 | a variable directive `<t> <v>` without `:name:` is named `v` |
| `DScenarios.PlainIsNotQualified` | ddoc/d.py:49-54 | a dot-free name never equals a scope-qualified one |
| `DScenarios.OpenModule` | ddoc/d.py:63-77 | a module directive with a trimmed name `m` opens scope `m` whatever was open and, unless `:noindex:`, registers `m.m` and `m` |
| `DScenarios.OpenClass` | ddoc/d.py:86-92 | a class directive inside scope `s` registers `s.c`, returns `s.c` and opens scope `s.c` |
| `DScenarios.DeclareVariable` | ddoc/d.py:32-41 | a variable directive registers its qualified name and keeps the scope |
| `DScenarios.SequentialDeclarations` | ddoc/d.py:32-215 | module `m`, class `c` and variable `v` as sibling directives, then a reference to `v` after them (stamped with scope `m.c`), resolve to `m.c.v` in the declaring document |
| `DScenarios.ModulesDoNotNest` | ddoc/d.py:63-92 | a second module replaces the scope, so a class after it is qualified by the second module only |
| `DScenarios.ClassWithoutModule` | ddoc/d.py:86-92 | a class with no module open raises KeyError, leaves the scope unset, and keeps its bare-name registration |
| `DScenarios.BareNameWins` | ddoc/d.py:201-215 | a bare registry key shadows the scope-qualified one: the reference resolves to the bare entry's document |

## Left out

- Rendering is not modelled: `make_dlang_block`, the nodes that `ObjectDescription.run` builds, and `make_refnode`. A successful resolution returns the matched key and its document instead of a reference node.
- `get_signatures` is not modelled, and neither is the splitting of a directive's argument into lines. A directive carries its whole argument, as `infer_name` reads it.
- `ObjectDescription.run` is assumed to return normally. Its output is not modelled.
- `DDecl.ClassRun`, `DDecl.ModuleRun`, `DEnv.Env.RunClass` and `DEnv.Env.RunModule` treat a directive's `run` as one step, so they do not capture the directive's body. `ObjectDescription.run` parses that body, and the directives and roles in it run inside `DObject.run`. For a class, that is after the class is registered (d.py:39) but before the scope is extended (d.py:90): a variable `v` in the body of class `C` under module `m` is registered as `m.v`, not `m.C.v`, and a role in that body is stamped with scope `m`. For a module, the body runs between the `strip(name).name` registration (d.py:69) and the bare `name` registration (d.py:71). `DDecl.RunAll` and the scenarios model sibling directives only, one after another in the document, never nested in a body.
- The `object_types`, `directives`, `roles` and `initial_data` tables, `setup` and the `l_` labels are not modelled. Only the kind-to-tag mapping (`ObjType`) and the kind dispatch (`Run`) are kept.
- `resolve_xref_names` (an empty stub) is not modelled.
- The base `infer_name`/`get_objtype` methods that raise NotImplementedError are not modelled: the nine concrete kinds cover every directive the domain registers.
- `has_explicit_title` and the role's own title processing (`XRefRole`) are not modelled. The title is passed through unchanged.
- Sphinx's document lifecycle is not modelled. That covers clearing `temp_data` between documents, the order in which documents are read and resolved, and parallel reading. A document starts from `Env`'s constructor with no scope over a given registry.
- The exception itself is not modelled beyond `Err(IndexError)` or `Err(KeyError)`. No handler in the domain catches it, so it escapes the parser and ends the build. `DDecl.RunAll` therefore stops at the first failing directive, with the state that directive left.
