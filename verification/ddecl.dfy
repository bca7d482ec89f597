/**
  Declaration processing of the Sphinx "D language" domain: how each
  directive works out the bare name of the symbol it documents, qualifies it
  with the dotted scope open at that point, records it in the domain's
  symbol registry and, for modules and class-like symbols, changes the scope.

  The environment state the directives touch is modelled as a `State`
  value here (the open scope and the registry); the class `DEnv.Env`
  performs the same steps in place and is specified by the functions of
  this module.
 */
module DDecl {
  import opened Outcomes
  import opened PyStr

  /** The nine directive kinds of the domain. */
  datatype Kind = Module | Class | Struct | Interface | Function | Template | Alias | Enum | Variable
  {
    /** Struct and interface directives inherit all of the class directive's behaviour but its tag. */
    predicate IsClassLike()
    {
      this == Class || this == Struct || this == Interface
    }

    /** Kinds whose bare name is read from the signature (the others return a placeholder). */
    predicate InfersFromSignature()
    {
      IsClassLike() || this == Variable
    }
  }

  /** One directive occurrence: its kind, its (whole) argument text, the
      `:name:` option if given and whether the `:noindex:` flag is set. */
  datatype Directive = Directive(kind: Kind, argument: string, nameOption: Option<string>, noindex: bool)

  /** The Python exceptions the directives let escape. */
  datatype Error =
    | IndexError  // a signature with too few space-separated fields
    | KeyError    // a class-like directive while no scope is open

  /** A registry value: the document the symbol is declared in and its tag. */
  datatype Entry = Entry(docname: string, objtype: string)

  /** The environment state the directives read and write: the open dotted
      scope (absent until a module directive runs) and the registry. */
  datatype State = State(scope: Option<string>, objects: map<string, Entry>)

  /** The state after one directive and what it produced: the fully
      qualified name it registered under, or the exception it raised. */
  datatype After = After(st: State, result: Result<string, Error>)

  /** The tag each kind stores in the registry (each directive's `get_objtype`). */
  function ObjType(k: Kind): string
  {
    match k
    case Module => "module"
    case Class => "class"
    case Struct => "struct"
    case Interface => "interface"
    case Function => "function"
    case Template => "template"
    case Alias => "alias"
    case Enum => "enum"
    case Variable => "variable"
  }

  /** Every kind is stored under its own tag: structs and interfaces are not folded into classes. */
  lemma ObjTypeInjective(k1: Kind, k2: Kind)
    ensures ObjType(k1) == ObjType(k2) <==> k1 == k2
  {
  }

  /** The variable directive's name: the second field of the signature split on
      single spaces, or an IndexError when the signature holds no space. */
  function InferVariable(argument: string): (r: Result<string, Error>)
    ensures r.Ok? <==> ' ' in argument
    ensures r.Err? ==> r.error == IndexError
    ensures r.Ok? ==> FieldAt(argument, ' ', Find(argument, ' ') + 1, r.value)
  {
    var fields := Split(argument, ' ');
    SplitFirst(argument, ' ');
    if |fields| < 2 then Err(IndexError)
    else
      var i := Find(argument, ' ');
      SecondField(argument, ' ', i);
      Ok(fields[1])
  }

  /** With a separator at `i` (the first one), the second field is the field starting right after it. */
  lemma SecondField(s: string, c: char, i: nat)
    requires i == Find(s, c) < |s|
    ensures |Split(s, c)| >= 2
    ensures FieldAt(s, c, i + 1, Split(s, c)[1])
  {
    var rest := s[i + 1..];
    SplitAtFind(s, c);
    assert Split(s, c)[1] == Split(rest, c)[0];
    SplitFirst(rest, c);
    FieldAtShift(s, c, i + 1, Split(rest, c)[0]);
  }

  /** The class directive's name: the second space-separated field of the
      signature cut before its first '('. It fails exactly when the variable
      rule fails, and is otherwise the '('-free prefix of that field. */
  function InferClass(argument: string): (r: Result<string, Error>)
    ensures r.Ok? <==> InferVariable(argument).Ok?
    ensures r.Err? ==> r.error == IndexError
    ensures r.Ok? ==> '(' !in r.value && FieldAt(InferVariable(argument).value, '(', 0, r.value)
  {
    var fields := Split(argument, ' ');
    if |fields| < 2 then Err(IndexError)
    else
      var name := Split(fields[1], '(')[0];
      SplitFirst(fields[1], '(');
      Ok(name)
  }

  /** For every signature "<type> <name>..." whose type and name hold no space,
      the inferred variable name is `name`. */
  lemma VariableSignature(typ: string, name: string, rest: string)
    requires ' ' !in typ && ' ' !in name
    requires rest == [] || rest[0] == ' '
    ensures InferVariable(typ + " " + name + rest) == Ok(name)
  {
    var s := typ + " " + name + rest;
    NameAfterKeyword(typ, name, rest);
    FieldAtUnique(s, ' ', |typ| + 1, InferVariable(s).value, name);
  }

  /** For every signature "<keyword> <name>(...", with keyword and name free of
      spaces and the name free of '(', the inferred class name is `name`. */
  lemma ClassSignature(keyword: string, name: string, rest: string)
    requires ' ' !in keyword && ' ' !in name && '(' !in name
    requires rest == [] || rest[0] == ' ' || rest[0] == '('
    ensures InferClass(keyword + " " + name + rest) == Ok(name)
  {
    var s := keyword + " " + name + rest;
    NameAfterKeyword(keyword, name, rest);
    var v := InferVariable(s).value;
    var start := |keyword| + 1;
    assert InferVariable(s).Ok?;
    assert Find(s, ' ') + 1 == start;
    assert FieldAt(s, ' ', start, v);
    FieldAtCovers(s, ' ', start, v, name);
    if |v| > |name| {
      assert v[|name|] == s[start + |name|] == rest[0];
    }
    assert v[0..|name|] == name;
    FieldAtUnique(v, '(', 0, InferClass(s).value, name);
  }

  /** In "<keyword> <name><rest>" the first space ends the keyword, and `name`
      runs up to the next space or the end when `rest` starts at one. */
  lemma NameAfterKeyword(keyword: string, name: string, rest: string)
    requires ' ' !in keyword && ' ' !in name
    ensures var s := keyword + " " + name + rest;
            && Find(s, ' ') == |keyword|
            && s[|keyword| + 1..|keyword| + 1 + |name|] == name
            && ((rest == [] || rest[0] == ' ') ==> FieldAt(s, ' ', |keyword| + 1, name))
  {
    var s := keyword + " " + name + rest;
    assert s[|keyword|] == ' ';
    assert forall k :: 0 <= k < |keyword| ==> s[k] == keyword[k];
    assert s[|keyword| + 1..|keyword| + 1 + |name|] == name;
    if rest != [] {
      assert s[|keyword| + 1 + |name|] == rest[0];
    }
  }

  /** Each kind's `infer_name`: signature-based for class-like kinds and variables,
      the literal placeholder "TODO" for every other kind. */
  function InferName(k: Kind, argument: string): (r: Result<string, Error>)
    ensures !k.InfersFromSignature() ==> r == Ok("TODO")
    ensures k.InfersFromSignature() ==> (r.Ok? <==> ' ' in argument)
  {
    if k.IsClassLike() then InferClass(argument)
    else if k == Variable then InferVariable(argument)
    else Ok("TODO")
  }

  /** `get_name`: the `:name:` option verbatim when given, else the inferred name.
      It can only fail for a kind that reads its signature and a signature without a space. */
  function GetName(d: Directive): (r: Result<string, Error>)
    ensures d.nameOption.Some? ==> r == Ok(d.nameOption.value)
    ensures r.Err? <==> d.nameOption.None? && d.kind.InfersFromSignature() && ' ' !in d.argument
    ensures r.Err? ==> r.error == IndexError
  {
    if d.nameOption.Some? then Ok(d.nameOption.value) else InferName(d.kind, d.argument)
  }

  /** `get_fullname`: the name qualified by the open scope, or the bare name with none. */
  function FullName(scope: Option<string>, name: string): string
  {
    if scope.Some? then scope.value + "." + name else name
  }

  /** The scope and the bare name can be read back from a fully qualified name:
      it is the scope, a dot, then the name. */
  lemma FullNameParts(scope: string, name: string)
    ensures var r := FullName(Some(scope), name);
            && |r| == |scope| + 1 + |name|
            && r[..|scope|] == scope && r[|scope|] == '.' && r[|scope| + 1..] == name
  {
    var r := FullName(Some(scope), name);
    assert r == scope + ("." + name);
  }

  /** Under one scope, distinct names get distinct fully qualified names. */
  lemma FullNameInjective(scope: Option<string>, a: string, b: string)
    requires FullName(scope, a) == FullName(scope, b)
    ensures a == b
  {
    if scope.Some? {
      FullNameParts(scope.value, a);
      FullNameParts(scope.value, b);
    }
  }

  /** The registry upsert every directive performs unless `:noindex:` is set:
      exactly the key is (re)written, every other key keeps its value. */
  function Register(objects: map<string, Entry>, noindex: bool, key: string, e: Entry): (r: map<string, Entry>)
    ensures noindex ==> r == objects
    ensures !noindex ==> r.Keys == objects.Keys + {key} && r[key] == e
    ensures forall k :: k in objects && k != key ==> k in r && r[k] == objects[k]
  {
    if noindex then objects else objects[key := e]
  }

  /** `DObject.run`: name, qualify, register. The scope is never changed; a
      failing name inference changes nothing. */
  function ObjectRun(st: State, docname: string, d: Directive): (a: After)
    ensures a.st.scope == st.scope
    ensures GetName(d).Err? ==> a == After(st, Err(IndexError))
    ensures GetName(d).Ok? ==>
              var full := FullName(st.scope, GetName(d).value);
              && a.result == Ok(full)
              && a.st.objects == Register(st.objects, d.noindex, full, Entry(docname, ObjType(d.kind)))
  {
    match GetName(d)
    case Err(e) => After(st, Err(e))
    case Ok(name) =>
      var full := FullName(st.scope, name);
      After(State(st.scope, Register(st.objects, d.noindex, full, Entry(docname, ObjType(d.kind)))), Ok(full))
  }

  /** `DModule.run`. The scope becomes the stripped module name whatever it was
      before (even with `:noindex:`); the scope is set before `DObject.run`, so
      its registration lands under `strip(name) + "." + name`, and the bare name
      is then registered too. A module directive never fails. */
  function ModuleRun(st: State, docname: string, d: Directive): (a: After)
    requires d.kind == Module
    ensures a.st.scope == Some(Strip(GetName(d).value))
    ensures a.result == Ok(Strip(GetName(d).value) + "." + GetName(d).value)
    ensures d.noindex ==> a.st.objects == st.objects
    ensures !d.noindex ==>
              a.st.objects == st.objects[Strip(GetName(d).value) + "." + GetName(d).value := Entry(docname, "module")]
                                        [GetName(d).value := Entry(docname, "module")]
  {
    var modname := GetName(d).value;
    var a := ObjectRun(State(Some(Strip(modname)), st.objects), docname, d);
    if d.noindex then a
    else After(State(a.st.scope, a.st.objects[modname := Entry(docname, "module")]), a.result)
  }

  /** `DClass.run` (also run by struct and interface directives). It registers
      under the scope as it was, then appends "." + name to the scope (even with
      `:noindex:`). With no scope open it raises KeyError after the registration
      has been made, and the scope stays unset. */
  function ClassRun(st: State, docname: string, d: Directive): (a: After)
    requires d.kind.IsClassLike()
    ensures GetName(d).Err? ==> a == After(st, Err(IndexError))
    ensures GetName(d).Ok? ==>
              var name := GetName(d).value;
              && a.st.objects == Register(st.objects, d.noindex, FullName(st.scope, name), Entry(docname, ObjType(d.kind)))
              && (st.scope.None? ==> a.st.scope.None? && a.result == Err(KeyError))
              && (st.scope.Some? ==> a.st.scope == Some(st.scope.value + "." + name)
                                     && a.result == Ok(st.scope.value + "." + name))
  {
    var a := ObjectRun(st, docname, d);
    if a.result.Err? then a
    else if a.st.scope.None? then After(a.st, Err(KeyError))
    else After(State(Some(a.st.scope.value + "." + GetName(d).value), a.st.objects), a.result)
  }

  /** One directive, dispatched on its kind as the domain's directive table does.
      No key ever leaves the registry, and `:noindex:` leaves it untouched. */
  function Run(st: State, docname: string, d: Directive): (a: After)
    ensures st.objects.Keys <= a.st.objects.Keys
    ensures d.noindex ==> a.st.objects == st.objects
    ensures d.kind != Module && !d.kind.IsClassLike() ==> a.st.scope == st.scope
  {
    match d.kind
    case Module => ModuleRun(st, docname, d)
    case Class | Struct | Interface => ClassRun(st, docname, d)
    case _ => ObjectRun(st, docname, d)
  }

  /** A stream of sibling directives of one document, in source order. The
      first failing directive ends the stream: its exception escapes the
      parser, so the state is whatever that directive had already changed. */
  function RunAll(st: State, docname: string, ds: seq<Directive>): State
    decreases |ds|
  {
    if ds == [] then st
    else
      var a := Run(st, docname, ds[0]);
      if a.result.Err? then a.st else RunAll(a.st, docname, ds[1..])
  }

  /** Registry entries are never removed by any stream of directives. */
  lemma {:induction false} RegistryOnlyGrows(st: State, docname: string, ds: seq<Directive>)
    ensures st.objects.Keys <= RunAll(st, docname, ds).objects.Keys
    decreases |ds|
  {
    if ds != [] {
      RegistryOnlyGrows(Run(st, docname, ds[0]).st, docname, ds[1..]);
    }
  }

  /** A stream whose directives all carry `:noindex:` leaves the registry as it was. */
  lemma {:induction false} NoindexStreamRegistersNothing(st: State, docname: string, ds: seq<Directive>)
    requires forall i :: 0 <= i < |ds| ==> ds[i].noindex
    ensures RunAll(st, docname, ds).objects == st.objects
    decreases |ds|
  {
    if ds != [] {
      var next := Run(st, docname, ds[0]).st;
      assert next.objects == st.objects;
      NoindexStreamRegistersNothing(next, docname, ds[1..]);
    }
  }

  /** Without a module directive the scope never shrinks: an open scope is only
      ever extended (it is a prefix of every later scope), and an unset one stays unset. */
  lemma {:induction false} ScopeOnlyGrows(st: State, docname: string, ds: seq<Directive>)
    requires forall i :: 0 <= i < |ds| ==> ds[i].kind != Module
    ensures st.scope.None? ==> RunAll(st, docname, ds).scope.None?
    ensures st.scope.Some? ==> RunAll(st, docname, ds).scope.Some?
                               && st.scope.value <= RunAll(st, docname, ds).scope.value
    decreases |ds|
  {
    if ds != [] {
      var next := Run(st, docname, ds[0]).st;
      assert st.scope.Some? ==> next.scope.Some? && st.scope.value <= next.scope.value;
      ScopeOnlyGrows(next, docname, ds[1..]);
    }
  }

  /** A module directive replaces the scope outright: the scope after it does
      not depend on the scope before it. */
  lemma ModuleResetsScope(st1: State, st2: State, docname: string, d: Directive)
    requires d.kind == Module
    ensures Run(st1, docname, d).st.scope == Run(st2, docname, d).st.scope
  {
  }

  /** Last write wins: from any state (in particular one in which an earlier
      directive already registered the same key), a non-module directive that
      registers leaves its own document and tag under its fully qualified name. */
  lemma LastWriteWins(st: State, docname: string, d: Directive)
    requires d.kind != Module && !d.noindex && GetName(d).Ok?
    ensures Run(st, docname, d).st.objects[FullName(st.scope, GetName(d).value)] == Entry(docname, ObjType(d.kind))
  {
    var key := FullName(st.scope, GetName(d).value);
    var e := Entry(docname, ObjType(d.kind));
    if d.kind.IsClassLike() {
      assert Run(st, docname, d).st.objects == Register(st.objects, false, key, e);
    } else {
      assert Run(st, docname, d).st.objects == Register(st.objects, false, key, e);
    }
  }

  /** The same for a module directive: both keys it writes end up holding it,
      whatever they held before. */
  lemma ModuleLastWriteWins(st: State, docname: string, d: Directive)
    requires d.kind == Module && !d.noindex
    ensures var name := GetName(d).value;
            var objects := Run(st, docname, d).st.objects;
            && objects[name] == Entry(docname, "module")
            && objects[Strip(name) + "." + name] == Entry(docname, "module")
  {
  }
}
