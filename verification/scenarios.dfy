/**
  Concrete runs of the domain: a client of `DEnv.Env` that feeds it
  directives in source order and resolves references against the registry
  it builds, the way a documentation build would.
 */
module DScenarios {
  import opened Outcomes
  import opened PyStr
  import opened DDecl
  import opened DEnv
  import opened DXRef

  /** "class Foo(T)" names a class "Foo". */
  lemma ClassExample()
    ensures InferName(Class, "class Foo(T)") == Ok("Foo")
  {
    ClassSignature("class", "Foo", "(T)");
    assert "class" + " " + "Foo" + "(T)" == "class Foo(T)";
  }

  /** Struct and interface directives infer their names as class directives do. */
  lemma StructExample()
    ensures InferName(Struct, "struct Foo(T)") == Ok("Foo")
  {
    ClassSignature("struct", "Foo", "(T)");
    assert "struct" + " " + "Foo" + "(T)" == "struct Foo(T)";
  }

  lemma InterfaceExample()
    ensures InferName(Interface, "interface Foo(T)") == Ok("Foo")
  {
    ClassSignature("interface", "Foo", "(T)");
    assert "interface" + " " + "Foo" + "(T)" == "interface Foo(T)";
  }

  /** "int count" names a variable "count". */
  lemma VariableExample()
    ensures InferName(Variable, "int count") == Ok("count")
  {
    VariableSignature("int", "count", "");
    assert "int" + " " + "count" + "" == "int count";
  }

  /** The name of a class directive "class <c>" without a `:name:` option. */
  lemma ClassDirectiveName(c: string)
    requires ' ' !in c && '(' !in c
    ensures GetName(Directive(Class, "class " + c, None, false)) == Ok(c)
  {
    ClassSignature("class", c, "");
    assert "class" + " " + c + "" == "class " + c;
  }

  /** The name of a variable directive "<t> <v>" without a `:name:` option. */
  lemma VariableDirectiveName(t: string, v: string)
    requires ' ' !in t && ' ' !in v
    ensures GetName(Directive(Variable, t + " " + v, None, false)) == Ok(v)
  {
    VariableSignature(t, v, "");
    assert t + " " + v + "" == t + " " + v;
  }

  /** A plain name (no dot) is never a scope-qualified one. */
  lemma PlainIsNotQualified(scope: string, name: string, plain: string)
    requires '.' !in plain
    ensures FullName(Some(scope), name) != plain
  {
    FullNameParts(scope, name);
  }

  /** Opens module `m`: the scope becomes `m` whatever it was and, unless
      `noindex`, the module is registered under "m.m" and "m". */
  method OpenModule(env: Env, m: string, noindex: bool)
    requires Trimmed(m)
    modifies env
    ensures env.scope == Some(m)
    ensures noindex ==> env.objects == old(env.objects)
    ensures !noindex ==> env.objects == old(env.objects)[m + "." + m := Entry(env.docname, "module")]
                                                        [m := Entry(env.docname, "module")]
  {
    StripUnchanged(m);
    var r := env.RunModule(Directive(Module, m, Some(m), noindex));
  }

  /** Opens class "class <c>" inside the open scope `s`: it is registered under
      "s.c" and the scope becomes "s.c". */
  method OpenClass(env: Env, c: string) returns (r: Result<string, Error>)
    requires env.scope.Some?
    requires ' ' !in c && '(' !in c
    modifies env
    ensures r == Ok(old(env.scope).value + "." + c)
    ensures env.scope == Some(old(env.scope).value + "." + c)
    ensures env.objects == old(env.objects)[old(env.scope).value + "." + c := Entry(env.docname, "class")]
  {
    ClassDirectiveName(c);
    r := env.RunClass(Directive(Class, "class " + c, None, false));
  }

  /** Declares variable "<t> <v>": it is registered under its name qualified
      by the open scope, which stays as it is. */
  method DeclareVariable(env: Env, t: string, v: string)
    requires ' ' !in t && ' ' !in v
    modifies env
    ensures env.scope == old(env.scope)
    ensures env.objects == old(env.objects)[FullName(old(env.scope), v) := Entry(env.docname, "variable")]
  {
    VariableDirectiveName(t, v);
    var r := env.RunObject(Directive(Variable, t + " " + v, None, false));
  }

  /** Module `m`, class "class <c>" and variable "<t> <v>" as sibling
      directives, in that order: the class's scope stays open after it, so the
      variable is registered as "m.c.v", and a reference to `v` written after
      them (stamped with scope "m.c") resolves to the variable. */
  method SequentialDeclarations(doc: string, m: string, c: string, t: string, v: string)
    returns (resolved: Result<Option<Match>, Error>)
    requires Trimmed(m)
    requires ' ' !in c && '(' !in c
    requires ' ' !in t && ' ' !in v && ':' !in v && '.' !in v && v != m
    ensures resolved == Ok(Some(Match(m + "." + c + "." + v, doc)))
  {
    var env := new Env(doc, map[]);
    OpenModule(env, m, false);
    var _ := OpenClass(env, c);
    DeclareVariable(env, t, v);
    var scope, objects := env.scope.value, env.objects;
    var full := m + "." + c + "." + v;
    assert full == FullName(Some(m + "." + c), v);
    assert full in objects && objects[full] == Entry(doc, "variable");
    assert v !in objects by {
      PlainIsNotQualified(m, m, v);
      PlainIsNotQualified(m, c, v);
      PlainIsNotQualified(m + "." + c, v, v);
    }
    var link := ProcessLink(env.scope, "var", v, v);
    LinkThenResolve(objects, Some(scope), "var", v, v);
    resolved := ResolveXref(objects, "var", link.target, link.node);
  }

  /** A second module replaces the scope instead of nesting under the first. */
  method ModulesDoNotNest(doc: string, a: string, b: string, c: string)
    returns (r: Result<string, Error>, scope: Option<string>)
    requires Trimmed(b) && ' ' !in c && '(' !in c
    ensures r == Ok(b + "." + c) && scope == Some(b + "." + c)
  {
    var env := new Env(doc, map[]);
    r := env.RunModule(Directive(Module, a, Some(a), false));
    OpenModule(env, b, true);
    r := OpenClass(env, c);
    scope := env.scope;
  }

  /** A class with no module open raises KeyError after registering its bare name. */
  method ClassWithoutModule(doc: string, c: string)
    returns (r: Result<string, Error>, scope: Option<string>, objects: map<string, Entry>)
    ensures r == Err(KeyError) && scope == None && objects == map[c := Entry(doc, "class")]
  {
    var env := new Env(doc, map[]);
    r := env.RunClass(Directive(Class, "class " + c, Some(c), false));
    scope, objects := env.scope, env.objects;
  }

  /** A bare registry key shadows the scope-qualified one: with "<t> <w>"
      declared before any module and a class `w` declared in module `m`, a
      reference to `w` from inside `m` resolves to the bare entry. */
  method BareNameWins(doc1: string, doc2: string, t: string, w: string, m: string)
    returns (resolved: Result<Option<Match>, Error>)
    requires ' ' !in t && ' ' !in w && ':' !in w
    requires Trimmed(m) && '.' !in w && w != m
    ensures resolved == Ok(Some(Match(w, doc1)))
  {
    var env := new Env(doc1, map[]);
    DeclareVariable(env, t, w);
    assert env.objects == map[w := Entry(doc1, "variable")];

    env := new Env(doc2, env.objects);
    OpenModule(env, m, false);
    var r := env.RunClass(Directive(Class, "class " + w, Some(w), false));
    assert m + "." + w in env.objects && w in env.objects;
    assert env.objects[w] == Entry(doc1, "variable");
    var link := ProcessLink(Some(m), "class", w, w);
    LinkThenResolve(env.objects, Some(m), "class", w, w);
    resolved := ResolveXref(env.objects, "class", link.target, link.node);
  }
}
