/**
  The build environment as the D domain's directives mutate it: the open
  scope kept in the environment's per-document temporary data under the key
  'd:scope', and the domain's `objects` registry, mapping a fully qualified
  name to the document and tag of its declaration. Each directive's `run`
  is a method that updates these fields in place; its effect is exactly the
  one the matching function of `DDecl` gives.
 */
module DEnv {
  import opened Outcomes
  import opened PyStr
  import opened DDecl

  class Env {
    /** `temp_data['d:scope']`; `None` while the key is absent. */
    var scope: Option<string>
    /** `domaindata['d']['objects']`. */
    var objects: map<string, Entry>
    /** `env.docname`, the document being read. */
    const docname: string

    /** The state as a value, to compare with the specification functions. */
    function Snapshot(): State
      reads this
    {
      State(scope, objects)
    }

    /** A document starts with no scope open, over the registry built so far
        (empty at the start of a build). */
    constructor (docname: string, objects: map<string, Entry>)
      ensures this.docname == docname
      ensures scope == None && this.objects == objects
    {
      this.docname := docname;
      this.scope := None;
      this.objects := objects;
    }

    /** `DObject.run`: registers the directive under its fully qualified name
        unless `:noindex:` is set, and leaves the scope alone. */
    method RunObject(d: Directive) returns (r: Result<string, Error>)
      modifies this
      ensures After(Snapshot(), r) == ObjectRun(old(Snapshot()), docname, d)
      ensures scope == old(scope)
      ensures GetName(d).Err? ==> r == Err(IndexError) && objects == old(objects)
      ensures GetName(d).Ok? ==> r == Ok(FullName(old(scope), GetName(d).value))
      ensures d.noindex ==> objects == old(objects)
      ensures !d.noindex && GetName(d).Ok? ==>
                objects == old(objects)[FullName(old(scope), GetName(d).value) := Entry(docname, ObjType(d.kind))]
    {
      var name := GetName(d);
      if name.Err? {
        return Err(name.error);
      }
      var fullname := FullName(scope, name.value);
      if !d.noindex {
        objects := objects[fullname := Entry(docname, ObjType(d.kind))];
      }
      r := Ok(fullname);
    }

    /** `DModule.run`: replaces the scope with the stripped module name, runs
        `DObject.run` under that scope, then registers the bare module name. */
    method RunModule(d: Directive) returns (r: Result<string, Error>)
      requires d.kind == Module
      modifies this
      ensures After(Snapshot(), r) == ModuleRun(old(Snapshot()), docname, d)
      ensures scope == Some(Strip(GetName(d).value))
      ensures r == Ok(Strip(GetName(d).value) + "." + GetName(d).value)
      ensures d.noindex ==> objects == old(objects)
      ensures !d.noindex ==>
                objects == old(objects)[Strip(GetName(d).value) + "." + GetName(d).value := Entry(docname, "module")]
                                       [GetName(d).value := Entry(docname, "module")]
    {
      var modname := GetName(d).value;
      scope := Some(Strip(modname));
      r := RunObject(d);
      if !d.noindex {
        objects := objects[modname := Entry(docname, "module")];
      }
    }

    /** `DClass.run`, shared by struct and interface directives: runs
        `DObject.run`, then appends "." + name to the scope, raising KeyError
        (with the registration kept) when no scope is open. */
    method RunClass(d: Directive) returns (r: Result<string, Error>)
      requires d.kind.IsClassLike()
      modifies this
      ensures After(Snapshot(), r) == ClassRun(old(Snapshot()), docname, d)
      ensures GetName(d).Err? ==> r == Err(IndexError) && scope == old(scope) && objects == old(objects)
      ensures GetName(d).Ok? ==>
                objects == Register(old(objects), d.noindex, FullName(old(scope), GetName(d).value), Entry(docname, ObjType(d.kind)))
      ensures GetName(d).Ok? && old(scope).None? ==> r == Err(KeyError) && scope == None
      ensures GetName(d).Ok? && old(scope).Some? ==>
                && r == Ok(old(scope).value + "." + GetName(d).value)
                && scope == Some(old(scope).value + "." + GetName(d).value)
    {
      r := RunObject(d);
      if r.Err? {
        return;
      }
      if scope.None? {
        r := Err(KeyError);
        return;
      }
      // the name `DObject.run` stored on the directive
      var name := GetName(d).value;
      scope := Some(scope.value + "." + name);
    }

    /** One directive, dispatched through the domain's directive table. */
    method Run(d: Directive) returns (r: Result<string, Error>)
      modifies this
      ensures After(Snapshot(), r) == DDecl.Run(old(Snapshot()), docname, d)
      ensures old(objects).Keys <= objects.Keys
    {
      match d.kind {
        case Module =>
          r := RunModule(d);
        case Class =>
          r := RunClass(d);
        case Struct =>
          r := RunClass(d);
        case Interface =>
          r := RunClass(d);
        case _ =>
          r := RunObject(d);
      }
    }
  }
}
