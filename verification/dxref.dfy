/**
  Cross-references of the D domain. A role stamps the scope open where the
  reference is written onto the reference node and encodes its target as
  "d:<type>:<target>"; resolution decodes the target and looks up first the
  bare target text, then the target qualified by the stamped scope, in the
  registry built by the directives.
 */
module DXRef {
  import opened Outcomes
  import opened PyStr
  import opened DDecl

  /** The reference node as far as resolution reads it: the stamped 'd:scope'. */
  datatype RefNode = RefNode(scope: Option<string>)

  /** What `process_link` produces: the stamped node, the title and the encoded target. */
  datatype Link = Link(node: RefNode, title: string, target: string)

  /** What a successful resolution hands to the link builder: the registry key
      that matched and the document it was declared in. */
  datatype Match = Match(name: string, docname: string)

  /** The target encoding of `process_link`. */
  function EncodeTarget(targetType: string, target: string): string
  {
    "d:" + targetType + ":" + target
  }

  /** `resolve_xref`'s `target.split(':')[2]`: the third colon-separated field,
      an IndexError when the target holds fewer than two colons. */
  function TargetName(target: string): (r: Result<string, Error>)
    ensures r.Ok? <==> Count(target, ':') >= 2
    ensures r.Err? ==> r.error == IndexError
    ensures r.Ok? ==> ':' !in r.value
  {
    var fields := Split(target, ':');
    if |fields| < 3 then Err(IndexError) else Ok(fields[2])
  }

  /** Decoding an encoded target gives back the user's target up to its first
      colon: the round trip is exact exactly when the target holds no colon. */
  lemma TargetRoundTrip(targetType: string, target: string)
    requires ':' !in targetType
    ensures TargetName(EncodeTarget(targetType, target)) == Ok(target[..Find(target, ':')])
  {
    var e := EncodeTarget(targetType, target);
    assert e == "d" + [':'] + (targetType + [':'] + target);
    SplitCons("d", ':', targetType + [':'] + target);
    SplitCons(targetType, ':', target);
    SplitFirst(target, ':');
  }

  /** `DXRefRole.process_link`: the node records the scope open at the reference
      (or none), the title is kept, and the target is encoded so that resolution
      decodes a colon-free target unchanged. */
  function ProcessLink(scope: Option<string>, targetType: string, title: string, target: string): (l: Link)
    ensures l.node == RefNode(scope) && l.title == title
    ensures ':' !in targetType && ':' !in target ==> TargetName(l.target) == Ok(target)
  {
    var encoded := EncodeTarget(targetType, target);
    if ':' !in targetType && ':' !in target then
      TargetRoundTrip(targetType, target);
      assert target[..Find(target, ':')] == target;
      Link(RefNode(scope), title, encoded)
    else
      Link(RefNode(scope), title, encoded)
  }

  /** The candidate loop: the position of the first name present in the registry,
      or `|names|` when none is. */
  function FirstPresent(objects: map<string, Entry>, names: seq<string>): (i: nat)
    ensures i <= |names|
    ensures forall j :: 0 <= j < i ==> names[j] !in objects
    ensures i < |names| ==> names[i] in objects
  {
    if names == [] || names[0] in objects then 0 else 1 + FirstPresent(objects, names[1..])
  }

  /** The second candidate: the target qualified by the stamped scope, or, with
      no scope stamped, the raw encoded target itself. */
  function ScopedCandidate(target: string, targetName: string, node: RefNode): string
  {
    if node.scope.None? then target else node.scope.value + "." + targetName
  }

  /** `DDomain.resolve_xref`: the bare target name wins over the scope-qualified
      one; absent both, there is no match (not an error). Only an encoded target
      with fewer than two colons raises. */
  function ResolveXref(objects: map<string, Entry>, targetType: string, target: string, node: RefNode)
    : (r: Result<Option<Match>, Error>)
    ensures r.Err? <==> TargetName(target).Err?
    ensures r.Err? ==> r.error == IndexError
    ensures r.Ok? ==>
              var bare := TargetName(target).value;
              var scoped := ScopedCandidate(target, bare, node);
              && (bare in objects ==> r.value == Some(Match(bare, objects[bare].docname)))
              && (bare !in objects && scoped in objects ==> r.value == Some(Match(scoped, objects[scoped].docname)))
              && (bare !in objects && scoped !in objects ==> r.value == None)
  {
    match TargetName(target)
    case Err(e) => Err(e)
    case Ok(targetName) =>
      var names := [targetName, ScopedCandidate(target, targetName, node)];
      var i := FirstPresent(objects, names);
      if i < |names| then Ok(Some(Match(names[i], objects[names[i]].docname)))
      else assert names[0] !in objects && names[1] !in objects; Ok(None)
  }

  /** The role's type never influences resolution. */
  lemma ResolveIgnoresType(objects: map<string, Entry>, type1: string, type2: string, target: string, node: RefNode)
    ensures ResolveXref(objects, type1, target, node) == ResolveXref(objects, type2, target, node)
  {
  }

  /** A reference written as `target` (no colon) under the open scope resolves to
      the bare name if it is registered, else to the scope-qualified name, else,
      with no scope open, to a key equal to the encoded target, else to nothing. */
  lemma {:induction false} LinkThenResolve(objects: map<string, Entry>, scope: Option<string>,
                                           targetType: string, title: string, target: string)
    requires ':' !in targetType && ':' !in target
    ensures var l := ProcessLink(scope, targetType, title, target);
            var scoped := if scope.Some? then scope.value + "." + target else EncodeTarget(targetType, target);
            var r := ResolveXref(objects, targetType, l.target, l.node);
            && r.Ok?
            && (target in objects ==> r.value == Some(Match(target, objects[target].docname)))
            && (target !in objects && scoped in objects ==> r.value == Some(Match(scoped, objects[scoped].docname)))
            && (target !in objects && scoped !in objects ==> r.value == None)
  {
    var l := ProcessLink(scope, targetType, title, target);
    assert TargetName(l.target) == Ok(target);
  }

  /** A symbol a directive has just registered inside an open scope can be
      referred to by its bare name from that same scope: the reference resolves,
      and, unless the bare name is itself a registry key, to the new entry. */
  lemma {:induction false} DeclaredIsResolvable(st: State, docname: string, d: Directive, targetType: string)
    requires d.kind != Module && !d.kind.IsClassLike() && !d.noindex
    requires st.scope.Some?
    requires GetName(d).Ok? && ':' !in GetName(d).value && ':' !in targetType
    ensures var name := GetName(d).value;
            var a := Run(st, docname, d);
            var l := ProcessLink(a.st.scope, targetType, name, name);
            var r := ResolveXref(a.st.objects, targetType, l.target, l.node);
            && r.Ok? && r.value.Some?
            && (name !in a.st.objects ==> r.value == Some(Match(st.scope.value + "." + name, docname)))
  {
    var name := GetName(d).value;
    var a := Run(st, docname, d);
    assert a.st.scope == st.scope;
    assert st.scope.value + "." + name in a.st.objects;
    LinkThenResolve(a.st.objects, a.st.scope, targetType, name, name);
  }

  /** A class-like symbol is not found by its bare name from the scope it opens:
      with scope `s` open, a class `c` is registered as "s.c" but opens scope
      "s.c", so a reference to `c` from there tries `c` and "s.c.c", neither
      of which the class registered. */
  lemma {:induction false} ClassNotFoundFromOwnScope(st: State, docname: string, d: Directive, targetType: string)
    requires d.kind.IsClassLike() && st.scope.Some?
    requires GetName(d).Ok? && ':' !in GetName(d).value && ':' !in targetType
    requires var name := GetName(d).value;
             name !in st.objects && st.scope.value + "." + name + "." + name !in st.objects
    ensures var name := GetName(d).value;
            var a := Run(st, docname, d);
            var l := ProcessLink(a.st.scope, targetType, name, name);
            && a.st.scope == Some(st.scope.value + "." + name)
            && ResolveXref(a.st.objects, targetType, l.target, l.node) == Ok(None)
  {
    var name := GetName(d).value;
    var s := st.scope.value;
    var a := Run(st, docname, d);
    FullNameParts(s, name);
    FullNameParts(s + "." + name, name);
    assert name !in a.st.objects;
    assert s + "." + name + "." + name !in a.st.objects;
    LinkThenResolve(a.st.objects, a.st.scope, targetType, name, name);
  }
}
