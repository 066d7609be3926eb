/** `ResourceContainer.subResources`: one accessor method per sub-resource, taking
    the sub-resource's own path variables as arguments and forwarding every path
    variable of its full URI to the sub-resource's request builder. */
module PySubResources {
  import Text

  /** A sub-resource: `getMethodName()`, `toRequestBuilderName()`, and the
      variables of its relative and of its full URI template. */
  datatype Resource = Resource(
    methodName: string,
    builderName: string,
    relativeVariables: seq<string>,
    fullVariables: seq<string>)

  /** How one builder argument is passed: from the accessor's own argument, or
      from the value the current builder already holds. */
  datatype Forward = FromArg(name: string) | FromSelf(name: string)

  /** What is rendered for one sub-resource. */
  datatype Accessor = Accessor(
    name: string,
    args: string,
    returnType: string,
    forwards: seq<Forward>,
    assignments: seq<string>,
    client: string)

  /** The accessor's parameter list. */
  function Args(relative: seq<string>, snake: string -> string): string
  {
    if relative != [] then
      "self, " + Text.Join(Text.Map((v: string) => snake(v) + ": str", relative), ", ")
    else "self"
  }

  /** The relative variables first, then the full-URI variables not among them. */
  function Forwards(r: Resource): seq<Forward>
  {
    Text.Map((v: string) => FromArg(v), r.relativeVariables)
    + Text.Map((v: string) => FromSelf(v), Text.Minus(r.fullVariables, r.relativeVariables))
  }

  function Assignment(f: Forward, snake: string -> string): string
  {
    match f
    case FromArg(v) => snake(v) + "=" + snake(v) + ","
    case FromSelf(v) => snake(v) + "=self._" + snake(v) + ","
  }

  function RenderAccessor(r: Resource, clientName: string, snake: string -> string): Accessor
  {
    var fs := Forwards(r);
    Accessor(snake(r.methodName), Args(r.relativeVariables, snake), r.builderName, fs,
             Text.Map((f: Forward) => Assignment(f, snake), fs), clientName)
  }

  /** `subResources(clientName)`: one accessor per sub-resource, in resource order
      (the rendered accessors are then joined with newlines). */
  function SubResources(resources: seq<Resource>, clientName: string, snake: string -> string): seq<Accessor>
  {
    Text.Map((r: Resource) => RenderAccessor(r, clientName, snake), resources)
  }

  /** The accessor takes `self` alone exactly when the relative URI has no variables;
      otherwise its parameters follow "self, ". */
  lemma ArgsSelfAlone(relative: seq<string>, snake: string -> string)
    ensures Args(relative, snake) == "self" <==> relative == []
    ensures relative != [] ==> Text.StartsWith(Args(relative, snake), "self, ")
  {
    if relative != [] {
      var a := Args(relative, snake);
      assert |a| >= 6;
      assert a[..6] == "self, ";
    }
  }

  /** The relative variables are forwarded first, each from its argument; then come
      the variables only the full URI has, each from `self`. Every full-URI
      variable is forwarded, and no variable is forwarded both ways. */
  lemma ForwardsPartition(r: Resource)
    ensures var fs := Forwards(r);
      && |fs| == |r.relativeVariables| + |Text.Minus(r.fullVariables, r.relativeVariables)|
      && (forall i :: 0 <= i < |r.relativeVariables| ==> fs[i] == FromArg(r.relativeVariables[i]))
      && (forall i :: |r.relativeVariables| <= i < |fs| ==> fs[i].FromSelf?)
      && (forall v :: FromSelf(v) in fs <==> v in r.fullVariables && v !in r.relativeVariables)
      && (forall v :: FromArg(v) in fs <==> v in r.relativeVariables)
      && (forall v :: v in r.fullVariables ==> FromArg(v) in fs || FromSelf(v) in fs)
      && (forall v :: !(FromArg(v) in fs && FromSelf(v) in fs))
  {
    var rel := r.relativeVariables;
    var extra := Text.Minus(r.fullVariables, rel);
    var args := Text.Map((v: string) => FromArg(v), rel);
    var selfs := Text.Map((v: string) => FromSelf(v), extra);
    var fs := Forwards(r);
    assert fs == args + selfs;
    forall v ensures FromSelf(v) in fs <==> v in extra {
      if FromSelf(v) in fs {
        var i :| 0 <= i < |fs| && fs[i] == FromSelf(v);
        assert i >= |args|;
        assert selfs[i - |args|] == FromSelf(extra[i - |args|]);
      }
      if v in extra {
        var i :| 0 <= i < |extra| && extra[i] == v;
        assert fs[|args| + i] == FromSelf(v);
      }
    }
    forall v ensures FromArg(v) in fs <==> v in rel {
      if FromArg(v) in fs {
        var i :| 0 <= i < |fs| && fs[i] == FromArg(v);
        assert i < |args|;
      }
      if v in rel {
        var i :| 0 <= i < |rel| && rel[i] == v;
        assert fs[i] == FromArg(v);
      }
    }
  }

  /** One accessor per sub-resource, in order; each is named after the snake-cased
      method name, returns the sub-resource's builder, passes `client=clientName`,
      and renders one assignment per forwarded variable. */
  lemma SubResourcesShape(resources: seq<Resource>, clientName: string, snake: string -> string)
    ensures var acc := SubResources(resources, clientName, snake);
      && |acc| == |resources|
      && forall i :: 0 <= i < |acc| ==>
           && acc[i].name == snake(resources[i].methodName)
           && acc[i].returnType == resources[i].builderName
           && acc[i].client == clientName
           && acc[i].forwards == Forwards(resources[i])
           && |acc[i].assignments| == |acc[i].forwards|
           && (forall k :: 0 <= k < |acc[i].forwards| && acc[i].forwards[k].FromSelf? ==>
                 Text.EndsWith(acc[i].assignments[k], "=self._" + snake(acc[i].forwards[k].name) + ","))
  {
    var acc := SubResources(resources, clientName, snake);
    forall i, k | 0 <= i < |acc| && 0 <= k < |acc[i].forwards| && acc[i].forwards[k].FromSelf?
      ensures Text.EndsWith(acc[i].assignments[k], "=self._" + snake(acc[i].forwards[k].name) + ",")
    {
      var v := acc[i].forwards[k].name;
      var a := acc[i].assignments[k];
      assert a == snake(v) + ("=self._" + snake(v) + ",");
    }
  }
}
