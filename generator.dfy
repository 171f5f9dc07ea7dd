/**
 * The generator's `Execute`: discover the message and service classes, then emit one
 * source unit per message (its descriptor and operations) followed by one per service
 * (an empty partial class), each under the hint name `{ClassName}.g.cs`. An exception,
 * from the type mapper or from the host refusing a hint name it has already received,
 * ends the run: later messages and all services get no unit.
 */
module Generator {
  import opened Wrappers
  import opened Syntax
  import opened TypeMapper
  import opened Descriptor
  import opened Discovery

  datatype GeneratedSource =
    | MessageSource(hintName: string, model: MessageModel)
    | ServiceSource(hintName: string, className: string)

  datatype GeneratorError =
    | TypeNotImplemented(cause: MappingError)  // thrown by GetType
    | DuplicateHintName(hintName: string)      // thrown by the host's AddSource

  /** A class to emit a unit for, and whether it is a message (true) or a service. */
  datatype Pending = Pending(decl: SyntaxNode, isMessage: bool)

  function HintName(className: string): (r: string)
  {
    className + ".g.cs"
  }

  function HintNames(sources: seq<GeneratedSource>): (r: seq<string>)
    ensures |r| == |sources|
  {
    seq(|sources|, i requires 0 <= i < |sources| => sources[i].hintName)
  }

  predicate Distinct(names: seq<string>)
  {
    forall i, j :: 0 <= i < j < |names| ==> names[i] != names[j]
  }

  /** The classes in the order the two loops of Execute visit them: messages, then services. */
  function ScheduleOf(messages: seq<SyntaxNode>, services: seq<SyntaxNode>): (r: seq<Pending>)
    ensures |r| == |messages| + |services|
    ensures forall i :: 0 <= i < |messages| ==> r[i] == Pending(messages[i], true)
    ensures forall j :: 0 <= j < |services| ==> r[|messages| + j] == Pending(services[j], false)
  {
    seq(|messages|, i requires 0 <= i < |messages| => Pending(messages[i], true))
      + seq(|services|, i requires 0 <= i < |services| => Pending(services[i], false))
  }

  function Schedule(compilation: Compilation): seq<Pending>
  {
    ScheduleOf(GetGrpcMessages(compilation), GetGrpcServices(compilation))
  }

  /** `source` is the unit emitted for `p`. */
  predicate EmittedFor(source: GeneratedSource, p: Pending)
  {
    if p.isMessage then
      && source.MessageSource?
      && source.hintName == HintName(p.decl.identifier)
      && Describes(source.model, p.decl.identifier, p.decl.properties)
    else
      source == ServiceSource(HintName(p.decl.identifier), p.decl.identifier)
  }

  /** `error` is what emitting `p` throws after the units `before`. */
  predicate FailsWith(p: Pending, before: seq<GeneratedSource>, error: GeneratorError)
  {
    if p.isMessage && !AllSupported(p.decl.properties) then
      && error.TypeNotImplemented?
      && exists k :: 0 <= k < |p.decl.properties|
           && GetType(p.decl.properties[k].declaredType) == Err(error.cause)
           && forall j :: 0 <= j < k ==> GetType(p.decl.properties[j].declaredType).Ok?
    else
      error == DuplicateHintName(HintName(p.decl.identifier)) && HintName(p.decl.identifier) in HintNames(before)
  }

  /**
   * `context.AddSource`: the host keeps the unit unless its hint name was already
   * added by this generator, in which case it throws.
   */
  function AddSource(sources: seq<GeneratedSource>, source: GeneratedSource): (r: Result<seq<GeneratedSource>, GeneratorError>)
    requires Distinct(HintNames(sources))
    ensures r.Ok? <==> source.hintName !in HintNames(sources)
    ensures r.Ok? ==> |r.value| == |sources| + 1 && r.value[..|sources|] == sources && r.value[|sources|] == source
    ensures r.Ok? ==> Distinct(HintNames(r.value))
    ensures r.Err? ==> r.error == DuplicateHintName(source.hintName)
  {
    if source.hintName in HintNames(sources) then Err(DuplicateHintName(source.hintName))
    else
      var r := sources + [source];
      assert HintNames(r) == HintNames(sources) + [source.hintName];
      Ok(r)
  }

  /**
   * The two loops of the run: the units emitted are those of the scheduled classes, in
   * schedule order, under pairwise distinct hint names; the loops complete exactly when
   * every scheduled class got its unit, and otherwise stop at the first class whose unit
   * throws, with that exception.
   */
  method EmitUnits(messages: seq<SyntaxNode>, services: seq<SyntaxNode>)
    returns (sources: seq<GeneratedSource>, error: Option<GeneratorError>)
    ensures |sources| <= |ScheduleOf(messages, services)|
    ensures forall i :: 0 <= i < |sources| ==> EmittedFor(sources[i], ScheduleOf(messages, services)[i])
    ensures Distinct(HintNames(sources))
    ensures error.None? <==> |sources| == |ScheduleOf(messages, services)|
    ensures error.Some? ==> FailsWith(ScheduleOf(messages, services)[|sources|], sources, error.value)
  {
    ghost var schedule := ScheduleOf(messages, services);
    sources := [];
    var i := 0;
    while i < |messages|
      invariant 0 <= i <= |messages|
      invariant |sources| == i
      invariant forall k :: 0 <= k < i ==> EmittedFor(sources[k], schedule[k])
      invariant Distinct(HintNames(sources))
    {
      var message := messages[i];
      var className := message.identifier;
      var model := BuildMessage(className, message.properties);
      if model.Err? {
        return sources, Some(TypeNotImplemented(model.error));
      }
      var added := AddSource(sources, MessageSource(HintName(className), model.value));
      if added.Err? {
        return sources, Some(added.error);
      }
      sources := added.value;
      i := i + 1;
    }
    var j := 0;
    while j < |services|
      invariant 0 <= j <= |services|
      invariant |sources| == |messages| + j
      invariant forall k :: 0 <= k < |sources| ==> EmittedFor(sources[k], schedule[k])
      invariant Distinct(HintNames(sources))
    {
      var className := services[j].identifier;
      var added := AddSource(sources, ServiceSource(HintName(className), className));
      if added.Err? {
        return sources, Some(added.error);
      }
      sources := added.value;
      j := j + 1;
    }
    return sources, None;
  }

  /** `Execute`: discover the messages and the services, then emit their units. */
  method Execute(compilation: Compilation) returns (sources: seq<GeneratedSource>, error: Option<GeneratorError>)
    ensures |sources| <= |Schedule(compilation)|
    ensures forall i :: 0 <= i < |sources| ==> EmittedFor(sources[i], Schedule(compilation)[i])
    ensures Distinct(HintNames(sources))
    ensures error.None? <==> |sources| == |Schedule(compilation)|
    ensures error.Some? ==> FailsWith(Schedule(compilation)[|sources|], sources, error.value)
  {
    var messages := GetGrpcMessages(compilation);
    var services := GetGrpcServices(compilation);
    sources, error := EmitUnits(messages, services);
  }

  /**
   * A class in both the message and the service list (one marked both `GrpcMessage`
   * and `GrpcService`, see Discovery.BothAttributesInBothLists) is scheduled twice under
   * the same hint name, so no run can emit the whole schedule: the run ends with an error.
   */
  lemma BothAttributesNeverComplete(messages: seq<SyntaxNode>, services: seq<SyntaxNode>, node: SyntaxNode, sources: seq<GeneratedSource>)
    requires node in messages && node in services
    requires |sources| == |ScheduleOf(messages, services)|
    requires forall i :: 0 <= i < |sources| ==> EmittedFor(sources[i], ScheduleOf(messages, services)[i])
    ensures !Distinct(HintNames(sources))
  {
    var a :| 0 <= a < |messages| && messages[a] == node;
    var b :| 0 <= b < |services| && services[b] == node;
    var schedule := ScheduleOf(messages, services);
    assert schedule[a] == Pending(node, true);
    assert schedule[|messages| + b] == Pending(node, false);
    assert HintNames(sources)[a] == HintNames(sources)[|messages| + b];
  }
}
