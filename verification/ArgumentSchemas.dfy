/** Collecting the schemas of a workflow template's parameters (parameter_schema.rs, ArgumentSchema). */
module ArgumentSchemas {
  import opened Json
  import opened SchemaMeaning
  import opened SchemaPreservation
  import opened Stitching
  import opened Text
  import opened Wrappers

  datatype Parameter = Parameter(
    name: string,
    description: Option<string>,
    options: seq<string>,
    value: Option<string>,
    fallback: Option<string>,  // the parameter's own "default"
    hasValueFrom: bool)

  datatype Template = Template(name: Option<string>, inputs: Option<seq<Parameter>>)

  datatype Spec = Spec(arguments: Option<seq<Parameter>>, entrypoint: Option<string>, templates: seq<Template>)

  /** An annotation that is present but holds no JSON; the error carries its key. */
  datatype Unparsable = Unparsable(annotation: string)

  /** The JSON reader the service uses; what it accepts is not part of this model. */
  type Parser = string -> Option<Json>

  // ---------------------------------------------------------------- the schema of one parameter

  function AnnotationKey(name: string): string {
    "workflows.diamond.ac.uk/parameter-schema." + name
  }

  function WithText(fields: map<string, Json>, key: string, text: Option<string>): map<string, Json> {
    match text
    case Some(s) => fields[key := Str(s)]
    case None => fields
  }

  /** The schema inferred for a parameter without annotation; its value is preferred over its default. */
  function Inferred(p: Parameter): Json {
    var typed := map["type" := Str("string")];
    var limited := if p.options == [] then typed
                   else typed["enum" := Arr(seq(|p.options|, i requires 0 <= i < |p.options| => Str(p.options[i])))];
    Obj(WithText(WithText(limited, "description", p.description), "default",
                 if p.value.Some? then p.value else p.fallback))
  }

  /** What an inferred schema says: a string, limited to the options if there are any, described if the parameter is,
      and with the parameter's value as its default, or else the parameter's own default. */
  predicate IsInferred(schema: Json, p: Parameter) {
    && schema.Obj? && schema.fields.Keys <= {"type", "enum", "description", "default"}
    && var fields := schema.fields;
       && "type" in fields && fields["type"] == Str("string")
       && ("enum" in fields <==> p.options != [])
       && ("enum" in fields ==> fields["enum"].Arr? && |fields["enum"].items| == |p.options|
                                && forall i | 0 <= i < |p.options| :: fields["enum"].items[i] == Str(p.options[i]))
       && ("description" in fields <==> p.description.Some?)
       && ("description" in fields ==> fields["description"] == Str(p.description.value))
       && ("default" in fields <==> p.value.Some? || p.fallback.Some?)
       && (p.value.Some? ==> fields["default"] == Str(p.value.value))
       && (p.value.None? && p.fallback.Some? ==> fields["default"] == Str(p.fallback.value))
  }

  lemma {:induction false} InferredFields(p: Parameter)
    ensures IsInferred(Inferred(p), p)
  {
  }

  /** An inferred schema has no references, so stitching always keeps its meaning. */
  lemma InferredIsMovable(p: Parameter, schema: Json)
    requires IsInferred(schema, p)
    ensures Movable(SchemaPlace, schema) && UsualRefs(SchemaPlace, schema)
    ensures Detached(SchemaPlace, schema)
  {
    var fields := schema.fields;
    assert |"type"| == 4 && |"default"| == 7 && |"description"| == 11;
    assert "enum"[0] != '$' && "type"[0] != '$' && "default"[0] != '$' && "description"[0] != '$' && REF[0] == '$';
    forall key | key in fields
      ensures MovableMember(SchemaPlace, key, fields[key]) && UsualRefsMember(SchemaPlace, key, fields[key])
      ensures DetachedMember(SchemaPlace, key, fields[key])
    {
      assert key != REF;
      if fields[key].Arr? {
        assert key == "enum" && forall i :: 0 <= i < |p.options| ==> fields[key].items[i].Str?;
        assert NoLocalRef(fields[key]);
      }
    }
  }

  // ---------------------------------------------------------------- all parameters

  /** The parameter needs a schema, and is stored under the name. */
  predicate Named(p: Parameter, name: string) {
    p.name == name && !p.hasValueFrom
  }

  /** The last parameter of that name. */
  ghost predicate IsLast(parameters: seq<Parameter>, name: string, i: int) {
    0 <= i < |parameters| && Named(parameters[i], name)
    && forall j :: i < j < |parameters| ==> !Named(parameters[j], name)
  }

  /** The annotation of the parameter as JSON; without one, the inferred schema. */
  ghost predicate IsSchemaOf(schema: Json, p: Parameter, annotations: map<string, string>, parse: Parser) {
    var key := "workflows.diamond.ac.uk/parameter-schema." + p.name;
    if key in annotations then parse(annotations[key]) == Some(schema) else IsInferred(schema, p)
  }

  /** The parameter has an annotation that is no JSON. */
  ghost predicate IsMisannotated(p: Parameter, annotations: map<string, string>, parse: Parser) {
    var key := "workflows.diamond.ac.uk/parameter-schema." + p.name;
    key in annotations && parse(annotations[key]) == None
  }

  /** The parameter needs a schema, and its annotation is no JSON. */
  ghost predicate IsUnreadable(p: Parameter, annotations: map<string, string>, parse: Parser) {
    !p.hasValueFrom && IsMisannotated(p, annotations, parse)
  }

  /** The schema stored under a name is that of the last parameter so named. */
  ghost predicate HoldsLast(schemas: map<string, Json>, parameters: seq<Parameter>, name: string,
                            annotations: map<string, string>, parse: Parser)
    requires name in schemas
  {
    exists i :: IsLast(parameters, name, i) && IsSchemaOf(schemas[name], parameters[i], annotations, parse)
  }

  /** Some parameter is stored under the name. */
  ghost predicate Mentions(parameters: seq<Parameter>, name: string) {
    exists i :: 0 <= i < |parameters| && Named(parameters[i], name)
  }

  /** Exactly the names of the parameters are there, each with the schema of its last one. */
  ghost predicate Collects(schemas: map<string, Json>, parameters: seq<Parameter>,
                           annotations: map<string, string>, parse: Parser)
  {
    && (forall name :: name in schemas <==> Mentions(parameters, name))
    && (forall name :: name in schemas ==> HoldsLast(schemas, parameters, name, annotations, parse))
  }

  ghost predicate AllReadable(parameters: seq<Parameter>, annotations: map<string, string>, parse: Parser) {
    forall i :: 0 <= i < |parameters| ==> !IsUnreadable(parameters[i], annotations, parse)
  }

  /** The error names the annotation of the first parameter that cannot be read. */
  ghost predicate FirstUnreadable(parameters: seq<Parameter>, annotations: map<string, string>, parse: Parser,
                                  error: Unparsable)
  {
    exists i ::
      && 0 <= i < |parameters| && AllReadable(parameters[..i], annotations, parse)
      && IsUnreadable(parameters[i], annotations, parse)
      && error.annotation == "workflows.diamond.ac.uk/parameter-schema." + parameters[i].name
  }

  /** The outcome for a list of parameters, all of them or up to the first that cannot be read. */
  ghost predicate IsOutcome(result: Result<map<string, Json>, Unparsable>, parameters: seq<Parameter>,
                            annotations: map<string, string>, parse: Parser)
  {
    match result
    case Ok(schemas) => AllReadable(parameters, annotations, parse) && Collects(schemas, parameters, annotations, parse)
    case Err(error) => FirstUnreadable(parameters, annotations, parse, error)
  }

  lemma {:induction false} CollectsOneMore(schemas: map<string, Json>, parameters: seq<Parameter>, p: Parameter,
                                           schema: Json, annotations: map<string, string>, parse: Parser)
    requires Collects(schemas, parameters, annotations, parse)
    requires !p.hasValueFrom && IsSchemaOf(schema, p, annotations, parse)
    ensures Collects(schemas[p.name := schema], parameters + [p], annotations, parse)
  {
    var more, after := parameters + [p], schemas[p.name := schema];
    forall name
      ensures name in after <==> Mentions(more, name)
    {
      if name == p.name {
        assert Named(more[|parameters|], name);
      } else if name in schemas {
        var i :| 0 <= i < |parameters| && Named(parameters[i], name);
        assert Named(more[i], name);
      }
    }
    forall name | name in after
      ensures HoldsLast(after, more, name, annotations, parse)
    {
      if name == p.name {
        assert IsLast(more, name, |parameters|);
      } else {
        StaysLast(schemas, parameters, p, name, annotations, parse);
        assert after[name] == schemas[name];
      }
    }
  }

  lemma {:induction false} StaysLast(schemas: map<string, Json>, parameters: seq<Parameter>, p: Parameter, name: string,
                                     annotations: map<string, string>, parse: Parser)
    requires name in schemas && HoldsLast(schemas, parameters, name, annotations, parse) && !Named(p, name)
    ensures HoldsLast(schemas, parameters + [p], name, annotations, parse)
  {
    var more := parameters + [p];
    var i :| IsLast(parameters, name, i) && IsSchemaOf(schemas[name], parameters[i], annotations, parse);
    assert IsLast(more, name, i) && more[i] == parameters[i];
  }

  lemma {:induction false} CollectsWithoutSource(schemas: map<string, Json>, parameters: seq<Parameter>, p: Parameter,
                                                 annotations: map<string, string>, parse: Parser)
    requires Collects(schemas, parameters, annotations, parse) && p.hasValueFrom
    ensures Collects(schemas, parameters + [p], annotations, parse)
  {
    var more := parameters + [p];
    forall name
      ensures name in schemas <==> Mentions(more, name)
    {
      if name in schemas {
        var i :| 0 <= i < |parameters| && Named(parameters[i], name);
        assert Named(more[i], name);
      }
    }
    forall name | name in schemas { StaysLast(schemas, parameters, p, name, annotations, parse); }
  }

  lemma {:induction false} OutcomeOneMore(earlier: map<string, Json>, schemas: map<string, Json>, seen: seq<Parameter>,
                                          p: Parameter, annotations: map<string, string>, parse: Parser)
    requires IsOutcome(Ok(earlier), seen, annotations, parse) && !IsUnreadable(p, annotations, parse)
    requires p.hasValueFrom ==> schemas == earlier
    requires !p.hasValueFrom ==>
               && p.name in schemas && schemas == earlier[p.name := schemas[p.name]]
               && IsSchemaOf(schemas[p.name], p, annotations, parse)
    ensures IsOutcome(Ok(schemas), seen + [p], annotations, parse)
  {
    if p.hasValueFrom {
      CollectsWithoutSource(schemas, seen, p, annotations, parse);
    } else {
      CollectsOneMore(earlier, seen, p, schemas[p.name], annotations, parse);
    }
  }

  lemma {:induction false} UnreadableHere(schemas: map<string, Json>, front: seq<Parameter>, p: Parameter,
                                          rest: seq<Parameter>, annotations: map<string, string>, parse: Parser,
                                          error: Unparsable)
    requires IsOutcome(Ok(schemas), front, annotations, parse) && IsUnreadable(p, annotations, parse)
    requires error.annotation == "workflows.diamond.ac.uk/parameter-schema." + p.name
    ensures IsOutcome(Err(error), front + [p] + rest, annotations, parse)
  {
    var all := front + [p] + rest;
    assert all[..|front|] == front && all[|front|] == p;
  }

  lemma {:induction false} UnreadableStaysFirst(front: seq<Parameter>, rest: seq<Parameter>,
                                                annotations: map<string, string>, parse: Parser, error: Unparsable)
    requires FirstUnreadable(front, annotations, parse, error)
    ensures FirstUnreadable(front + rest, annotations, parse, error)
  {
    var i :| && 0 <= i < |front| && AllReadable(front[..i], annotations, parse)
             && IsUnreadable(front[i], annotations, parse)
             && error.annotation == "workflows.diamond.ac.uk/parameter-schema." + front[i].name;
    assert (front + rest)[..i] == front[..i] && (front + rest)[i] == front[i];
  }

  class ArgumentSchema {
    var schemas: map<string, Json>

    constructor ()
      ensures schemas == map[]
    {
      schemas := map[];
    }

    method AddParameter(p: Parameter, annotations: map<string, string>, parse: Parser)
      returns (outcome: Result<(), Unparsable>)
      modifies this
      ensures outcome.Err? <==> IsMisannotated(p, annotations, parse)
      ensures outcome.Ok? ==>
                && p.name in schemas && schemas == old(schemas)[p.name := schemas[p.name]]
                && IsSchemaOf(schemas[p.name], p, annotations, parse)
      ensures outcome.Err? ==>
                && outcome.error.annotation == "workflows.diamond.ac.uk/parameter-schema." + p.name
                && schemas == old(schemas)
    {
      var annotation := AnnotationKey(p.name);
      var schema := Inferred(p);
      InferredFields(p);
      if annotation in annotations {
        var parsed := parse(annotations[annotation]);
        if parsed.None? {
          return Err(Unparsable(annotation));
        }
        schema := parsed.value;
      }
      schemas := schemas[p.name := schema];
      outcome := Ok(());
    }

    /** Adds the next parameter unless it has a value source. */
    method AddNext(p: Parameter, ghost seen: seq<Parameter>, ghost rest: seq<Parameter>,
                   annotations: map<string, string>, parse: Parser)
      returns (outcome: Result<(), Unparsable>)
      requires IsOutcome(Ok(schemas), seen, annotations, parse)
      modifies this
      ensures outcome.Ok? ==> IsOutcome(Ok(schemas), seen + [p], annotations, parse)
      ensures outcome.Err? ==> IsOutcome(Err(outcome.error), seen + [p] + rest, annotations, parse)
    {
      ghost var earlier := schemas;
      outcome := Ok(());
      if !p.hasValueFrom {
        outcome := AddParameter(p, annotations, parse);
        if outcome.Err? {
          UnreadableHere(earlier, seen, p, rest, annotations, parse, outcome.error);
          return;
        }
      }
      OutcomeOneMore(earlier, schemas, seen, p, annotations, parse);
    }

    /** Adds every parameter without a value source, stopping at the first unreadable annotation. */
    method AddAll(parameters: seq<Parameter>, ghost before: seq<Parameter>,
                  annotations: map<string, string>, parse: Parser)
      returns (outcome: Result<(), Unparsable>)
      requires IsOutcome(Ok(schemas), before, annotations, parse)
      modifies this
      ensures outcome.Ok? ==> IsOutcome(Ok(schemas), before + parameters, annotations, parse)
      ensures outcome.Err? ==> IsOutcome(Err(outcome.error), before + parameters, annotations, parse)
    {
      JoinedEnds(before, parameters);
      for i := 0 to |parameters|
        invariant IsOutcome(Ok(schemas), before + parameters[..i], annotations, parse)
      {
        JoinedAt(before, parameters, i);
        outcome := AddNext(parameters[i], before + parameters[..i], parameters[i + 1..], annotations, parse);
        if outcome.Err? {
          return;
        }
      }
      outcome := Ok(());
    }
  }

  lemma JoinedEnds(before: seq<Parameter>, parameters: seq<Parameter>)
    ensures before + parameters[..0] == before && before + parameters[..|parameters|] == before + parameters
  {
    assert parameters[..|parameters|] == parameters;
  }

  lemma JoinedAt(before: seq<Parameter>, parameters: seq<Parameter>, i: nat)
    requires i < |parameters|
    ensures before + parameters[..i + 1] == before + parameters[..i] + [parameters[i]]
    ensures before + parameters == before + parameters[..i] + [parameters[i]] + parameters[i + 1..]
  {
  }

  /** The first template whose name is the entrypoint. */
  ghost predicate IsEntry(templates: seq<Template>, entrypoint: string, i: int) {
    && 0 <= i < |templates| && templates[i].name == Some(entrypoint)
    && forall j :: 0 <= j < i ==> templates[j].name != Some(entrypoint)
  }

  method FindTemplate(templates: seq<Template>, entrypoint: string) returns (found: Option<Template>)
    ensures found.Some? ==> exists i :: IsEntry(templates, entrypoint, i) && found.value == templates[i]
    ensures found.None? ==> forall i :: !IsEntry(templates, entrypoint, i)
  {
    for i := 0 to |templates|
      invariant forall j :: 0 <= j < i ==> templates[j].name != Some(entrypoint)
    {
      if templates[i].name == Some(entrypoint) {
        assert IsEntry(templates, entrypoint, i);
        return Some(templates[i]);
      }
    }
    found := None;
  }

  /** These are the inputs of the entry template; without one, or if it has none, there are none. */
  ghost predicate AreInputs(inputs: seq<Parameter>, spec: Spec) {
    if spec.entrypoint.Some? && exists i :: IsEntry(spec.templates, spec.entrypoint.value, i) then
      exists i :: IsEntry(spec.templates, spec.entrypoint.value, i)
                  && inputs == ValueOrNone(spec.templates[i].inputs)
    else
      inputs == []
  }

  function ValueOrNone(parameters: Option<seq<Parameter>>): seq<Parameter> {
    if parameters.Some? then parameters.value else []
  }

  /**
   The schemas of a template's parameters, those of the arguments and then those of the entry template: exactly the
   names of the parameters without a value source, the last of a name winning. A schema is read from the parameter's
   annotation if it has one, and inferred otherwise; an annotation that is no JSON is the error.
   */
  method New(spec: Spec, annotations: map<string, string>, parse: Parser)
    returns (result: Result<map<string, Json>, Unparsable>)
    ensures exists inputs ::
              && AreInputs(inputs, spec)
              && IsOutcome(result, ValueOrNone(spec.arguments) + inputs, annotations, parse)
  {
    var schema := new ArgumentSchema();
    ghost var own := ValueOrNone(spec.arguments);
    var inputs := ReadInputs(spec);
    assert [] + own == own;
    if spec.arguments.Some? {
      var outcome := schema.AddAll(spec.arguments.value, [], annotations, parse);
      if outcome.Err? {
        UnreadableStaysFirst(own, inputs, annotations, parse, outcome.error);
        return Err(outcome.error);
      }
    }
    var outcome := schema.AddAll(inputs, own, annotations, parse);
    result := if outcome.Err? then Err(outcome.error) else Ok(schema.schemas);
    assert IsOutcome(result, own + inputs, annotations, parse);
  }

  method ReadInputs(spec: Spec) returns (inputs: seq<Parameter>)
    ensures AreInputs(inputs, spec)
  {
    inputs := [];
    if spec.entrypoint.Some? {
      var entry := FindTemplate(spec.templates, spec.entrypoint.value);
      if entry.Some? && entry.value.inputs.Some? {
        inputs := entry.value.inputs.value;
      }
    }
  }

  // ---------------------------------------------------------------- what is served

  lemma ServedFields(schemas: map<string, Json>)
    ensures Stitched(schemas).fields.Keys == {"type", "required", "properties"}
    ensures Stitched(schemas).fields["type"] == Str("object")
    ensures Stitched(schemas).fields["required"] == Arr(Required(schemas))
    ensures Stitched(schemas).fields["properties"] == Obj(Properties(schemas))
  {
  }

  lemma RequiredExactly(schemas: map<string, Json>)
    ensures forall name :: name in Properties(schemas) <==> Str(name) in Required(schemas)
    ensures var required := Required(schemas);
            && (forall i :: 0 <= i < |required| ==> required[i].Str?)
            && forall i, j :: 0 <= i < j < |required| ==> Less(required[i].s, required[j].s)
  {
    var names, required := Ascending(schemas.Keys), Required(schemas);
    forall name
      ensures name in Properties(schemas) <==> Str(name) in required
    {
      if name in schemas {
        assert name in names;
        var i :| 0 <= i < |names| && names[i] == name;
        assert required[i] == Str(name);
      }
    }
  }

  /** The served document describes an object and requires exactly the properties it declares, in ascending order. */
  lemma {:induction false} RequiredAreTheProperties(schemas: map<string, Json>)
    ensures Stitched(schemas).fields.Keys == {"type", "required", "properties"}
    ensures Stitched(schemas).fields["type"] == Str("object")
    ensures var served := Stitched(schemas).fields;
            served["required"].Arr? && served["properties"].Obj?
            && var required, properties := served["required"].items, served["properties"].fields;
               && (forall i :: 0 <= i < |required| ==> required[i].Str?)
               && (forall name :: name in properties <==> Str(name) in required)
               && forall i, j :: 0 <= i < j < |required| ==> Less(required[i].s, required[j].s)
  {
    ServedFields(schemas);
    RequiredExactly(schemas);
  }

  /**
   What a form reading the served document sees for a parameter: the meaning of the parameter's own schema, under any
   name when it was inferred; and, under a plain name, exactly when it is movable into the document.
   */
  lemma ServedMeaning(parameters: seq<Parameter>, annotations: map<string, string>, parse: Parser,
                      schemas: map<string, Json>, name: string)
    requires Collects(schemas, parameters, annotations, parse) && name in schemas
    ensures "workflows.diamond.ac.uk/parameter-schema." + name !in annotations ==> Preserved(schemas, name)
    ensures PlainName(name) && Comparable(Stitched(schemas), schemas[name], SchemaPlace, schemas[name]) ==>
              (Preserved(schemas, name) <==> MovableInto(Stitched(schemas), schemas[name], SchemaPlace, schemas[name]))
  {
    if PlainName(name) && Comparable(Stitched(schemas), schemas[name], SchemaPlace, schemas[name]) {
      PreservedExactly(schemas, name);
    }
    if "workflows.diamond.ac.uk/parameter-schema." + name !in annotations {
      assert HoldsLast(schemas, parameters, name, annotations, parse);
      var i :| IsLast(parameters, name, i) && IsSchemaOf(schemas[name], parameters[i], annotations, parse);
      InferredIsMovable(parameters[i], schemas[name]);
      DetachedIsPreserved(schemas, name);
    }
  }
}
