/**
 Stitching the schemas of many parameters into one document (parameter_schema.rs).

 Each parameter's schema moves under "/properties/<name>", and UpdateRefs rewrites its local
 references in place.
 */
module Stitching {
  import opened Json
  import opened Text

  const REF := "$ref"
  const LOCAL := "#/"

  // ---------------------------------------------------------------- rewriting

  predicate IsLocal(v: Json) {
    v.Str? && LOCAL <= v.s
  }

  function Relocated(ref: string, prefix: string): string
    requires LOCAL <= ref
  {
    "#/properties/" + prefix + "/" + ref[2..]
  }

  lemma RelocatedIsLonger(ref: string, prefix: string)
    requires LOCAL <= ref
    ensures |Relocated(ref, prefix)| > |ref|
  {
  }

  /** The value with every local "$ref" string moved below the prefix. */
  function Rewritten(v: Json, prefix: string): Json
    decreases v, 0
  {
    match v
    case Obj(fields) => Obj(map key | key in fields :: RewrittenMember(key, fields[key], prefix))
    case Arr(items) => Arr(seq(|items|, i requires 0 <= i < |items| => Rewritten(items[i], prefix)))
    case _ => v
  }

  function RewrittenMember(key: string, v: Json, prefix: string): Json
    decreases v, 1
  {
    if key == REF && IsLocal(v) then Str(Relocated(v.s, prefix)) else Rewritten(v, prefix)
  }

  /** A parameter's schema, which the source edits in place. */
  class Schema {
    var value: Json

    constructor (value: Json)
      ensures this.value == value
    {
      this.value := value;
    }

    method UpdateRefs(prefix: string)
      modifies this
      ensures value == Rewritten(old(value), prefix)
    {
      value := DoUpdate(value, prefix);
    }
  }

  /** The walk of update_refs: the "$ref" string of an object first, then every value in it. */
  method DoUpdate(value: Json, prefix: string) returns (updated: Json)
    ensures updated == Rewritten(value, prefix)
    decreases value
  {
    match value {
      case Obj(original) =>
        var schema := original;
        if REF in schema && IsLocal(schema[REF]) {
          schema := schema[REF := Str(Relocated(schema[REF].s, prefix))];
        }
        var pending := schema.Keys;
        while pending != {}
          invariant schema.Keys == original.Keys && pending <= original.Keys
          invariant forall key | key in pending && (key != REF || !IsLocal(original[key])) ::
                      schema[key] == original[key]
          invariant REF in pending && IsLocal(original[REF]) ==>
                      schema[REF] == RewrittenMember(REF, original[REF], prefix)
          invariant forall key :: key in original && key !in pending ==>
                                    schema[key] == RewrittenMember(key, original[key], prefix)
          decreases pending
        {
          var key :| key in pending;
          if !schema[key].Str? {  // strings have nothing below them to update
            var inner := DoUpdate(schema[key], prefix);
            schema := schema[key := inner];
          }
          pending := pending - {key};
        }
        updated := Obj(schema);
      case Arr(items) =>
        var changed: seq<Json> := [];
        for i := 0 to |items|
          invariant |changed| == i
          invariant forall j :: 0 <= j < i ==> changed[j] == Rewritten(items[j], prefix)
        {
          var item := DoUpdate(items[i], prefix);
          changed := changed + [item];
        }
        updated := Arr(changed);
      case _ =>
        updated := value;
    }
  }

  ghost function Required(schemas: map<string, Json>): seq<Json> {
    var names := Ascending(schemas.Keys);
    seq(|names|, i requires 0 <= i < |names| => Str(names[i]))
  }

  function Properties(schemas: map<string, Json>): map<string, Json> {
    map name | name in schemas :: Rewritten(schemas[name], name)
  }

  /** The document served for a template: `impl From<ArgumentSchema> for Schema`. */
  ghost function Stitched(schemas: map<string, Json>): Json {
    Obj(map["type" := Str("object"), "required" := Arr(Required(schemas)), "properties" := Obj(Properties(schemas))])
  }
}
