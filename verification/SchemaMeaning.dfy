/**
 What a JSON Schema means wherever it is stored, and when stitching keeps that meaning.

 A schema is read through its references: Unfold follows every "$ref" at a place where a schema is
 expected (section 8.2.3.1 of JSON Schema Core, draft 2020-12) up to k times in a row. Two schemas
 mean the same when they unfold to the same tree for every k. Values under "const", "enum",
 "default" and "examples" are data, not schemas.
 */
module SchemaMeaning {
  import opened Json
  import opened Stitching
  import opened Text
  import opened Wrappers

  // ---------------------------------------------------------------- places

  datatype Place =
    | SchemaPlace  // a schema stands here
    | MapPlace     // an object from names to schemas stands here
    | DataPlace    // plain data

  function ChildPlace(place: Place, key: string): Place {
    match place
    case SchemaPlace =>
      if key in {"const", "enum", "default", "examples"} then DataPlace
      else if key in {"properties", "patternProperties", "$defs", "definitions", "dependentSchemas"} then MapPlace
      else SchemaPlace
    case MapPlace => SchemaPlace
    case DataPlace => DataPlace
  }

  /** The value a pointer leads to, and the kind of place it stands at. */
  function At(place: Place, v: Json, tokens: seq<string>): Option<(Place, Json)>
    decreases |tokens|
  {
    if tokens == [] then Some((place, v))
    else
      match Member(v, tokens[0])
      case Some(inner) => At(if v.Obj? then ChildPlace(place, tokens[0]) else place, inner, tokens[1..])
      case None => None
  }

  /** The schema a pointer leads to; a schema is an object or a boolean. */
  function SchemaAt(root: Json, tokens: seq<string>): Option<Json> {
    SchemaFound(At(SchemaPlace, root, tokens))
  }

  function SchemaFound(found: Option<(Place, Json)>): Option<Json> {
    match found
    case Some((place, v)) => if place.SchemaPlace? && (v.Obj? || v.Bool?) then Some(v) else None
    case None => None
  }

  // ---------------------------------------------------------------- unfolding

  datatype Meaning =
    | Cut                                   // a reference not followed any further
    | Dangling                              // a reference to no schema of this document
    | External(ref: string)                 // a reference out of this document
    | Follows(target: Meaning)              // a reference, and what it leads to
    | Verbatim(v: Json)
    | Sequence(items: seq<Meaning>)
    | Members(fields: map<string, Meaning>)

  lemma InnerMemberDiffers(m: Meaning, outer: string, inner: string)
    requires m.Members? && outer in m.fields && m.fields[outer].Members? && inner in m.fields[outer].fields
    ensures m.fields[outer].fields[inner] != m
  {
    var middle := m.fields[outer];
    assert middle < m;
    assert middle.fields[inner] < middle;
  }

  function Unfold(root: Json, place: Place, v: Json, k: nat): Meaning
    decreases k, v, 0
  {
    if place.DataPlace? then Verbatim(v)
    else
      match v
      case Obj(fields) => Members(map key | key in fields :: UnfoldMember(root, place, key, fields[key], k))
      case Arr(items) => Sequence(seq(|items|, i requires 0 <= i < |items| => Unfold(root, place, items[i], k)))
      case _ => Verbatim(v)
  }

  function UnfoldMember(root: Json, place: Place, key: string, v: Json, k: nat): Meaning
    decreases k, v, 2
  {
    if place.SchemaPlace? && key == REF && v.Str? then Follow(root, v, k)
    else Unfold(root, ChildPlace(place, key), v, k)
  }

  function Follow(root: Json, ref: Json, k: nat): Meaning
    requires ref.Str?
    decreases k, ref, 1
  {
    FollowReference(root, ReadReference(ref.s), ref, k)
  }

  function FollowReference(root: Json, reference: Reference, ref: Json, k: nat): Meaning
    requires ref.Str?
    decreases k, ref, 0
  {
    if reference.Elsewhere? then External(ref.s)
    else
      match Target(root, reference)
      case None => Dangling
      case Some(target) => if k == 0 then Cut else Follows(Unfold(root, SchemaPlace, target, k - 1))
  }

  function Target(root: Json, reference: Reference): Option<Json> {
    match reference
    case Pointer(tokens) => SchemaAt(root, tokens)
    case _ => None
  }

  /** The stitched copy of a parameter's schema means what the schema means on its own. */
  ghost predicate Preserved(schemas: map<string, Json>, name: string)
    requires name in schemas
  {
    forall k: nat ::
      Unfold(Stitched(schemas), SchemaPlace, Rewritten(schemas[name], name), k)
      == Unfold(schemas[name], SchemaPlace, schemas[name], k)
  }

  // ---------------------------------------------------------------- the limits of the code

  /** A name that reads as itself inside a pointer. */
  predicate PlainName(name: string) {
    '/' !in name && '~' !in name && '%' !in name
  }

  /** No local "$ref" string anywhere, so that rewriting leaves the value as it is. */
  predicate NoLocalRef(v: Json) {
    match v
    case Obj(fields) =>
      !(REF in fields && IsLocal(fields[REF])) && forall key :: key in fields ==> NoLocalRef(fields[key])
    case Arr(items) => forall i :: 0 <= i < |items| ==> NoLocalRef(items[i])
    case _ => true
  }

  /**
   Every reference of the schema that points into its own document begins with "#/", and nothing
   that is not a reference looks like one.
   */
  predicate Movable(place: Place, v: Json)
    decreases v, 0
  {
    if place.DataPlace? then NoLocalRef(v)
    else
      match v
      case Obj(fields) => forall key :: key in fields ==> MovableMember(place, key, fields[key])
      case Arr(items) => forall i :: 0 <= i < |items| ==> Movable(place, items[i])
      case _ => true
  }

  predicate MovableMember(place: Place, key: string, v: Json)
    decreases v, 1
  {
    if key == REF && v.Str? then
      if place.SchemaPlace? then ReadReference(v.s).Pointer? ==> IsLocal(v) else !IsLocal(v)
    else Movable(ChildPlace(place, key), v)
  }

  /** References into the document are written either as the whole document ("" or "#") or from "#/". */
  predicate UsualRefs(place: Place, v: Json)
    decreases v, 0
  {
    match v
    case Obj(fields) => forall key :: key in fields ==> UsualRefsMember(place, key, fields[key])
    case Arr(items) => forall i :: 0 <= i < |items| ==> UsualRefs(place, items[i])
    case _ => true
  }

  predicate UsualRefsMember(place: Place, key: string, v: Json)
    decreases v, 1
  {
    if place.SchemaPlace? && key == REF && v.Str? then
      var target := ReadReference(v.s);
      target.Pointer? ==> IsLocal(v) || target.tokens == []
    else UsualRefs(ChildPlace(place, key), v)
  }

  /** The reference finds no schema, neither in the served document nor in the schema's own. */
  predicate LeadsNowhere(root: Json, schema: Json, ref: string) {
    Target(root, ReadReference(ref)).None? && Target(schema, ReadReference(ref)).None?
  }

  /** Movable into that document: a reference into the schema's own document begins with "#/", or leads nowhere. */
  predicate MovableInto(root: Json, schema: Json, place: Place, v: Json)
    decreases v, 0
  {
    if place.DataPlace? then NoLocalRef(v)
    else
      match v
      case Obj(fields) => forall key :: key in fields ==> MovableIntoMember(root, schema, place, key, fields[key])
      case Arr(items) => forall i :: 0 <= i < |items| ==> MovableInto(root, schema, place, items[i])
      case _ => true
  }

  predicate MovableIntoMember(root: Json, schema: Json, place: Place, key: string, v: Json)
    decreases v, 1
  {
    if key == REF && v.Str? then
      if place.SchemaPlace? then ReadReference(v.s).Pointer? ==> IsLocal(v) || LeadsNowhere(root, schema, v.s)
      else !IsLocal(v)
    else MovableInto(root, schema, ChildPlace(place, key), v)
  }

  /** No reference that stays as it is, and is not to the whole document, finds a schema in both documents. */
  predicate Comparable(root: Json, schema: Json, place: Place, v: Json)
    decreases v, 0
  {
    match v
    case Obj(fields) => forall key :: key in fields ==> ComparableMember(root, schema, place, key, fields[key])
    case Arr(items) => forall i :: 0 <= i < |items| ==> Comparable(root, schema, place, items[i])
    case _ => true
  }

  predicate ComparableMember(root: Json, schema: Json, place: Place, key: string, v: Json)
    decreases v, 1
  {
    if place.SchemaPlace? && key == REF && v.Str? then
      var target := ReadReference(v.s);
      target.Pointer? ==>
        IsLocal(v) || target.tokens == [] || Target(root, target).None? || Target(schema, target).None?
    else Comparable(root, schema, ChildPlace(place, key), v)
  }

  /** What is movable is movable into every document. */
  lemma {:induction false} MovableAnywhere(root: Json, schema: Json, place: Place, v: Json)
    requires Movable(place, v)
    ensures MovableInto(root, schema, place, v)
    decreases v
  {
    if !place.DataPlace? {
      match v
      case Obj(fields) =>
        forall key | key in fields
          ensures MovableIntoMember(root, schema, place, key, fields[key])
        {
          assert MovableMember(place, key, fields[key]);
          if key != REF || !fields[key].Str? { MovableAnywhere(root, schema, ChildPlace(place, key), fields[key]); }
        }
      case Arr(items) =>
        forall i | 0 <= i < |items| { MovableAnywhere(root, schema, place, items[i]); }
      case _ =>
    }
  }

  // ---------------------------------------------------------------- reading a relocated reference

  function Deeper(front: seq<string>, reference: Reference): Reference {
    match reference
    case Pointer(tokens) => Pointer(front + tokens)
    case other => other
  }

  lemma {:induction false} PointerFront(name: string, rest: string)
    requires '/' !in name && '~' !in name
    ensures ReadPointer("/" + name + "/" + rest) == Deeper([name], ReadPointer("/" + rest))
  {
    assert ("/" + rest)[1..] == rest;
    assert ("/" + name + "/" + rest)[1..] == name + ['/'] + rest;
    SplitFront(name, '/', rest);
    var tokens := Split(rest, '/');
    assert ([name] + tokens)[1..] == tokens;
  }

  lemma PropertyText(name: string, rest: string)
    ensures "/properties/" + name + "/" + rest == "/" + "properties" + "/" + (name + "/" + rest)
    ensures "/" + name + "/" + rest == "/" + (name + "/" + rest)
  {
    assert "/properties/" == "/" + "properties" + "/";
  }

  lemma DeeperTwice(a: string, b: string, reference: Reference)
    ensures Deeper([a], Deeper([b], reference)) == Deeper([a, b], reference)
  {
    if reference.Pointer? { assert [a] + ([b] + reference.tokens) == [a, b] + reference.tokens; }
  }

  lemma {:induction false} PropertyPointer(name: string, rest: string)
    requires '/' !in name && '~' !in name
    ensures ReadPointer("/properties/" + name + "/" + rest) == Deeper(["properties", name], ReadPointer("/" + rest))
  {
    var below := name + "/" + rest;
    calc {
      ReadPointer("/properties/" + name + "/" + rest);
      { PropertyText(name, rest); }
      ReadPointer("/" + "properties" + "/" + below);
      { PointerFront("properties", below); }
      Deeper(["properties"], ReadPointer("/" + below));
      { PropertyText(name, rest); }
      Deeper(["properties"], ReadPointer("/" + name + "/" + rest));
      { PointerFront(name, rest); }
      Deeper(["properties"], Deeper([name], ReadPointer("/" + rest)));
      { DeeperTwice("properties", name, ReadPointer("/" + rest)); }
      Deeper(["properties", name], ReadPointer("/" + rest));
    }
  }

  lemma {:induction false} PropertyFragment(name: string, key: string)
    requires PlainName(name)
    ensures ReadFragment("/properties/" + name + "/" + key) == Deeper(["properties", name], ReadFragment("/" + key))
  {
    PercentDecodeFront("/", key);
    PercentDecodeFront("/properties/" + name + "/", key);
    if PercentDecode(key).Some? { PropertyPointer(name, PercentDecode(key).value); }
  }

  lemma {:induction false} LocalFragment(key: string)
    ensures !ReadFragment("/" + key).Elsewhere?
    ensures ReadFragment("/" + key).Pointer? ==> ReadFragment("/" + key).tokens != []
  {
    PercentDecodeFront("/", key);
  }

  /** The relocated reference points below "/properties/<name>" exactly where the original pointed from the root. */
  lemma {:induction false} RelocatedReference(ref: string, name: string)
    requires LOCAL <= ref && PlainName(name)
    ensures !ReadReference(ref).Elsewhere?
    ensures ReadReference(ref).Pointer? ==> ReadReference(ref).tokens != []
    ensures ReadReference(Relocated(ref, name)) == Deeper(["properties", name], ReadReference(ref))
  {
    var key := ref[2..];
    assert ref[1..] == "/" + key;
    assert Relocated(ref, name)[1..] == "/properties/" + name + "/" + key;
    LocalFragment(key);
    PropertyFragment(name, key);
  }

  // ---------------------------------------------------------------- rewriting and pointers

  /** What a pointer finds in a value and in its rewritten form: the same kind of place, the rewritten value. */
  ghost predicate Corresponds(before: Option<(Place, Json)>, after: Option<(Place, Json)>, prefix: string) {
    match (before, after)
    case (None, None) => true
    case (Some((p, v)), Some((q, w))) => p == q && (w == Rewritten(v, prefix) || (v.Str? && w.Str?))
    case _ => false
  }

  lemma RewrittenMemberOf(v: Json, token: string, prefix: string)
    ensures Member(v, token).Some? <==> Member(Rewritten(v, prefix), token).Some?
    ensures Member(v, token).Some? ==>
              var inner, moved := Member(v, token).value, Member(Rewritten(v, prefix), token).value;
              moved == Rewritten(inner, prefix) || (inner.Str? && moved.Str?)
  {
  }

  lemma StringAt(place: Place, v: Json, tokens: seq<string>)
    requires v.Str?
    ensures At(place, v, tokens) == if tokens == [] then Some((place, v)) else None
  {
  }

  /** Rewriting keeps the shape of a value, so following a pointer and rewriting commute. */
  lemma {:induction false} RewritingCommutesWithPointers(place: Place, v: Json, tokens: seq<string>, prefix: string)
    ensures Corresponds(At(place, v, tokens), At(place, Rewritten(v, prefix), tokens), prefix)
    decreases |tokens|
  {
    if tokens != [] {
      RewrittenMemberOf(v, tokens[0], prefix);
      if Member(v, tokens[0]).Some? {
        var inner, moved := Member(v, tokens[0]).value, Member(Rewritten(v, prefix), tokens[0]).value;
        var next := if v.Obj? then ChildPlace(place, tokens[0]) else place;
        if inner.Str? {
          StringAt(next, inner, tokens[1..]);
          StringAt(next, moved, tokens[1..]);
        } else {
          RewritingCommutesWithPointers(next, inner, tokens[1..], prefix);
        }
      }
    }
  }

  ghost function RewrittenOption(schema: Option<Json>, prefix: string): Option<Json> {
    match schema
    case Some(v) => Some(Rewritten(v, prefix))
    case None => None
  }

  /** The document holds the rewritten schema below "/properties/<name>". */
  ghost predicate Houses(root: Json, name: string, schema: Json) {
    forall tokens :: HousesAt(root, name, schema, tokens)
  }

  ghost predicate HousesAt(root: Json, name: string, schema: Json, tokens: seq<string>) {
    SchemaAt(root, ["properties", name] + tokens) == RewrittenOption(SchemaAt(schema, tokens), name)
  }

  lemma HousedTarget(root: Json, name: string, schema: Json, reference: Reference)
    requires Houses(root, name, schema)
    ensures Target(root, Deeper(["properties", name], reference)) == RewrittenOption(Target(schema, reference), name)
  {
    if reference.Pointer? { assert HousesAt(root, name, schema, reference.tokens); }
  }

  lemma {:induction false} MovableTarget(root: Json, schema: Json, reference: Reference)
    requires MovableInto(root, schema, SchemaPlace, schema)
    ensures Target(schema, reference).Some? ==>
              MovableInto(root, schema, SchemaPlace, Target(schema, reference).value)
  {
    if reference.Pointer? { MovableBelow(root, schema, SchemaPlace, schema, reference.tokens); }
  }

  lemma PropertiesArePlaces()
    ensures "properties" != REF && ChildPlace(SchemaPlace, "properties") == MapPlace
    ensures forall key :: ChildPlace(MapPlace, key) == SchemaPlace
  {
    assert |"properties"| != |REF|;
  }

  /** The document's own pointer to a parameter leads to its rewritten schema. */
  lemma StitchedAt(schemas: map<string, Json>, name: string, tokens: seq<string>)
    requires name in schemas
    ensures At(SchemaPlace, Stitched(schemas), ["properties", name] + tokens)
         == At(SchemaPlace, Rewritten(schemas[name], name), tokens)
  {
    PropertiesArePlaces();
    var root, all := Stitched(schemas), ["properties", name] + tokens;
    var properties := root.fields["properties"];
    assert all[1..] == [name] + tokens && all[1..][1..] == tokens;
    assert Member(root, all[0]) == Some(properties) && Member(properties, all[1..][0]).Some?;
    assert At(SchemaPlace, root, all) == At(MapPlace, properties, all[1..]);
  }

  lemma CorrespondingSchemas(before: Option<(Place, Json)>, after: Option<(Place, Json)>, prefix: string)
    requires Corresponds(before, after, prefix)
    ensures SchemaFound(after) == RewrittenOption(SchemaFound(before), prefix)
  {
  }

  lemma {:induction false} StitchedHouses(schemas: map<string, Json>, name: string)
    requires name in schemas
    ensures Houses(Stitched(schemas), name, schemas[name])
  {
    forall tokens
      ensures HousesAt(Stitched(schemas), name, schemas[name], tokens)
    {
      StitchedAt(schemas, name, tokens);
      RewritingCommutesWithPointers(SchemaPlace, schemas[name], tokens, name);
      CorrespondingSchemas(At(SchemaPlace, schemas[name], tokens),
                           At(SchemaPlace, Rewritten(schemas[name], name), tokens), name);
    }
  }

  lemma {:induction false} MovableBelow(root: Json, schema: Json, place: Place, v: Json, tokens: seq<string>)
    requires MovableInto(root, schema, place, v)
    ensures At(place, v, tokens).Some? ==>
              var (p, t) := At(place, v, tokens).value; t.Str? || MovableInto(root, schema, p, t)
    decreases |tokens|
  {
    if tokens != [] && Member(v, tokens[0]).Some? {
      var inner := Member(v, tokens[0]).value;
      var next := if v.Obj? then ChildPlace(place, tokens[0]) else place;
      if inner.Str? {
        StringAt(next, inner, tokens[1..]);
      } else {
        assert MovableInto(root, schema, next, inner);
        MovableBelow(root, schema, next, inner, tokens[1..]);
      }
    }
  }
}
