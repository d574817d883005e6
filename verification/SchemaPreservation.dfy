/** When the stitched copy of a schema keeps its meaning: exactly which schemas, and exactly which names. */
module SchemaPreservation {
  import opened Json
  import opened SchemaMeaning
  import opened Stitching
  import opened Text
  import opened Wrappers

  // ---------------------------------------------------------------- data is left alone only if it holds no "$ref"

  lemma {:induction false} UntouchedData(v: Json, prefix: string)
    ensures Rewritten(v, prefix) == v <==> NoLocalRef(v)
    decreases v
  {
    match v
    case Obj(fields) =>
      var moved := Rewritten(v, prefix).fields;
      forall key | key in fields
        ensures moved[key] == fields[key] <==> !(key == REF && IsLocal(fields[key])) && NoLocalRef(fields[key])
      {
        UntouchedData(fields[key], prefix);
        assert moved[key] == RewrittenMember(key, fields[key], prefix);
        if key == REF && IsLocal(fields[key]) {
          RelocatedIsLonger(fields[key].s, prefix);
        }
      }
      if moved == fields {
        assert forall key :: key in fields ==> moved[key] == fields[key];
      }
    case Arr(items) =>
      var moved := Rewritten(v, prefix).items;
      forall i | 0 <= i < |items|
        ensures moved[i] == items[i] <==> NoLocalRef(items[i])
      {
        UntouchedData(items[i], prefix);
      }
    case _ =>
  }

  // ---------------------------------------------------------------- meaning is kept

  /** A reference, moved below the prefix, leads to the same meaning in the document that houses the schema. */
  lemma {:induction false} FollowReferenceKept(root: Json, name: string, schema: Json,
                                               reference: Reference, ref: Json, moved: Json, k: nat)
    requires Houses(root, name, schema) && PlainName(name) && MovableInto(root, schema, SchemaPlace, schema)
    requires ref.Str? && moved.Str? && !reference.Elsewhere?
    ensures FollowReference(root, Deeper(["properties", name], reference), moved, k)
         == FollowReference(schema, reference, ref, k)
    decreases k, ref, 0
  {
    HousedTarget(root, name, schema, reference);
    MovableTarget(root, schema, reference);
    if k > 0 && Target(schema, reference).Some? {
      UnfoldKept(root, name, schema, SchemaPlace, Target(schema, reference).value, k - 1);
    }
  }

  /** Following a reference of a movable schema leads to the same meaning from either document. */
  lemma {:induction false} FollowKept(root: Json, name: string, schema: Json, ref: Json, k: nat)
    requires Houses(root, name, schema) && PlainName(name) && MovableInto(root, schema, SchemaPlace, schema)
    requires ref.Str? && (ReadReference(ref.s).Pointer? ==> IsLocal(ref) || LeadsNowhere(root, schema, ref.s))
    ensures Follow(root, if IsLocal(ref) then Str(Relocated(ref.s, name)) else ref, k) == Follow(schema, ref, k)
    decreases k, ref, 1
  {
    if IsLocal(ref) {
      RelocatedReference(ref.s, name);
      FollowReferenceKept(root, name, schema, ReadReference(ref.s), ref, Str(Relocated(ref.s, name)), k);
    }
  }

  lemma {:induction false} UnfoldMemberKept(root: Json, name: string, schema: Json,
                                            place: Place, key: string, v: Json, k: nat)
    requires Houses(root, name, schema) && PlainName(name) && MovableInto(root, schema, SchemaPlace, schema)
    requires !place.DataPlace? && MovableIntoMember(root, schema, place, key, v)
    ensures UnfoldMember(root, place, key, RewrittenMember(key, v, name), k) == UnfoldMember(schema, place, key, v, k)
    decreases k, v, 2
  {
    if key == REF && v.Str? {
      if place.SchemaPlace? { FollowKept(root, name, schema, v, k); }
    } else {
      UnfoldKept(root, name, schema, ChildPlace(place, key), v, k);
    }
  }

  lemma SameMembers(root: Json, name: string, schema: Json, place: Place, fields: map<string, Json>, k: nat)
    requires !place.DataPlace?
    requires forall key | key in fields ::
               UnfoldMember(root, place, key, RewrittenMember(key, fields[key], name), k)
               == UnfoldMember(schema, place, key, fields[key], k)
    ensures Unfold(root, place, Rewritten(Obj(fields), name), k) == Unfold(schema, place, Obj(fields), k)
  {
  }

  lemma SameItems(root: Json, name: string, schema: Json, place: Place, items: seq<Json>, k: nat)
    requires !place.DataPlace?
    requires forall i | 0 <= i < |items| ::
               Unfold(root, place, Rewritten(items[i], name), k) == Unfold(schema, place, items[i], k)
    ensures Unfold(root, place, Rewritten(Arr(items), name), k) == Unfold(schema, place, Arr(items), k)
  {
  }

  /** A movable value reads the same in its own document and, rewritten, in the document that houses it. */
  lemma {:induction false} UnfoldKept(root: Json, name: string, schema: Json, place: Place, v: Json, k: nat)
    requires Houses(root, name, schema) && PlainName(name) && MovableInto(root, schema, SchemaPlace, schema)
    requires MovableInto(root, schema, place, v)
    ensures Unfold(root, place, Rewritten(v, name), k) == Unfold(schema, place, v, k)
    decreases k, v, 0
  {
    if place.DataPlace? {
      UntouchedData(v, name);
    } else {
      match v
      case Obj(fields) =>
        forall key | key in fields {
          UnfoldMemberKept(root, name, schema, place, key, fields[key], k);
        }
        SameMembers(root, name, schema, place, fields, k);
      case Arr(items) =>
        forall i | 0 <= i < |items| {
          UnfoldKept(root, name, schema, place, items[i], k);
        }
        SameItems(root, name, schema, place, items, k);
      case _ =>
    }
  }

  /** Stitching keeps the meaning of what is movable into the served document under a plain name. */
  lemma {:induction false} MovableIntoIsPreserved(schemas: map<string, Json>, name: string)
    requires name in schemas && PlainName(name)
    requires MovableInto(Stitched(schemas), schemas[name], SchemaPlace, schemas[name])
    ensures Preserved(schemas, name)
  {
    StitchedHouses(schemas, name);
    forall k: nat
      ensures Unfold(Stitched(schemas), SchemaPlace, Rewritten(schemas[name], name), k)
           == Unfold(schemas[name], SchemaPlace, schemas[name], k)
    {
      UnfoldKept(Stitched(schemas), name, schemas[name], SchemaPlace, schemas[name], k);
    }
  }

  /** Stitching keeps the meaning of every movable schema stored under a plain name. */
  lemma MovableIsPreserved(schemas: map<string, Json>, name: string)
    requires name in schemas && PlainName(name) && Movable(SchemaPlace, schemas[name])
    ensures Preserved(schemas, name)
  {
    MovableAnywhere(Stitched(schemas), schemas[name], SchemaPlace, schemas[name]);
    MovableIntoIsPreserved(schemas, name);
  }

  // ---------------------------------------------------------------- meaning is lost

  /** The stitched document strictly contains the stored copy, so it cannot mean the same as it. */
  lemma {:induction false} RootsDiffer(schemas: map<string, Json>, name: string, k: nat)
    requires name in schemas
    requires Unfold(Stitched(schemas), SchemaPlace, Rewritten(schemas[name], name), k)
          == Unfold(schemas[name], SchemaPlace, schemas[name], k)
    ensures Unfold(Stitched(schemas), SchemaPlace, Stitched(schemas), k)
         != Unfold(schemas[name], SchemaPlace, schemas[name], k)
  {
    PropertiesArePlaces();
    var root, moved := Stitched(schemas), Rewritten(schemas[name], name);
    var held := root.fields["properties"];
    var whole := Unfold(root, SchemaPlace, root, k);
    assert whole.fields["properties"] == UnfoldMember(root, SchemaPlace, "properties", held, k);
    var properties := Unfold(root, MapPlace, held, k);
    assert held.fields[name] == moved;
    assert properties.fields[name] == UnfoldMember(root, MapPlace, name, moved, k);
    assert properties.fields[name] == Unfold(root, SchemaPlace, moved, k);
    InnerMemberDiffers(whole, "properties", name);
  }

  /** The two documents read differently through a reference to the whole document. */
  ghost predicate RootsReadDifferently(root: Json, schema: Json) {
    forall ref: Json | ref.Str? && ReadReference(ref.s) == Pointer([]) :: Follow(root, ref, 1) != Follow(schema, ref, 1)
  }

  lemma {:induction false} StitchedReadsDifferently(schemas: map<string, Json>, name: string)
    requires name in schemas
    requires Unfold(Stitched(schemas), SchemaPlace, Rewritten(schemas[name], name), 0)
          == Unfold(schemas[name], SchemaPlace, schemas[name], 0)
    ensures RootsReadDifferently(Stitched(schemas), schemas[name])
  {
    RootsDiffer(schemas, name, 0);
    var root := Stitched(schemas);
    assert SchemaAt(root, []) == Some(root);
  }

  /** If a reference reads the same from both documents, it may stay: it is rewritten, or leads nowhere. */
  lemma {:induction false} KeptReference(root: Json, name: string, schema: Json, v: Json)
    requires RootsReadDifferently(root, schema) && v.Str? && ComparableMember(root, schema, SchemaPlace, REF, v)
    requires !IsLocal(v) && Follow(root, v, 1) == Follow(schema, v, 1)
    ensures ReadReference(v.s).Pointer? ==> LeadsNowhere(root, schema, v.s)
  {
  }

  /** A string under "$ref" that is a name, not a reference, must not look like one: the rewriting would show. */
  lemma {:induction false} KeptName(root: Json, name: string, schema: Json, v: Json)
    requires v.Str? && IsLocal(v)
    ensures UnfoldMember(root, MapPlace, REF, RewrittenMember(REF, v, name), 1)
         != UnfoldMember(schema, MapPlace, REF, v, 1)
  {
    RelocatedIsLonger(v.s, name);
  }

  lemma {:induction false} KeptRefMember(root: Json, name: string, schema: Json, place: Place, v: Json)
    requires RootsReadDifferently(root, schema) && v.Str?
    requires !place.DataPlace? && ComparableMember(root, schema, place, REF, v)
    requires UnfoldMember(root, place, REF, RewrittenMember(REF, v, name), 1) == UnfoldMember(schema, place, REF, v, 1)
    ensures MovableIntoMember(root, schema, place, REF, v)
  {
    if place.SchemaPlace? && !IsLocal(v) {
      KeptReference(root, name, schema, v);
    } else if place.MapPlace? && IsLocal(v) {
      KeptName(root, name, schema, v);
    }
  }

  lemma PlainMemberUnfolds(root: Json, place: Place, key: string, v: Json, name: string)
    requires !place.DataPlace? && (key != REF || !v.Str?)
    ensures UnfoldMember(root, place, key, v, 1) == Unfold(root, ChildPlace(place, key), v, 1)
    ensures UnfoldMember(root, place, key, RewrittenMember(key, v, name), 1)
         == Unfold(root, ChildPlace(place, key), Rewritten(v, name), 1)
  {
  }

  /** If a member reads the same from both documents, that member is movable. */
  lemma {:induction false} KeptMemberIsMovable(root: Json, name: string, schema: Json, place: Place, key: string,
                                               v: Json)
    requires RootsReadDifferently(root, schema)
    requires !place.DataPlace? && ComparableMember(root, schema, place, key, v)
    requires UnfoldMember(root, place, key, RewrittenMember(key, v, name), 1) == UnfoldMember(schema, place, key, v, 1)
    ensures MovableIntoMember(root, schema, place, key, v)
    decreases v, 1
  {
    if key == REF && v.Str? {
      KeptRefMember(root, name, schema, place, v);
    } else {
      PlainMemberUnfolds(root, place, key, v, name);
      PlainMemberUnfolds(schema, place, key, v, name);
      KeptIsMovable(root, name, schema, ChildPlace(place, key), v);
    }
  }

  /** What reads the same at one level of unfolding is movable into that document. */
  lemma {:induction false} KeptIsMovable(root: Json, name: string, schema: Json, place: Place, v: Json)
    requires RootsReadDifferently(root, schema) && Comparable(root, schema, place, v)
    requires Unfold(root, place, Rewritten(v, name), 1) == Unfold(schema, place, v, 1)
    ensures MovableInto(root, schema, place, v)
    decreases v, 0
  {
    if place.DataPlace? {
      UntouchedData(v, name);
    } else {
      match v
      case Obj(fields) =>
        var before, after := Unfold(schema, place, v, 1).fields, Unfold(root, place, Rewritten(v, name), 1).fields;
        forall key | key in fields
          ensures MovableIntoMember(root, schema, place, key, fields[key])
        {
          assert before[key] == UnfoldMember(schema, place, key, fields[key], 1);
          assert after[key] == UnfoldMember(root, place, key, RewrittenMember(key, fields[key], name), 1);
          KeptMemberIsMovable(root, name, schema, place, key, fields[key]);
        }
      case Arr(items) =>
        var before, after := Unfold(schema, place, v, 1).items, Unfold(root, place, Rewritten(v, name), 1).items;
        forall i | 0 <= i < |items|
          ensures MovableInto(root, schema, place, items[i])
        {
          assert before[i] == Unfold(schema, place, items[i], 1);
          assert after[i] == Unfold(root, place, Rewritten(items[i], name), 1);
          KeptIsMovable(root, name, schema, place, items[i]);
        }
      case _ =>
    }
  }

  /**
   Under a plain name, the stitched copy keeps the schema's meaning exactly when the schema is movable into the served
   document: each reference into its own document begins with "#/" or leads nowhere in either, and no data holds a
   local "$ref". Only references that are left as they are and find a schema in both documents are not covered.
   */
  lemma PreservedExactly(schemas: map<string, Json>, name: string)
    requires name in schemas && PlainName(name)
    requires Comparable(Stitched(schemas), schemas[name], SchemaPlace, schemas[name])
    ensures Preserved(schemas, name) <==> MovableInto(Stitched(schemas), schemas[name], SchemaPlace, schemas[name])
  {
    if Preserved(schemas, name) {
      StitchedReadsDifferently(schemas, name);
      KeptIsMovable(Stitched(schemas), name, schemas[name], SchemaPlace, schemas[name]);
    }
    if MovableInto(Stitched(schemas), schemas[name], SchemaPlace, schemas[name]) {
      MovableIntoIsPreserved(schemas, name);
    }
  }

  lemma {:induction false} UsualIsComparable(root: Json, schema: Json, place: Place, v: Json)
    requires UsualRefs(place, v)
    ensures Comparable(root, schema, place, v)
    decreases v
  {
    match v
    case Obj(fields) =>
      forall key | key in fields
        ensures ComparableMember(root, schema, place, key, fields[key])
      {
        assert UsualRefsMember(place, key, fields[key]);
        if !(place.SchemaPlace? && key == REF && fields[key].Str?) {
          UsualIsComparable(root, schema, ChildPlace(place, key), fields[key]);
        }
      }
    case Arr(items) =>
      forall i | 0 <= i < |items| { UsualIsComparable(root, schema, place, items[i]); }
    case _ =>
  }

  /** Where references are written the usual way, nothing that is movable into a document leads nowhere in it. */
  lemma {:induction false} UsualIsMovable(root: Json, schema: Json, place: Place, v: Json)
    requires UsualRefs(place, v) && MovableInto(root, schema, place, v) && root.Obj?
    ensures Movable(place, v)
    decreases v
  {
    if !place.DataPlace? {
      match v
      case Obj(fields) =>
        forall key | key in fields
          ensures MovableMember(place, key, fields[key])
        {
          assert UsualRefsMember(place, key, fields[key]) && MovableIntoMember(root, schema, place, key, fields[key]);
          if key != REF || !fields[key].Str? {
            UsualIsMovable(root, schema, ChildPlace(place, key), fields[key]);
          } else if place.SchemaPlace? && ReadReference(fields[key].s) == Pointer([]) {
            assert SchemaAt(root, []) == Some(root);
          }
        }
      case Arr(items) =>
        forall i | 0 <= i < |items| { UsualIsMovable(root, schema, place, items[i]); }
      case _ =>
    }
  }

  /**
   Where references into the document are written the usual way, whatever else is stitched beside the schema: its
   meaning is kept exactly when it is movable, with no reference to the whole document and no local "$ref" inside data.
   */
  lemma PreservedExactlyWhenMovable(schemas: map<string, Json>, name: string)
    requires name in schemas && PlainName(name) && UsualRefs(SchemaPlace, schemas[name])
    ensures Preserved(schemas, name) <==> Movable(SchemaPlace, schemas[name])
  {
    var root, schema := Stitched(schemas), schemas[name];
    UsualIsComparable(root, schema, SchemaPlace, schema);
    PreservedExactly(schemas, name);
    if Movable(SchemaPlace, schema) { MovableAnywhere(root, schema, SchemaPlace, schema); }
    if MovableInto(root, schema, SchemaPlace, schema) { UsualIsMovable(root, schema, SchemaPlace, schema); }
  }

  // ---------------------------------------------------------------- schemas without references of their own

  /** No reference into the document it stands in, and nothing that looks like one. */
  predicate Detached(place: Place, v: Json)
    decreases v, 0
  {
    if place.DataPlace? then NoLocalRef(v)
    else
      match v
      case Obj(fields) => forall key :: key in fields ==> DetachedMember(place, key, fields[key])
      case Arr(items) => forall i :: 0 <= i < |items| ==> Detached(place, items[i])
      case _ => true
  }

  predicate DetachedMember(place: Place, key: string, v: Json)
    decreases v, 1
  {
    if key == REF && v.Str? then !IsLocal(v) && (place.SchemaPlace? ==> !ReadReference(v.s).Pointer?)
    else Detached(ChildPlace(place, key), v)
  }

  lemma {:induction false} DetachedHasNoLocalRef(place: Place, v: Json)
    requires Detached(place, v)
    ensures NoLocalRef(v)
    decreases v
  {
    if !place.DataPlace? {
      match v
      case Obj(fields) =>
        forall key | key in fields
          ensures NoLocalRef(fields[key]) && !(key == REF && IsLocal(fields[key]))
        {
          assert DetachedMember(place, key, fields[key]);
          if key != REF || !fields[key].Str? { DetachedHasNoLocalRef(ChildPlace(place, key), fields[key]); }
        }
      case Arr(items) =>
        forall i | 0 <= i < |items| { DetachedHasNoLocalRef(place, items[i]); }
      case _ =>
    }
  }

  lemma NoPointerReadsAlike(a: Json, b: Json, reference: Reference, ref: Json, k: nat)
    requires ref.Str? && !reference.Pointer?
    ensures FollowReference(a, reference, ref, k) == FollowReference(b, reference, ref, k)
  {
  }

  lemma {:induction false} DetachedMemberReadsAlike(a: Json, b: Json, place: Place, key: string, v: Json, k: nat)
    requires !place.DataPlace? && DetachedMember(place, key, v)
    ensures UnfoldMember(a, place, key, v, k) == UnfoldMember(b, place, key, v, k)
    decreases v, 1
  {
    if key != REF || !v.Str? {
      DetachedReadsAlike(a, b, ChildPlace(place, key), v, k);
    } else if place.SchemaPlace? {
      NoPointerReadsAlike(a, b, ReadReference(v.s), v, k);
      assert UnfoldMember(a, place, key, v, k) == Follow(a, v, k);
      assert UnfoldMember(b, place, key, v, k) == Follow(b, v, k);
    } else {
      assert Unfold(a, SchemaPlace, v, k) == Verbatim(v) == Unfold(b, SchemaPlace, v, k);
    }
  }

  lemma SameMembersAlike(a: Json, b: Json, place: Place, fields: map<string, Json>, k: nat)
    requires !place.DataPlace?
    requires forall key | key in fields ::
               UnfoldMember(a, place, key, fields[key], k) == UnfoldMember(b, place, key, fields[key], k)
    ensures Unfold(a, place, Obj(fields), k) == Unfold(b, place, Obj(fields), k)
  {
  }

  /** It reads the same in every document. */
  lemma {:induction false} DetachedReadsAlike(a: Json, b: Json, place: Place, v: Json, k: nat)
    requires Detached(place, v)
    ensures Unfold(a, place, v, k) == Unfold(b, place, v, k)
    decreases v, 0
  {
    if !place.DataPlace? {
      match v
      case Obj(fields) =>
        forall key | key in fields { DetachedMemberReadsAlike(a, b, place, key, fields[key], k); }
        SameMembersAlike(a, b, place, fields, k);
      case Arr(items) =>
        forall i | 0 <= i < |items| { DetachedReadsAlike(a, b, place, items[i], k); }
      case _ =>
    }
  }

  /** Stitching keeps the meaning of a detached schema under any name. */
  lemma {:induction false} DetachedIsPreserved(schemas: map<string, Json>, name: string)
    requires name in schemas && Detached(SchemaPlace, schemas[name])
    ensures Preserved(schemas, name)
  {
    DetachedHasNoLocalRef(SchemaPlace, schemas[name]);
    UntouchedData(schemas[name], name);
    forall k: nat
      ensures Unfold(Stitched(schemas), SchemaPlace, Rewritten(schemas[name], name), k)
           == Unfold(schemas[name], SchemaPlace, schemas[name], k)
    {
      DetachedReadsAlike(Stitched(schemas), schemas[name], SchemaPlace, schemas[name], k);
    }
  }

  // ---------------------------------------------------------------- schemas that change

  /** {"items": {"$ref": "#"}} */
  const RECURSIVE: Json := Obj(map["items" := Obj(map["$ref" := Str("#")])])

  /** {"default": {"$ref": "#/x"}} */
  const QUOTING: Json := Obj(map["default" := Obj(map["$ref" := Str("#/x")])])

  lemma RecursiveIsNotMovable()
    ensures UsualRefs(SchemaPlace, RECURSIVE) && !Movable(SchemaPlace, RECURSIVE)
  {
    var items := RECURSIVE.fields["items"];
    assert ReadReference("#") == Pointer([]) by { assert "#"[1..] == ""; }
    assert "items"[0] == 'i';
    assert ChildPlace(SchemaPlace, "items") == SchemaPlace;
    assert UsualRefsMember(SchemaPlace, REF, Str("#")) && !MovableMember(SchemaPlace, REF, items.fields[REF]);
    assert UsualRefs(SchemaPlace, items) && !Movable(SchemaPlace, items);
    assert UsualRefsMember(SchemaPlace, "items", items) && !MovableMember(SchemaPlace, "items", items);
  }

  lemma QuotingIsNotMovable()
    ensures UsualRefs(SchemaPlace, QUOTING) && !Movable(SchemaPlace, QUOTING)
  {
    var data := QUOTING.fields["default"];
    assert !NoLocalRef(data);
    assert UsualRefsMember(DataPlace, REF, Str("#/x"));
    assert UsualRefs(DataPlace, data);
    assert "default"[0] == 'd';
    assert UsualRefsMember(SchemaPlace, "default", data) && !MovableMember(SchemaPlace, "default", data);
  }

  /** A schema that refers to itself, and one whose default value looks like a reference, both change. */
  lemma {:induction false} SchemasThatChange(name: string)
    requires PlainName(name)
    ensures !Preserved(map[name := RECURSIVE], name)
    ensures !Preserved(map[name := QUOTING], name)
  {
    RecursiveIsNotMovable();
    QuotingIsNotMovable();
    PreservedExactlyWhenMovable(map[name := RECURSIVE], name);
    PreservedExactlyWhenMovable(map[name := QUOTING], name);
  }

  // ---------------------------------------------------------------- names

  /** {"$ref": "#/x", "x": true} */
  const SELF_CONTAINED: Json := Obj(map["$ref" := Str("#/x"), "x" := Bool(true)])

  lemma SelfContainedIsMovable()
    ensures Movable(SchemaPlace, SELF_CONTAINED)
    ensures ReadReference("#/x") == Pointer(["x"])
  {
    assert "#/x"[1..] == "/x" && "/x"[1..] == "x";
    assert Split("x", '/') == ["x"] by { SplitPlain("x", '/'); }
    assert UnescapeAll(["x"]) == Some(["x"]);
    assert MovableMember(SchemaPlace, REF, Str("#/x"));
  }

  predicate StartsWithEscape(text: string) {
    |text| >= 3 && text[0] == '%' && HexValue(text[1]).Some? && HexValue(text[2]).Some?
  }

  function EscapedChar(text: string): char
    requires StartsWithEscape(text)
  {
    (16 * HexValue(text[1]).value + HexValue(text[2]).value) as char
  }

  lemma PercentDecodeEscape(text: string)
    requires text != "" && text[0] == '%'
    ensures PercentDecode(text)
         == if StartsWithEscape(text) then Prepend([EscapedChar(text)], PercentDecode(text[3..])) else None
  {
  }

  /** The decoded text starts with the decoded front and a slash. */
  ghost predicate DecodesApart(front: string, whole: string) {
    PercentDecode(whole).Some? ==>
      PercentDecode(front).Some? && PercentDecode(front).value + "/" <= PercentDecode(whole).value
  }

  lemma DecodesApartPrepend(head: string, front: Option<string>, whole: Option<string>)
    requires whole.Some? ==> front.Some? && front.value + "/" <= whole.value
    ensures Prepend(head, whole).Some? ==>
              Prepend(head, front).Some? && Prepend(head, front).value + "/" <= Prepend(head, whole).value
  {
    if whole.Some? { assert head + front.value + "/" == head + (front.value + "/"); }
  }

  /** An escape cannot reach across a slash, so the text before it decodes on its own. */
  lemma {:induction false} PercentDecodeSlash(front: string, rest: string)
    ensures DecodesApart(front, front + "/" + rest)
    decreases |front|, 1
  {
    var text := front + "/" + rest;
    if front == "" {
      assert text == ['/'] + rest;
      PercentDecodeChar('/', rest);
    } else if front[0] != '%' {
      var c, tail := front[0], front[1..];
      assert text == [c] + (tail + "/" + rest) && front == [c] + tail;
      PercentDecodeChar(c, tail + "/" + rest);
      PercentDecodeChar(c, tail);
      PercentDecodeSlash(tail, rest);
      DecodesApartPrepend([c], PercentDecode(tail), PercentDecode(tail + "/" + rest));
    } else {
      EscapeBeforeSlash(front, rest);
    }
  }

  lemma {:induction false} EscapeBeforeSlash(front: string, rest: string)
    requires front != "" && front[0] == '%'
    ensures DecodesApart(front, front + "/" + rest)
    decreases |front|, 0
  {
    var text := front + "/" + rest;
    assert text[|front|] == '/';
    PercentDecodeEscape(text);
    PercentDecodeEscape(front);
    if StartsWithEscape(text) {
      assert |front| >= 3;
      var tail := front[3..];
      assert text[3..] == tail + "/" + rest;
      PercentDecodeSlash(tail, rest);
      DecodesApartPrepend([EscapedChar(text)], PercentDecode(tail), PercentDecode(tail + "/" + rest));
    }
  }

  lemma {:induction false} FirstPiece(front: string, rest: string)
    ensures |Split(front + "/" + rest, '/')[0]| <= |front|
    ensures '/' in front ==> |Split(front + "/" + rest, '/')[0]| < |front|
    ensures '/' !in front ==> Split(front + "/" + rest, '/')[0] == front
  {
    if '/' !in front {
      SplitFront(front, '/', rest);
      assert front + "/" + rest == front + ['/'] + rest;
    } else if front[0] != '/' {
      assert (front + "/" + rest)[1..] == front[1..] + "/" + rest;
      FirstPiece(front[1..], rest);
    }
  }

  /** The first token read from an unplain name and a slash is not that name. */
  lemma {:induction false} NameMisread(name: string, rest: string)
    requires !PlainName(name) && PercentDecode(name + "/" + rest).Some?
    ensures Unescape(Split(PercentDecode(name + "/" + rest).value, '/')[0]) != Some(name)
  {
    PercentDecodeSlash(name, rest);
    var front, whole := PercentDecode(name).value, PercentDecode(name + "/" + rest).value;
    assert whole == front + "/" + whole[|front| + 1..];
    FirstPiece(front, whole[|front| + 1..]);
  }

  lemma {:induction false} PropertyMisread(name: string, rest: string)
    requires !PlainName(name)
    ensures match ReadFragment("/properties/" + (name + "/" + rest)) {
              case Pointer(tokens) => |tokens| >= 2 && tokens[0] == "properties" && tokens[1] != name
              case Broken => true
              case Elsewhere => false }
  {
    var text := name + "/" + rest;
    PercentDecodeFront("/properties/", text);
    if PercentDecode(text).Some? {
      NameMisread(name, rest);
      PropertyPieces(PercentDecode(text).value);
    }
  }

  lemma {:induction false} PropertyPieces(decoded: string)
    ensures match ReadPointer("/properties/" + decoded) {
              case Pointer(tokens) =>
                |tokens| >= 2 && tokens[0] == "properties" && Unescape(Split(decoded, '/')[0]) == Some(tokens[1])
              case Broken => true
              case Elsewhere => false }
  {
    var pieces := Split(decoded, '/');
    assert ("/properties/" + decoded)[1..] == "properties" + ['/'] + decoded;
    SplitFront("properties", '/', decoded);
    var all := ["properties"] + pieces;
    assert all[1] == pieces[0];
    if UnescapeAll(all).Some? {
      assert Unescape(all[0]) == Some(UnescapeAll(all).value[0]);
    }
  }

  lemma SelfContainedMeaning()
    ensures Unfold(SELF_CONTAINED, SchemaPlace, SELF_CONTAINED, 1).Members?
    ensures REF in Unfold(SELF_CONTAINED, SchemaPlace, SELF_CONTAINED, 1).fields
    ensures Unfold(SELF_CONTAINED, SchemaPlace, SELF_CONTAINED, 1).fields[REF] == Follows(Verbatim(Bool(true)))
  {
    SelfContainedIsMovable();
    var fields := SELF_CONTAINED.fields;
    assert "x" != REF && fields["x"] == Bool(true) && fields[REF] == Str("#/x");
    assert Member(SELF_CONTAINED, "x") == Some(Bool(true));
    assert At(SchemaPlace, SELF_CONTAINED, ["x"]) == Some((SchemaPlace, Bool(true)));
    assert Follow(SELF_CONTAINED, Str("#/x"), 1) == Follows(Verbatim(Bool(true)));
  }

  /** A pointer into the properties under a name that is not there finds nothing. */
  lemma NotStitchedAt(schemas: map<string, Json>, tokens: seq<string>)
    requires |tokens| >= 2 && tokens[0] == "properties" && tokens[1] !in schemas
    ensures SchemaAt(Stitched(schemas), tokens).None?
  {
    PropertiesArePlaces();
    var root := Stitched(schemas);
    var properties := root.fields["properties"];
    assert Member(root, "properties") == Some(properties);
    assert tokens[1..][0] == tokens[1];
    assert Member(properties, tokens[1]).None?;
    assert At(MapPlace, properties, tokens[1..]).None?;
    assert At(SchemaPlace, root, tokens) == At(MapPlace, properties, tokens[1..]);
  }

  lemma {:induction false} MisreadDangles(schemas: map<string, Json>, name: string)
    requires !PlainName(name) && schemas.Keys == {name}
    ensures Follow(Stitched(schemas), Str(Relocated("#/x", name)), 1) == Dangling
  {
    var ref := Relocated("#/x", name);
    assert ref[1..] == "/properties/" + (name + "/" + "x");
    PropertyMisread(name, "x");
    var reference := ReadReference(ref);
    if reference.Pointer? { NotStitchedAt(schemas, reference.tokens); }
  }

  /** Under any other name, this movable schema loses its reference. */
  lemma {:induction false} UnplainNameLosesReference(name: string)
    requires !PlainName(name)
    ensures !Preserved(map[name := SELF_CONTAINED], name)
  {
    var schemas := map[name := SELF_CONTAINED];
    MisreadDangles(schemas, name);
    StoredReference(Stitched(schemas), name);
    SelfContainedMeaning();
  }

  lemma StoredReference(root: Json, name: string)
    ensures var stored := Unfold(root, SchemaPlace, Rewritten(SELF_CONTAINED, name), 1);
            stored.Members? && REF in stored.fields
            && stored.fields[REF] == Follow(root, Str(Relocated("#/x", name)), 1)
  {
    var rewritten := Rewritten(SELF_CONTAINED, name);
    assert rewritten.fields[REF] == RewrittenMember(REF, Str("#/x"), name);
  }

  /** The names under which stitching keeps every movable schema are exactly the plain ones. */
  lemma NamesExactlyPlain(name: string)
    ensures PlainName(name) <==>
            forall schemas: map<string, Json> | name in schemas && Movable(SchemaPlace, schemas[name]) ::
              Preserved(schemas, name)
  {
    if PlainName(name) {
      forall schemas: map<string, Json> | name in schemas && Movable(SchemaPlace, schemas[name])
        ensures Preserved(schemas, name)
      {
        MovableIsPreserved(schemas, name);
      }
    } else {
      var schemas := map[name := SELF_CONTAINED];
      SelfContainedIsMovable();
      UnplainNameLosesReference(name);
      assert name in schemas && Movable(SchemaPlace, schemas[name]) && !Preserved(schemas, name);
    }
  }
}
