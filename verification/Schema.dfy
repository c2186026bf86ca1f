/** The JSON-schema checker of the registry (internal/core/registry/schema_validator.go).

    `Satisfies` says, keyword by keyword, what a schema demands (sections 6.1 to 6.5 of JSON Schema Validation 2020-12,
    with lengths in bytes); the methods are the checker's loops over lists and maps, in whatever order maps come.
    Numbers are reals, and two values are equal when their trees are.
 */
module Schema {
  import opened Basics

  /** A decoded document. `Opaque` stands for values that are none of the JSON kinds. */
  datatype Value =
    | Null
    | Bool(b: bool)
    | Num(n: real)
    | Str(s: string)
    | Arr(items: seq<Value>)
    | Obj(fields: map<string, Value>)
    | Opaque

  type Schema = map<string, Value>

  /** Regular expressions: None for a pattern that does not compile. */
  type Regex = (string, string) -> Option<bool>

  predicate IsInteger(n: real) {
    n.Floor as real == n
  }

  // ---------------------------------------------------------------- keywords

  /** Section 6.1.1: the type names, when the keyword is a string or a list of strings. */
  function TypeNames(raw: Value): Option<seq<string>> {
    match raw
    case Str(s) => Some([s])
    case Arr(items) =>
      if forall i :: 0 <= i < |items| ==> items[i].Str? then
        Some(seq(|items|, i requires 0 <= i < |items| && items[i].Str? => items[i].s))
      else None
    case _ => None
  }

  predicate HasType(v: Value, t: string) {
    || (t == "object" && v.Obj?)
    || (t == "array" && v.Arr?)
    || (t == "string" && v.Str?)
    || (t == "boolean" && v.Bool?)
    || (t == "number" && v.Num?)
    || (t == "integer" && v.Num? && IsInteger(v.n))
    || (t == "null" && v.Null?)
  }

  predicate TypeOk(s: Schema, v: Value) {
    "type" in s ==>
      var names := TypeNames(s["type"]);
      names.Some? && exists i :: 0 <= i < |names.value| && HasType(v, names.value[i])
  }

  /** Section 6.1.2. */
  predicate EnumOk(s: Schema, v: Value) {
    "enum" in s ==> s["enum"].Arr? && v in s["enum"].items
  }

  /** Section 6.3.3. A pattern that is not a string is refused for every value. */
  predicate PatternOk(rx: Regex, s: Schema, v: Value) {
    "pattern" in s ==> s["pattern"].Str? && (v.Str? ==> rx(s["pattern"].s, v.s) == Some(true))
  }

  /** A bound that must be an integer when it is there. */
  predicate AtLeast(s: Schema, key: string, size: int) {
    key in s ==> s[key].Num? && IsInteger(s[key].n) && size >= s[key].n.Floor
  }

  predicate AtMost(s: Schema, key: string, size: int) {
    key in s ==> s[key].Num? && IsInteger(s[key].n) && size <= s[key].n.Floor
  }

  /** Sections 6.3.1 and 6.3.2, in bytes. */
  predicate LengthOk(s: Schema, v: Value) {
    v.Str? ==> AtLeast(s, "minLength", |v.s|) && AtMost(s, "maxLength", |v.s|)
  }

  /** Sections 6.2.2 and 6.2.4. */
  predicate RangeOk(s: Schema, v: Value) {
    v.Num? ==>
      && ("minimum" in s ==> s["minimum"].Num? && v.n >= s["minimum"].n)
      && ("maximum" in s ==> s["maximum"].Num? && v.n <= s["maximum"].n)
  }

  /** Section 6.5.3. */
  predicate RequiredOk(s: Schema, fields: map<string, Value>) {
    "required" in s ==>
      && s["required"].Arr?
      && forall i :: 0 <= i < |s["required"].items| ==>
           s["required"].items[i].Str? && s["required"].items[i].s in fields
  }

  /** Sections 6.4.1 and 6.4.2. */
  predicate CountOk(s: Schema, items: seq<Value>) {
    AtLeast(s, "minItems", |items|) && AtMost(s, "maxItems", |items|)
  }

  function Declared(s: Schema): set<string> {
    if "properties" in s && s["properties"].Obj? then s["properties"].fields.Keys else {}
  }

  /** The keywords that look only at the value itself. */
  predicate ScalarsOk(rx: Regex, s: Schema, v: Value) {
    TypeOk(s, v) && EnumOk(s, v) && PatternOk(rx, s, v) && LengthOk(s, v) && RangeOk(s, v)
  }

  /** The value satisfies every keyword of the schema. A keyword of the wrong shape that applies to the value's kind is
      satisfied by nothing. */
  ghost predicate Satisfies(rx: Regex, s: Schema, v: Value)
    decreases v, 1
  {
    && ScalarsOk(rx, s, v)
    && (v.Obj? ==> ObjectOk(rx, s, v))
    && (v.Arr? ==> ArrayOk(rx, s, v))
  }

  ghost predicate ObjectOk(rx: Regex, s: Schema, v: Value)
    requires v.Obj?
    decreases v, 0
  {
    && RequiredOk(s, v.fields)
    && ("properties" in s ==>
          && s["properties"].Obj?
          && forall name :: name in s["properties"].fields ==>
               && s["properties"].fields[name].Obj?
               && (name in v.fields ==> Satisfies(rx, s["properties"].fields[name].fields, v.fields[name])))
    && ("additionalProperties" in s ==>
          match s["additionalProperties"]
          case Bool(allowed) => allowed || forall name :: name in v.fields ==> name in Declared(s)
          case Obj(extra) =>
            forall name :: name in v.fields && name !in Declared(s) ==> Satisfies(rx, extra, v.fields[name])
          case _ => false)
  }

  ghost predicate ArrayOk(rx: Regex, s: Schema, v: Value)
    requires v.Arr?
    decreases v, 0
  {
    && CountOk(s, v.items)
    && ("items" in s ==>
          s["items"].Obj? && forall i :: 0 <= i < |v.items| ==> Satisfies(rx, s["items"].fields, v.items[i]))
  }

  // ---------------------------------------------------------------- the checker

  method ValidateSchemaValue(rx: Regex, s: Schema, v: Value) returns (ok: bool)
    ensures ok <==> Satisfies(rx, s, v)
    decreases v, 2
  {
    ok := ValidateScalars(rx, s, v);
    if !ok { return false; }
    ok := ValidateObjectSchema(rx, s, v);
    if !ok { return false; }
    ok := ValidateArraySchema(rx, s, v);
  }

  method ValidateScalars(rx: Regex, s: Schema, v: Value) returns (ok: bool)
    ensures ok <==> ScalarsOk(rx, s, v)
  {
    if "type" in s {
      ok := ValidateSchemaType(s["type"], v);
      if !ok { return false; }
    }
    if "enum" in s {
      if !s["enum"].Arr? { return false; }
      var values := s["enum"].items;
      var matched := false;
      for i := 0 to |values|
        invariant matched <==> v in values[..i]
      {
        if v == values[i] {
          matched := true;
        }
      }
      assert values[..|values|] == values;
      if !matched { return false; }
    }
    if "pattern" in s {
      if !s["pattern"].Str? { return false; }
      if v.Str? && rx(s["pattern"].s, v.s) != Some(true) { return false; }
    }
    return LengthOk(s, v) && RangeOk(s, v);
  }

  method ValidateSchemaType(raw: Value, v: Value) returns (ok: bool)
    ensures ok <==> TypeNames(raw).Some?
                    && exists i :: 0 <= i < |TypeNames(raw).value| && HasType(v, TypeNames(raw).value[i])
  {
    var names := TypeNames(raw);
    if names.None? { return false; }
    for i := 0 to |names.value|
      invariant forall j :: 0 <= j < i ==> !HasType(v, names.value[j])
    {
      if HasType(v, names.value[i]) { return true; }
    }
    return false;
  }

  method ValidateObjectSchema(rx: Regex, s: Schema, v: Value) returns (ok: bool)
    ensures ok <==> (v.Obj? ==> ObjectOk(rx, s, v))
    decreases v, 1
  {
    if !v.Obj? { return true; }
    ok := ValidateRequired(s, v.fields);
    if !ok { return false; }
    var properties: map<string, Schema> := map[];
    if "properties" in s {
      if !s["properties"].Obj? { return false; }
      var raw := s["properties"].fields;
      var todo := raw.Keys;
      while todo != {}
        invariant todo <= raw.Keys && properties.Keys == raw.Keys - todo
        invariant forall name :: name in properties ==> raw[name].Obj? && properties[name] == raw[name].fields
      {
        var name :| name in todo;
        if !raw[name].Obj? { return false; }
        properties := properties[name := raw[name].fields];
        todo := todo - {name};
      }
    }
    assert properties.Keys == Declared(s);
    ok := ValidateProperties(rx, properties, v);
    if !ok { return false; }
    ok := ValidateAdditional(rx, s, properties.Keys, v);
  }

  method ValidateRequired(s: Schema, fields: map<string, Value>) returns (ok: bool)
    ensures ok <==> RequiredOk(s, fields)
  {
    if "required" !in s { return true; }
    if !s["required"].Arr? { return false; }
    var names := s["required"].items;
    for i := 0 to |names|
      invariant forall j :: 0 <= j < i ==> names[j].Str? && names[j].s in fields
    {
      if !names[i].Str? || names[i].s !in fields { return false; }
    }
    return true;
  }

  /** The loop over the declared properties, in any order. */
  method ValidateProperties(rx: Regex, properties: map<string, Schema>, v: Value) returns (ok: bool)
    requires v.Obj?
    ensures ok <==> forall name :: name in properties && name in v.fields ==>
                      Satisfies(rx, properties[name], v.fields[name])
    decreases v, 0
  {
    var todo := properties.Keys;
    while todo != {}
      invariant todo <= properties.Keys
      invariant forall name :: name in properties && name in v.fields && name !in todo ==>
                  Satisfies(rx, properties[name], v.fields[name])
    {
      var name :| name in todo;
      if name in v.fields {
        ok := ValidateSchemaValue(rx, properties[name], v.fields[name]);
        if !ok { return false; }
      }
      todo := todo - {name};
    }
    return true;
  }

  /** The loops over the members of the object, in any order. */
  method ValidateAdditional(rx: Regex, s: Schema, known: set<string>, v: Value) returns (ok: bool)
    requires v.Obj?
    ensures ok <==> ("additionalProperties" in s ==>
                       match s["additionalProperties"]
                       case Bool(allowed) => allowed || forall name :: name in v.fields ==> name in known
                       case Obj(extra) =>
                         forall name :: name in v.fields && name !in known ==> Satisfies(rx, extra, v.fields[name])
                       case _ => false)
    decreases v, 0
  {
    if "additionalProperties" !in s { return true; }
    match s["additionalProperties"]
    case Bool(allowed) =>
      if allowed { return true; }
      var todo := v.fields.Keys;
      while todo != {}
        invariant todo <= v.fields.Keys
        invariant forall name :: name in v.fields && name !in todo ==> name in known
      {
        var name :| name in todo;
        if name !in known { return false; }
        todo := todo - {name};
      }
      return true;
    case Obj(extra) =>
      var todo := v.fields.Keys;
      while todo != {}
        invariant todo <= v.fields.Keys
        invariant forall name :: name in v.fields && name !in todo && name !in known ==>
                    Satisfies(rx, extra, v.fields[name])
      {
        var name :| name in todo;
        if name !in known {
          ok := ValidateSchemaValue(rx, extra, v.fields[name]);
          if !ok { return false; }
        }
        todo := todo - {name};
      }
      return true;
    case _ =>
      return false;
  }

  method ValidateArraySchema(rx: Regex, s: Schema, v: Value) returns (ok: bool)
    ensures ok <==> (v.Arr? ==> ArrayOk(rx, s, v))
    decreases v, 1
  {
    if !v.Arr? { return true; }
    if !CountOk(s, v.items) { return false; }
    if "items" !in s { return true; }
    if !s["items"].Obj? { return false; }
    for i := 0 to |v.items|
      invariant forall j :: 0 <= j < i ==> Satisfies(rx, s["items"].fields, v.items[j])
    {
      ok := ValidateSchemaValue(rx, s["items"].fields, v.items[i]);
      if !ok { return false; }
    }
    return true;
  }

  // ---------------------------------------------------------------- supported schemas

  const KEYWORDS: set<string> :=
    {"$schema", "$id", "title", "description", "type", "required", "properties", "additionalProperties", "items", "enum",
     "pattern", "minItems", "maxItems", "minLength", "maxLength", "minimum", "maximum"}

  /** The keywords that decide something; the other four are annotations. */
  const CONSULTED: set<string> := KEYWORDS - {"$schema", "$id", "title", "description"}

  /** Only known keywords, here and in every subschema, and subschemas where the structure needs them. */
  ghost predicate Supported(s: Value) {
    && s.Obj?
    && s.fields.Keys <= KEYWORDS
    && ("properties" in s.fields ==>
          && s.fields["properties"].Obj?
          && forall name :: name in s.fields["properties"].fields ==> Supported(s.fields["properties"].fields[name]))
    && ("items" in s.fields ==> Supported(s.fields["items"]))
    && ("additionalProperties" in s.fields ==>
          s.fields["additionalProperties"].Bool? || Supported(s.fields["additionalProperties"]))
  }

  /** validateSupportedSchemaKeywords: one loop over the keywords, in any order. */
  method ValidateSupported(s: Value) returns (ok: bool)
    requires s.Obj?
    ensures ok <==> Supported(s)
    decreases s
  {
    var todo := s.fields.Keys;
    while todo != {}
      invariant todo <= s.fields.Keys
      invariant forall key :: key in s.fields && key !in todo ==> key in KEYWORDS && KeywordSupported(key, s.fields[key])
    {
      var key :| key in todo;
      if key !in KEYWORDS { return false; }
      var raw := s.fields[key];
      if key == "properties" {
        if !raw.Obj? { return false; }
        var names := raw.fields.Keys;
        while names != {}
          invariant names <= raw.fields.Keys
          invariant forall name :: name in raw.fields && name !in names ==> Supported(raw.fields[name])
        {
          var name :| name in names;
          if !raw.fields[name].Obj? { return false; }
          ok := ValidateSupported(raw.fields[name]);
          if !ok { return false; }
          names := names - {name};
        }
      } else if key == "items" || (key == "additionalProperties" && !raw.Bool?) {
        if !raw.Obj? { return false; }
        ok := ValidateSupported(raw);
        if !ok { return false; }
      }
      todo := todo - {key};
    }
    return true;
  }

  ghost predicate KeywordSupported(key: string, raw: Value) {
    if key == "properties" then raw.Obj? && forall name :: name in raw.fields ==> Supported(raw.fields[name])
    else if key == "items" then Supported(raw)
    else if key == "additionalProperties" then raw.Bool? || Supported(raw)
    else true
  }

  // ---------------------------------------------------------------- keyword by keyword

  /** The type names a value answers to. */
  function Kinds(v: Value): set<string> {
    match v
    case Null => {"null"}
    case Bool(_) => {"boolean"}
    case Num(n) => if n.Floor as real == n then {"number", "integer"} else {"number"}
    case Str(_) => {"string"}
    case Arr(_) => {"array"}
    case Obj(_) => {"object"}
    case Opaque => {}
  }

  lemma {:induction false} HasTypeIff(v: Value, t: string)
    ensures HasType(v, t) <==> t in Kinds(v)
  {
  }

  /** The type keyword: one name the value answers to, or a list of names with one such among them. */
  lemma {:induction false} TypeMeans(s: Schema, v: Value)
    requires "type" in s
    ensures s["type"].Str? ==> (TypeOk(s, v) <==> s["type"].s in Kinds(v))
    ensures s["type"].Arr? ==>
              (TypeOk(s, v)
               <==> && (forall i :: 0 <= i < |s["type"].items| ==> s["type"].items[i].Str?)
                    && exists i :: 0 <= i < |s["type"].items| && s["type"].items[i].Str? && s["type"].items[i].s in Kinds(v))
    ensures !s["type"].Str? && !s["type"].Arr? ==> !TypeOk(s, v)
  {
    hide HasType, Kinds;
    forall t
      ensures HasType(v, t) <==> t in Kinds(v)
    {
      HasTypeIff(v, t);
    }
    var names := TypeNames(s["type"]);
    if s["type"].Str? {
      assert names.value[0] == s["type"].s;
    } else if names.Some? {
      assert forall i :: 0 <= i < |names.value| ==> names.value[i] == s["type"].items[i].s;
    }
  }

  /** A bound in the schema that a size has to meet. */
  predicate MeetsBound(s: Schema, key: string, size: int, upper: bool) {
    key in s ==>
      && s[key].Num? && s[key].n.Floor as real == s[key].n
      && if upper then size as real <= s[key].n else size as real >= s[key].n
  }

  lemma {:induction false} BoundsMean(s: Schema, key: string, size: int)
    ensures AtLeast(s, key, size) <==> MeetsBound(s, key, size, false)
    ensures AtMost(s, key, size) <==> MeetsBound(s, key, size, true)
  {
  }

  /** What the keywords that look at the value alone demand, spelled out. */
  lemma {:induction false} ScalarsMean(rx: Regex, s: Schema, v: Value)
    ensures ScalarsOk(rx, s, v)
            <==> && TypeOk(s, v)
                 && ("enum" in s ==> s["enum"].Arr? && exists i :: 0 <= i < |s["enum"].items| && s["enum"].items[i] == v)
                 && ("pattern" in s ==> s["pattern"].Str? && (v.Str? ==> rx(s["pattern"].s, v.s) == Some(true)))
                 && (v.Str? ==> MeetsBound(s, "minLength", |v.s|, false) && MeetsBound(s, "maxLength", |v.s|, true))
                 && (v.Num? && "minimum" in s ==> s["minimum"].Num? && s["minimum"].n <= v.n)
                 && (v.Num? && "maximum" in s ==> s["maximum"].Num? && s["maximum"].n >= v.n)
  {
    hide TypeOk, AtLeast, AtMost, MeetsBound;
    if v.Str? {
      BoundsMean(s, "minLength", |v.s|);
      BoundsMean(s, "maxLength", |v.s|);
    }
  }

  /** The names that `properties` declares. */
  predicate DeclaresName(s: Schema, name: string) {
    "properties" in s && s["properties"].Obj? && name in s["properties"].fields
  }

  /** What the object keywords demand of an object, spelled out. */
  lemma {:induction false} ObjectMeans(rx: Regex, s: Schema, v: Value)
    requires v.Obj?
    ensures Satisfies(rx, s, v)
            <==> && ScalarsOk(rx, s, v)
                 && ("required" in s ==>
                       s["required"].Arr? && forall i :: 0 <= i < |s["required"].items| ==>
                                               s["required"].items[i].Str? && s["required"].items[i].s in v.fields)
                 && ("properties" in s ==>
                       s["properties"].Obj? && forall name :: name in s["properties"].fields ==>
                                                 s["properties"].fields[name].Obj?)
                 && (forall name :: name in v.fields && DeclaresName(s, name) && s["properties"].fields[name].Obj? ==>
                                      Satisfies(rx, s["properties"].fields[name].fields, v.fields[name]))
                 && ("additionalProperties" in s ==>
                       || s["additionalProperties"] == Bool(true)
                       || (s["additionalProperties"] == Bool(false) && forall name :: name in v.fields ==> DeclaresName(s, name))
                       || (&& s["additionalProperties"].Obj?
                           && forall name :: name in v.fields && !DeclaresName(s, name) ==>
                                               Satisfies(rx, s["additionalProperties"].fields, v.fields[name])))
  {
    hide ScalarsOk;
    assert forall name :: name in Declared(s) <==> DeclaresName(s, name);
  }

  /** What the array keywords demand of an array, spelled out; on other values they demand nothing. */
  lemma {:induction false} ArrayMeans(rx: Regex, s: Schema, v: Value)
    requires !v.Obj?
    ensures Satisfies(rx, s, v)
            <==> && ScalarsOk(rx, s, v)
                 && (v.Arr? ==>
                       && MeetsBound(s, "minItems", |v.items|, false) && MeetsBound(s, "maxItems", |v.items|, true)
                       && ("items" in s ==>
                             s["items"].Obj? && forall i :: 0 <= i < |v.items| ==>
                                                  Satisfies(rx, s["items"].fields, v.items[i])))
  {
    hide ScalarsOk, AtLeast, AtMost, MeetsBound;
    if v.Arr? {
      BoundsMean(s, "minItems", |v.items|);
      BoundsMean(s, "maxItems", |v.items|);
    }
  }

  /** A schema is supported exactly when it is an object, uses none but the seventeen known keywords, and has supported
      subschemas where it has any. */
  lemma {:induction false} SupportedIff(s: Value)
    ensures Supported(s)
            <==> && s.Obj?
                 && (forall key :: key in s.fields ==>
                       key in {"$schema", "$id", "title", "description", "type", "required", "properties",
                               "additionalProperties", "items", "enum", "pattern", "minItems", "maxItems", "minLength",
                               "maxLength", "minimum", "maximum"})
                 && ("properties" in s.fields ==>
                       && s.fields["properties"].Obj?
                       && forall name :: name in s.fields["properties"].fields ==>
                                           Supported(s.fields["properties"].fields[name]))
                 && ("items" in s.fields ==> Supported(s.fields["items"]))
                 && ("additionalProperties" in s.fields && !s.fields["additionalProperties"].Bool? ==>
                       Supported(s.fields["additionalProperties"]))
  {
  }

  // ---------------------------------------------------------------- dropping keywords

  /** Dropping any keyword but `properties` never refuses a value that was accepted. */
  lemma {:induction false} DroppingWeakens(rx: Regex, s: Schema, key: string, v: Value)
    requires key != "properties" && Satisfies(rx, s, v)
    ensures Satisfies(rx, s - {key}, v)
  {
    var s' := s - {key};
    assert forall k :: k in s' ==> k in s && s'[k] == s[k];
    assert ScalarsOk(rx, s', v);
    hide ScalarsOk;
    if v.Obj? {
      assert ObjectOk(rx, s, v) && RequiredOk(s', v.fields) && Declared(s') == Declared(s);
      assert ObjectOk(rx, s', v);
    }
    if v.Arr? {
      assert ArrayOk(rx, s, v) && CountOk(s', v.items);
      assert ArrayOk(rx, s', v);
    }
  }

  /** Exactly when dropping `properties` keeps an accepted value accepted: the value is no object, or the members that
      become additional are allowed as such. */
  lemma {:induction false} DroppingPropertiesIff(rx: Regex, s: Schema, v: Value)
    requires Satisfies(rx, s, v)
    ensures Satisfies(rx, s - {"properties"}, v)
            <==> || !v.Obj?
                 || "additionalProperties" !in s
                 || (match s["additionalProperties"]
                     case Bool(allowed) => allowed || v.fields == map[]
                     case Obj(extra) => forall name :: name in v.fields ==> Satisfies(rx, extra, v.fields[name])
                     case _ => false)
  {
    hide ScalarsOk;
    var s' := s - {"properties"};
    assert ScalarsOk(rx, s', v) by { DroppedScalars(rx, s, v); }
    if v.Obj? {
      assert RequiredOk(s', v.fields) <==> RequiredOk(s, v.fields);
      assert Declared(s') == {};
    }
    if v.Arr? {
      assert CountOk(s', v.items) <==> CountOk(s, v.items);
      assert ArrayOk(rx, s', v) <==> ArrayOk(rx, s, v);
    }
  }

  lemma {:induction false} DroppedScalars(rx: Regex, s: Schema, v: Value)
    ensures ScalarsOk(rx, s - {"properties"}, v) <==> ScalarsOk(rx, s, v)
  {
  }

  /** Dropping `properties` beside a closed schema refuses what was accepted. */
  lemma {:induction false} DroppingPropertiesMayRefuse(rx: Regex)
    ensures
      var s: Schema := map["properties" := Obj(map["a" := Obj(map[])]), "additionalProperties" := Bool(false)];
      var v := Obj(map["a" := Null]);
      Satisfies(rx, s, v) && !Satisfies(rx, s - {"properties"}, v)
  {
    var s: Schema := map["properties" := Obj(map["a" := Obj(map[])]), "additionalProperties" := Bool(false)];
    var v := Obj(map["a" := Null]);
    var empty: Schema := map[];
    assert Satisfies(rx, empty, Null);
    assert Satisfies(rx, s["properties"].fields["a"].fields, v.fields["a"]);
    assert ObjectOk(rx, s, v) && ScalarsOk(rx, s, v);
    assert "additionalProperties" in s && s["additionalProperties"] == Bool(false) && "a" in v.fields;
    DroppingPropertiesIff(rx, s, v);
  }

  /** Two schemas that agree on every consulted keyword accept the same values: annotations and unknown keywords change
      no verdict. */
  lemma {:induction false} OnlyConsultedMatter(rx: Regex, s: Schema, s': Schema, v: Value)
    requires forall k :: k in CONSULTED ==> (k in s <==> k in s') && (k in s ==> s[k] == s'[k])
    ensures Satisfies(rx, s, v) <==> Satisfies(rx, s', v)
  {
    assert ScalarsOk(rx, s, v) <==> ScalarsOk(rx, s', v);
    hide ScalarsOk;
    assert "properties" in CONSULTED && "additionalProperties" in CONSULTED && "items" in CONSULTED
           && "required" in CONSULTED && "minItems" in CONSULTED && "maxItems" in CONSULTED;
    assert Declared(s) == Declared(s');
  }
}
