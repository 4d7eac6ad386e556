/** schema.py: the per-field specification an extraction request carries, its
    translation into item-model fields, and its rendering into prompt text.

    The item model is described by a record of its fields (annotation, default,
    description and keyword arguments) rather than built as a class. Values the
    prompt shows through Python's `repr` carry their own text where that text is
    not determined here (floats and values of other JSON types). */
module Schema {
  import opened Wrappers
  import opened Text

  /** `FieldType`. */
  datatype FieldType = StringType | NumberType | IntegerType | BooleanType

  function TypeName(t: FieldType): string {
    match t
    case StringType => "string"
    case NumberType => "number"
    case IntegerType => "integer"
    case BooleanType => "boolean"
  }

  /** A float as given, with the text Python's `str` shows for it. */
  datatype Float = Float(value: real, shown: string)

  /** An element of an `enum` list: any JSON value. */
  datatype Value =
    | VNull
    | VBool(b: bool)
    | VInt(i: int)
    | VFloat(f: Float)
    | VStr(s: string)
    | VOther(shown: string)

  /** `FieldDef`. */
  datatype FieldDef = FieldDef(
    fieldType: FieldType,
    description: Option<string>,
    required: bool,
    enumValues: Option<seq<Value>>,
    minLength: Option<int>,
    maxLength: Option<int>,
    minimum: Option<Float>,
    maximum: Option<Float>)

  /** A dict of field specifications, in insertion order: names are distinct. */
  predicate DistinctNames(fs: seq<(string, FieldDef)>) {
    forall i, j :: 0 <= i < j < |fs| ==> fs[i].0 != fs[j].0
  }

  type Fields = fs: seq<(string, FieldDef)> | DistinctNames(fs) witness []

  /** The Python truth value of `fd.enum`: present and non-empty. */
  predicate HasEnum(fd: FieldDef) {
    fd.enumValues.Some? && fd.enumValues.value != []
  }

  // ---------------------------------------------------------------------------
  // _py_type_from_fielddef
  // ---------------------------------------------------------------------------

  datatype BaseType = Str | FloatType | Int | Bool

  /** A type annotation: a builtin, a `Literal[...]`, or `Optional[...]`. */
  datatype Annotation = Base(t: BaseType) | LiteralOf(values: seq<Value>) | OptionalOf(inner: Annotation)

  /** The value of a keyword argument of `Field(...)`. */
  datatype Bound = IntBound(n: int) | RealBound(x: real)

  /** `fkw`, in insertion order. */
  type Kwargs = seq<(string, Bound)>

  /** `fkw.get(key)`: the last entry for `key`. */
  function Lookup(kws: Kwargs, key: string): Option<Bound> {
    if kws == [] then None
    else if kws[|kws| - 1].0 == key then Some(kws[|kws| - 1].1)
    else Lookup(kws[..|kws| - 1], key)
  }

  /** The keys of `fkw`. */
  function KeysOf(kws: Kwargs): set<string> {
    set i | 0 <= i < |kws| :: kws[i].0
  }

  function BaseOf(t: FieldType): BaseType {
    match t
    case StringType => Str
    case NumberType => FloatType
    case IntegerType => Int
    case BooleanType => Bool
  }

  /** The `ok` check of an enum value against the base type. */
  predicate EnumValueOk(b: BaseType, v: Value) {
    match b
    case FloatType => v.VInt? || v.VFloat?
    case Int => v.VInt?
    case Str => v.VStr?
    case Bool => v.VBool?
  }

  /** `fkw` for a field. */
  function KwargsOf(fd: FieldDef): Kwargs {
    match fd.fieldType
    case StringType =>
      (if fd.minLength.Some? then [("min_length", IntBound(fd.minLength.value))] else []) +
      (if fd.maxLength.Some? then [("max_length", IntBound(fd.maxLength.value))] else [])
    case NumberType =>
      (if fd.minimum.Some? then [("ge", RealBound(fd.minimum.value.value))] else []) +
      (if fd.maximum.Some? then [("le", RealBound(fd.maximum.value.value))] else [])
    case IntegerType =>
      (if fd.minimum.Some? then [("ge", IntBound(Trunc(fd.minimum.value.value)))] else []) +
      (if fd.maximum.Some? then [("le", IntBound(Trunc(fd.maximum.value.value)))] else [])
    case BooleanType => []
  }

  /** A length bound as a keyword argument, when set. */
  function LengthKw(n: Option<int>): Option<Bound> {
    if n.Some? then Some(IntBound(n.value)) else None
  }

  /** String fields take only `min_length`/`max_length`, number fields only
      `ge`/`le` with the bounds as given, integer fields `ge`/`le` with the bounds
      truncated toward zero, and boolean fields nothing; each keyword is present
      exactly when its setting is. */
  lemma KwargsSpec(fd: FieldDef)
    ensures var kws := KwargsOf(fd);
            match fd.fieldType
            case StringType =>
              KeysOf(kws) <= {"min_length", "max_length"} &&
              Lookup(kws, "min_length") == LengthKw(fd.minLength) &&
              Lookup(kws, "max_length") == LengthKw(fd.maxLength)
            case NumberType =>
              KeysOf(kws) <= {"ge", "le"} &&
              Lookup(kws, "ge") == (if fd.minimum.Some? then Some(RealBound(fd.minimum.value.value)) else None) &&
              Lookup(kws, "le") == (if fd.maximum.Some? then Some(RealBound(fd.maximum.value.value)) else None)
            case IntegerType =>
              KeysOf(kws) <= {"ge", "le"} &&
              Lookup(kws, "ge") == (if fd.minimum.Some? then Some(IntBound(Trunc(fd.minimum.value.value))) else None) &&
              Lookup(kws, "le") == (if fd.maximum.Some? then Some(IntBound(Trunc(fd.maximum.value.value))) else None)
            case BooleanType => kws == []
  {
    match fd.fieldType
    case StringType =>
      TwoKeywords("min_length", LengthKw(fd.minLength), "max_length", LengthKw(fd.maxLength));
    case NumberType =>
      TwoKeywords("ge", if fd.minimum.Some? then Some(RealBound(fd.minimum.value.value)) else None,
                  "le", if fd.maximum.Some? then Some(RealBound(fd.maximum.value.value)) else None);
    case IntegerType =>
      TwoKeywords("ge", if fd.minimum.Some? then Some(IntBound(Trunc(fd.minimum.value.value))) else None,
                  "le", if fd.maximum.Some? then Some(IntBound(Trunc(fd.maximum.value.value))) else None);
    case BooleanType =>
  }

  /** The keyword argument `key=v`, when `v` is set. */
  function Keyword(key: string, v: Option<Bound>): Kwargs {
    if v.Some? then [(key, v.value)] else []
  }

  /** Two optional keyword arguments under distinct keys are each found as given. */
  lemma TwoKeywords(a: string, x: Option<Bound>, b: string, y: Option<Bound>)
    requires a != b
    ensures var kws := Keyword(a, x) + Keyword(b, y);
            KeysOf(kws) <= {a, b} && Lookup(kws, a) == x && Lookup(kws, b) == y
  {
    var kws := Keyword(a, x) + Keyword(b, y);
    if y.Some? {
      assert kws[..|kws| - 1] == Keyword(a, x);
    }
  }

  /** The annotation part of `_py_type_from_fielddef`: the base type, narrowed to
      a `Literal` of the enum values exactly when there are some and all of them
      pass the base-type check. */
  function AnnotationOf(fd: FieldDef): (a: Annotation)
    ensures a.LiteralOf? <==> HasEnum(fd) && forall i :: 0 <= i < |fd.enumValues.value| ==> EnumValueOk(BaseOf(fd.fieldType), fd.enumValues.value[i])
    ensures a.LiteralOf? ==> a.values == fd.enumValues.value
    ensures !a.LiteralOf? ==> a == Base(BaseOf(fd.fieldType))
  {
    var base := BaseOf(fd.fieldType);
    if HasEnum(fd) && forall i :: 0 <= i < |fd.enumValues.value| ==> EnumValueOk(base, fd.enumValues.value[i])
    then LiteralOf(fd.enumValues.value)
    else Base(base)
  }

  /** `_py_type_from_fielddef`: `(annotation, fkw)`. */
  function PyTypeFromFieldDef(fd: FieldDef): (Annotation, Kwargs) {
    (AnnotationOf(fd), KwargsOf(fd))
  }

  /** Booleans are not numbers here: an enum holding one keeps a number or
      integer field unnarrowed, and so does a float in an integer field's enum;
      an enum of integers and floats only narrows a number field, and one of
      integers only narrows an integer field. */
  lemma EnumBoolsAndInts(fd: FieldDef)
    requires fd.fieldType == NumberType || fd.fieldType == IntegerType
    ensures fd.enumValues.Some? && (exists i :: 0 <= i < |fd.enumValues.value| && fd.enumValues.value[i].VBool?) ==>
              AnnotationOf(fd) == Base(BaseOf(fd.fieldType))
    ensures fd.fieldType == IntegerType && fd.enumValues.Some? &&
            (exists i :: 0 <= i < |fd.enumValues.value| && fd.enumValues.value[i].VFloat?) ==>
              AnnotationOf(fd) == Base(Int)
    ensures fd.fieldType == NumberType && HasEnum(fd) &&
            (forall i :: 0 <= i < |fd.enumValues.value| ==> fd.enumValues.value[i].VInt? || fd.enumValues.value[i].VFloat?) ==>
              AnnotationOf(fd) == LiteralOf(fd.enumValues.value)
    ensures fd.fieldType == IntegerType && HasEnum(fd) &&
            (forall i :: 0 <= i < |fd.enumValues.value| ==> fd.enumValues.value[i].VInt?) ==>
              AnnotationOf(fd) == LiteralOf(fd.enumValues.value)
  {
  }

  /** An integer field's bounds are truncated toward zero, as `int()` does. */
  lemma IntegerBoundsTruncate(fd: FieldDef)
    requires fd.fieldType == IntegerType && fd.minimum.Some? && fd.maximum == None
    ensures KwargsOf(fd) == [("ge", IntBound(Trunc(fd.minimum.value.value)))]
    ensures fd.minimum.value.value == -2.5 ==> KwargsOf(fd) == [("ge", IntBound(-2))]
  {
  }

  // ---------------------------------------------------------------------------
  // make_item_model
  // ---------------------------------------------------------------------------

  /** The default of a model field: required (`...`) or `None`. */
  datatype Default = NoDefault | DefaultNone

  datatype ModelField = ModelField(annotation: Annotation, default: Default, description: Option<string>, kwargs: Kwargs)

  datatype ItemModel = ItemModel(name: string, fields: seq<(string, ModelField)>)

  /** The model field `make_item_model` makes of one specification. */
  function ModelFieldOf(fd: FieldDef): (m: ModelField)
    ensures fd.required ==> m.annotation == AnnotationOf(fd) && m.default == NoDefault
    ensures !fd.required ==> m.annotation == OptionalOf(AnnotationOf(fd)) && m.default == DefaultNone
    ensures m.description == fd.description && m.kwargs == KwargsOf(fd)
    ensures m.annotation.OptionalOf? <==> !fd.required
  {
    var (ann, fkw) := PyTypeFromFieldDef(fd);
    if fd.required then ModelField(ann, NoDefault, fd.description, fkw)
    else ModelField(OptionalOf(ann), DefaultNone, fd.description, fkw)
  }

  /** `make_item_model`: one model field per specification, same names, same
      order. */
  method MakeItemModel(fields: Fields, name: string) returns (model: ItemModel)
    ensures model.name == name && |model.fields| == |fields|
    ensures forall i :: 0 <= i < |fields| ==> model.fields[i] == (fields[i].0, ModelFieldOf(fields[i].1))
  {
    var modelFields: seq<(string, ModelField)> := [];
    var i := 0;
    while i < |fields|
      invariant 0 <= i <= |fields|
      invariant modelFields == ModelFields(fields[..i])
    {
      var (fname, spec) := fields[i];
      var (ann, fkw) := PyTypeFromFieldDef(spec);
      var field: ModelField;
      if spec.required {
        field := ModelField(ann, NoDefault, spec.description, fkw);
      } else {
        field := ModelField(OptionalOf(ann), DefaultNone, spec.description, fkw);
      }
      ModelFieldsSnoc(fields, i);
      modelFields := modelFields + [(fname, field)];
      i := i + 1;
    }
    assert fields[..i] == fields;
    model := ItemModel(name, modelFields);
  }

  /** The model fields of `fs`, in order. */
  function ModelFields(fs: seq<(string, FieldDef)>): seq<(string, ModelField)> {
    seq(|fs|, i requires 0 <= i < |fs| => (fs[i].0, ModelFieldOf(fs[i].1)))
  }

  lemma ModelFieldsSnoc(fs: seq<(string, FieldDef)>, i: nat)
    requires i < |fs|
    ensures ModelFields(fs[..i + 1]) == ModelFields(fs[..i]) + [(fs[i].0, ModelFieldOf(fs[i].1))]
  {
    var a, b := ModelFields(fs[..i + 1]), ModelFields(fs[..i]) + [(fs[i].0, ModelFieldOf(fs[i].1))];
    assert |a| == |b|;
    forall j | 0 <= j < |a| ensures a[j] == b[j] {
      assert fs[..i + 1][j] == fs[j];
    }
  }

  // ---------------------------------------------------------------------------
  // format_field_type and format_schema_for_prompt
  // ---------------------------------------------------------------------------

  /** Python's `repr` of a JSON value; strings are shown in single quotes. */
  function ValueRepr(v: Value): string {
    match v
    case VNull => "None"
    case VBool(b) => if b then "True" else "False"
    case VInt(i) => IntToString(i)
    case VFloat(f) => f.shown
    case VStr(s) => "'" + s + "'"
    case VOther(shown) => shown
  }

  /** Python's `str` of a list. */
  function ListRepr(vs: seq<Value>): string {
    "[" + Join(", ", seq(|vs|, i requires 0 <= i < |vs| => ValueRepr(vs[i]))) + "]"
  }

  /** `format_field_type`. */
  function FormatFieldType(fd: FieldDef): string {
    if HasEnum(fd) then "enum(" + ListRepr(fd.enumValues.value) + ")" else TypeName(fd.fieldType)
  }

  /** The schema shows `enum(...)` exactly for a field with a non-empty enum, and
      the bare type name for every other field. */
  lemma FormatFieldTypeSpec(fd: FieldDef)
    ensures StartsWith(FormatFieldType(fd), "enum(") <==> HasEnum(fd)
    ensures !HasEnum(fd) ==> FormatFieldType(fd) == TypeName(fd.fieldType)
    ensures HasEnum(fd) ==> FormatFieldType(fd)[|FormatFieldType(fd)| - 1] == ')'
  {
    var s := FormatFieldType(fd);
    if HasEnum(fd) {
      assert s[..5] == "enum(";
    } else {
      assert s[0] != 'e';
    }
  }

  /** Python's `str` of a dict from strings to strings. */
  function DictRepr(entries: seq<(string, string)>): string {
    "{" + Join(", ", seq(|entries|, i requires 0 <= i < |entries| =>
                         "'" + entries[i].0 + "': '" + entries[i].1 + "'")) + "}"
  }

  /** The `str` of a one-entry dict. */
  lemma DictReprOne(k: string, v: string)
    ensures DictRepr([(k, v)]) == "{'" + k + "': '" + v + "'}"
  {
    var items := seq(1, i requires 0 <= i < 1 => "'" + [(k, v)][i].0 + "': '" + [(k, v)][i].1 + "'");
    assert items == ["'" + k + "': '" + v + "'"];
  }

  /** `schema_structure`: field name to its formatted type. */
  function SchemaStructure(fields: seq<(string, FieldDef)>): seq<(string, string)> {
    seq(|fields|, i requires 0 <= i < |fields| => (fields[i].0, FormatFieldType(fields[i].1)))
  }

  /** The first result of `format_schema_for_prompt`. */
  function SchemaDescription(fields: Fields): (s: string)
    ensures '\'' !in s
  {
    ReplaceChar(DictRepr(SchemaStructure(fields)), '\'', '"')
  }

  /** One bracketed constraint of a field description. */
  datatype Constraint =
    | OptionalField
    | AllowedValues(values: seq<Value>)
    | MinLengthIs(n: int)
    | MaxLengthIs(n: int)
    | MinimumIs(f: Float)
    | MaximumIs(f: Float)

  function Rank(c: Constraint): nat {
    match c
    case OptionalField => 0
    case AllowedValues(_) => 1
    case MinLengthIs(_) => 2
    case MaxLengthIs(_) => 3
    case MinimumIs(_) => 4
    case MaximumIs(_) => 5
  }

  function ConstraintText(c: Constraint): string {
    match c
    case OptionalField => "optional"
    case AllowedValues(vs) => "allowed values: " + ListRepr(vs)
    case MinLengthIs(n) => "min length: " + IntToString(n)
    case MaxLengthIs(n) => "max length: " + IntToString(n)
    case MinimumIs(f) => "minimum: " + f.shown
    case MaximumIs(f) => "maximum: " + f.shown
  }

  /** The constraint of rank `k`, when the field has it. */
  function Piece(fd: FieldDef, k: nat): seq<Constraint> {
    if k == 0 then (if !fd.required then [OptionalField] else [])
    else if k == 1 then (if HasEnum(fd) then [AllowedValues(fd.enumValues.value)] else [])
    else if k == 2 then (if fd.minLength.Some? then [MinLengthIs(fd.minLength.value)] else [])
    else if k == 3 then (if fd.maxLength.Some? then [MaxLengthIs(fd.maxLength.value)] else [])
    else if k == 4 then (if fd.minimum.Some? then [MinimumIs(fd.minimum.value)] else [])
    else if k == 5 then (if fd.maximum.Some? then [MaximumIs(fd.maximum.value)] else [])
    else []
  }

  /** The constraints of a field, rank by rank. */
  function Constraints(fd: FieldDef): seq<Constraint> {
    Piece(fd, 0) + Piece(fd, 1) + Piece(fd, 2) + Piece(fd, 3) + Piece(fd, 4) + Piece(fd, 5)
  }

  /** Constraints in strictly ascending rank order. */
  predicate Ascending(cs: seq<Constraint>) {
    forall i, j :: 0 <= i < j < |cs| ==> Rank(cs[i]) < Rank(cs[j])
  }

  /** Constraints all of rank below `k`. */
  predicate RanksBelow(cs: seq<Constraint>, k: nat) {
    forall i :: 0 <= i < |cs| ==> Rank(cs[i]) < k
  }

  /** Appending at most one constraint of rank `k` to ascending constraints of
      lower rank keeps them ascending. */
  lemma AscendingSnoc(a: seq<Constraint>, p: seq<Constraint>, k: nat)
    requires Ascending(a) && RanksBelow(a, k)
    requires |p| <= 1 && forall i :: 0 <= i < |p| ==> Rank(p[i]) == k
    ensures Ascending(a + p) && RanksBelow(a + p, k + 1)
  {
    if p == [] {
      assert a + p == a;
    } else {
      var cs := a + p;
      assert cs[|a|] == p[0];
      forall i | 0 <= i < |a| ensures cs[i] == a[i] {
      }
    }
  }

  /** The constraints of a field come in strictly ascending rank order. */
  lemma ConstraintsAscending(fd: FieldDef)
    ensures Ascending(Constraints(fd))
  {
    var p0, p1, p2 := Piece(fd, 0), Piece(fd, 1), Piece(fd, 2);
    var p3, p4, p5 := Piece(fd, 3), Piece(fd, 4), Piece(fd, 5);
    assert [] + p0 == p0;
    AscendingSnoc([], p0, 0);
    AscendingSnoc(p0, p1, 1);
    AscendingSnoc(p0 + p1, p2, 2);
    AscendingSnoc(p0 + p1 + p2, p3, 3);
    AscendingSnoc(p0 + p1 + p2 + p3, p4, 4);
    AscendingSnoc(p0 + p1 + p2 + p3 + p4, p5, 5);
  }

  /** The constraints come in the fixed order optional, allowed values, min
      length, max length, minimum, maximum, and each is listed exactly when its
      setting is present. */
  lemma ConstraintsSpec(fd: FieldDef)
    ensures var cs := Constraints(fd);
            (forall i, j :: 0 <= i < j < |cs| ==> Rank(cs[i]) < Rank(cs[j])) &&
            (OptionalField in cs <==> !fd.required) &&
            (forall vs :: AllowedValues(vs) in cs <==> HasEnum(fd) && vs == fd.enumValues.value) &&
            (forall n :: MinLengthIs(n) in cs <==> fd.minLength == Some(n)) &&
            (forall n :: MaxLengthIs(n) in cs <==> fd.maxLength == Some(n)) &&
            (forall f :: MinimumIs(f) in cs <==> fd.minimum == Some(f)) &&
            (forall f :: MaximumIs(f) in cs <==> fd.maximum == Some(f))
  {
    ConstraintsAscending(fd);
    ConstraintsMembers(fd);
    MembersByRank(fd, Constraints(fd));
  }

  /** Constraints holding exactly the field's constraint of each rank hold each
      kind of constraint exactly when the field has that setting. */
  lemma MembersByRank(fd: FieldDef, cs: seq<Constraint>)
    requires forall c :: c in cs <==> c in Piece(fd, Rank(c))
    ensures OptionalField in cs <==> !fd.required
    ensures forall vs :: AllowedValues(vs) in cs <==> HasEnum(fd) && vs == fd.enumValues.value
    ensures forall n :: MinLengthIs(n) in cs <==> fd.minLength == Some(n)
    ensures forall n :: MaxLengthIs(n) in cs <==> fd.maxLength == Some(n)
    ensures forall f :: MinimumIs(f) in cs <==> fd.minimum == Some(f)
    ensures forall f :: MaximumIs(f) in cs <==> fd.maximum == Some(f)
  {
    assert OptionalField in cs <==> OptionalField in Piece(fd, 0);
    forall vs ensures AllowedValues(vs) in cs <==> HasEnum(fd) && vs == fd.enumValues.value {
      assert AllowedValues(vs) in cs <==> AllowedValues(vs) in Piece(fd, 1);
    }
    forall n ensures MinLengthIs(n) in cs <==> fd.minLength == Some(n) {
      assert MinLengthIs(n) in cs <==> MinLengthIs(n) in Piece(fd, 2);
    }
    forall n ensures MaxLengthIs(n) in cs <==> fd.maxLength == Some(n) {
      assert MaxLengthIs(n) in cs <==> MaxLengthIs(n) in Piece(fd, 3);
    }
    forall f ensures MinimumIs(f) in cs <==> fd.minimum == Some(f) {
      assert MinimumIs(f) in cs <==> MinimumIs(f) in Piece(fd, 4);
    }
    forall f ensures MaximumIs(f) in cs <==> fd.maximum == Some(f) {
      assert MaximumIs(f) in cs <==> MaximumIs(f) in Piece(fd, 5);
    }
  }

  /** A constraint is among a field's constraints exactly when it is the field's
      constraint of its own rank. */
  lemma ConstraintsMembers(fd: FieldDef)
    ensures forall c :: c in Constraints(fd) <==> c in Piece(fd, Rank(c))
  {
    forall c ensures c in Constraints(fd) <==> c in Piece(fd, Rank(c)) {
      forall k: nat | k <= 5 && c in Piece(fd, k) ensures Rank(c) == k {
      }
    }
  }


  lemma {:induction false} TextsAppend(a: seq<Constraint>, b: seq<Constraint>)
    ensures Texts(a + b) == Texts(a) + Texts(b)
    decreases |b|
  {
    if b != [] {
      var b' := b[..|b| - 1];
      assert (a + b)[..|a + b| - 1] == a + b' && (a + b)[|a + b| - 1] == b[|b| - 1];
      TextsAppend(a, b');
      assert Texts(a + b) == Texts(a + b') + [ConstraintText(b[|b| - 1])];
      assert Texts(b) == Texts(b') + [ConstraintText(b[|b| - 1])];
    } else {
      assert a + b == a;
    }
  }

  /** The text of each constraint, in order. */
  function Texts(cs: seq<Constraint>): (ts: seq<string>)
    ensures |ts| == |cs|
  {
    if cs == [] then [] else Texts(cs[..|cs| - 1]) + [ConstraintText(cs[|cs| - 1])]
  }

  /** The text of the constraint of rank `k`, when the field has it. */
  function PieceText(fd: FieldDef, k: nat): seq<string> {
    if Piece(fd, k) == [] then [] else [ConstraintText(Piece(fd, k)[0])]
  }

  /** The texts of a field's constraints, rank by rank. */
  lemma ConstraintTexts(fd: FieldDef)
    ensures Texts(Constraints(fd)) ==
            PieceText(fd, 0) + PieceText(fd, 1) + PieceText(fd, 2) + PieceText(fd, 3) + PieceText(fd, 4) + PieceText(fd, 5)
  {
    var p0, p1, p2, p3, p4, p5 := Piece(fd, 0), Piece(fd, 1), Piece(fd, 2), Piece(fd, 3), Piece(fd, 4), Piece(fd, 5);
    forall k | 0 <= k <= 5 ensures Texts(Piece(fd, k)) == PieceText(fd, k) {
      if Piece(fd, k) != [] {
        assert Piece(fd, k)[..0] == [];
      }
    }
    TextsAppend(p0, p1);
    TextsAppend(p0 + p1, p2);
    TextsAppend(p0 + p1 + p2, p3);
    TextsAppend(p0 + p1 + p2 + p3, p4);
    TextsAppend(p0 + p1 + p2 + p3 + p4, p5);
  }

  /** The start of every description line: `**name** (type)`. */
  function LineHead(name: string, fd: FieldDef): string {
    "**" + name + "** (" + TypeName(fd.fieldType) + ")"
  }

  /** The description line of one field. */
  function FieldLine(name: string, fd: FieldDef): string {
    var cs := Constraints(fd);
    LineHead(name, fd) +
    (if fd.description.Some? && fd.description.value != "" then ": " + fd.description.value else "") +
    (if cs != [] then " [" + Join(", ", Texts(cs)) + "]" else "")
  }

  /** The description lines, one per field, in order. */
  function FieldLines(fields: seq<(string, FieldDef)>): seq<string> {
    seq(|fields|, i requires 0 <= i < |fields| => FieldLine(fields[i].0, fields[i].1))
  }

  /** A line starts with its head and, with constraints, ends in `]`; with neither
      a description nor constraints it is just the head. */
  lemma FieldLineShape(name: string, fd: FieldDef)
    ensures var line := FieldLine(name, fd);
            |LineHead(name, fd)| <= |line| && line[..|LineHead(name, fd)|] == LineHead(name, fd) &&
            (Constraints(fd) != [] ==> line[|line| - 1] == ']') &&
            (fd.description.GetOr("") == "" && Constraints(fd) == [] ==> line == LineHead(name, fd))
  {
    var line := FieldLine(name, fd);
    var head := LineHead(name, fd);
    var desc := if fd.description.Some? && fd.description.value != "" then ": " + fd.description.value else "";
    var cs := Constraints(fd);
    var tail := if cs != [] then " [" + Join(", ", Texts(cs)) + "]" else "";
    assert line == head + desc + tail;
    LineParts(head, desc, tail);
    if cs != [] {
      assert tail[|tail| - 1] == ']';
    }
  }

  /** A line glued from three parts starts with the first and ends with the last. */
  lemma LineParts(head: string, desc: string, tail: string)
    ensures var line := head + desc + tail;
            |head| <= |line| && line[..|head|] == head &&
            (tail != [] ==> line[|line| - 1] == tail[|tail| - 1]) &&
            (desc == [] && tail == [] ==> line == head)
  {
    var line := head + desc + tail;
    assert line[..|head|] == head;
    if tail != [] {
      assert line[|line| - 1] == tail[|tail| - 1];
    }
  }

  /** A field that is not required always shows the `optional` constraint, and a
      required field without settings shows no bracket at all. */
  lemma OptionalShown(fd: FieldDef)
    ensures !fd.required ==> Constraints(fd) != [] && ConstraintText(Constraints(fd)[0]) == "optional"
    ensures fd.required && !HasEnum(fd) && fd.minLength == None && fd.maxLength == None &&
              fd.minimum == None && fd.maximum == None ==>
              Constraints(fd) == []
  {
  }

  /** Python's `s.split(c)`. */
  function SplitOn(s: string, c: char): (r: seq<string>)
    ensures |r| >= 1
    decreases |s|
  {
    if s == [] then [""]
    else
      var rest := SplitOn(s[1..], c);
      if s[0] == c then [""] + rest else [[s[0]] + rest[0]] + rest[1..]
  }

  /** Splitting a part free of `c` that is followed by `c` and more text. */
  lemma {:induction false} SplitOnPrefix(a: string, c: char, b: string)
    requires c !in a
    ensures SplitOn(a + [c] + b, c) == [a] + SplitOn(b, c)
    decreases |a|
  {
    if a == [] {
      assert a + [c] + b == [c] + b;
      assert ([c] + b)[1..] == b;
    } else {
      SplitOnPrefix(a[1..], c, b);
      assert (a + [c] + b)[1..] == a[1..] + [c] + b;
      assert [a[0]] + a[1..] == a;
    }
  }

  /** A part free of `c` splits into itself. */
  lemma {:induction false} SplitOnPlain(a: string, c: char)
    requires c !in a
    ensures SplitOn(a, c) == [a]
    decreases |a|
  {
    if a != [] {
      SplitOnPlain(a[1..], c);
      assert [a[0]] + a[1..] == a;
    }
  }

  /** Joining parts free of `c` with `c` and splitting on `c` gives the parts
      back. */
  lemma {:induction false} SplitOnJoin(parts: seq<string>, c: char)
    requires parts != []
    requires forall i :: 0 <= i < |parts| ==> c !in parts[i]
    ensures SplitOn(Join([c], parts), c) == parts
    decreases |parts|
  {
    if |parts| == 1 {
      SplitOnPlain(parts[0], c);
    } else {
      var rest := parts[1..];
      assert forall i :: 0 <= i < |rest| ==> rest[i] == parts[i + 1];
      SplitOnJoin(rest, c);
      assert Join([c], parts) == parts[0] + [c] + Join([c], rest);
      SplitOnPrefix(parts[0], c, Join([c], rest));
      assert [parts[0]] + rest == parts;
    }
  }

  /** The second result of `format_schema_for_prompt`. */
  function FieldDescriptions(fields: Fields): string {
    Join("\n", FieldLines(fields))
  }

  /** One description line per field, in input order: when no line contains a
      line break, splitting the text at line breaks gives the lines back. */
  lemma FieldDescriptionsRoundTrip(fields: Fields)
    requires fields != []
    requires forall i :: 0 <= i < |fields| ==> '\n' !in FieldLine(fields[i].0, fields[i].1)
    ensures |SplitOn(FieldDescriptions(fields), '\n')| == |fields|
    ensures forall i :: 0 <= i < |fields| ==> SplitOn(FieldDescriptions(fields), '\n')[i] == FieldLine(fields[i].0, fields[i].1)
  {
    var lines := FieldLines(fields);
    forall i | 0 <= i < |lines| ensures '\n' !in lines[i] {
      assert lines[i] == FieldLine(fields[i].0, fields[i].1);
    }
    assert "\n" == ['\n'];
    SplitOnJoin(lines, '\n');
  }

  /** `format_schema_for_prompt`: builds `schema_structure` in one loop and the
      description lines, each with its constraint list, in another. */
  method FormatSchemaForPrompt(fields: Fields) returns (schemaDescription: string, fieldDescriptions: string)
    ensures schemaDescription == SchemaDescription(fields)
    ensures fieldDescriptions == FieldDescriptions(fields)
  {
    var structure := StructureLoop(fields);
    schemaDescription := ReplaceChar(DictRepr(structure), '\'', '"');
    var lines := DescriptionLoop(fields);
    fieldDescriptions := Join("\n", lines);
  }

  /** The first loop of `format_schema_for_prompt`: each field name with its
      formatted type, in input order. */
  method StructureLoop(fields: seq<(string, FieldDef)>) returns (structure: seq<(string, string)>)
    ensures structure == SchemaStructure(fields)
  {
    structure := [];
    var i := 0;
    while i < |fields|
      invariant 0 <= i <= |fields|
      invariant |structure| == i
      invariant forall j :: 0 <= j < i ==> structure[j] == SchemaStructure(fields)[j]
    {
      structure := structure + [(fields[i].0, FormatFieldType(fields[i].1))];
      i := i + 1;
    }
  }

  lemma FieldLinesSnoc(fields: seq<(string, FieldDef)>, i: nat)
    requires i < |fields|
    ensures FieldLines(fields[..i + 1]) == FieldLines(fields[..i]) + [FieldLine(fields[i].0, fields[i].1)]
  {
    var a, b := FieldLines(fields[..i + 1]), FieldLines(fields[..i]) + [FieldLine(fields[i].0, fields[i].1)];
    assert |a| == |b|;
    forall j | 0 <= j < |a| ensures a[j] == b[j] {
      assert fields[..i + 1][j] == fields[j];
    }
  }

  /** The second loop of `format_schema_for_prompt`: one description line per
      field, in input order. */
  method DescriptionLoop(fields: seq<(string, FieldDef)>) returns (lines: seq<string>)
    ensures lines == FieldLines(fields)
  {
    lines := [];
    var i := 0;
    while i < |fields|
      invariant 0 <= i <= |fields|
      invariant lines == FieldLines(fields[..i])
    {
      var line := DescriptionLine(fields[i].0, fields[i].1);
      FieldLinesSnoc(fields, i);
      lines := lines + [line];
      i := i + 1;
    }
    assert fields[..i] == fields;
  }

  /** The body of the description loop for one field: `desc_parts` built by
      appending. */
  method DescriptionLine(fieldName: string, fd: FieldDef) returns (line: string)
    ensures line == FieldLine(fieldName, fd)
  {
    var descParts := ["**" + fieldName + "** (" + TypeName(fd.fieldType) + ")"];
    assert descParts[..0] == [];
    if fd.description.Some? && fd.description.value != "" {
      ConcatSnoc(descParts, ": " + fd.description.value);
      descParts := descParts + [": " + fd.description.value];
    }
    ghost var head := Concat(descParts);
    assert head == LineHead(fieldName, fd) +
                   (if fd.description.Some? && fd.description.value != "" then ": " + fd.description.value else "");
    var constraints := ConstraintList(fd);
    if constraints != [] {
      ConcatSnoc(descParts, " [" + Join(", ", constraints) + "]");
      descParts := descParts + [" [" + Join(", ", constraints) + "]"];
    }
    line := Concat(descParts);
    assert |Constraints(fd)| == |constraints|;
  }

  /** `constraints` of one field, built by appending. */
  method ConstraintList(fd: FieldDef) returns (constraints: seq<string>)
    ensures constraints == Texts(Constraints(fd))
  {
    constraints := [];
    if !fd.required {
      constraints := constraints + ["optional"];
    }
    assert constraints == PieceText(fd, 0);
    ghost var c0 := constraints;
    if HasEnum(fd) {
      constraints := constraints + ["allowed values: " + ListRepr(fd.enumValues.value)];
    }
    assert constraints == c0 + PieceText(fd, 1);
    ghost var c1 := constraints;
    if fd.minLength.Some? {
      constraints := constraints + ["min length: " + IntToString(fd.minLength.value)];
    }
    assert constraints == c1 + PieceText(fd, 2);
    ghost var c2 := constraints;
    if fd.maxLength.Some? {
      constraints := constraints + ["max length: " + IntToString(fd.maxLength.value)];
    }
    assert constraints == c2 + PieceText(fd, 3);
    ghost var c3 := constraints;
    if fd.minimum.Some? {
      constraints := constraints + ["minimum: " + fd.minimum.value.shown];
    }
    assert constraints == c3 + PieceText(fd, 4);
    ghost var c4 := constraints;
    if fd.maximum.Some? {
      constraints := constraints + ["maximum: " + fd.maximum.value.shown];
    }
    assert constraints == c4 + PieceText(fd, 5);
    ConstraintTexts(fd);
  }

  /** `"".join(parts)`. */
  function Concat(parts: seq<string>): string {
    if parts == [] then "" else Concat(parts[..|parts| - 1]) + parts[|parts| - 1]
  }

  lemma ConcatSnoc(parts: seq<string>, p: string)
    ensures Concat(parts + [p]) == Concat(parts) + p
  {
    assert (parts + [p])[..|parts|] == parts;
  }

  /** An enum of strings is shown in the schema with its quotes turned into
      double quotes, the same as the quotes around it. */
  lemma EnumSchemaExample()
    ensures SchemaDescription([("c", FieldDef(StringType, None, true, Some([VStr("A")]), None, None, None, None))])
            == "{\"c\": \"enum([\"A\"])\"}"
  {
    var fd := FieldDef(StringType, None, true, Some([VStr("A")]), None, None, None, None);
    EnumStructure(fd);
    EnumDict();
    QuotesReplaced();
  }

  /** A step of `EnumSchemaExample`: the dict text of the example. */
  lemma EnumDict()
    ensures DictRepr([("c", "enum(['A'])")]) == "{'c': 'enum(['A'])'}"
  {
    DictReprOne("c", "enum(['A'])");
  }

  /** A step of `EnumSchemaExample`: the structure of the example. */
  lemma EnumStructure(fd: FieldDef)
    requires fd == FieldDef(StringType, None, true, Some([VStr("A")]), None, None, None, None)
    ensures SchemaStructure([("c", fd)]) == [("c", "enum(['A'])")]
  {
    assert ListRepr([VStr("A")]) == "['A']";
    assert FormatFieldType(fd) == "enum(['A'])";
  }

  /** A step of `EnumSchemaExample`: the quote replacement of the example. */
  lemma QuotesReplaced()
    ensures ReplaceChar("{'c': 'enum(['A'])'}", '\'', '"') == "{\"c\": \"enum([\"A\"])\"}"
  {
  }

}
