/** The value model: the seven kinds, schemas, and self-describing values
    (include/zen/kind.hpp, schema.hpp, value.hpp). */
module Model {
  import opened Bytes

  /** A type reference. The null-pointer combinations Schema's constructor rejects
      cannot be written in this datatype. */
  datatype Type =
    | IntT | FloatT | TextT | BoolT | BytesT
    | MessageT(schema: Schema)
    | ListT(elem: Type)

  datatype Field = Field(name: bytes, ty: Type, required: bool)

  /** `id` is the content id the constructor computes; module SchemaId says how. */
  datatype Schema = Schema(name: bytes, version: u32, fields: seq<Field>, id: u64)

  /** One datum. A message is held by pointer, which may be null; a float is its
      64-bit pattern. */
  datatype Cell =
    | IntC(i: i64)
    | FloatC(bits: u64)
    | TextC(text: bytes)
    | BoolC(b: bool)
    | BytesC(octets: bytes)
    | MessageC(msg: Option<Value>)
    | ListC(cells: seq<Cell>)

  /** A value and the shape it claims; slots are aligned with the schema's fields. */
  datatype Value = Value(schema: Schema, slots: seq<Option<Cell>>)

  predicate DistinctNames(fs: seq<Field>) {
    forall i, j :: 0 <= i < j < |fs| ==> fs[i].name != fs[j].name
  }

  /** What Schema's constructor guarantees of every schema that exists, at any depth:
      field names are non-empty and distinct. */
  predicate WfSchema(s: Schema) {
    && DistinctNames(s.fields)
    && forall i :: 0 <= i < |s.fields| ==> s.fields[i].name != [] && WfType(s.fields[i].ty)
  }

  predicate WfType(t: Type) {
    match t
    case MessageT(s) => WfSchema(s)
    case ListT(e) => WfType(e)
    case _ => true
  }

  /** Index of the field called `name`, or |fs|. */
  function FieldIndex(fs: seq<Field>, name: bytes): (r: nat)
    ensures r <= |fs|
    ensures r < |fs| ==> fs[r].name == name
    ensures forall j :: 0 <= j < r ==> fs[j].name != name
  {
    if fs == [] || fs[0].name == name then 0 else 1 + FieldIndex(fs[1..], name)
  }

  lemma FieldIndexOfField(fs: seq<Field>, i: nat)
    requires DistinctNames(fs) && i < |fs|
    ensures FieldIndex(fs, fs[i].name) == i
  {
  }

  /** Value(schema): every field starts absent. */
  function Empty(s: Schema): Value {
    Value(s, seq(|s.fields|, i => None))
  }

  /** The datum in slot i, as Value::at. */
  function At(v: Value, i: nat): Option<Cell> {
    if i < |v.slots| then v.slots[i] else None
  }

  /** The slot Value::get and Value::set resolve a field name to, if it is declared. */
  function Slot(v: Value, name: bytes): Option<nat> {
    var i := FieldIndex(v.schema.fields, name);
    if i < |v.schema.fields| then Some(i) else None
  }

  function Get(v: Value, name: bytes): Option<Cell> {
    match Slot(v, name)
    case None => None
    case Some(i) => At(v, i)
  }

  /** Value::set; an undeclared field throws, which is None. */
  function Set(v: Value, name: bytes, c: Cell): (r: Option<Value>)
    requires |v.slots| == |v.schema.fields|
    ensures r.Some? ==> r.value.schema == v.schema && |r.value.slots| == |v.slots|
  {
    match Slot(v, name)
    case None => None
    case Some(i) => Some(v.(slots := v.slots[i := Some(c)]))
  }

  /** Setting a declared field is read back, and no other field moves. */
  lemma SetThenGet(v: Value, name: bytes, c: Cell, other: bytes)
    requires |v.slots| == |v.schema.fields|
    ensures Set(v, name, c).Some? <==> exists i :: 0 <= i < |v.schema.fields| && v.schema.fields[i].name == name
    ensures Set(v, name, c).Some? ==>
              Get(Set(v, name, c).value, other) == if other == name then Some(c) else Get(v, other)
  {
  }

  /** Setting a schema's i-th field fills slot i. */
  lemma SetAt(v: Value, i: nat, c: Cell)
    requires DistinctNames(v.schema.fields) && |v.slots| == |v.schema.fields| && i < |v.slots|
    ensures Set(v, v.schema.fields[i].name, c) == Some(v.(slots := v.slots[i := Some(c)]))
  {
    FieldIndexOfField(v.schema.fields, i);
  }
}
