/** A value as it is filled in (src/value.cpp): slots updated in place, fields found by a scan. */
module ValueRun {
  import opened Bytes
  import opened Model

  class Draft {
    const schema: Schema
    var slots: seq<Option<Cell>>

    constructor (schema: Schema)
      ensures this.schema == schema && State() == Empty(schema)
    {
      this.schema := schema;
      slots := seq(|schema.fields|, i => None);
    }

    function State(): Value
      reads this
    {
      Value(schema, slots)
    }

    /** The scan Value::set and Value::get share. */
    method Find(field: bytes) returns (i: nat)
      ensures i == FieldIndex(schema.fields, field)
    {
      i := 0;
      while i < |schema.fields| && schema.fields[i].name != field
        invariant i <= |schema.fields|
        invariant FieldIndex(schema.fields, field) == i + FieldIndex(schema.fields[i..], field)
      {
        assert schema.fields[i..][1..] == schema.fields[i + 1..];
        i := i + 1;
      }
    }

    /** Value::set: false where it throws. */
    method Set(field: bytes, cell: Cell) returns (ok: bool)
      requires |slots| == |schema.fields|
      modifies this
      ensures |slots| == |schema.fields| && ok == Model.Set(old(State()), field, cell).Some?
      ensures State() == if ok then Model.Set(old(State()), field, cell).value else old(State())
    {
      var i := Find(field);
      if i == |schema.fields| {
        return false;
      }
      slots := slots[i := Some(cell)];
      return true;
    }

    method Get(field: bytes) returns (cell: Option<Cell>)
      ensures cell == Model.Get(State(), field)
    {
      var i := Find(field);
      cell := if i < |schema.fields| && i < |slots| then slots[i] else None;
    }
  }

  /** construct_blind: every field the source answers is filled with that answer, no other is, and
      nothing about the answers is checked. */
  method ConstructBlind(schema: Schema, source: Field -> Option<Cell>) returns (v: Value)
    requires DistinctNames(schema.fields)
    ensures v.schema == schema && |v.slots| == |schema.fields|
    ensures forall i :: 0 <= i < |schema.fields| ==> v.slots[i] == source(schema.fields[i])
  {
    var d := new Draft(schema);
    var i := 0;
    while i < |schema.fields|
      invariant 0 <= i <= |schema.fields| && |d.slots| == |schema.fields| && d.schema == schema
      invariant forall j :: 0 <= j < i ==> d.slots[j] == source(schema.fields[j])
      invariant forall j :: i <= j < |schema.fields| ==> d.slots[j] == None
    {
      var cell := source(schema.fields[i]);
      if cell.Some? {
        SetAt(d.State(), i, cell.value);
        var ok := d.Set(schema.fields[i].name, cell.value);
      }
      i := i + 1;
    }
    v := d.State();
  }
}
