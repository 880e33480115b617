/** The gate's complete report (src/gate.cpp): every offence there is, once, where it is, in order. */
module GateReport {
  import opened Bytes
  import opened Model
  import opened Gate

  // ---- where in a value, and what is wrong there -------------------------------------------------

  /** One step down from a value: into a field of the door, or to an element of a list. */
  datatype Step = InField(n: nat) | AtIndex(n: nat)

  /** The datum v holds for the door's field of this name. */
  function Held(v: Value, name: bytes): Option<Cell> {
    var slot := FieldIndex(v.schema.fields, name);
    if slot < |v.schema.fields| && slot < |v.slots| then v.slots[slot] else None
  }

  /** What is wrong with v, as a value of the door, at this place. */
  predicate Offends(v: Value, door: Schema, at: seq<Step>, kind: ErrorKind)
    decreases |at|, 0
  {
    at != [] && at[0].InField? && at[0].n < |door.fields| &&
    var f := door.fields[at[0].n];
    match Held(v, f.name)
    case None => f.required && at[1..] == [] && kind == MissingField
    case Some(c) => CellOffends(c, f.ty, at[1..], kind)
  }

  /** A datum of the wrong kind, a null message or one of another identity is an offence itself; a
      message or a list of the right kind offends where its parts do. */
  predicate CellOffends(c: Cell, t: Type, at: seq<Step>, kind: ErrorKind)
    decreases |at|, 1
  {
    if !RightKind(c, t) then at == [] && kind == TypeMismatch
    else if t.MessageT? && c.msg.None? then at == [] && kind == NullMessage
    else if t.MessageT? && c.msg.value.schema.id != t.schema.id then at == [] && kind == SchemaMismatch
    else if t.MessageT? then at != [] && Offends(c.msg.value, t.schema, at, kind)
    else t.ListT? && at != [] && at[0].AtIndex? && at[0].n < |c.cells| && CellOffends(c.cells[at[0].n], t.elem, at[1..], kind)
  }

  predicate RightKind(c: Cell, t: Type) {
    || (t.IntT? && c.IntC?) || (t.FloatT? && c.FloatC?) || (t.TextT? && c.TextC?) || (t.BoolT? && c.BoolC?)
    || (t.BytesT? && c.BytesC?) || (t.MessageT? && c.MessageC?) || (t.ListT? && c.ListC?)
  }

  /** A place as the report renders it: field names joined by dots, indices in brackets. */
  function Rendered(base: bytes, door: Schema, at: seq<Step>): bytes
    decreases |at|, 0
  {
    if at == [] || at[0].n >= |door.fields| then base
    else
      var f := door.fields[at[0].n];
      RenderedIn(if base == [] then f.name else base + [0x2E] + f.name, f.ty, at[1..])
  }

  function RenderedIn(base: bytes, t: Type, at: seq<Step>): bytes
    decreases |at|, 1
  {
    if at == [] then base
    else if t.MessageT? then Rendered(base, t.schema, at)
    else if t.ListT? then RenderedIn(base + [0x5B] + Decimal(at[0].n) + [0x5D], t.elem, at[1..])
    else base
  }

  /** Earlier in declaration and list order. */
  predicate Before(a: seq<Step>, b: seq<Step>) {
    a != [] && b != [] && (a[0].n < b[0].n || (a[0] == b[0] && Before(a[1..], b[1..])))
  }

  predicate Ascending(ps: seq<seq<Step>>) { forall i, j :: 0 <= i < j < |ps| ==> Before(ps[i], ps[j]) }

  // ---- listings -----------------------------------------------------------------------------------

  predicate PlacedField(v: Value, door: Schema, base: bytes, e: Error, at: seq<Step>) {
    Offends(v, door, at, e.kind) && e.path == Rendered(base, door, at)
  }

  predicate PlacedCell(c: Cell, t: Type, base: bytes, e: Error, at: seq<Step>) {
    CellOffends(c, t, at, e.kind) && e.path == RenderedIn(base, t, at)
  }

  /** The places ps, in order, are those of the errors, and there are no others from field i on. */
  ghost predicate ListsFields(v: Value, door: Schema, i: nat, base: bytes, errs: seq<Error>, ps: seq<seq<Step>>) {
    && |ps| == |errs| && Ascending(ps)
    && (forall j :: 0 <= j < |ps| ==> PlacedField(v, door, base, errs[j], ps[j]) && ps[j][0].n >= i)
    && forall at: seq<Step>, kind :: Offends(v, door, at, kind) && at[0].n >= i ==> Listed(errs, ps, at, kind)
  }

  ghost predicate ListsCell(c: Cell, t: Type, base: bytes, errs: seq<Error>, ps: seq<seq<Step>>) {
    && |ps| == |errs| && Ascending(ps)
    && (forall j :: 0 <= j < |ps| ==> PlacedCell(c, t, base, errs[j], ps[j]))
    && forall at: seq<Step>, kind :: CellOffends(c, t, at, kind) ==> Listed(errs, ps, at, kind)
  }

  predicate ElementOffends(cs: seq<Cell>, t: Type, at: seq<Step>, kind: ErrorKind) {
    at != [] && at[0].AtIndex? && at[0].n < |cs| && CellOffends(cs[at[0].n], t, at[1..], kind)
  }

  predicate PlacedElement(cs: seq<Cell>, t: Type, base: bytes, e: Error, at: seq<Step>) {
    ElementOffends(cs, t, at, e.kind) && e.path == RenderedIn(base, ListT(t), at)
  }

  ghost predicate ListsElements(cs: seq<Cell>, k: nat, t: Type, base: bytes, errs: seq<Error>, ps: seq<seq<Step>>) {
    && |ps| == |errs| && Ascending(ps)
    && (forall j :: 0 <= j < |ps| ==> PlacedElement(cs, t, base, errs[j], ps[j]) && ps[j][0].n >= k)
    && forall at: seq<Step>, kind :: ElementOffends(cs, t, at, kind) && at[0].n >= k ==> Listed(errs, ps, at, kind)
  }

  ghost predicate Listed(errs: seq<Error>, ps: seq<seq<Step>>, at: seq<Step>, kind: ErrorKind)
    requires |ps| == |errs|
  {
    exists j :: 0 <= j < |ps| && ps[j] == at && errs[j].kind == kind
  }

  function Under(s: Step, ps: seq<seq<Step>>): seq<seq<Step>> { seq(|ps|, i requires 0 <= i < |ps| => [s] + ps[i]) }

  lemma UnderAscends(s: Step, ps: seq<seq<Step>>)
    requires Ascending(ps)
    ensures Ascending(Under(s, ps))
  {
    var qs := Under(s, ps);
    forall i, j | 0 <= i < j < |qs| ensures Before(qs[i], qs[j]) {
      assert qs[i][1..] == ps[i] && qs[j][1..] == ps[j];
    }
  }

  /** Everything under an earlier step comes before everything from a later one on. */
  lemma UnderThen(s: Step, ps: seq<seq<Step>>, qs: seq<seq<Step>>)
    requires Ascending(ps) && Ascending(qs) && forall j :: 0 <= j < |qs| ==> qs[j] != [] && qs[j][0].n > s.n
    ensures Ascending(Under(s, ps) + qs)
  {
    UnderAscends(s, ps);
    var rs, us := Under(s, ps) + qs, Under(s, ps);
    forall i, j | 0 <= i < j < |rs| ensures Before(rs[i], rs[j]) {
      if j < |us| {
        assert rs[i] == us[i] && rs[j] == us[j];
      } else if i < |us| {
        assert rs[i] == [s] + ps[i] && rs[j] == qs[j - |us|];
      } else {
        assert rs[i] == qs[i - |us|] && rs[j] == qs[j - |us|];
      }
    }
  }

  lemma ListedUnder(errs: seq<Error>, more: seq<Error>, s: Step, ps: seq<seq<Step>>, qs: seq<seq<Step>>, at: seq<Step>, kind: ErrorKind)
    requires |ps| == |errs| && |qs| == |more|
    requires if at != [] && at[0] == s then Listed(errs, ps, at[1..], kind) else Listed(more, qs, at, kind)
    ensures Listed(errs + more, Under(s, ps) + qs, at, kind)
  {
    var rs := Under(s, ps) + qs;
    if at != [] && at[0] == s {
      var j :| 0 <= j < |ps| && ps[j] == at[1..] && errs[j].kind == kind;
      assert rs[j] == [s] + at[1..] == at && (errs + more)[j] == errs[j];
    } else {
      var j :| 0 <= j < |qs| && qs[j] == at && more[j].kind == kind;
      assert rs[|ps| + j] == at && (errs + more)[|ps| + j] == more[j];
    }
  }

  // ---- the report lists every offence -----------------------------------------------------------------

  lemma {:induction false} FieldsListed(v: Value, door: Schema, i: nat, base: bytes) returns (ps: seq<seq<Step>>)
    requires i <= |door.fields|
    ensures ListsFields(v, door, i, base, FieldErrors(v, door, i, base), ps)
    decreases v, 1, |door.fields| - i
  {
    if i == |door.fields| {
      ps := [];
    } else {
      hide Before, CellOffends, CellErrors, RenderedIn;
      var rest := FieldsListed(v, door, i + 1, base);
      var f := door.fields[i];
      var path := JoinField(base, f.name);
      var here: seq<Error>, own: seq<seq<Step>> := [], [];
      if Held(v, f.name).Some? {
        own := CellListed(Held(v, f.name).value, f.ty, path);
        here := CellErrors(Held(v, f.name).value, f.ty, path);
      } else if f.required {
        own, here := [[]], [Error(MissingField, path)];
      }
      ps := Under(InField(i), own) + rest;
      FieldListedThen(v, door, i, base, here, own, FieldErrors(v, door, i + 1, base), rest);
      assert FieldErrors(v, door, i, base) == here + FieldErrors(v, door, i + 1, base);
    }
  }

  /** The offences of field i and those of the fields after it. */
  lemma FieldListedThen(v: Value, door: Schema, i: nat, base: bytes, here: seq<Error>, own: seq<seq<Step>>,
                        more: seq<Error>, rest: seq<seq<Step>>)
    requires i < |door.fields| && |own| == |here| && ListsFields(v, door, i + 1, base, more, rest)
    requires var f := door.fields[i]; var path := JoinField(base, f.name);
             match Held(v, f.name)
             case Some(c) => ListsCell(c, f.ty, path, here, own)
             case None => own == (if f.required then [[]] else []) && here == if f.required then [Error(MissingField, path)] else []
    ensures ListsFields(v, door, i, base, here + more, Under(InField(i), own) + rest)
  {
    hide Before, CellOffends, RenderedIn, Listed;
    var f := door.fields[i];
    var errs, ps := here + more, Under(InField(i), own) + rest;
    UnderThen(InField(i), own, rest) by { AscendingOwn(own); }
    forall j | 0 <= j < |ps| ensures PlacedField(v, door, base, errs[j], ps[j]) && ps[j][0].n >= i {
      if j < |own| {
        assert ps[j] == [InField(i)] + own[j] && ps[j][1..] == own[j] && errs[j] == here[j];
        OwnPlaced(v, door, i, base, here[j], own[j]) by {
          if Held(v, f.name).Some? {
            assert PlacedCell(Held(v, f.name).value, f.ty, JoinField(base, f.name), here[j], own[j]);
          }
        }
      } else {
        assert ps[j] == rest[j - |own|] && errs[j] == more[j - |own|];
        assert PlacedField(v, door, base, more[j - |own|], rest[j - |own|]);
      }
    }
    forall at: seq<Step>, kind | Offends(v, door, at, kind) && at[0].n >= i ensures Listed(errs, ps, at, kind) {
      if at[0] == InField(i) {
        OwnListed(v, door, i, base, here, own, at, kind);
      }
      ListedUnder(here, more, InField(i), own, rest, at, kind);
    }
  }

  lemma AscendingOwn(own: seq<seq<Step>>)
    ensures |own| <= 1 ==> Ascending(own)
  {
  }

  lemma OwnPlaced(v: Value, door: Schema, i: nat, base: bytes, e: Error, at: seq<Step>)
    requires i < |door.fields|
    requires var f := door.fields[i]; var path := JoinField(base, f.name);
             match Held(v, f.name)
             case Some(c) => PlacedCell(c, f.ty, path, e, at)
             case None => f.required && at == [] && e == Error(MissingField, path)
    ensures PlacedField(v, door, base, e, [InField(i)] + at)
  {
    hide CellOffends;
    var all, f := [InField(i)] + at, door.fields[i];
    assert all[0] == InField(i) && all[1..] == at;
    assert Rendered(base, door, all) == RenderedIn(JoinField(base, f.name), f.ty, at);
    assert Offends(v, door, all, e.kind) ==
           match Held(v, f.name)
           case None => f.required && at == [] && e.kind == MissingField
           case Some(c) => CellOffends(c, f.ty, at, e.kind);
  }

  lemma OwnListed(v: Value, door: Schema, i: nat, base: bytes, here: seq<Error>, own: seq<seq<Step>>, at: seq<Step>, kind: ErrorKind)
    requires i < |door.fields| && |own| == |here| && Offends(v, door, at, kind) && at[0] == InField(i)
    requires var f := door.fields[i]; var path := JoinField(base, f.name);
             match Held(v, f.name)
             case Some(c) => ListsCell(c, f.ty, path, here, own)
             case None => own == (if f.required then [[]] else []) && here == if f.required then [Error(MissingField, path)] else []
    ensures Listed(here, own, at[1..], kind)
  {
    hide CellOffends, RenderedIn, Before;
    if Held(v, door.fields[i].name).None? {
      assert own[0] == at[1..];
    }
  }

  lemma {:induction false} CellListed(c: Cell, t: Type, base: bytes) returns (ps: seq<seq<Step>>)
    ensures ListsCell(c, t, base, CellErrors(c, t, base), ps)
    decreases c, 0, 0
  {
    if RightKind(c, t) && t.MessageT? && c.msg.Some? && c.msg.value.schema.id == t.schema.id {
      ps := FieldsListed(c.msg.value, t.schema, 0, base);
      MessageListed(c, t, base, FieldErrors(c.msg.value, t.schema, 0, base), ps);
    } else if RightKind(c, t) && t.ListT? {
      ps := ElementsListed(c.cells, 0, t.elem, base);
      ElementsAreCells(c, t, base, ElementErrors(c.cells, 0, t.elem, base), ps);
    } else {
      ps := if CellErrors(c, t, base) == [] then [] else [[]];
      LeafListed(c, t, base);
    }
  }

  lemma MessageListed(c: Cell, t: Type, base: bytes, errs: seq<Error>, ps: seq<seq<Step>>)
    requires t.MessageT? && c.MessageC? && c.msg.Some? && c.msg.value.schema.id == t.schema.id
    requires ListsFields(c.msg.value, t.schema, 0, base, errs, ps)
    ensures ListsCell(c, t, base, errs, ps)
  {
    hide Before, Listed, Ascending;
    forall j | 0 <= j < |ps| ensures PlacedCell(c, t, base, errs[j], ps[j]) {
      assert PlacedField(c.msg.value, t.schema, base, errs[j], ps[j]);
    }
    forall at: seq<Step>, kind | CellOffends(c, t, at, kind) ensures Listed(errs, ps, at, kind) {
      assert Offends(c.msg.value, t.schema, at, kind);
    }
  }

  lemma ElementsAreCells(c: Cell, t: Type, base: bytes, errs: seq<Error>, ps: seq<seq<Step>>)
    requires t.ListT? && c.ListC? && ListsElements(c.cells, 0, t.elem, base, errs, ps)
    ensures ListsCell(c, t, base, errs, ps)
  {
    hide Before, Listed, Ascending, RenderedIn;
    forall j | 0 <= j < |ps| ensures PlacedCell(c, t, base, errs[j], ps[j]) {
      assert PlacedElement(c.cells, t.elem, base, errs[j], ps[j]);
    }
    forall at: seq<Step>, kind | CellOffends(c, t, at, kind) ensures Listed(errs, ps, at, kind) {
      assert ElementOffends(c.cells, t.elem, at, kind);
    }
  }

  /** A datum that is right, or wrong as a whole. */
  lemma LeafListed(c: Cell, t: Type, base: bytes)
    requires !(RightKind(c, t) && t.MessageT? && c.msg.Some? && c.msg.value.schema.id == t.schema.id)
    requires !(RightKind(c, t) && t.ListT?)
    ensures var errs := CellErrors(c, t, base); ListsCell(c, t, base, errs, if errs == [] then [] else [[]])
  {
    var errs := CellErrors(c, t, base);
    var ps: seq<seq<Step>> := if errs == [] then [] else [[]];
    assert errs != [] ==> |errs| == 1 && errs[0].path == base && CellOffends(c, t, [], errs[0].kind);
    forall at: seq<Step>, kind | CellOffends(c, t, at, kind) ensures Listed(errs, ps, at, kind) {
      assert at == [] && errs == [Error(kind, base)] && ps[0] == at;
    }
  }

  lemma {:induction false} ElementsListed(cs: seq<Cell>, k: nat, t: Type, base: bytes) returns (ps: seq<seq<Step>>)
    requires k <= |cs|
    ensures ListsElements(cs, k, t, base, ElementErrors(cs, k, t, base), ps)
    decreases cs, 0, |cs| - k
  {
    if k == |cs| {
      ps := [];
    } else {
      hide Before, CellOffends, CellErrors, RenderedIn;
      var own := CellListed(cs[k], t, JoinIndex(base, k));
      var rest := ElementsListed(cs, k + 1, t, base);
      ps := Under(AtIndex(k), own) + rest;
      ElementListedThen(cs, k, t, base, CellErrors(cs[k], t, JoinIndex(base, k)), own, ElementErrors(cs, k + 1, t, base), rest);
    }
  }

  lemma ElementListedThen(cs: seq<Cell>, k: nat, t: Type, base: bytes, here: seq<Error>, own: seq<seq<Step>>,
                          more: seq<Error>, rest: seq<seq<Step>>)
    requires k < |cs| && ListsCell(cs[k], t, JoinIndex(base, k), here, own) && ListsElements(cs, k + 1, t, base, more, rest)
    ensures ListsElements(cs, k, t, base, here + more, Under(AtIndex(k), own) + rest)
  {
    hide Before, CellOffends, RenderedIn, Listed;
    var errs, ps := here + more, Under(AtIndex(k), own) + rest;
    UnderThen(AtIndex(k), own, rest);
    forall j | 0 <= j < |ps| ensures PlacedElement(cs, t, base, errs[j], ps[j]) && ps[j][0].n >= k {
      if j < |own| {
        assert ps[j] == [AtIndex(k)] + own[j] && errs[j] == here[j];
        ElementPlaced(cs, k, t, base, here[j], own[j]) by {
          assert PlacedCell(cs[k], t, JoinIndex(base, k), here[j], own[j]);
        }
      } else {
        assert ps[j] == rest[j - |own|] && errs[j] == more[j - |own|];
        assert PlacedElement(cs, t, base, more[j - |own|], rest[j - |own|]);
      }
    }
    forall at: seq<Step>, kind | ElementOffends(cs, t, at, kind) && at[0].n >= k ensures Listed(errs, ps, at, kind) {
      ListedUnder(here, more, AtIndex(k), own, rest, at, kind);
    }
  }

  lemma ElementPlaced(cs: seq<Cell>, k: nat, t: Type, base: bytes, e: Error, at: seq<Step>)
    requires k < |cs| && PlacedCell(cs[k], t, JoinIndex(base, k), e, at)
    ensures PlacedElement(cs, t, base, e, [AtIndex(k)] + at)
  {
    hide CellOffends;
    var all := [AtIndex(k)] + at;
    assert all[0] == AtIndex(k) && all[1..] == at;
  }

  /** The complete report of a value that claims the door's identity is a list of all its offences:
      there are places, strictly in declaration and list order, at the j-th of which the value
      offends in the j-th error's way and which renders as the j-th error's path; and wherever the
      value offends is one of them. A value that claims another identity has that one error. */
  lemma ReportIsComplete(v: Value, door: Schema) returns (ps: seq<seq<Step>>)
    ensures v.schema.id != door.id ==> Diagnose(v, door) == [Error(SchemaMismatch, [])]
    ensures v.schema.id == door.id ==>
              var errs := Diagnose(v, door);
              && |ps| == |errs| && Ascending(ps)
              && (forall j :: 0 <= j < |ps| ==> Offends(v, door, ps[j], errs[j].kind) && errs[j].path == Rendered([], door, ps[j]))
              && forall at: seq<Step>, kind :: Offends(v, door, at, kind) ==> Listed(errs, ps, at, kind)
  {
    hide FieldErrors, Offends, Rendered, Ascending, Listed;
    ps := FieldsListed(v, door, 0, []);
    if v.schema.id == door.id {
      forall j | 0 <= j < |ps|
        ensures Offends(v, door, ps[j], Diagnose(v, door)[j].kind) && Diagnose(v, door)[j].path == Rendered([], door, ps[j])
      {
        assert PlacedField(v, door, [], Diagnose(v, door)[j], ps[j]);
      }
      forall at: seq<Step>, kind | Offends(v, door, at, kind) ensures Listed(Diagnose(v, door), ps, at, kind) {
        OffendsSomewhere(v, door, at, kind);
      }
    }
  }

  lemma OffendsSomewhere(v: Value, door: Schema, at: seq<Step>, kind: ErrorKind)
    requires Offends(v, door, at, kind)
    ensures at != [] && at[0].n >= 0
  {
    hide CellOffends;
  }
}
