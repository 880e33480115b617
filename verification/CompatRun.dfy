/** The compatibility codec as it runs (src/serialize.cpp): an encoder that appends text
    and the strict decoder of a parsed tree, in either report mode. */
module CompatRun {
  import opened Bytes
  import opened Model
  import opened Utf8
  import opened Wire
  import opened Gate
  import opened Native
  import opened BodyCodec
  import opened Json
  import opened JsonParser
  import opened Compat
  import Base64

  /** JsonDecoder: the error list under construction, and the mode. */
  class JsonDecoder {
    var errs: seq<Error>
    const all: bool
    const ft: FloatText

    constructor (collectAll: bool, ft: FloatText)
      ensures errs == [] && all == collectAll && this.ft == ft
    {
      errs, all, this.ft := [], collectAll, ft;
    }

    predicate Stop()
      reads this
    {
      !all && errs != []
    }

    /** `more` was reported, up to where the mode stops; what was decoded is `spec`
        unless something was left undone. */
    twostate predicate Reported<T>(new value: T, new spec: Decoded<T>)
      reads this
    {
      && errs == Extend(old(errs), spec.errs, all)
      && (!Stop() ==> value == spec.value)
    }

    method Push(kind: ErrorKind, path: bytes)
      requires !Stop()
      modifies this
      ensures errs == Extend(old(errs), [Error(kind, path)], all)
    {
      errs := errs + [Error(kind, path)];
    }

    method Fields(members: seq<Member>, door: Schema, base: bytes) returns (out: Value)
      requires WfSchema(door)
      modifies this
      ensures Reported(out, DecodeObject(members, door, base, ft))
      decreases door, 2
    {
      hide DecodeSlots, Undeclared, WfSchema;
      ExtendTwice(errs, Undeclared(members, door, base), DecodeSlots(members, door, 0, base, ft).errs, all);
      RefuseUndeclared(members, door, base);
      out := DeclaredFields(members, door, base);
    }

    /** The loop of Fields over the declared fields. */
    method DeclaredFields(members: seq<Member>, door: Schema, base: bytes) returns (out: Value)
      requires WfSchema(door)
      modifies this
      ensures var spec := DecodeSlots(members, door, 0, base, ft);
              errs == Extend(old(errs), spec.errs, all) && (!Stop() ==> out == Value(door, spec.value))
      decreases door, 1
    {
      hide DecodeSlot, WfType, Extend, Set, NoSlots;
      out := Empty(door);
      ghost var spec := DecodeSlots(members, door, 0, base, ft);
      ghost var done: seq<Option<Cell>> := [];
      var i := 0;
      assert [] + spec.value == spec.value;
      assert out.slots == done + NoSlots(|door.fields|) by { EmptyHasNoSlots(door); }
      while i < |door.fields|
        invariant 0 <= i <= |door.fields|
        invariant Extend(old(errs), spec.errs, all) == Extend(errs, DecodeSlots(members, door, i, base, ft).errs, all)
        invariant out.schema == door && |done| == i && out.slots == done + NoSlots(|door.fields| - i)
        invariant !Stop() ==> spec.value == done + DecodeSlots(members, door, i, base, ft).value
      {
        if Stop() {
          ExtendNothing(errs, DecodeSlots(members, door, i, base, ft).errs, all);
          return;
        }
        ghost var rest := DecodeSlots(members, door, i + 1, base, ft);
        ExtendTwice(errs, DecodeSlot(members, door.fields[i], base, ft).errs, rest.errs, all);
        var got := DeclaredField(members, door.fields[i], base);
        NextSlot(done, |door.fields| - i, got);
        assert done + ([got] + rest.value) == (done + [got]) + rest.value;
        if got.Some? {
          SetAt(out, i, got.value);
          out := Set(out, door.fields[i].name, got.value).value;
        }
        done := done + [got];
        i := i + 1;
      }
      ExtendNothing(errs, [], all);
      assert done + [] == done && NoSlots(0) == [] by { EmptyHasNoSlots(Schema([], 0, [], 0)); }
    }

    method DeclaredField(members: seq<Member>, f: Field, base: bytes) returns (got: Option<Cell>)
      requires !Stop() && WfType(f.ty)
      modifies this
      ensures Reported(got, DecodeSlot(members, f, base, ft))
      decreases f, 1
    {
      hide DecodeNode;
      got := None;
      var found := Find(members, f.name);
      if found.Some? {
        got := Node(found.value, f.ty, JoinField(base, f.name));
      }
    }

    /** Strict: every member must name a declared field. */
    method RefuseUndeclared(members: seq<Member>, door: Schema, base: bytes)
      modifies this
      ensures errs == Extend(old(errs), Undeclared(members, door, base), all)
    {
      hide Extend, Undeclared, FieldIndex;
      var k := 0;
      assert members[0..] == members;
      while k < |members|
        invariant 0 <= k <= |members|
        invariant Extend(old(errs), Undeclared(members, door, base), all) ==
                  Extend(errs, Undeclared(members[k..], door, base), all)
      {
        if Stop() {
          ExtendNothing(errs, Undeclared(members[k..], door, base), all);
          return;
        }
        var key := members[k].key;
        assert members[k..][0] == members[k] && members[k..][1..] == members[k + 1..];
        UndeclaredStep(members[k..], door, base);
        if FieldIndex(door.fields, key) == |door.fields| {
          ExtendTwice(errs, [Error(UnknownField, JoinField(base, key))], Undeclared(members[k + 1..], door, base), all);
          Push(UnknownField, JoinField(base, key));
        }
        k := k + 1;
      }
      UndeclaredStep(members[k..], door, base);
      ExtendNothing(errs, [], all);
    }

    lemma UndeclaredStep(members: seq<Member>, door: Schema, base: bytes)
      ensures Undeclared(members, door, base) ==
              if members == [] then []
              else if FieldIndex(door.fields, members[0].key) < |door.fields| then Undeclared(members[1..], door, base)
              else [Error(UnknownField, JoinField(base, members[0].key))] + Undeclared(members[1..], door, base)
    {
      hide FieldIndex;
    }

    method Node(node: Json, t: Type, path: bytes) returns (out: Option<Cell>)
      requires !Stop() && WfType(t)
      modifies this
      ensures Reported(out, DecodeNode(node, t, path, ft))
      decreases t, 0
    {
      hide DecodeObject, DecodeItems;
      out := None;
      match t
      case IntT =>
        if !node.JString? {
          Push(TypeMismatch, path);
        } else if ReadInt64(node.text).None? {
          Push(MalformedField, path);
        } else {
          out := Some(IntC(ReadInt64(node.text).value));
        }
      case FloatT =>
        if node.JNumber? {
          var d := ft.read(node.token);
          if d.None? {
            Push(MalformedField, path);
          } else {
            out := Some(FloatC(d.value));
          }
        } else if node.JString? {
          if node.text == NAN_TEXT {
            out := Some(FloatC(CANONICAL_NAN));
          } else if node.text == INF_TEXT {
            out := Some(FloatC(POS_INFINITY));
          } else if node.text == NEG_INF_TEXT {
            out := Some(FloatC(NEG_INFINITY));
          } else {
            Push(MalformedField, path);
          }
        } else {
          Push(TypeMismatch, path);
        }
      case TextT =>
        if !node.JString? {
          Push(TypeMismatch, path);
        } else {
          var valid := CheckUtf8(node.text);
          ValidUtf8IsExact(node.text);
          if !valid {
            Push(MalformedField, path);
          } else {
            out := Some(TextC(node.text));
          }
        }
      case BoolT =>
        if !node.JBool? {
          Push(TypeMismatch, path);
        } else {
          out := Some(BoolC(node.b));
        }
      case BytesT =>
        if !node.JString? {
          Push(TypeMismatch, path);
        } else {
          var ok, octets := Base64.DecodeAll(node.text);
          if !ok {
            Push(MalformedField, path);
          } else {
            out := Some(BytesC(octets));
          }
        }
      case MessageT(s) =>
        if !node.JObject? {
          Push(TypeMismatch, path);
        } else {
          var v := Fields(node.members, s, path);
          out := Some(MessageC(Some(v)));
        }
      case ListT(e) =>
        if !node.JArray? {
          Push(TypeMismatch, path);
        } else {
          var cells := Items(node.items, e, path);
          out := Some(ListC(cells));
        }
    }

    /** The element loop of a list; refused elements are skipped. */
    method Items(items: seq<Json>, t: Type, path: bytes) returns (cells: seq<Cell>)
      requires !Stop() && WfType(t)
      modifies this
      ensures Reported(cells, DecodeItems(items, 0, t, path, ft))
      decreases t, 1
    {
      hide DecodeNode, Extend;
      cells := [];
      ghost var spec := DecodeItems(items, 0, t, path, ft);
      var k := 0;
      assert [] + spec.value == spec.value;
      while k < |items|
        invariant 0 <= k <= |items|
        invariant Extend(old(errs), spec.errs, all) == Extend(errs, DecodeItems(items, k, t, path, ft).errs, all)
        invariant !Stop() ==> spec.value == cells + DecodeItems(items, k, t, path, ft).value
      {
        if Stop() {
          ExtendNothing(errs, DecodeItems(items, k, t, path, ft).errs, all);
          break;
        }
        ghost var d := DecodeNode(items[k], t, JoinIndex(path, k), ft);
        ghost var rest := DecodeItems(items, k + 1, t, path, ft);
        ExtendTwice(errs, d.errs, rest.errs, all);
        var got := Node(items[k], t, JoinIndex(path, k));
        var kept := if got.Some? then [got.value] else [];
        assert cells + (kept + rest.value) == (cells + kept) + rest.value;
        cells := cells + kept;
        k := k + 1;
      }
      ExtendNothing(errs, [], all);
      assert cells + [] == cells;
    }
  }

  // ---- encode ---------------------------------------------------------------------------

  method WriteFloatText(bits: u64, ft: FloatText, out: Sink)
    modifies out
    ensures out.data == old(out.data) + FloatJson(bits, ft)
  {
    if IsNaN(bits) {
      out.Append([QUOTE] + NAN_TEXT + [QUOTE]);
    } else if bits == POS_INFINITY || bits == NEG_INFINITY {
      out.Append(if bits == NEG_INFINITY then [QUOTE] + NEG_INF_TEXT + [QUOTE] else [QUOTE] + INF_TEXT + [QUOTE]);
    } else {
      out.Append(ft.show(bits));
    }
  }

  /** json_encode_fields */
  method WriteObject(v: Value, ft: FloatText, out: Sink)
    modifies out
    ensures out.data == old(out.data) + ObjectJson(v, ft)
    decreases v, 1
  {
    hide CellJson, Quote;
    ghost var before := out.data + [OPEN_BRACE];
    out.Push(OPEN_BRACE);
    var first := true;
    ghost var all := MembersJson(v, 0, true, ft);
    var i := 0;
    while i < |v.schema.fields|
      invariant 0 <= i <= |v.schema.fields|
      invariant out.data + MembersJson(v, i, first, ft) == before + all
    {
      if i < |v.slots| && v.slots[i].Some? {
        ghost var sofar := out.data;
        ghost var comma: bytes := if first then [] else [COMMA];
        if !first {
          out.Push(COMMA);
        }
        first := false;
        QuoteInto(v.schema.fields[i].name, out);
        out.Push(COLON);
        WriteNode(v.slots[i].value, ft, out);
        MemberSoFar(sofar, comma, Quote(v.schema.fields[i].name), CellJson(v.slots[i].value, ft), MembersJson(v, i + 1, false, ft));
      }
      i := i + 1;
    }
    assert out.data + [] == out.data;
    out.Push(CLOSE_BRACE);
    MemberSoFar(old(out.data), [], [OPEN_BRACE], all, [CLOSE_BRACE]);
    assert old(out.data) + ObjectJson(v, ft) == (old(out.data) + [OPEN_BRACE]) + all + [CLOSE_BRACE];
  }

  lemma MemberSoFar(sofar: bytes, comma: bytes, key: bytes, value: bytes, rest: bytes)
    ensures sofar + (comma + (key + ([COLON] + (value + rest)))) == (sofar + comma + key + [COLON] + value) + rest
  {
  }

  /** json_encode_cell */
  method WriteNode(c: Cell, ft: FloatText, out: Sink)
    modifies out
    ensures out.data == old(out.data) + CellJson(c, ft)
    decreases c, 0
  {
    match c
    case IntC(i) => out.Append([QUOTE] + IntText(i) + [QUOTE]);
    case FloatC(bits) => WriteFloatText(bits, ft, out);
    case TextC(s) => QuoteInto(s, out);
    case BoolC(b) => out.Append(if b then TRUE_TEXT else FALSE_TEXT);
    case BytesC(s) =>
      var text := new Sink();
      Base64.EncodeInto(s, text);
      assert text.data == Base64.Encode(s);
      QuoteInto(text.data, out);
    case MessageC(m) =>
      if m.Some? {
        WriteObject(m.value, ft, out);
      } else {
        out.Append(NULL_TEXT);
      }
    case ListC(cs) => WriteArray(cs, ft, out);
  }

  /** The element loop of a list. */
  method WriteArray(cs: seq<Cell>, ft: FloatText, out: Sink)
    modifies out
    ensures out.data == old(out.data) + ([OPEN_BRACKET] + ElementsJson(cs, 0, ft) + [CLOSE_BRACKET])
    decreases cs, 0
  {
    hide CellJson;
    ghost var before := out.data + [OPEN_BRACKET];
    out.Push(OPEN_BRACKET);
    ghost var all := ElementsJson(cs, 0, ft);
    var first := true;
    var k := 0;
    while k < |cs|
      invariant 0 <= k <= |cs| && first == (k == 0)
      invariant out.data + ElementsJson(cs, k, ft) == before + all
    {
      ghost var sofar := out.data;
      ghost var comma: bytes := if first then [] else [COMMA];
      if !first {
        out.Push(COMMA);
      }
      first := false;
      WriteNode(cs[k], ft, out);
      ElementSoFar(sofar, comma, CellJson(cs[k], ft), ElementsJson(cs, k + 1, ft));
      k := k + 1;
    }
    assert out.data + [] == out.data;
    out.Push(CLOSE_BRACKET);
    assert old(out.data) + ([OPEN_BRACKET] + all + [CLOSE_BRACKET]) == (old(out.data) + [OPEN_BRACKET]) + all + [CLOSE_BRACKET];
  }

  lemma ElementSoFar(sofar: bytes, comma: bytes, value: bytes, rest: bytes)
    ensures sofar + (comma + (value + rest)) == (sofar + comma + value) + rest
  {
  }
}
