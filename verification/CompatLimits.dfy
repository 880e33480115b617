/** What the JSON path refuses: nesting past the reader's limit; and what it yields otherwise:
    instances of the door. */
module CompatLimits {
  import opened Bytes
  import opened Model
  import opened Utf8
  import opened Gate
  import opened Native
  import opened Canonical
  import opened Json
  import opened JsonGrammar
  import opened JsonExact
  import opened Compat
  import opened CompatDocs

  // ---- documents under a higher limit ---------------------------------------------------------

  /** A document well-formed at a depth is well-formed higher up. */
  lemma {:induction false} DocHigherUp(d: Doc, depth: int, up: int)
    requires WfDoc(d, depth) && up <= depth
    ensures WfDoc(d, up)
    decreases d, 0
  {
    hide WfItem, WfMember, IsNumberToken, WfPieces, MembersMeaning, DistinctKeys;
    match d
    case DArray(_, items) =>
      forall i | 0 <= i < |items| ensures WfItem(items[i], up + 1) {
        ItemHigherUp(items[i], depth + 1, up + 1);
      }
    case DObject(_, ms) =>
      forall i | 0 <= i < |ms| ensures WfMember(ms[i], up + 1) {
        MemberHigherUp(ms[i], depth + 1, up + 1);
      }
    case _ =>
  }

  lemma {:induction false} ItemHigherUp(it: Item, depth: int, up: int)
    requires WfItem(it, depth) && up <= depth
    ensures WfItem(it, up)
    decreases it, 1
  {
    hide WfDoc;
    DocHigherUp(it.doc, depth, up);
  }

  lemma {:induction false} MemberHigherUp(m: DMember, depth: int, up: int)
    requires WfMember(m, depth) && up <= depth
    ensures WfMember(m, up)
    decreases m, 1
  {
    hide WfItem, WfPieces;
    ItemHigherUp(m.item, depth, up);
  }

  /** A text has one meaning, whatever the limit. */
  lemma OneMeaning(it: Item, jt: Item, depth: int)
    requires WfItem(it, depth) && WfItem(jt, depth) && ItemText(it) == ItemText(jt)
    ensures Meaning(it.doc) == Meaning(jt.doc)
  {
    hide ItemText, WfItem, ParseValue, Meaning;
    assert Follow([]);
    ParseOfItem(it, depth, []);
    ParseOfItem(jt, depth, []);
  }

  // ---- trees that nest within the limit ---------------------------------------------------------

  predicate Nests(j: Json, depth: int)
    decreases j, 0
  {
    match j
    case JArray(items) => depth < JSON_MAX_DEPTH && forall i :: 0 <= i < |items| ==> Nests(items[i], depth + 1)
    case JObject(ms) => depth < JSON_MAX_DEPTH && forall i :: 0 <= i < |ms| ==> Nests(ms[i].value, depth + 1)
    case _ => true
  }

  lemma {:induction false} DocNests(d: Doc, depth: int)
    requires WfDoc(d, depth)
    ensures Nests(Meaning(d), depth)
    decreases d, 0
  {
    hide WfItem, WfMember, IsNumberToken, WfPieces, DistinctKeys, Spelled, ItemsMeaning, MembersMeaning;
    match d
    case DArray(_, items) => ItemsNest(items, depth + 1);
    case DObject(_, ms) => MembersNest(ms, depth + 1);
    case _ =>
  }

  lemma {:induction false} ItemsNest(items: seq<Item>, depth: int)
    requires forall i :: 0 <= i < |items| ==> WfItem(items[i], depth)
    ensures forall i :: 0 <= i < |items| ==> Nests(ItemsMeaning(items)[i], depth)
    decreases items, 1
  {
    hide WfDoc, Meaning, Nests;
    if items != [] {
      assert WfItem(items[0], depth);
      DocNests(items[0].doc, depth);
      assert forall i :: 0 <= i < |items| - 1 ==> items[1..][i] == items[i + 1];
      ItemsNest(items[1..], depth);
    }
  }

  lemma {:induction false} MembersNest(ms: seq<DMember>, depth: int)
    requires forall i :: 0 <= i < |ms| ==> WfMember(ms[i], depth)
    ensures forall i :: 0 <= i < |ms| ==> Nests(MembersMeaning(ms)[i].value, depth)
    decreases ms, 1
  {
    hide WfDoc, Meaning, Nests, Spelled, WfPieces;
    if ms != [] {
      assert WfMember(ms[0], depth) && WfItem(ms[0].item, depth);
      DocNests(ms[0].item.doc, depth);
      assert forall i :: 0 <= i < |ms| - 1 ==> ms[1..][i] == ms[i + 1];
      MembersNest(ms[1..], depth);
    }
  }

  lemma {:induction false} FoundNests(ms: seq<Member>, key: bytes, depth: int)
    requires (forall i :: 0 <= i < |ms| ==> Nests(ms[i].value, depth)) && Find(ms, key).Some?
    ensures Nests(Find(ms, key).value, depth)
  {
    hide Nests;
    if ms[0].key != key {
      assert forall i :: 0 <= i < |ms| - 1 ==> ms[1..][i] == ms[i + 1];
      FoundNests(ms[1..], key, depth);
    }
  }

  /** A value whose tree nests within the limit fits. */
  lemma {:induction false} NestedValueFits(v: Value, s: Schema, depth: int, ft: FloatText)
    requires WfSchema(s) && Instance(v, s) && Nests(JObject(FieldTree(v, ft)), depth + 1)
    ensures FitsJson(v, depth)
    decreases v, 1
  {
    hide CellFitsJson, CellInstance, DocOfCell, FieldTree, Find, WfType, MembersMeaning, Meaning;
    var ms := FieldTree(v, ft);
    forall i | 0 <= i < |v.slots| && v.slots[i].Some? ensures CellFitsJson(v.slots[i].value, depth) {
      FieldFound(v, i, ft);
      FoundNests(ms, s.fields[i].name, depth + 2);
      NestedCellFits(v.slots[i].value, s.fields[i].ty, depth, ft);
    }
  }

  lemma FieldFound(v: Value, i: nat, ft: FloatText)
    requires DistinctNames(v.schema.fields) && |v.slots| == |v.schema.fields| && i < |v.slots| && v.slots[i].Some?
    ensures Find(FieldTree(v, ft), v.schema.fields[i].name) == Some(Meaning(DocOfCell(v.slots[i].value, ft)))
  {
    hide DocOfCell, Find, MembersMeaning, Meaning;
    FindField(v, 0, i, ft);
  }

  lemma {:induction false} NestedCellFits(c: Cell, t: Type, depth: int, ft: FloatText)
    requires WfType(t) && CellInstance(c, t) && Nests(Meaning(DocOfCell(c, ft)), depth + 2)
    ensures CellFitsJson(c, depth)
    decreases c, 0
  {
    hide FitsJson, Instance, WfSchema, DocMembers, MembersMeaning, DocItems, ItemsMeaning;
    match c
    case MessageC(m) => NestedValueFits(m.value, t.schema, depth + 1, ft);
    case ListC(cs) =>
      ItemMeaningAt(cs, 0, ft);
      var items := ItemsMeaning(DocItems(cs, 0, ft));
      forall k | 0 <= k < |cs| ensures CellFitsJson(cs[k], depth + 1) {
        assert items[k] == Meaning(DocOfCell(cs[k], ft));
        NestedCellFits(cs[k], t.elem, depth + 1, ft);
      }
    case _ =>
  }

  // ---- every value fits under some limit ----------------------------------------------------------

  lemma {:induction false} FitsHigherUp(v: Value, depth: int, up: int)
    requires FitsJson(v, depth) && up <= depth
    ensures FitsJson(v, up)
    decreases v, 1
  {
    hide CellFitsJson;
    forall i | 0 <= i < |v.slots| && v.slots[i].Some? ensures CellFitsJson(v.slots[i].value, up) {
      CellFitsHigherUp(v.slots[i].value, depth, up);
    }
  }

  lemma {:induction false} CellFitsHigherUp(c: Cell, depth: int, up: int)
    requires CellFitsJson(c, depth) && up <= depth
    ensures CellFitsJson(c, up)
    decreases c, 0
  {
    hide FitsJson;
    match c
    case MessageC(m) =>
      if m.Some? {
        FitsHigherUp(m.value, depth + 1, up + 1);
      }
    case ListC(cs) =>
      forall k | 0 <= k < |cs| ensures CellFitsJson(cs[k], up + 1) {
        CellFitsHigherUp(cs[k], depth + 1, up + 1);
      }
    case _ =>
  }

  lemma {:induction false} SomeDepth(v: Value, i: nat) returns (n: int)
    requires i <= |v.slots|
    ensures n <= 0 && forall j :: i <= j < |v.slots| && v.slots[j].Some? ==> CellFitsJson(v.slots[j].value, n)
    decreases v, 1, |v.slots| - i
  {
    hide CellFitsJson;
    n := 0;
    if i < |v.slots| {
      var rest := SomeDepth(v, i + 1);
      n := rest;
      if v.slots[i].Some? {
        var own := SomeCellDepth(v.slots[i].value);
        n := if own < rest then own else rest;
        CellFitsHigherUp(v.slots[i].value, own, n);
      }
      forall j | i < j < |v.slots| && v.slots[j].Some? ensures CellFitsJson(v.slots[j].value, n) {
        CellFitsHigherUp(v.slots[j].value, rest, n);
      }
    }
  }

  lemma {:induction false} SomeCellDepth(c: Cell) returns (n: int)
    ensures n <= 0 && CellFitsJson(c, n)
    decreases c, 0, 0
  {
    n := 0;
    match c
    case MessageC(m) =>
      if m.Some? {
        n := SomeDepth(m.value, 0);
        n := n - 1;
      }
    case ListC(cs) =>
      n := SomeElementDepth(cs, 0);
      n := n - 1;
    case _ =>
  }

  lemma {:induction false} SomeElementDepth(cs: seq<Cell>, k: nat) returns (n: int)
    requires k <= |cs|
    ensures n <= 0 && forall j :: k <= j < |cs| ==> CellFitsJson(cs[j], n)
    decreases cs, 0, |cs| - k
  {
    hide CellFitsJson;
    n := 0;
    if k < |cs| {
      var rest := SomeElementDepth(cs, k + 1);
      var own := SomeCellDepth(cs[k]);
      n := if own < rest then own else rest;
      CellFitsHigherUp(cs[k], own, n);
      forall j | k < j < |cs| ensures CellFitsJson(cs[j], n) {
        CellFitsHigherUp(cs[j], rest, n);
      }
    }
  }

  // ---- what the decoder yields ----------------------------------------------------------------------

  /** Whatever the members, the decoder's candidate claims the very door, and every present slot
      is of its declared kind, throughout: a refused datum is left out. */
  lemma {:induction false} DecodedObjectIsInstance(members: seq<Member>, door: Schema, base: bytes, ft: FloatText)
    ensures Instance(DecodeObject(members, door, base, ft).value, door)
    decreases door, 2, 0
  {
    hide DecodeSlots, CellInstance, Undeclared;
    var slots := DecodeSlots(members, door, 0, base, ft).value;
    DecodedSlotsAreInstances(members, door, 0, base, ft);
    forall i | 0 <= i < |door.fields| && slots[i].Some? ensures CellInstance(slots[i].value, door.fields[i].ty) {
      assert SlotsInstances(slots, door, 0);
    }
  }

  predicate SlotsInstances(slots: seq<Option<Cell>>, door: Schema, i: nat)
    requires |slots| == |door.fields| - i
  {
    forall j :: 0 <= j < |slots| && slots[j].Some? ==> CellInstance(slots[j].value, door.fields[i + j].ty)
  }

  lemma {:induction false} DecodedSlotsAreInstances(members: seq<Member>, door: Schema, i: nat, base: bytes, ft: FloatText)
    requires i <= |door.fields|
    ensures SlotsInstances(DecodeSlots(members, door, i, base, ft).value, door, i)
    decreases door, 1, |door.fields| - i
  {
    hide DecodeNode, CellInstance;
    if i < |door.fields| {
      var f := door.fields[i];
      DecodedSlotsAreInstances(members, door, i + 1, base, ft);
      var rest := DecodeSlots(members, door, i + 1, base, ft).value;
      var all := DecodeSlots(members, door, i, base, ft).value;
      if Find(members, f.name).Some? {
        DecodedNodeIsInstance(Find(members, f.name).value, f.ty, JoinField(base, f.name), ft);
      }
      forall j | 0 <= j < |all| && all[j].Some? ensures CellInstance(all[j].value, door.fields[i + j].ty) {
        if j == 0 {
          assert all[0] == DecodeSlot(members, f, base, ft).value;
        } else {
          assert all[j] == rest[j - 1] && door.fields[i + 1 + (j - 1)] == door.fields[i + j];
        }
      }
    }
  }

  lemma {:induction false} DecodedNodeIsInstance(node: Json, t: Type, path: bytes, ft: FloatText)
    ensures var d := DecodeNode(node, t, path, ft); d.value.Some? ==> CellInstance(d.value.value, t)
    decreases t, 0, 0
  {
    hide DecodeObject, DecodeItems, Instance, ReadInt64, ValidUtf8;
    match t
    case MessageT(s) =>
      if node.JObject? {
        DecodedObjectIsInstance(node.members, s, path, ft);
      }
    case ListT(e) =>
      if node.JArray? {
        DecodedItemsAreInstances(node.items, 0, e, path, ft);
      }
    case _ =>
  }

  lemma {:induction false} DecodedItemsAreInstances(items: seq<Json>, k: nat, t: Type, path: bytes, ft: FloatText)
    requires k <= |items|
    ensures ElementInstances(DecodeItems(items, k, t, path, ft).value, t)
    decreases t, 1, |items| - k
  {
    hide DecodeNode, CellInstance;
    if k < |items| {
      DecodedNodeIsInstance(items[k], t, JoinIndex(path, k), ft);
      DecodedItemsAreInstances(items, k + 1, t, path, ft);
    }
  }
}
