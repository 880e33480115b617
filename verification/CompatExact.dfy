/** What the JSON path accepts, and as what (src/serialize.cpp, namespace compat): the envelopes it
    parses, and the trees it decodes under a door, both exactly. */
module CompatExact {
  import opened Bytes
  import opened Model
  import opened Utf8
  import opened Gate
  import opened Json
  import opened JsonGrammar
  import opened JsonExact
  import opened Compat
  import opened Admission
  import Base64

  // ---- number texts ---------------------------------------------------------------------------

  /** An optional minus and decimal digits, leading zeros allowed. */
  ghost predicate SpellsInt(t: bytes, v: int) {
    exists ds: bytes :: ds != [] && AllDigits(ds) &&
      ((t == ds && v == FromDecimal(ds)) || (t == [0x2D] + ds && v + FromDecimal(ds) == 0))
  }

  /** Decimal digits alone. */
  predicate SpellsNat(t: bytes, v: int) { t != [] && AllDigits(t) && v == FromDecimal(t) }

  /** One to sixteen hexadecimal digits, with or without 0x in front. */
  ghost predicate SpellsId(t: bytes, id: u64) {
    exists ds: bytes :: 1 <= |ds| <= 16 && FromHex(ds) == Some(id) && (t == ds || t == [0x30, 0x78] + ds || t == [0x30, 0x58] + ds)
  }

  lemma Int64IsExact(t: bytes, v: i64)
    ensures ReadInt64(t) == Some(v) <==> SpellsInt(t, v)
  {
    hide FromDecimal;
    var neg := StartsWith(t, MINUS);
    var ds := if neg then t[1..] else t;
    if neg {
      assert t == [0x2D] + ds && !AllDigits(t) by { assert !IsDigit(t[0]); }
    }
    if SpellsInt(t, v) {
      var es: bytes :| es != [] && AllDigits(es) && ((t == es && v == FromDecimal(es)) || (t == [0x2D] + es && v + FromDecimal(es) == 0));
      if t == [0x2D] + es {
        assert t[0] == MINUS && t[1..] == es;
      } else {
        assert IsDigit(t[0]);
      }
    }
  }

  lemma U32IsExact(t: bytes, v: u32)
    ensures ReadU32(t) == Some(v) <==> SpellsNat(t, v)
  {
    hide FromDecimal;
  }

  lemma IdIsExact(t: bytes, id: u64)
    ensures ReadId(t) == Some(id) <==> SpellsId(t, id)
  {
    hide FromHex;
    var prefixed := |t| >= 2 && t[0] == 0x30 && (t[1] == 0x78 || t[1] == 0x58);
    var ds := if prefixed then t[2..] else t;
    if prefixed {
      assert t == [0x30, t[1]] + ds;
    }
    if SpellsId(t, id) {
      var es: bytes :| 1 <= |es| <= 16 && FromHex(es) == Some(id) && (t == es || t == [0x30, 0x78] + es || t == [0x30, 0x58] + es);
      if t == es && prefixed {
        NoXInHex(es, 1);
      } else if t != es {
        assert t[2..] == es;
      }
    }
  }

  lemma {:induction false} NoXInHex(ds: bytes, i: nat)
    requires FromHex(ds).Some? && i < |ds|
    ensures HexDigit(ds[i]).Some?
  {
    if i < |ds| - 1 {
      NoXInHex(ds[..|ds| - 1], i);
    }
  }

  // ---- trees ---------------------------------------------------------------------------------------

  /** NaN, Infinity or -Infinity, and its pattern. */
  predicate NamesFloat(t: bytes, bits: u64) {
    || (t == [0x4E, 0x61, 0x4E] && bits == 0x7FF8_0000_0000_0000)
    || (t == [0x49, 0x6E, 0x66, 0x69, 0x6E, 0x69, 0x74, 0x79] && bits == 0x7FF0_0000_0000_0000)
    || (t == [0x2D, 0x49, 0x6E, 0x66, 0x69, 0x6E, 0x69, 0x74, 0x79] && bits == 0xFFF0_0000_0000_0000)
  }

  /** The node says this datum of the type. */
  ghost predicate Denotes(node: Json, t: Type, c: Cell, ft: FloatText)
    decreases t, 1
  {
    match t
    case IntT => node.JString? && c.IntC? && SpellsInt(node.text, c.i)
    case FloatT =>
      c.FloatC? && ((node.JNumber? && ft.read(node.token) == Some(c.bits)) || (node.JString? && NamesFloat(node.text, c.bits)))
    case TextT => node.JString? && ValidUtf8(node.text) && c == TextC(node.text)
    case BoolT => node.JBool? && c == BoolC(node.b)
    case BytesT => node.JString? && c.BytesC? && node.text == Base64.Encode(c.octets)
    case MessageT(s) => node.JObject? && c.MessageC? && c.msg.Some? && DenotesValue(node.members, s, c.msg.value, ft)
    case ListT(e) =>
      node.JArray? && c.ListC? && |c.cells| == |node.items| && forall k :: 0 <= k < |c.cells| ==> Denotes(node.items[k], e, c.cells[k], ft)
  }

  /** The members say this value of the door: they name only its fields, and each of its fields holds
      what the first member of its name says, or nothing if there is none. */
  ghost predicate DenotesValue(members: seq<Member>, door: Schema, v: Value, ft: FloatText)
    decreases door, 2
  {
    && v.schema == door && |v.slots| == |door.fields|
    && (forall k :: 0 <= k < |members| ==> IsField(door, members[k].key))
    && forall i :: 0 <= i < |door.fields| ==> DenotesSlot(members, door.fields[i], v.slots[i], ft)
  }

  ghost predicate DenotesSlot(members: seq<Member>, f: Field, slot: Option<Cell>, ft: FloatText)
    decreases f, 1
  {
    match Find(members, f.name)
    case None => slot.None?
    case Some(node) => slot.Some? && Denotes(node, f.ty, slot.value, ft)
  }

  predicate IsField(door: Schema, name: bytes) { exists i :: 0 <= i < |door.fields| && door.fields[i].name == name }

  lemma {:induction false} FindIsFirst(ms: seq<Member>, key: bytes)
    ensures match Find(ms, key)
            case None => forall k :: 0 <= k < |ms| ==> ms[k].key != key
            case Some(node) =>
              exists k :: 0 <= k < |ms| && ms[k] == Member(key, node) && forall j :: 0 <= j < k ==> ms[j].key != key
  {
    if ms == [] {
    } else if ms[0].key == key {
      assert ms[0] == Member(key, ms[0].value);
    } else {
      FindIsFirst(ms[1..], key);
      assert forall j :: 0 < j < |ms| ==> ms[j] == ms[1..][j - 1];
      if Find(ms[1..], key).Some? {
        var k :| 0 <= k < |ms| - 1 && ms[1..][k] == Member(key, Find(ms[1..], key).value) && forall j :: 0 <= j < k ==> ms[1..][j].key != key;
        assert ms[k + 1] == Member(key, Find(ms, key).value);
      }
    }
  }

  lemma FieldIsDeclared(door: Schema, name: bytes)
    ensures FieldIndex(door.fields, name) < |door.fields| <==> IsField(door, name)
  {
  }

  /** Every undeclared member is reported, in order, and nothing else is. */
  lemma {:induction false} UndeclaredIsExact(members: seq<Member>, door: Schema, base: bytes)
    ensures var errs := Undeclared(members, door, base);
            && (errs == [] <==> forall k :: 0 <= k < |members| ==> IsField(door, members[k].key))
            && (forall e :: e in errs <==> exists k :: 0 <= k < |members| && !IsField(door, members[k].key) &&
                                            e == Error(UnknownField, JoinField(base, members[k].key)))
  {
    hide FieldIndex, IsField;
    if members != [] {
      FieldIsDeclared(door, members[0].key);
      UndeclaredIsExact(members[1..], door, base);
      var rest := Undeclared(members[1..], door, base);
      assert forall k :: 0 < k < |members| ==> members[k] == members[1..][k - 1];
      forall e ensures e in Undeclared(members, door, base) <==>
          exists k :: 0 <= k < |members| && !IsField(door, members[k].key) && e == Error(UnknownField, JoinField(base, members[k].key))
      {
        if e in rest {
          var k :| 0 <= k < |members| - 1 && !IsField(door, members[1..][k].key) && e == Error(UnknownField, JoinField(base, members[1..][k].key));
          assert members[k + 1] == members[1..][k];
        }
      }
    }
  }

  lemma {:induction false} ObjectIsExact(members: seq<Member>, door: Schema, base: bytes, ft: FloatText, v: Value)
    ensures DecodeObject(members, door, base, ft) == Decoded(v, []) <==> DenotesValue(members, door, v, ft)
    decreases door, 2, 0
  {
    hide DecodeSlots, DenotesSlot, Undeclared, IsField;
    UndeclaredIsExact(members, door, base);
    var d := DecodeSlots(members, door, 0, base, ft);
    if |v.slots| == |door.fields| {
      SlotsAreExact(members, door, 0, base, ft, v.slots);
    }
    assert Undeclared(members, door, base) + d.errs == [] <==> Undeclared(members, door, base) == [] && d.errs == [];
  }

  lemma {:induction false} SlotsAreExact(members: seq<Member>, door: Schema, i: nat, base: bytes, ft: FloatText, slots: seq<Option<Cell>>)
    requires i <= |door.fields| && |slots| == |door.fields| - i
    ensures DecodeSlots(members, door, i, base, ft) == Decoded(slots, []) <==>
            forall j :: 0 <= j < |slots| ==> DenotesSlot(members, door.fields[i + j], slots[j], ft)
    decreases door, 1, |door.fields| - i
  {
    hide DecodeSlot, DenotesSlot;
    if i < |door.fields| {
      var f := door.fields[i];
      SlotIsExact(members, f, base, ft, slots[0]);
      SlotsAreExact(members, door, i + 1, base, ft, slots[1..]);
      var d, rest := DecodeSlot(members, f, base, ft), DecodeSlots(members, door, i + 1, base, ft);
      assert forall j :: 0 < j < |slots| ==> slots[j] == slots[1..][j - 1] && door.fields[i + j] == door.fields[i + 1 + (j - 1)];
      assert [d.value] + rest.value == slots <==> d.value == slots[0] && rest.value == slots[1..] by {
        assert ([d.value] + rest.value)[1..] == rest.value && slots == [slots[0]] + slots[1..];
      }
      assert d.errs + rest.errs == [] <==> d.errs == [] && rest.errs == [];
    } else {
      assert slots == [];
    }
  }

  lemma {:induction false} SlotIsExact(members: seq<Member>, f: Field, base: bytes, ft: FloatText, slot: Option<Cell>)
    ensures DecodeSlot(members, f, base, ft) == Decoded(slot, []) <==> DenotesSlot(members, f, slot, ft)
    decreases f, 0, 0
  {
    hide Find, DecodeNode, Denotes;
    match Find(members, f.name)
    case None =>
    case Some(node) =>
      NodeIsDatum(node, f.ty, JoinField(base, f.name), ft);
      if slot.Some? {
        NodeIsExact(node, f.ty, JoinField(base, f.name), ft, slot.value);
      }
  }

  /** A node without errors is a datum. */
  lemma NodeIsDatum(node: Json, t: Type, path: bytes, ft: FloatText)
    ensures DecodeNode(node, t, path, ft).errs == [] ==> DecodeNode(node, t, path, ft).value.Some?
  {
    hide DecodeObject, DecodeItems, ReadInt64, ValidUtf8, Base64.Decode;
  }

  lemma {:induction false} NodeIsExact(node: Json, t: Type, path: bytes, ft: FloatText, c: Cell)
    ensures DecodeNode(node, t, path, ft) == Decoded(Some(c), []) <==> Denotes(node, t, c, ft)
    decreases t, 1, 0
  {
    hide DecodeObject, DecodeItems, DenotesValue, SpellsInt, ReadInt64, ValidUtf8, Base64.Decode, Base64.Encode;
    match t
    case IntT =>
      if node.JString? && c.IntC? {
        Int64IsExact(node.text, c.i);
      }
    case BytesT =>
      if node.JString? && c.BytesC? {
        BytesAreExact(node.text, c.octets);
      }
    case MessageT(s) =>
      if node.JObject? && c.MessageC? && c.msg.Some? {
        ObjectIsExact(node.members, s, path, ft, c.msg.value);
      }
    case ListT(e) =>
      if node.JArray? && c.ListC? {
        ItemsAreExact(node.items, 0, e, path, ft, c.cells);
      }
    case _ =>
  }

  lemma BytesAreExact(t: bytes, octets: bytes)
    ensures Base64.Decode(t) == Some(octets) <==> t == Base64.Encode(octets)
  {
    hide Base64.Decode, Base64.Encode;
    Base64.DecodeOfEncode(octets);
    if Base64.Decode(t).Some? {
      Base64.EncodeOfDecode(t);
    }
  }

  lemma {:induction false} ItemsAreExact(items: seq<Json>, k: nat, t: Type, path: bytes, ft: FloatText, cs: seq<Cell>)
    requires k <= |items|
    ensures DecodeItems(items, k, t, path, ft) == Decoded(cs, []) <==>
            |cs| == |items| - k && forall j :: 0 <= j < |cs| ==> Denotes(items[k + j], t, cs[j], ft)
    decreases t, 2, |items| - k
  {
    hide DecodeNode, Denotes;
    if k < |items| {
      var d, rest := DecodeNode(items[k], t, JoinIndex(path, k), ft), DecodeItems(items, k + 1, t, path, ft);
      NodeIsDatum(items[k], t, JoinIndex(path, k), ft);
      assert d.errs + rest.errs == [] <==> d.errs == [] && rest.errs == [];
      if cs != [] {
        NodeIsExact(items[k], t, JoinIndex(path, k), ft, cs[0]);
        ItemsAreExact(items, k + 1, t, path, ft, cs[1..]);
        assert forall j :: 0 < j < |cs| ==> cs[j] == cs[1..][j - 1];
        if d.value.Some? {
          assert [d.value.value] + rest.value == cs <==> d.value.value == cs[0] && rest.value == cs[1..] by {
            assert ([d.value.value] + rest.value)[1..] == rest.value && cs == [cs[0]] + cs[1..];
          }
        }
      }
    }
  }

  /** A scalar node that says nothing of its type is one error at its path: a type mismatch if it is
      the wrong sort of node, and otherwise malformed. */
  lemma ScalarFaults(node: Json, t: Type, path: bytes, ft: FloatText)
    requires !t.MessageT? && !t.ListT? && forall c :: !Denotes(node, t, c, ft)
    ensures var fits := if t.BoolT? then node.JBool? else if t.FloatT? then node.JNumber? || node.JString? else node.JString?;
            DecodeNode(node, t, path, ft) == Decoded(None, [Error(if fits then MalformedField else TypeMismatch, path)])
  {
    hide SpellsInt, ReadInt64, ValidUtf8, Base64.Decode, Base64.Encode;
    var d := DecodeNode(node, t, path, ft);
    if d.value.Some? {
      NodeIsExact(node, t, path, ft, d.value.value);
    }
  }

  // ---- admission ----------------------------------------------------------------------------------

  /** A JSON claim is admitted as v exactly when it is for the door's name and version, claims no
      other content id, its members say v and nothing more, and v conforms. */
  lemma JsonAdmissionIsExact(u: Unverified, door: Schema, all: bool, ft: FloatText, v: Value)
    requires u.JsonClaim?
    ensures Admit(u, door, all, ft) == Accepted(v) <==>
            && u.name == door.name && u.version == door.version && (u.claimed == None || u.claimed == Some(door.id))
            && DenotesValue(u.members, door, v, ft) && Conforms(v, door)
  {
    hide DecodeObject, DenotesValue, Conforms, Diagnose;
    ObjectIsExact(u.members, door, [], ft, v);
    DiagnoseIsExact(v, door);
    var d := DecodeObject(u.members, door, [], ft);
    if d.errs != [] {
      FinishRefuses(d.value, d.errs, door, all);
    }
  }

  lemma FinishRefuses(candidate: Value, derrs: seq<Error>, door: Schema, all: bool)
    requires derrs != []
    ensures Finish(candidate, derrs, door, all).Rejected?
  {
    hide Diagnose;
  }

  /** A refusal in full mode reports the decoder's errors and, of the gate's, those at paths the
      decoder did not already report. */
  lemma {:induction false} UncoveredIsExact(verrs: seq<Error>, derrs: seq<Error>, e: Error)
    ensures e in derrs + Uncovered(verrs, derrs) <==>
            e in derrs || (e in verrs && forall i :: 0 <= i < |derrs| ==> derrs[i].path != e.path)
  {
    if verrs != [] {
      UncoveredIsExact(verrs[1..], derrs, e);
      assert e in verrs <==> e == verrs[0] || e in verrs[1..];
    }
  }

  // ---- envelopes ------------------------------------------------------------------------------------

  /** The first member of this key has this value. */
  ghost predicate Says(ms: seq<Member>, key: bytes, node: Json) {
    exists k :: 0 <= k < |ms| && ms[k] == Member(key, node) && forall j :: 0 <= j < k ==> ms[j].key != key
  }

  lemma SaysIsFind(ms: seq<Member>, key: bytes, node: Json)
    ensures Says(ms, key, node) <==> Find(ms, key) == Some(node)
  {
    hide Find;
    FindIsFirst(ms, key);
    if Says(ms, key, node) && Find(ms, key).Some? {
      var k :| 0 <= k < |ms| && ms[k] == Member(key, node) && forall j :: 0 <= j < k ==> ms[j].key != key;
      var l :| 0 <= l < |ms| && ms[l] == Member(key, Find(ms, key).value) && forall j :: 0 <= j < l ==> ms[j].key != key;
      assert k == l;
    }
  }

  /** An envelope of format 1 for this claim: the five known keys and no other, the content id
      optional. */
  ghost predicate Envelope(ms: seq<Member>, name: bytes, version: u32, claimed: Option<u64>, fields: seq<Member>) {
    && (forall k :: 0 <= k < |ms| ==> KnownKey(ms[k].key))
    && (exists zen: bytes :: Says(ms, KEY_ZEN, JNumber(zen)) && SpellsInt(zen, 1))
    && Says(ms, KEY_SCHEMA, JString(name))
    && (exists t: bytes :: Says(ms, KEY_VERSION, JNumber(t)) && SpellsNat(t, version))
    && Says(ms, KEY_FIELDS, JObject(fields))
    && match claimed
       case None => forall k :: 0 <= k < |ms| ==> ms[k].key != KEY_ID
       case Some(id) => exists t: bytes :: Says(ms, KEY_ID, JString(t)) && SpellsId(t, id)
  }

  lemma EnvelopeIsExact(ms: seq<Member>, name: bytes, version: u32, claimed: Option<u64>, fields: seq<Member>)
    ensures ReadEnvelope(ms) == JsonClaim(name, version, claimed, fields) <==> Envelope(ms, name, version, claimed, fields)
  {
    hide Find, Says, ReadInt64, ReadU32, ReadId, SpellsInt, SpellsNat, SpellsId, KnownKey;
    forall key, node ensures Says(ms, key, node) <==> Find(ms, key) == Some(node) {
      SaysIsFind(ms, key, node);
    }
    forall t: bytes ensures ReadInt64(t) == Some(1) <==> SpellsInt(t, 1) {
      Int64IsExact(t, 1);
    }
    forall t: bytes ensures ReadU32(t) == Some(version) <==> SpellsNat(t, version) {
      U32IsExact(t, version);
    }
    forall t: bytes, id: u64 ensures ReadId(t) == Some(id) <==> SpellsId(t, id) {
      IdIsExact(t, id);
    }
    FindIsFirst(ms, KEY_ID);
  }

  /** A text parses to a claim exactly when it is a JSON document of an object that is its
      envelope. */
  lemma CompatParseIsExact(b: bytes, name: bytes, version: u32, claimed: Option<u64>, fields: seq<Member>)
    ensures CompatParse(b) == JsonClaim(name, version, claimed, fields) <==>
            exists ms: seq<Member> :: IsDocument(b, JObject(ms)) && Envelope(ms, name, version, claimed, fields)
  {
    hide ParseJson, ReadEnvelope, IsDocument, Envelope;
    forall ms ensures ParseJson(b) == Some(JObject(ms)) <==> IsDocument(b, JObject(ms)) {
      ParserIsExact(b, JObject(ms));
    }
    forall ms ensures ReadEnvelope(ms) == JsonClaim(name, version, claimed, fields) <==> Envelope(ms, name, version, claimed, fields) {
      EnvelopeIsExact(ms, name, version, claimed, fields);
    }
  }
}
