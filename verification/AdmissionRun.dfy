/** serialize, parse and admit as they run (src/serialize.cpp), and what the two report
    modes of the gate have in common on every path. */
module AdmissionRun {
  import opened Bytes
  import opened Model
  import opened Utf8
  import opened Wire
  import opened Gate
  import opened Native
  import opened BodyCodec
  import opened Json
  import opened Compat
  import opened CompatRun
  import opened JsonParser
  import opened Admission

  // ---- the modes agree ---------------------------------------------------------------------

  /** Accepted alike; and a first-error refusal is the first error of the full refusal. */
  predicate ModesAgree(first: Admission, full: Admission) {
    match (first, full)
    case (Accepted(v), Accepted(w)) => v == w
    case (Rejected(es), Rejected(fs)) => fs != [] && es == [fs[0]]
    case _ => false
  }

  lemma {:induction false} UncoveredByNothing(verrs: seq<Error>)
    ensures Uncovered(verrs, []) == verrs
  {
    if verrs != [] {
      UncoveredByNothing(verrs[1..]);
      assert verrs == [verrs[0]] + verrs[1..];
    }
  }

  lemma FinishModesAgree(candidate: Value, derrs: seq<Error>, door: Schema)
    ensures ModesAgree(Finish(candidate, derrs, door, false), Finish(candidate, derrs, door, true))
  {
    hide Diagnose;
    if derrs == [] {
      UncoveredByNothing(Diagnose(candidate, door));
      assert [] + Diagnose(candidate, door) == Diagnose(candidate, door);
    }
  }

  /** On bytes of either format, and on live values. */
  lemma AdmitModesAgree(u: Unverified, v: Value, door: Schema, ft: FloatText)
    ensures ModesAgree(Admit(u, door, false, ft), Admit(u, door, true, ft))
    ensures ModesAgree(AdmitLive(v, door, false), AdmitLive(v, door, true))
  {
    hide Finish, Diagnose, DecodeNative, DecodeObject;
    match u
    case Malformed =>
    case NativeClaim(_, _, _, body) =>
      var d := DecodeNative(door, body);
      if d.Ok? {
        FinishModesAgree(d.value, [], door);
      }
    case JsonClaim(_, _, _, members) =>
      var d := DecodeObject(members, door, [], ft);
      FinishModesAgree(d.value, d.errs, door);
  }

  /** The live path admits exactly the conforming values, unchanged. */
  lemma LiveAdmits(v: Value, door: Schema, all: bool)
    ensures var a := AdmitLive(v, door, all);
            (a.Accepted? <==> Conforms(v, door)) && (a.Accepted? ==> a.value == v) && (a.Rejected? ==> a.errors != [])
  {
    hide Diagnose, Conforms;
    DiagnoseIsExact(v, door);
  }

  /** Whatever is admitted conforms to its door, and claims the door's own schema if it came
      from bytes. */
  lemma AdmittedConforms(u: Unverified, v: Value, door: Schema, all: bool, ft: FloatText)
    ensures var a := Admit(u, door, all, ft); a.Accepted? ==> Conforms(a.value, door) && a.value.schema == door
    ensures var a := AdmitLive(v, door, all); a.Accepted? <==> Conforms(v, door)
  {
    hide DecodeBody, DecodeObject, Conforms, Diagnose;
    DiagnoseIsExact(v, door);
    match u
    case Malformed =>
    case NativeClaim(_, _, _, body) =>
      assert DecodeBody(door, [], 0, body).Ok? ==> DecodeBody(door, [], 0, body).value.schema == door by {
        SchemaOfDecoded(door, body);
      }
      if DecodeNative(door, body).Ok? {
        FinishConforms(DecodeNative(door, body).value, [], door, all);
      }
    case JsonClaim(_, _, _, members) =>
      var d := DecodeObject(members, door, [], ft);
      assert d.value.schema == door by { SchemaOfTree(members, door, ft); }
      FinishConforms(d.value, d.errs, door, all);
  }

  lemma FinishConforms(candidate: Value, derrs: seq<Error>, door: Schema, all: bool)
    ensures var a := Finish(candidate, derrs, door, all);
            a.Accepted? ==> a.value == candidate && Conforms(candidate, door)
  {
    hide Diagnose, Conforms;
    DiagnoseIsExact(candidate, door);
    if derrs == [] {
      UncoveredByNothing(Diagnose(candidate, door));
    }
  }

  lemma SchemaOfDecoded(door: Schema, body: bytes)
    ensures var d := DecodeBody(door, [], 0, body); d.Ok? ==> d.value.schema == door
  {
  }

  lemma SchemaOfTree(members: seq<Member>, door: Schema, ft: FloatText)
    ensures DecodeObject(members, door, [], ft).value.schema == door
  {
  }

  // ---- as it runs ----------------------------------------------------------------------------

  /** admit(Value, door): the live path runs the validator and nothing else. */
  method AdmitValue(v: Value, door: Schema, all: bool) returns (a: Admission)
    ensures a == AdmitLive(v, door, all)
  {
    hide Diagnose;
    var errs := ValidateInto(v, door, all);
    a := if errs == [] then Accepted(v) else Rejected(errs);
  }

  /** serialize: false where it throws. */
  method SerializeValue(v: Value) returns (ok: bool, bs: bytes)
    ensures ok == Serialize(v).Some?
    ensures ok ==> bs == Serialize(v).value
  {
    hide EncodeBody, PutLE;
    if |v.schema.name| > 0xFFFF {
      return false, [];
    }
    var out := new Sink();
    out.Append(MAGIC);
    WriteLE(out, |v.schema.name|, 2);
    out.Append(v.schema.name);
    WriteLE(out, v.schema.version, 4);
    WriteLE(out, v.schema.id, 8);
    ghost var head := out.data;
    ok := WriteBody(v, out);
    if ok {
      HeaderAppended(PutLE(|v.schema.name|, 2), v.schema.name, PutLE(v.schema.version, 4), PutLE(v.schema.id, 8), EncodeBody(v).value);
    }
    bs := out.data;
  }

  lemma HeaderAppended(len: bytes, name: bytes, version: bytes, id: bytes, body: bytes)
    ensures [] + MAGIC + len + name + version + id + body == MAGIC + (len + (name + (version + (id + body))))
  {
  }

  /** parse: the header read field by field. */
  method ParseBytes(input: bytes) returns (u: Unverified)
    ensures u == Parse(input)
  {
    hide ReadLE, ValidUtf8, ParseClaim;
    u := Malformed;
    var r := new BinReader(input);
    assert r.Left() == input;
    var ok, m0 := r.U8();
    if !ok { return; }
    var ok1, m1 := r.U8();
    if !ok1 { return; }
    if m0 != 0x5A || m1 != 0x4E {
      assert |input| >= 3 ==> input[..3] != MAGIC by { assert input[0] == m0 && input[1] == m1; }
      return;
    }
    var ok2, version := r.U8();
    if !ok2 { return; }
    assert input == [m0, m1, version] + r.Left();
    if version != 0x01 {
      assert input[2] == version;
      return;
    }
    assert input[..3] == MAGIC && input[3..] == r.Left();
    var ok3, nameLen := r.FixedLE(2);
    if !ok3 { return; }
    ghost var left := r.Left();
    var ok4, name := r.Take(nameLen);
    if !ok4 { return; }
    assert left[..nameLen] == name && left[nameLen..] == r.Left();
    var utf8 := CheckUtf8(name);
    ValidUtf8IsExact(name);
    if !utf8 { return; }
    u := ParseRest(name, r);
  }

  method ParseRest(name: bytes, r: BinReader) returns (u: Unverified)
    requires r.Valid()
    modifies r
    ensures u == ParseClaim(name, old(r.Left()))
  {
    hide ReadLE;
    u := Malformed;
    ghost var b := r.Left();
    var ok, version := r.FixedLE(4);
    if !ok { return; }
    ghost var b1 := r.Left();
    var ok1, id := r.FixedLE(8);
    if !ok1 { return; }
    ReadLEIsPut(b, 4);
    ReadLEIsPut(b1, 8);
    Widths();
    ghost var b2 := r.Left();
    var _, body := r.Take(r.Remaining());
    assert body == b2;
    u := NativeClaim(name, version, id, body);
  }

  /** finish: a fatal decode is final; otherwise the gate judges. */
  method FinishDecode(candidate: Value, derrs: seq<Error>, fatal: bool, door: Schema, all: bool) returns (a: Admission)
    requires fatal ==> derrs != []
    ensures a == if fatal then Rejected(derrs) else Finish(candidate, derrs, door, all)
  {
    hide Diagnose, Conforms;
    if fatal {
      return Rejected(derrs);
    }
    var verrs := ValidateInto(candidate, door, all);
    if !all {
      if derrs != [] {
        return Rejected([derrs[0]]);
      }
      if verrs != [] {
        return Rejected([verrs[0]]);
      }
      return Accepted(candidate);
    }
    var merged := derrs;
    var k := 0;
    assert verrs[0..] == verrs;
    while k < |verrs|
      invariant 0 <= k <= |verrs|
      invariant merged + Uncovered(verrs[k..], derrs) == derrs + Uncovered(verrs, derrs)
    {
      assert verrs[k..][1..] == verrs[k + 1..];
      var covered := exists i :: 0 <= i < |derrs| && derrs[i].path == verrs[k].path;
      ghost var rest := Uncovered(verrs[k + 1..], derrs);
      if covered {
        assert merged + ([] + rest) == merged + rest;
      } else {
        assert merged + ([verrs[k]] + rest) == (merged + [verrs[k]]) + rest;
        merged := merged + [verrs[k]];
      }
      k := k + 1;
    }
    assert merged + [] == merged;
    return if merged == [] then Accepted(candidate) else Rejected(merged);
  }

  /** admit(Unverified, door) */
  method AdmitUnder(u: Unverified, door: Schema, all: bool, ft: FloatText) returns (a: Admission)
    requires WfSchema(door)
    ensures a == Admit(u, door, all, ft)
  {
    hide DecodeBody, DecodeObject, Diagnose, WfSchema, Extend;
    if u.Malformed? {
      return Rejected([Error(MalformedBytes, [])]);
    }
    if u.name != door.name || u.version != door.version {
      return Rejected([Error(SchemaMismatch, [])]);
    }
    match u
    case NativeClaim(_, _, id, body) =>
      if id != door.id {
        return Rejected([Error(SchemaMismatch, [])]);
      }
      var r := new BinReader(body);
      assert r.Left() == body;
      var dec := new BinaryDecoder(r);
      var candidate := dec.Body(door, [], 0);
      if !dec.fatal && r.Remaining() > 0 {
        dec.Fail(MalformedBytes, []);
      }
      a := FinishDecode(candidate, dec.errs, dec.fatal, door, all);
    case JsonClaim(_, _, claimed, members) =>
      if claimed.Some? && claimed.value != door.id {
        return Rejected([Error(SchemaMismatch, [])]);
      }
      var dec := new JsonDecoder(all, ft);
      var candidate := dec.Fields(members, door, []);
      ghost var spec := DecodeObject(members, door, [], ft);
      a := FinishDecode(candidate, dec.errs, false, door, all);
      assert a == Finish(spec.value, spec.errs, door, all) by {
        FinishOfCut(candidate, dec.errs, spec, door, all);
      }
  }

  /** A first-error decode finishes like the full decode it cuts short. */
  lemma FinishOfCut(candidate: Value, errs: seq<Error>, spec: Decoded<Value>, door: Schema, all: bool)
    requires errs == Extend([], spec.errs, all)
    requires (all || errs == []) ==> candidate == spec.value
    ensures Finish(candidate, errs, door, all) == Finish(spec.value, spec.errs, door, all)
  {
    hide Diagnose, Uncovered;
    assert [] + Cut(spec.errs, all) == Cut(spec.errs, all);
  }

  /** compat::serialize */
  method SerializeText(v: Value, ft: FloatText) returns (text: bytes)
    ensures text == CompatSerialize(v, ft)
  {
    hide ObjectJson, Quote, Decimal, IdText;
    var out := new Sink();
    out.Append([OPEN_BRACE] + Entry(KEY_ZEN, ENVELOPE_VERSION) + [COMMA]);
    out.Append(Quote(KEY_SCHEMA) + [COLON]);
    QuoteInto(v.schema.name, out);
    out.Append([COMMA] + Entry(KEY_VERSION, Decimal(v.schema.version)) + [COMMA]);
    out.Append(Quote(KEY_ID) + [COLON]);
    QuoteInto(IdText(v.schema.id), out);
    out.Append([COMMA] + Quote(KEY_FIELDS) + [COLON]);
    WriteObject(v, ft, out);
    out.Push(CLOSE_BRACE);
    text := out.data;
    TextAppended(ENVELOPE_VERSION, Quote(v.schema.name), Decimal(v.schema.version), Quote(IdText(v.schema.id)), ObjectJson(v, ft));
  }

  lemma TextAppended(zen: bytes, name: bytes, version: bytes, id: bytes, fields: bytes)
    ensures [] + ([OPEN_BRACE] + Entry(KEY_ZEN, zen) + [COMMA]) + (Quote(KEY_SCHEMA) + [COLON]) + name
            + ([COMMA] + Entry(KEY_VERSION, version) + [COMMA]) + (Quote(KEY_ID) + [COLON]) + id
            + ([COMMA] + Quote(KEY_FIELDS) + [COLON]) + fields + [CLOSE_BRACE]
            == [OPEN_BRACE] + (Entry(KEY_ZEN, zen) + ([COMMA] + (Entry(KEY_SCHEMA, name) + ([COMMA]
            + (Entry(KEY_VERSION, version) + ([COMMA] + (Entry(KEY_ID, id) + ([COMMA] + (Entry(KEY_FIELDS, fields)
            + [CLOSE_BRACE])))))))))
  {
    hide Quote;
  }

  /** compat::parse */
  method ParseText(input: bytes) returns (u: Unverified)
    ensures u == CompatParse(input)
  {
    hide ParseJson;
    var root := ParseDocument(input);
    u := Malformed;
    if root.Some? && root.value.JObject? {
      u := ReadEnvelope(root.value.members);
    }
  }
}
