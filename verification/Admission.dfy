/** From bytes to an admitted value (src/serialize.cpp): the two envelopes, the decode
    under a door, and the one gate behind both. */
module Admission {
  import opened Bytes
  import opened Model
  import opened Utf8
  import opened Wire
  import opened Gate
  import opened Native
  import opened Json
  import opened Compat

  const MAGIC: bytes := [0x5A, 0x4E, 0x01]

  /** Parsed but not verified: the claim, and a body still to be decoded under a door. */
  datatype Unverified =
    | Malformed
    | NativeClaim(name: bytes, version: u32, id: u64, body: bytes)
    | JsonClaim(name: bytes, version: u32, claimed: Option<u64>, members: seq<Member>)

  datatype Admission = Accepted(value: Value) | Rejected(errors: seq<Error>)

  // ---- the native envelope -------------------------------------------------------------

  function Header(name: bytes, version: u32, id: u64, body: bytes): bytes {
    MAGIC + (PutLE(|name|, 2) + (name + (PutLE(version, 4) + (PutLE(id, 8) + body))))
  }

  /** serialize; None where it throws. */
  function Serialize(v: Value): Option<bytes> {
    if |v.schema.name| > 0xFFFF then None
    else
      match EncodeBody(v)
      case None => None
      case Some(body) => Some(Header(v.schema.name, v.schema.version, v.schema.id, body))
  }

  /** parse: reads the header, keeps the body opaque. */
  function Parse(b: bytes): Unverified {
    if |b| < 3 || b[..3] != MAGIC then Malformed
    else
      match ReadLE(b[3..], 2)
      case Refused => Malformed
      case Got(n, b1) =>
        if |b1| < n || !ValidUtf8(b1[..n]) then Malformed
        else ParseClaim(b1[..n], b1[n..])
  }

  /** The rest of the header, after the schema name. */
  function ParseClaim(name: bytes, b: bytes): Unverified {
    match ReadLE(b, 4)
    case Refused => Malformed
    case Got(version, b1) =>
      match ReadLE(b1, 8)
      case Refused => Malformed
      case Got(id, body) =>
        ReadLEIsPut(b, 4); ReadLEIsPut(b1, 8); Widths();
        NativeClaim(name, version, id, body)
  }

  // ---- the JSON envelope ---------------------------------------------------------------

  const KEY_ZEN: bytes := [0x7A, 0x65, 0x6E]
  const KEY_SCHEMA: bytes := [0x73, 0x63, 0x68, 0x65, 0x6D, 0x61]
  const KEY_VERSION: bytes := [0x76, 0x65, 0x72, 0x73, 0x69, 0x6F, 0x6E]
  const KEY_ID: bytes := [0x63, 0x6F, 0x6E, 0x74, 0x65, 0x6E, 0x74, 0x5F, 0x69, 0x64]
  const KEY_FIELDS: bytes := [0x66, 0x69, 0x65, 0x6C, 0x64, 0x73]
  const ENVELOPE_VERSION: bytes := [0x31]

  function Entry(key: bytes, text: bytes): bytes { Quote(key) + ([COLON] + text) }

  /** compat::serialize */
  function CompatSerialize(v: Value, ft: FloatText): bytes {
    [OPEN_BRACE]
    + (Entry(KEY_ZEN, ENVELOPE_VERSION)
    + ([COMMA] + (Entry(KEY_SCHEMA, Quote(v.schema.name))
    + ([COMMA] + (Entry(KEY_VERSION, Decimal(v.schema.version))
    + ([COMMA] + (Entry(KEY_ID, Quote(IdText(v.schema.id)))
    + ([COMMA] + (Entry(KEY_FIELDS, ObjectJson(v, ft))
    + [CLOSE_BRACE])))))))))
  }

  predicate KnownKey(key: bytes) {
    key == KEY_ZEN || key == KEY_SCHEMA || key == KEY_VERSION || key == KEY_ID || key == KEY_FIELDS
  }

  /** compat::parse */
  function CompatParse(b: bytes): Unverified {
    match ParseJson(b)
    case None => Malformed
    case Some(root) => if root.JObject? then ReadEnvelope(root.members) else Malformed
  }

  function ReadEnvelope(ms: seq<Member>): Unverified {
    if exists i :: 0 <= i < |ms| && !KnownKey(ms[i].key) then Malformed
    else
      match (Find(ms, KEY_ZEN), Find(ms, KEY_SCHEMA), Find(ms, KEY_VERSION), Find(ms, KEY_FIELDS))
      case (Some(JNumber(zen)), Some(JString(name)), Some(JNumber(version)), Some(JObject(fields))) =>
        if ReadInt64(zen) != Some(1) || ReadU32(version).None? then Malformed
        else
          (match Find(ms, KEY_ID)
           case None => JsonClaim(name, ReadU32(version).value, None, fields)
           case Some(JString(text)) =>
             if ReadId(text).None? then Malformed
             else JsonClaim(name, ReadU32(version).value, Some(ReadId(text).value), fields)
           case Some(_) => Malformed)
      case _ => Malformed
  }

  // ---- admission -----------------------------------------------------------------------

  predicate Covered(errs: seq<Error>, path: bytes) {
    exists i :: 0 <= i < |errs| && errs[i].path == path
  }

  /** The gate's errors at paths the decoder did not already report. */
  function Uncovered(verrs: seq<Error>, derrs: seq<Error>): seq<Error> {
    if verrs == [] then []
    else (if Covered(derrs, verrs[0].path) then [] else [verrs[0]]) + Uncovered(verrs[1..], derrs)
  }

  /** finish, for a decode that was not fatal. */
  function Finish(candidate: Value, derrs: seq<Error>, door: Schema, all: bool): Admission {
    var verrs := Cut(Diagnose(candidate, door), all);
    if !all then
      if derrs != [] then Rejected([derrs[0]])
      else if verrs != [] then Rejected([verrs[0]])
      else Accepted(candidate)
    else
      var merged := derrs + Uncovered(verrs, derrs);
      if merged == [] then Accepted(candidate) else Rejected(merged)
  }

  /** A native body under a door: the decode, and nothing may be left over. */
  function DecodeNative(door: Schema, body: bytes): Dec<Value> {
    match DecodeBody(door, [], 0, body)
    case Bad(e) => Bad(e)
    case Ok(v, rest) => if rest == [] then Ok(v, []) else Bad(Error(MalformedBytes, []))
  }

  /** admit_against */
  function AdmitAgainst(u: Unverified, door: Schema, all: bool, ft: FloatText): Admission
    requires !u.Malformed?
  {
    if u.name != door.name || u.version != door.version then Rejected([Error(SchemaMismatch, [])])
    else
      match u
      case NativeClaim(_, _, id, body) =>
        if id != door.id then Rejected([Error(SchemaMismatch, [])])
        else
          (match DecodeNative(door, body)
           case Bad(e) => Rejected([e])
           case Ok(v, _) => Finish(v, [], door, all))
      case JsonClaim(_, _, claimed, members) =>
        if claimed.Some? && claimed.value != door.id then Rejected([Error(SchemaMismatch, [])])
        else
          var d := DecodeObject(members, door, [], ft);
          Finish(d.value, d.errs, door, all)
  }

  /** admit(Unverified, door) */
  function Admit(u: Unverified, door: Schema, all: bool, ft: FloatText): Admission {
    if u.Malformed? then Rejected([Error(MalformedBytes, [])]) else AdmitAgainst(u, door, all, ft)
  }

  /** admit(Value, door): the live path. */
  function AdmitLive(v: Value, door: Schema, all: bool): Admission {
    var errs := Cut(Diagnose(v, door), all);
    if errs == [] then Accepted(v) else Rejected(errs)
  }
}
