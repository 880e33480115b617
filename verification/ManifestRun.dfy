/** Rebuilding a manifest's schemas as it runs: one registry, grown schema by schema. */
module ManifestRun {
  import opened Bytes
  import opened Model
  import opened Gate
  import opened SchemaId
  import opened Registry
  import opened SchemaCodec
  import opened SchemaCodecRun
  import opened SchemaTransport

  /** The accept-set of a manifest, each schema registered before the next is rebuilt. */
  method RebuildListed(cs: seq<Cell>, registry: Registry) returns (r: Option<seq<Schema>>)
    requires DescCells(cs)
    modifies registry
    ensures (registry.current, r) == RebuildAll(cs, old(registry.current))
  {
    hide DecodeSchema, DescSchema, Conforms;
    var done: seq<Schema> := [];
    ghost var whole := RebuildAll(cs, registry.current);
    PrependNothing(whole);
    assert cs[0..] == cs;
    var k := 0;
    while k < |cs|
      invariant 0 <= k <= |cs| && DescCells(cs[k..])
      invariant whole == Prepend(done, RebuildAll(cs[k..], registry.current))
    {
      assert cs[k..][0] == cs[k] && cs[k..][1..] == cs[k + 1..];
      assert CellConforms(cs[k], MessageT(DescSchema()));
      var s := DecodeSchemaValue(cs[k].msg.value, registry);
      if s.Fails? {
        return None;
      }
      var reg := registry.RegisterSchema(s.value);
      if reg.Conflict? {
        return None;
      }
      PrependTwice(done, s.value, RebuildAll(cs[k + 1..], registry.current));
      done := done + [s.value];
      k := k + 1;
    }
    assert done + [] == done;
    r := Some(done);
  }

  method ReconstructManifest(v: Value, registry: Registry) returns (r: Option<(seq<Schema>, Schema)>)
    requires Conforms(v, ManifestSchema())
    modifies registry
    ensures (registry.current, r) == Reconstruct(v, old(registry.current))
  {
    hide DecodeSchema, DescSchema, ManifestSchema, Conforms, Get, RebuildAll;
    ManifestFields(v);
    var accepted := RebuildListed(Get(v, ACCEPTED).value.cells, registry);
    if accepted.None? {
      return None;
    }
    var s := DecodeSchemaValue(Get(v, STATE).value.msg.value, registry);
    if s.Fails? {
      return None;
    }
    var reg := registry.RegisterSchema(s.value);
    if reg.Conflict? {
      return None;
    }
    r := Some((accepted.value, s.value));
  }

  lemma ManifestFields(v: Value)
    requires Conforms(v, ManifestSchema())
    ensures Get(v, ACCEPTED).Some? && Get(v, ACCEPTED).value.ListC? && DescCells(Get(v, ACCEPTED).value.cells)
    ensures Get(v, STATE).Some? && CellConforms(Get(v, STATE).value, MessageT(DescSchema()))
  {
    hide Get, ContentId, Conforms, DescSchema;
    FieldIsThere(v, ManifestSchema(), 0);
    FieldIsThere(v, ManifestSchema(), 1);
  }

  // ---- rebuilt schemas are well formed ------------------------------------------------------

  predicate AllWf(m: Schemas) { forall k :: k in m ==> WfSchema(m[k]) }

  lemma {:induction false} DecodedTypeIsWf(tokens: seq<Cell>, i: nat, deps: Schemas)
    requires Tokens(tokens) && AllWf(deps)
    ensures var r := DecodeType(tokens, i, deps); r.Rebuilt? ==> WfType(r.value.0)
    decreases |tokens| - i
  {
    hide TokenSchema, Get, Conforms, WfSchema;
    if i < |tokens| {
      TokenFields(tokens[i].msg.value);
      DecodedTypeIsWf(tokens, i + 1, deps);
    }
  }

  lemma {:induction false} DecodedFieldsAreWf(cs: seq<Cell>, deps: Schemas)
    requires FieldCells(cs) && AllWf(deps)
    ensures var r := DecodeFields(cs, deps); r.Rebuilt? ==> forall i :: 0 <= i < |r.value| ==> WfType(r.value[i].ty)
    decreases |cs|
  {
    hide FieldSchema, Get, Conforms, WfType, DecodeType;
    if cs != [] {
      var fd := cs[0].msg.value;
      assert CellConforms(cs[0], MessageT(FieldSchema()));
      FieldFields(fd);
      DecodedTypeIsWf(Get(fd, TYPE).value.cells, 0, deps);
      DecodedFieldsAreWf(cs[1..], deps);
      var all := DecodeFields(cs, deps);
      if all.Rebuilt? {
        var f, rest := DecodeField(fd, deps).value, DecodeFields(cs[1..], deps).value;
        assert WfType(f.ty);
        assert all.value == [f] + rest;
      }
    }
  }

  /** What decode_schema rebuilds from well-formed schemas is well formed. */
  lemma RebuiltIsWf(desc: Value, deps: Schemas)
    requires Conforms(desc, DescSchema()) && AllWf(deps)
    ensures var r := DecodeSchema(desc, deps); r.Rebuilt? ==> WfSchema(r.value)
  {
    hide DescSchema, FieldSchema, Get, Conforms, WfType, DecodeFields, ContentId, RawOf, AllWf;
    DescFields(desc);
    var cells := Get(desc, FIELDS).value.cells;
    DecodedFieldsAreWf(cells, deps);
    var r := DecodeFields(cells, deps);
    if r.Rebuilt? && DecodeSchema(desc, deps).Rebuilt? {
      CheckedFieldsIsExact(RawOf(r.value), CheckedFields(RawOf(r.value), []).value);
      RawOfIsInjective(r.value, CheckedFields(RawOf(r.value), []).value);
    }
  }

  lemma PublishIsWf(m: Schemas, s: Schema)
    requires AllWf(m) && WfSchema(s)
    ensures AllWf(Publish(m, s))
  {
    hide WfSchema;
  }

  lemma {:induction false} RebuildAllIsWf(cs: seq<Cell>, m: Schemas)
    requires DescCells(cs) && AllWf(m)
    ensures AllWf(RebuildAll(cs, m).0)
    decreases |cs|
  {
    hide DescSchema, Conforms, DecodeSchema, WfSchema, AllWf, Register;
    if cs != [] {
      assert CellConforms(cs[0], MessageT(DescSchema()));
      RebuiltIsWf(cs[0].msg.value, m);
      var r := DecodeSchema(cs[0].msg.value, m);
      if r.Rebuilt? {
        PublishIsWf(m, r.value);
        RebuildAllIsWf(cs[1..], Publish(m, r.value));
      }
    }
  }

  lemma ReconstructIsWf(v: Value, m: Schemas)
    requires Conforms(v, ManifestSchema()) && AllWf(m)
    ensures var (n, r) := Reconstruct(v, m); AllWf(n) && (r.Some? ==> WfSchema(r.value.1))
  {
    hide DecodeSchema, DescSchema, ManifestSchema, Conforms, Get, RebuildAll, WfSchema, AllWf, Register;
    ManifestFields(v);
    RebuildAllIsWf(Get(v, ACCEPTED).value.cells, m);
    var n := RebuildAll(Get(v, ACCEPTED).value.cells, m).0;
    RebuiltIsWf(Get(v, STATE).value.msg.value, n);
    var r := DecodeSchema(Get(v, STATE).value.msg.value, n);
    if r.Rebuilt? {
      PublishIsWf(n, r.value);
    }
  }
}
