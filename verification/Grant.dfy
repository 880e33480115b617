/** What a shard may send, and to whom (include/zen/switchboard/grant.hpp). */
module Grant {
  import opened Bytes

  /** One send rule; None is "any". */
  datatype SendRule = SendRule(shape: Option<Shape>, target: Option<nat>)

  datatype Shape = Shape(name: bytes, version: u32)

  predicate RulePermits(r: SendRule, shape: Shape, target: nat) {
    (r.shape.None? || r.shape.value == shape) && (r.target.None? || r.target.value == target)
  }

  predicate Permits(rules: seq<SendRule>, shape: Shape, target: nat) {
    exists i :: 0 <= i < |rules| && RulePermits(rules[i], shape, target)
  }

  /** A grant starts empty and only widens: each rule adds exactly what it says. */
  lemma RuleAdds(rules: seq<SendRule>, r: SendRule, shape: Shape, target: nat)
    ensures !Permits([], shape, target)
    ensures Permits(rules + [r], shape, target) <==>
            Permits(rules, shape, target) || ((r.shape == None || r.shape == Some(shape)) && (r.target == None || r.target == Some(target)))
  {
    var more := rules + [r];
    assert more[|rules|] == r && forall i :: 0 <= i < |rules| ==> more[i] == rules[i];
    if i :| 0 <= i < |rules| && RulePermits(rules[i], shape, target) {
      assert RulePermits(more[i], shape, target);
    }
    if RulePermits(r, shape, target) {
      assert RulePermits(more[|rules|], shape, target);
    }
  }

  /** The grant under construction, as the host fills it in. */
  class Grant {
    var rules: seq<SendRule>

    constructor ()
      ensures rules == []
    {
      rules := [];
    }

    method Allow(name: bytes, version: u32, target: nat)
      modifies this
      ensures forall s, t: nat :: Permits(rules, s, t) <==>
                old(Permits(rules, s, t)) || (s == Shape(name, version) && t == target)
    {
      Add(SendRule(Some(Shape(name, version)), Some(target)));
    }

    method AllowToAny(name: bytes, version: u32)
      modifies this
      ensures forall s, t: nat :: Permits(rules, s, t) <==> old(Permits(rules, s, t)) || s == Shape(name, version)
    {
      Add(SendRule(Some(Shape(name, version)), None));
    }

    method AllowAnyTo(target: nat)
      modifies this
      ensures forall s, t: nat :: Permits(rules, s, t) <==> old(Permits(rules, s, t)) || t == target
    {
      Add(SendRule(None, Some(target)));
    }

    method AllowAny()
      modifies this
      ensures forall shape, target :: Permits(rules, shape, target)
    {
      Add(SendRule(None, None));
    }

    method Add(r: SendRule)
      modifies this
      ensures rules == old(rules) + [r]
      ensures forall s, t: nat :: Permits(rules, s, t) <==>
                old(Permits(rules, s, t)) || ((r.shape == None || r.shape == Some(s)) && (r.target == None || r.target == Some(t)))
    {
      forall s, t: nat {
        RuleAdds(rules, r, s, t);
      }
      rules := rules + [r];
    }
  }

  /** Grant::permits: the first rule that matches decides. */
  method PermitsBy(rules: seq<SendRule>, shape: Shape, target: nat) returns (ok: bool)
    ensures ok == Permits(rules, shape, target)
  {
    var i := 0;
    while i < |rules|
      invariant 0 <= i <= |rules|
      invariant forall j :: 0 <= j < i ==> !RulePermits(rules[j], shape, target)
    {
      var shapeOk := rules[i].shape.None? || rules[i].shape.value == shape;
      var targetOk := rules[i].target.None? || rules[i].target.value == target;
      if shapeOk && targetOk {
        return true;
      }
      i := i + 1;
    }
    return false;
  }
}
