/** Frame payloads as they are written and read (include/zen/isolation/protocol.hpp): a string
    appended to, and a bounds-checked cursor moving over one. */
module FramingRun {
  import opened Bytes
  import opened Wire
  import opened Framing

  class Cursor {
    const data: bytes
    var i: nat

    ghost predicate Valid()
      reads this
    {
      i <= |data|
    }

    ghost function Left(): bytes
      reads this
      requires Valid()
    {
      data[i..]
    }

    constructor (data: bytes)
      ensures Valid() && Left() == data
    {
      this.data, i := data, 0;
    }

    /** A successful read is the specified one; a refused read is refused by the specification. */
    twostate predicate Reads<T>(ok: bool, value: T, spec: Read<T>)
      reads this
      requires old(Valid())
    {
      Valid() && ok == spec.Got? && (ok ==> spec == Got(value, Left()))
    }

    method U8() returns (ok: bool, v: byte)
      requires Valid()
      modifies this
      ensures Valid() && ok == (old(Left()) != [])
      ensures ok ==> old(Left()) == [v] + Left()
    {
      if |data| - i < 1 {
        return false, 0;
      }
      ok, v := true, data[i];
      i := i + 1;
    }

    /** u32 and u64: n octets, least significant first. */
    method Number(n: nat) returns (ok: bool, v: nat)
      requires Valid()
      modifies this
      ensures Reads(ok, v, ReadLE(old(Left()), n))
    {
      if |data| - i < n {
        return false, 0;
      }
      hide FromLE, Summed;
      ghost var field := Left()[..n];
      v := 0;
      var weight: nat := 1;
      var k := 0;
      NoDigits(field, weight, v);
      while k < n
        invariant k <= n && i == old(i) + k && Valid()
        invariant Summed(weight, field[k..], v) == FromLE(field)
      {
        assert field[k] == data[i];
        Digit(field, k, weight, v);
        v := v + weight * data[i];
        weight := 256 * weight;
        i := i + 1;
        k := k + 1;
      }
      NoDigits(field, weight, v);
      ok := true;
    }

    /** A length-prefixed string. */
    method Octets() returns (ok: bool, s: bytes)
      requires Valid()
      modifies this
      ensures Reads(ok, s, ReadSized(old(Left())))
    {
      hide ReadLE;
      ghost var before := Left();
      var n: nat;
      ok, n := Number(4);
      s := [];
      if !ok || |data| - i < n {
        return false, [];
      }
      s := data[i..i + n];
      assert Left()[..n] == s && Left()[n..] == data[i + n..];
      i := i + n;
    }

    method Rest() returns (s: bytes)
      requires Valid()
      modifies this
      ensures Valid() && s == old(Left()) && Left() == []
    {
      s := data[i..];
      i := |data|;
    }
  }

  /** The header of an Emit frame and the value behind it, as handle_child_frame takes them. */
  method TakeEmitted(payload: bytes) returns (r: Option<Emitted>)
    ensures r == ReadEmitted(payload)
  {
    hide ReadLE;
    var c := new Cursor(payload);
    var ok, kind := c.U8();
    if !ok {
      return None;
    }
    assert payload[1..] == c.Left();
    Widths();
    ghost var b := c.Left();
    var ok1, target := c.Number(8);
    if !ok1 {
      return None;
    }
    ReadLEIsPut(b, 8);
    b := c.Left();
    var ok2, replyTo := c.Number(8);
    if !ok2 {
      return None;
    }
    ReadLEIsPut(b, 8);
    b := c.Left();
    var ok3, correlation := c.Number(8);
    if !ok3 {
      return None;
    }
    ReadLEIsPut(b, 8);
    var value := c.Rest();
    r := Some(Emitted(kind, target, replyTo, correlation, value));
  }

  /** The three strings of a handshake. */
  method TakeHello(payload: bytes) returns (r: Option<Hello>)
    ensures r == ReadHello(payload)
  {
    hide ReadSized;
    var c := new Cursor(payload);
    var ok1, manifest := c.Octets();
    if !ok1 {
      return None;
    }
    var ok2, policy := c.Octets();
    if !ok2 {
      return None;
    }
    var ok3, snapshot := c.Octets();
    if !ok3 {
      return None;
    }
    r := Some(Hello(manifest, policy, snapshot));
  }

  /** put_u32 and put_u64. */
  method PutNumber(v: nat, n: nat, out: Sink)
    modifies out
    ensures out.data == old(out.data) + PutLE(v, n)
  {
    var left := v;
    var k := 0;
    while k < n
      invariant k <= n && out.data + PutLE(left, n - k) == old(out.data) + PutLE(v, n)
    {
      Assoc(out.data, [left % 256], PutLE(left / 256, n - k - 1));
      out.Push(left % 256);
      left := left / 256;
      k := k + 1;
    }
    assert out.data + [] == out.data;
  }

  /** The frame ship_deliver queues. */
  method WriteDelivery(d: Delivery) returns (payload: bytes)
    ensures payload == DeliverPayload(d)
  {
    hide PutLE;
    var out := new Sink();
    PutNumber(d.sender, 8, out);
    PutNumber(d.replyTo, 8, out);
    PutNumber(d.correlation, 8, out);
    out.Append(d.value);
    payload := out.data;
    var a, b, c := PutLE(d.sender, 8), PutLE(d.replyTo, 8), PutLE(d.correlation, 8);
    assert [] + a + b + c + d.value == a + (b + (c + d.value));
  }
}
