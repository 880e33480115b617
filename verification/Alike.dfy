/** Values that differ at most in which NaN they hold (DESIGN.md, Canonicality): what the codecs may
    change of a value, said of the patterns alone. */
module Alike {
  import opened Model
  import opened Wire
  import opened Native

  /** The same schemas, the same data in the same places, and floats the same or both no number. */
  ghost predicate SameValue(v: Value, w: Value)
    decreases v, 1
  {
    && v.schema == w.schema && |v.slots| == |w.slots|
    && forall i :: 0 <= i < |v.slots| ==>
         (v.slots[i].Some? <==> w.slots[i].Some?) && (v.slots[i].Some? ==> SameCell(v.slots[i].value, w.slots[i].value))
  }

  ghost predicate SameCell(c: Cell, d: Cell)
    decreases c, 0
  {
    match c
    case FloatC(bits) => d.FloatC? && SameFloat(bits, d.bits)
    case MessageC(m) => d.MessageC? && (m.Some? <==> d.msg.Some?) && (m.Some? ==> SameValue(m.value, d.msg.value))
    case ListC(cs) => d.ListC? && |cs| == |d.cells| && forall k :: 0 <= k < |cs| ==> SameCell(cs[k], d.cells[k])
    case _ => c == d
  }

  /** No float anywhere in the value is a NaN. */
  ghost predicate OnlyNumbers(v: Value)
    decreases v, 1
  {
    forall i :: 0 <= i < |v.slots| && v.slots[i].Some? ==> CellOnlyNumbers(v.slots[i].value)
  }

  ghost predicate CellOnlyNumbers(c: Cell)
    decreases c, 0
  {
    match c
    case FloatC(bits) => !NotANumber(bits)
    case MessageC(m) => m.Some? ==> OnlyNumbers(m.value)
    case ListC(cs) => forall k :: 0 <= k < |cs| ==> CellOnlyNumbers(cs[k])
    case _ => true
  }

  /** Normalising identifies precisely these values. */
  lemma {:induction false} SameIsNorm(v: Value, w: Value)
    ensures SameValue(v, w) <==> Norm(v) == Norm(w)
    decreases v, 1
  {
    hide SameCell, NormCell;
    if v.schema == w.schema && |v.slots| == |w.slots| {
      forall i | 0 <= i < |v.slots| && v.slots[i].Some? && w.slots[i].Some?
        ensures SameCell(v.slots[i].value, w.slots[i].value) <==> NormCell(v.slots[i].value) == NormCell(w.slots[i].value)
      {
        SameCellIsNorm(v.slots[i].value, w.slots[i].value);
      }
      if SameValue(v, w) {
        assert Norm(v).slots == Norm(w).slots;
      }
      if Norm(v) == Norm(w) {
        forall i | 0 <= i < |v.slots|
          ensures (v.slots[i].Some? <==> w.slots[i].Some?) && (v.slots[i].Some? ==> SameCell(v.slots[i].value, w.slots[i].value))
        {
          assert Norm(v).slots[i] == Norm(w).slots[i];
        }
      }
    }
  }

  lemma {:induction false} SameCellIsNorm(c: Cell, d: Cell)
    ensures SameCell(c, d) <==> NormCell(c) == NormCell(d)
    decreases c, 0
  {
    hide SameValue, Norm, SameFloat, NormFloat;
    match c
    case FloatC(bits) =>
      if d.FloatC? {
        SameFloatIsNorm(bits, d.bits);
      }
    case MessageC(m) =>
      if m.Some? && d.MessageC? && d.msg.Some? {
        SameIsNorm(m.value, d.msg.value);
      }
    case ListC(cs) =>
      if d.ListC? {
        SameCellsAreNorm(cs, d.cells);
      }
    case _ =>
  }

  lemma {:induction false} SameCellsAreNorm(cs: seq<Cell>, ds: seq<Cell>)
    ensures SameCell(ListC(cs), ListC(ds)) <==> NormCell(ListC(cs)) == NormCell(ListC(ds))
    decreases cs
  {
    var ms, ns := NormCell(ListC(cs)).cells, NormCell(ListC(ds)).cells;
    if |cs| == |ds| {
      forall k | 0 <= k < |cs| ensures SameCell(cs[k], ds[k]) <==> ms[k] == ns[k] {
        SameCellIsNorm(cs[k], ds[k]);
      }
      assert ms == ns <==> forall k :: 0 <= k < |cs| ==> ms[k] == ns[k];
    }
  }

  /** Among values without NaNs there is nothing to choose. */
  lemma {:induction false} SameNumbersAreEqual(v: Value, w: Value)
    requires SameValue(v, w) && OnlyNumbers(v)
    ensures v == w
    decreases v, 1
  {
    hide SameCell, CellOnlyNumbers;
    forall i | 0 <= i < |v.slots| ensures v.slots[i] == w.slots[i] {
      if v.slots[i].Some? {
        SameCellsAreEqual(v.slots[i].value, w.slots[i].value);
      }
    }
    assert v.slots == w.slots;
  }

  lemma {:induction false} SameCellsAreEqual(c: Cell, d: Cell)
    requires SameCell(c, d) && CellOnlyNumbers(c)
    ensures c == d
    decreases c, 0
  {
    hide SameValue, OnlyNumbers, NotANumber;
    match c
    case MessageC(m) =>
      if m.Some? {
        SameNumbersAreEqual(m.value, d.msg.value);
      }
    case ListC(cs) =>
      forall k | 0 <= k < |cs| ensures cs[k] == d.cells[k] {
        SameCellsAreEqual(cs[k], d.cells[k]);
      }
      assert cs == d.cells;
    case _ =>
  }
}
