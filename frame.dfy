/**
 * `Frame<T>`: an item together with the byte length of its serialized body.
 * A C# reference item that may be null is an `Option<T>`; `Item.Equals` is
 * Dafny's value equality on `T`.
 */
module Frames {
  import opened Bytes
  import opened Wrappers

  /** The length of a frame built from an item alone. */
  const Unassigned: int32 := 0

  datatype Frame<T> = Frame(bufferLength: int32, item: Option<T>)

  /** `new Frame<T>(item)` and the implicit conversion from `T`. */
  function FromItem<T>(item: Option<T>): (f: Frame<T>)
    ensures f.item == item
    ensures !BufferLengthIsAssigned(f)
  {
    Frame(Unassigned, item)
  }

  /** The implicit conversion to `T`. */
  function ToItem<T>(f: Frame<T>): (item: Option<T>)
  {
    f.item
  }

  predicate BufferLengthIsAssigned<T>(f: Frame<T>) {
    f.bufferLength > Unassigned
  }

  /** `Frame<T>.Equals(Frame<T>)`: null matches only null, otherwise the items are compared. */
  predicate Equals<T(==)>(a: Frame<T>, b: Frame<T>) {
    if a.item.None? != b.item.None? then false
    else if a.item.Some? then a.item.value == b.item.value
    else true
  }

  /** `operator ==`. */
  predicate OpEquals<T(==)>(a: Frame<T>, b: Frame<T>) {
    Equals(a, b)
  }

  /** `operator !=`. */
  predicate OpNotEquals<T(==)>(a: Frame<T>, b: Frame<T>) {
    !Equals(a, b)
  }

  /** `GetHashCode`, given the item type's hash. */
  function GetHashCode<T>(f: Frame<T>, itemHash: T -> int32): (h: int32)
  {
    if f.item.None? then -1 else itemHash(f.item.value)
  }

  /** `ToString`, given the item type's `ToString`. */
  function ToString<T>(f: Frame<T>, itemToString: T -> string): (s: string)
  {
    if f.item.None? then "null" else itemToString(f.item.value)
  }

  /** A frame is assigned exactly when its length is positive; one made from an item alone is not. */
  lemma AssignedIffPositiveLength<T>(length: int32, item: Option<T>)
    ensures BufferLengthIsAssigned(Frame(length, item)) <==> length > 0
    ensures !BufferLengthIsAssigned(FromItem(item))
  {
  }

  /** Equality looks at the items only: the buffer lengths never matter. */
  lemma EqualsIgnoresLength<T>(a: Frame<T>, b: Frame<T>)
    ensures Equals(a, b) <==> a.item == b.item
    ensures forall n, m :: Equals(Frame(n, a.item), Frame(m, b.item)) == Equals(a, b)
  {
  }

  /** Two null items are equal; null and non-null are not. */
  lemma NullEquality<T>(n: int32, m: int32, x: T)
    ensures Equals(Frame<T>.Frame(n, None), Frame<T>.Frame(m, None))
    ensures !Equals(Frame(n, None), Frame(m, Some(x)))
    ensures !Equals(Frame(m, Some(x)), Frame(n, None))
  {
  }

  /** `Equals` is an equivalence relation. */
  lemma EqualsIsEquivalence<T>(a: Frame<T>, b: Frame<T>, c: Frame<T>)
    ensures Equals(a, a)
    ensures Equals(a, b) ==> Equals(b, a)
    ensures Equals(a, b) && Equals(b, c) ==> Equals(a, c)
  {
  }

  /** The operators agree with `Equals`, and `!=` is the negation of `==`. */
  lemma OperatorsAgreeWithEquals<T>(a: Frame<T>, b: Frame<T>)
    ensures OpEquals(a, b) == Equals(a, b)
    ensures OpNotEquals(a, b) == !OpEquals(a, b)
  {
  }

  /** Equal frames have equal hash codes; a null item hashes to -1. */
  lemma HashAgreesWithEquals<T>(a: Frame<T>, b: Frame<T>, itemHash: T -> int32)
    ensures Equals(a, b) ==> GetHashCode(a, itemHash) == GetHashCode(b, itemHash)
    ensures a.item.None? ==> GetHashCode(a, itemHash) == -1
    ensures a.item.Some? ==> GetHashCode(a, itemHash) == itemHash(a.item.value)
  {
  }

  /** The implicit conversions give back the item; the round trip through `T` drops the length only. */
  lemma ConversionsRoundTrip<T>(item: Option<T>, f: Frame<T>, itemToString: T -> string)
    ensures ToItem(FromItem(item)) == item
    ensures Equals(FromItem(ToItem(f)), f)
    ensures f.item.None? ==> ToString(f, itemToString) == "null"
    ensures f.item.Some? ==> ToString(f, itemToString) == itemToString(f.item.value)
  {
  }
}
