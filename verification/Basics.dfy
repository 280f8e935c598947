/** What several modules need: an optional value, bytes, and a finite set in some
    order. */
module Basics {

  datatype Option<T> = None | Some(value: T)

  newtype Byte = x: int | 0 <= x < 256
  type Bytes = seq<Byte>

  /** The result of the code that iterates over the set does not depend on the
      order, so the order is left open. */
  method InSomeOrder<T(==)>(items: set<T>) returns (order: seq<T>)
    ensures forall item :: item in order <==> item in items
  {
    order := [];
    var rest := items;
    while rest != {}
      invariant rest <= items
      invariant forall item :: item in order <==> item in items - rest
    {
      var item :| item in rest;
      order, rest := order + [item], rest - {item};
    }
  }
}
