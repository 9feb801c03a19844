/** Python's `dict` with string keys: a finite map that remembers the order
    in which its keys were first inserted. Assigning to a key that is already present changes
    its value and keeps its place; a new key goes to the end. */
module PyDict {

  datatype Dict<V> = Dict(order: seq<string>, items: map<string, V>) {

    /** The keys are listed once each, and exactly the keys are listed. */
    ghost predicate Valid() {
      && (forall i, j :: 0 <= i < j < |order| ==> order[i] != order[j])
      && (forall k :: k in items <==> k in order)
    }

    /** `d[k] = v` */
    function Put(k: string, v: V): (d: Dict<V>)
      ensures Valid() ==> d.Valid()
      ensures d.items == items[k := v]
      ensures k in items ==> d.order == order
      ensures k !in items ==> d.order == order + [k]
    {
      Dict(if k in items then order else order + [k], items[k := v])
    }
  }

  /** `{}` */
  function Empty<V>(): (d: Dict<V>)
    ensures d.Valid() && d.order == [] && d.items == map[]
  {
    Dict([], map[])
  }
}
