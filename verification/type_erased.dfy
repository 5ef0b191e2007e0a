/** The `Any` box: holds one value of any type and hands it back only when
    asked for with the type it was built from. The C++ class keeps a pointer
    to a `Derive<T>` object and recovers it with `dynamic_cast`; the model
    keeps the value itself, whose constructor is its dynamic type, and turns
    the thrown string into a `TypeMismatch` outcome. */
module TypeErased {
  import opened CppInts

  /** The dynamic types the model distinguishes. */
  datatype TypeTag = IntT | UIntT | LongLongT | BoolT | CStringT | StringT

  /** A value together with its C++ type. */
  datatype Value =
    | IntV(i: Int32)
    | UIntV(u: UInt32)
    | LongLongV(l: Int64)
    | BoolV(b: bool)
    | CStringV(c: string)   // a `const char*` literal
    | StringV(s: string)    // a `std::string`

  function TypeOf(v: Value): TypeTag
  {
    match v
    case IntV(_) => IntT
    case UIntV(_) => UIntT
    case LongLongV(_) => LongLongT
    case BoolV(_) => BoolT
    case CStringV(_) => CStringT
    case StringV(_) => StringT
  }

  /** `Empty` is the default-constructed box (a null `base_`); `Holding(v)`
      is the box built from `v`. */
  datatype Any = Empty | Holding(value: Value)

  datatype CastResult = Extracted(value: Value) | TypeMismatch

  /** `Any(T date)`: box a value. */
  function From(v: Value): (a: Any)
    ensures a != Empty
    ensures forall t :: Cast(a, t).Extracted? <==> t == TypeOf(v)
  {
    Holding(v)
  }

  /** `cast<T>()`: recover the boxed value as type `t`. The box is left as it
      was; the value is copied out. */
  function Cast(a: Any, t: TypeTag): (r: CastResult)
    ensures r.Extracted? <==> a.Holding? && TypeOf(a.value) == t
    ensures r.Extracted? ==> TypeOf(r.value) == t && a == Holding(r.value)
  {
    match a
    case Empty => TypeMismatch
    case Holding(v) => if TypeOf(v) == t then Extracted(v) else TypeMismatch
  }

  /** The moved-to box and the moved-from box after `Any(Any&&)` or a move
      assignment. No copy exists: the class deletes both copy operations. */
  datatype Moved = Moved(target: Any, source: Any)

  function Move(a: Any): (m: Moved)
    ensures forall t :: Cast(m.target, t) == Cast(a, t)
    ensures forall t :: Cast(m.source, t) == TypeMismatch
  {
    Moved(a, Empty)
  }

  /** Building a box from `v` and casting it to the type of `v` yields `v`. */
  lemma CastRoundTrip(v: Value)
    ensures Cast(From(v), TypeOf(v)) == Extracted(v)
  {
  }

  /** Casting to any other type fails. */
  lemma CastOtherTypeFails(v: Value, t: TypeTag)
    requires t != TypeOf(v)
    ensures Cast(From(v), t) == TypeMismatch
  {
  }

  /** Casting a default-constructed box fails whatever the type. */
  lemma CastEmptyFails(t: TypeTag)
    ensures Cast(Empty, t) == TypeMismatch
  {
  }

  /** Two boxes that answer every cast alike are the same box, so `Cast`
      loses nothing: it is the only way to look inside. */
  lemma CastDeterminesBox(a: Any, b: Any)
    requires forall t :: Cast(a, t) == Cast(b, t)
    ensures a == b
  {
    var t := if a.Holding? then TypeOf(a.value) else if b.Holding? then TypeOf(b.value) else IntT;
    assert Cast(a, t) == Cast(b, t);
  }
}
