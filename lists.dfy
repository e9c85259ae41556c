/**
 * The immutable singly-linked list the repository builds paths and
 * association lists from: either nil or a cons of a head and a tail.
 * Only the shape and the operations the core uses are modelled here.
 */
module Lists {

  datatype List<T> = Nil | Cons(hd: T, tl: List<T>)

  function Length<T>(L: List<T>): nat
  {
    match L
    case Nil => 0
    case Cons(_, R) => 1 + Length(R)
  }

  /** The element at zero-based position i. */
  function Nth<T>(L: List<T>, i: nat): T
    requires i < Length(L)
  {
    if i == 0 then L.hd else Nth(L.tl, i - 1)
  }

  /** Is x one of the elements of L? */
  predicate Mem<T(==)>(x: T, L: List<T>)
  {
    match L
    case Nil => false
    case Cons(y, R) => x == y || Mem(x, R)
  }

  /** The elements of a followed by those of b; b itself is the final tail. */
  function Concat<T>(a: List<T>, b: List<T>): (r: List<T>)
    ensures Length(r) == Length(a) + Length(b)
  {
    match a
    case Nil => b
    case Cons(x, R) => Cons(x, Concat(R, b))
  }

  /** Concatenating a one-element list is consing its element. */
  lemma ConcatSingleton<T>(x: T, L: List<T>)
    ensures Concat(Cons(x, Nil), L) == Cons(x, L)
  {
  }

  /** No element occurs twice. */
  predicate NoDuplicates<T(==)>(L: List<T>)
  {
    match L
    case Nil => true
    case Cons(x, R) => !Mem(x, R) && NoDuplicates(R)
  }

  /** Number of occurrences of x in L. */
  function Count<T(==)>(x: T, L: List<T>): nat
  {
    match L
    case Nil => 0
    case Cons(y, R) => (if x == y then 1 else 0) + Count(x, R)
  }

  lemma {:induction false} MemConcat<T>(x: T, a: List<T>, b: List<T>)
    ensures Mem(x, Concat(a, b)) <==> Mem(x, a) || Mem(x, b)
  {
    match a
    case Nil =>
    case Cons(_, R) => MemConcat(x, R, b);
  }

  /** In a list without duplicates an element occurs once or not at all. */
  lemma {:induction false} CountNoDuplicates<T>(x: T, L: List<T>)
    requires NoDuplicates(L)
    ensures Count(x, L) == if Mem(x, L) then 1 else 0
  {
    match L
    case Nil =>
    case Cons(y, R) =>
      CountNoDuplicates(x, R);
  }
}
