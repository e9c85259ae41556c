/**
 * The server's association list: an immutable list of (key, value) pairs with
 * string keys, together with the list of its keys cached at construction.
 * Setting a key builds a new association list; nothing is ever updated.
 */
module Assoc {
  import opened Results
  import opened Lists

  type Pairs<V> = List<(string, V)>

  /** The pairs, and the keys computed from them when the value was built. */
  datatype AssocList<V> = AssocList(list: Pairs<V>, keys: List<string>)

  datatype AssocError = KeyNotFound

  /** get-keys: the first components of the pairs, in order. */
  function ConstructKeys<V>(L: Pairs<V>): (r: List<string>)
    ensures Length(r) == Length(L)
    ensures forall i :: 0 <= i < Length(L) ==> Nth(r, i) == Nth(L, i).0
  {
    match L
    case Nil => Nil
    case Cons((y, _), R) => Cons(y, ConstructKeys(R))
  }

  /**
   * The representation invariant: the cached keys are those of the list,
   * and no key occurs twice.
   */
  predicate Valid<V>(m: AssocList<V>)
  {
    m.keys == ConstructKeys(m.list) && NoDuplicates(m.keys)
  }

  /** The constructor: an association list holding exactly the given pairs. */
  function Make<V>(L: Pairs<V>): (r: AssocList<V>)
    requires NoDuplicates(ConstructKeys(L))
    ensures Valid(r) && r.list == L
  {
    AssocList(L, ConstructKeys(L))
  }

  /** newAssocMap: the association list with no pairs. */
  function NewAssocMap<V>(): (r: AssocList<V>)
    ensures Valid(r)
    ensures r.keys == Nil
    ensures forall x :: !ContainsKey(r, x)
  {
    Make(Nil)
  }

  /**
   * The map an association list denotes: each key to the value of its first
   * pair. This is the abstract view the operations below are checked against.
   */
  function ToMap<V>(L: Pairs<V>): (r: map<string, V>)
    ensures forall x :: x in r <==> Mem(x, ConstructKeys(L))
  {
    match L
    case Nil => map[]
    case Cons((y, v), R) => ToMap(R)[y := v]
  }

  /** set-value on the pairs: replace the pair for key in place, or append one at the end. */
  function SetValueHelper<V>(key: string, value: V, L: Pairs<V>): (r: Pairs<V>)
    ensures ToMap(r) == ToMap(L)[key := value]
  {
    match L
    case Nil => Cons((key, value), Nil)
    case Cons((x, _), R) =>
      if key == x then
        ConcatSingleton((key, value), R);
        Concat(Cons((key, value), Nil), R)
      else Cons(L.hd, SetValueHelper(key, value, R))
  }

  /** setValue: a new association list in which key is paired with value. */
  function SetValue<V>(m: AssocList<V>, key: string, value: V): (r: AssocList<V>)
    requires Valid(m)
    ensures Valid(r)
    ensures ToMap(r.list) == ToMap(m.list)[key := value]
  {
    SetValueKeys(key, value, m.list);
    SetValueNoDuplicates(key, value, m.list);
    Make(SetValueHelper(key, value, m.list))
  }

  /** contains-key on the pairs. */
  function ContainsKeyHelper<V>(x: string, L: Pairs<V>): (r: bool)
    ensures r <==> Mem(x, ConstructKeys(L))
  {
    match L
    case Nil => false
    case Cons((y, _), R) => if x == y then true else ContainsKeyHelper(x, R)
  }

  /** containsKey: does some pair have key x? */
  function ContainsKey<V>(m: AssocList<V>, x: string): (r: bool)
    ensures r <==> x in ToMap(m.list)
  {
    ContainsKeyHelper(x, m.list)
  }

  /** getKeys: the cached keys. */
  function GetKeys<V>(m: AssocList<V>): (r: List<string>)
    requires Valid(m)
    ensures forall x :: Mem(x, r) <==> ContainsKey(m, x)
    ensures NoDuplicates(r)
  {
    m.keys
  }

  /** get-value on the pairs: the value of the first pair with key x. */
  function GetValueHelper<V>(x: string, L: Pairs<V>): (r: Result<V, AssocError>)
    ensures r.Ok? <==> x in ToMap(L)
    ensures r.Ok? ==> r.value == ToMap(L)[x]
    ensures r.Err? ==> r.error == KeyNotFound
  {
    match L
    case Nil => Err(KeyNotFound)
    case Cons((y, v), R) => if x == y then Ok(v) else GetValueHelper(x, R)
  }

  /** getValue: fails exactly when containsKey is false. */
  function GetValue<V>(m: AssocList<V>, x: string): (r: Result<V, AssocError>)
    ensures r.Err? <==> !ContainsKey(m, x)
    ensures r.Err? ==> r.error == KeyNotFound
    ensures r.Ok? ==> r.value == ToMap(m.list)[x]
  {
    GetValueHelper(x, m.list)
  }

  /**
   * The keys after set-value: unchanged when the key was present (its pair
   * keeps its position), the old keys followed by the new key otherwise.
   */
  lemma {:induction false} SetValueKeys<V>(key: string, value: V, L: Pairs<V>)
    ensures ConstructKeys(SetValueHelper(key, value, L)) ==
      if Mem(key, ConstructKeys(L)) then ConstructKeys(L)
      else Concat(ConstructKeys(L), Cons(key, Nil))
  {
    match L
    case Nil =>
    case Cons((x, _), R) =>
      if key == x {
        ConcatSingleton((key, value), R);
      } else {
        SetValueKeys(key, value, R);
      }
  }

  /** set-value keeps keys distinct. */
  lemma {:induction false} SetValueNoDuplicates<V>(key: string, value: V, L: Pairs<V>)
    requires NoDuplicates(ConstructKeys(L))
    ensures NoDuplicates(ConstructKeys(SetValueHelper(key, value, L)))
  {
    match L
    case Nil =>
    case Cons((x, _), R) =>
      if key == x {
        ConcatSingleton((key, value), R);
      } else {
        SetValueNoDuplicates(key, value, R);
        SetValueKeys(key, value, R);
        var ks := ConstructKeys(R);
        if !Mem(key, ks) {
          MemConcat(x, ks, Cons(key, Nil));
        }
      }
  }

  /** An absent key's pair is appended after all existing pairs. */
  lemma {:induction false} SetValueAppends<V>(key: string, value: V, L: Pairs<V>)
    requires !Mem(key, ConstructKeys(L))
    ensures SetValueHelper(key, value, L) == Concat(L, Cons((key, value), Nil))
  {
    match L
    case Nil =>
    case Cons(_, R) => SetValueAppends(key, value, R);
  }

  /**
   * A present key's pair is overwritten at its own position; every other
   * pair stays where it was.
   */
  lemma {:induction false} SetValueInPlace<V>(key: string, value: V, L: Pairs<V>, i: nat)
    requires NoDuplicates(ConstructKeys(L)) && Mem(key, ConstructKeys(L))
    requires i < Length(L)
    ensures Length(SetValueHelper(key, value, L)) == Length(L)
    ensures Nth(SetValueHelper(key, value, L), i) ==
      if Nth(L, i).0 == key then (key, value) else Nth(L, i)
  {
    var x := L.hd.0;
    if key == x {
      ConcatSingleton((key, value), L.tl);
      if i > 0 {
        NthKey(L.tl, i - 1);
      }
    } else {
      SetValueInPlace(key, value, L.tl, if i > 0 then i - 1 else 0);
    }
  }

  /** The key of the pair at position i is the key at position i, so it is one of the keys. */
  lemma {:induction false} NthKey<V>(L: Pairs<V>, i: nat)
    requires i < Length(L)
    ensures Nth(ConstructKeys(L), i) == Nth(L, i).0
    ensures Mem(Nth(L, i).0, ConstructKeys(L))
  {
    if i > 0 {
      NthKey(L.tl, i - 1);
    }
  }

  /** An existing key's pair is replaced where it stands: same length, same keys. */
  lemma SetValueExisting<V>(m: AssocList<V>, key: string, value: V)
    requires Valid(m) && ContainsKey(m, key)
    ensures GetKeys(SetValue(m, key, value)) == GetKeys(m)
    ensures Length(SetValue(m, key, value).list) == Length(m.list)
  {
    SetValueKeys(key, value, m.list);
  }

  /** A new key's pair goes at the end, so the keys stay in first-insertion order. */
  lemma SetValueFresh<V>(m: AssocList<V>, key: string, value: V)
    requires Valid(m) && !ContainsKey(m, key)
    ensures GetKeys(SetValue(m, key, value)) == Concat(GetKeys(m), Cons(key, Nil))
  {
    SetValueKeys(key, value, m.list);
  }

  /** After setValue(k, v): k is present and maps to v. */
  lemma GetSetSame<V>(m: AssocList<V>, k: string, v: V)
    requires Valid(m)
    ensures ContainsKey(SetValue(m, k, v), k)
    ensures GetValue(SetValue(m, k, v), k) == Ok(v)
  {
  }

  /** setValue(k, v) changes nothing about any other key j. */
  lemma GetSetOther<V>(m: AssocList<V>, k: string, v: V, j: string)
    requires Valid(m) && j != k
    ensures ContainsKey(SetValue(m, k, v), j) == ContainsKey(m, j)
    ensures GetValue(SetValue(m, k, v), j) == GetValue(m, j)
  {
  }

  /** Setting a key twice: the last value wins and the key is listed once. */
  lemma SetTwice<V>(m: AssocList<V>, k: string, v1: V, v2: V)
    requires Valid(m)
    ensures GetValue(SetValue(SetValue(m, k, v1), k, v2), k) == Ok(v2)
    ensures Count(k, GetKeys(SetValue(SetValue(m, k, v1), k, v2))) == 1
  {
    var r := SetValue(SetValue(m, k, v1), k, v2);
    CountNoDuplicates(k, r.keys);
  }

  /** Keys come out in the order they were first set. */
  lemma InsertionOrderExample()
    ensures GetKeys(SetValue(SetValue(SetValue(NewAssocMap(), "c", 3), "b", 2), "a", 1))
         == Cons("c", Cons("b", Cons("a", Nil)))
  {
  }
}
