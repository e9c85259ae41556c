# Quadtree squares and association lists, in Dafny

This project models two pure components of a small client/server drawing application.

- **Squares** (`square.dfy`, from `client/src/square.ts`). A square is a quadtree value. It is either `Solid(color)` or `Split(nw, ne, sw, se)`. A colour is one of seven names. A `Path` is a list of directions (`NW`, `NE`, `SW`, `SE`) from the root. `FindSquare` returns the part of a square at a path. `ReplaceSquare` builds a new square with that part replaced. Both fail when a path still has steps left at a solid square. `ToJson` and `FromJson` convert between a square and a JSON value. A solid becomes its colour name. A split becomes the 4-element array of its quadrants, in the order nw, ne, sw, se.
- **Association lists** (`assoc.dfy`, from `server/src/assoc.ts`). An `AssocList` is an immutable list of `(string, V)` pairs plus the list of its keys, which is computed once at construction. `SetValue` returns a new association list: an existing key's pair is overwritten at its own position, and a new key's pair is appended at the end. `ContainsKey`, `GetKeys` and `GetValue` read it. `GetValue` fails when the key is absent.
- `lists.dfy` holds the nil/cons list that paths and pairs are built from. It has only the operations these two components need, including `Concat` as `setValue` uses it. `results.dfy` holds a `Result` type. It stands in for the exceptions the source throws.

Each operation is checked against a partner:
- `FindSquare` and `ReplaceSquare` against each other: find after replace, replace with what was found, replace twice, and locality for diverging paths.
- `FromJson` against `ToJson`, in both directions.
- `ToColor` against `ColorName`.
- The association-list operations against `ToMap`, the map a pair list denotes (the first pair for a key wins).

The source's documentation says the association list's representation invariant holds: the cached keys are the keys of the list, and no key repeats (`assoc.ts:69-70`). Here that invariant is the predicate `Valid`. `SetValue` requires it and re-establishes it. The source constructor demands no duplicate keys (`assoc.ts:77`), so the constructor `Make` demands that too.

A new key is appended at the end of the list (`assoc.ts:102-103`, `108-109`), so `GetKeys` lists keys in first-insertion order, as `assoc_test.ts:72-73` expects.

## Model

| member | source | states |
|---|---|---|
| Squares.ToColor | client/src/square.ts:10-19 | succeeds only on a colour name, and then returns the colour with that name; any other string fails with UnknownColor of that string, and no colour has that name |
| Squares.ToColorName | client/src/square.ts:10-19 | each of the seven colour names is accepted and converts back to its own colour |
| Squares.FindSquare | client/src/square.ts:68-87 | the empty path finds the root itself; a failure is always PathThroughSolid; on a solid root, find succeeds exactly for the empty path; a found part lies at least Length(path) levels below the root |
| Squares.FindStep | client/src/square.ts:59-66 | on a split, finding along d :: L is finding along L in the quadrant named by d (the four documented equations) |
| Squares.ReplaceSquare | client/src/square.ts:101-119 | along the empty path the result is the new square itself; replace succeeds on exactly the paths find succeeds on, and otherwise fails with PathThroughSolid; along a non-empty path the result is a split whose three other quadrants are the originals |
| Squares.ReplaceStep | client/src/square.ts:112-117 | on a split, replacing along d :: L rebuilds the split with only quadrant d replaced, by the replacement along L within it |
| Squares.FindAfterReplace | client/src/square.ts:101-119 | for a path that find resolves, replace succeeds, and finding along that path in the result gives the new square |
| Squares.ReplaceWithFound | client/src/square.ts:101-119 | putting back the square found at a path gives the original root |
| Squares.ReplaceTwice | client/src/square.ts:101-119 | replacing twice at one path equals only the second replacement |
| Squares.ReplaceIsLocal | client/src/square.ts:112-117 | replacing at p leaves what find returns at any path that diverges from p unchanged, including its failures |
| Squares.FindConcat | client/src/square.ts:68-87 | finding along p then q equals finding along the concatenation of p and q, and a failure on p is the failure of the whole |
| Squares.WithChild | client/src/square.ts:113-116 | the rebuilt split has the new quadrant at d and the original quadrants in every other direction |
| Squares.ToJson | client/src/square.ts:127-133 | a solid becomes the string that names its colour; a split becomes an array of exactly four parts holding the JSON forms of its quadrants in the order nw, ne, sw, se |
| Squares.FromJson | client/src/square.ts:140-153 | whatever it accepts serialises back to the input, so it accepts exactly the JSON forms of squares; a string is accepted exactly when it names a colour, and any other string fails with UnknownColor of that string; an array of any length other than 4 fails with SplitArity; anything that is neither a string nor an array fails with NotASquare |
| Squares.FromJsonParts | client/src/square.ts:144-146 | a 4-part array reads its parts in the order nw, ne, sw, se: the result is the error of the first part that fails, and otherwise the split of the four squares read |
| Squares.FromJsonFirstFailure | client/src/square.ts:144-146 | when a 4-part array fails to read, its error is that of the first part that fails, and every part before it reads successfully |
| Squares.FromToJson | client/src/square.ts:127-153 | reading back the JSON form of any square gives that square |
| Squares.FindExamples | client/src/square_test.ts:38-50 | the two-step find NW, NE in the nested example gives solid orange, and a step into a solid fails |
| Squares.ToJsonExample | client/src/square_test.ts:106-108 | a split of blue, orange, purple and white solids serialises to the array of those four names |
| Squares.FromJsonRejects | client/src/square.ts:140-153 | "teal" is rejected as an unknown colour and a 3-element array is rejected for not having 4 parts |
| Assoc.ConstructKeys | server/src/assoc.ts:84-95 | the key list has one key per pair, and key i is the first component of pair i |
| Assoc.Make | server/src/assoc.ts:79-82 | given pairs with distinct keys, the new value holds those pairs and satisfies the representation invariant |
| Assoc.NewAssocMap | server/src/assoc.ts:160-162 | the empty association list satisfies the invariant, has no keys and contains no key |
| Assoc.ToMap | server/src/assoc.ts:53-57 | the keys of the denoted map are exactly the keys of the pairs |
| Assoc.SetValueHelper | server/src/assoc.ts:101-112 | the pairs after set-value denote the old map with key updated to value |
| Assoc.SetValue | server/src/assoc.ts:97-99 | preserves the representation invariant (cached keys equal the pairs' keys, no duplicates) and the result denotes the old map updated at key |
| Assoc.ContainsKeyHelper | server/src/assoc.ts:119-130 | true exactly when x is one of the pairs' keys |
| Assoc.ContainsKey | server/src/assoc.ts:115-117 | true exactly when the denoted map has key x |
| Assoc.GetKeys | server/src/assoc.ts:133-135 | the keys listed are exactly those containsKey accepts, each listed once |
| Assoc.GetValueHelper | server/src/assoc.ts:141-152 | fails with KeyNotFound exactly when x is not a key, and otherwise returns the value of the first pair with key x |
| Assoc.GetValue | server/src/assoc.ts:137-139 | fails with KeyNotFound exactly when containsKey is false, and otherwise returns the value paired with x |
| Assoc.SetValueKeys | server/src/assoc.ts:101-112 | after set-value the keys are unchanged if the key was present, and are the old keys followed by the new key otherwise |
| Assoc.SetValueNoDuplicates | server/src/assoc.ts:101-112 | set-value keeps keys distinct |
| Assoc.SetValueAppends | server/src/assoc.ts:102-109 | for an absent key, set-value is the old pairs followed by the new pair |
| Assoc.SetValueInPlace | server/src/assoc.ts:104-110 | for a present key, set-value keeps the length, overwrites that key's pair at its own position, and leaves every other pair where it was |
| Assoc.NthKey | server/src/assoc.ts:88-95 | the key at any position of the key list is the key of the pair at that position, and so it is among the keys |
| Assoc.SetValueExisting | server/src/assoc.ts:106-107 | setting a present key leaves getKeys and the number of pairs unchanged |
| Assoc.SetValueFresh | server/src/assoc.ts:102-109 | setting an absent key appends it at the end of getKeys |
| Assoc.GetSetSame | server/src/assoc.ts:22-23 | after setValue(k, v), containsKey(k) holds and getValue(k) is v, whether or not k was present |
| Assoc.GetSetOther | server/src/assoc.ts:18-21 | setValue(k, v) leaves containsKey(j) and getValue(j) unchanged for every j other than k |
| Assoc.SetTwice | server/src/assoc.ts:101-110 | after setting k twice, getValue(k) is the second value and k occurs exactly once in getKeys |
| Assoc.InsertionOrderExample | server/src/assoc_test.ts:65-73 | setting c, b, a into the empty list gives the keys c, b, a |
| Lists.ConcatSingleton | server/src/assoc.ts:107 | concatenating a one-element list onto L is consing that element onto L |
| Lists.CountNoDuplicates | server/src/assoc.ts:69 | in a list without duplicates an element occurs once if present and not at all otherwise |

## Left out

- The list library of the repository (`len`, `equal`, `rev`, `at`, `prefix`, `remove`, `explode_array`, `compact_list`) is not part of this model. The two components use only nil/cons and `concat`.
- Structural sharing and reference identity of reused subtrees and tails are not modelled. Dafny datatypes are values, so sharing appears only as equality of the untouched parts.
- Exception messages become error values: `UnknownColor`, `PathThroughSolid`, `SplitArity`, `NotASquare` and `KeyNotFound`. The text of each message is not modelled.
- JSON values other than strings and arrays are represented by `JNum`, `JBool`, `JNull` and `JObj`. Numbers are integers here, since every number is rejected alike.
- The unreachable `return root` after each four-way `switch` in `findSquare` and `replaceSquare` has no counterpart. The match over the four directions is exhaustive.
- Splitting a leaf, merging into the parent and recolouring are not implemented in the client, so there is nothing to model.
- The React views, the HTTP routes and the server bootstrap are not modelled. They are I/O and UI around these values.
- Recursion depth and stack exhaustion are not modelled: Dafny functions have no stack limit.
