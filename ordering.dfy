/** How animalbase.js orders two records: the view settings, the value
    `animal[settings.sortBy]` that is compared, JavaScript's `<` on it, and the
    comparator `sortByCriteria` that turns it into -1 or 1 by direction. */
module Ordering {
  import opened Records

  /** The record fields `settings.sortBy` can name. */
  datatype SortKey = Name | Desc | Type | Age | Star | Winner

  /** The view settings: the type to show ("all" for every type), the field
      to sort by and the direction ("desc" for descending, anything else ascending). */
  datatype Settings = Settings(filter: string, sortBy: SortKey, sortDir: string)

  /** The settings a session starts with. */
  const DefaultSettings := Settings("all", Name, "asc")

  /** The values a record field holds: text, a number or a flag. */
  datatype Key = Text(text: string) | Number(number: int) | Flag(flag: bool)

  /** `animal[sortBy]`. */
  function KeyOf(a: Animal, sortBy: SortKey): (r: Key)
    ensures r.Number? <==> sortBy == Age
    ensures r.Flag? <==> sortBy == Star || sortBy == Winner
  {
    match sortBy
    case Name => Text(a.name)
    case Desc => Text(a.desc)
    case Type => Text(a.kind)
    case Age => Number(a.age)
    case Star => Flag(a.star)
    case Winner => Flag(a.winner)
  }

  /** JavaScript's `<` on two strings: character by character, and a proper
      prefix comes first. */
  predicate LexLess(a: string, b: string)
    ensures LexLess(a, b) ==> a != b
    decreases |a|
  {
    if a == [] then b != []
    else if b == [] then false
    else if a[0] != b[0] then a[0] < b[0]
    else LexLess(a[1..], b[1..])
  }

  /** JavaScript's `<` on two values of the same field (`false < true` for flags). */
  predicate KeyLess(u: Key, v: Key)
    ensures KeyLess(u, v) ==> u != v
  {
    match (u, v)
    case (Text(x), Text(y)) => LexLess(x, y)
    case (Number(x), Number(y)) => x < y
    case (Flag(x), Flag(y)) => !x && y
    case _ => false
  }

  /** The key of `u` is at most the key of `v`. */
  predicate KeyAtMost(u: Key, v: Key)
  {
    KeyLess(u, v) || u == v
  }

  /** The factor the comparator is multiplied by: -1 for "desc", 1 otherwise. */
  function Direction(sortDir: string): (r: int)
    ensures r == 1 || r == -1
    ensures r < 0 <==> sortDir == "desc"
  {
    if sortDir == "desc" then -1 else 1
  }

  /** `sortByCriteria`: -1 times the direction when the first record's key is
      below the second's, and 1 times the direction otherwise (equal keys
      included). */
  function SortByCriteria(x: Animal, y: Animal, st: Settings): (r: int)
    ensures r == -1 || r == 1
    ensures st.sortDir != "desc" ==> (r < 0 <==> KeyLess(KeyOf(x, st.sortBy), KeyOf(y, st.sortBy)))
    ensures st.sortDir == "desc" ==> (r < 0 <==> !KeyLess(KeyOf(x, st.sortBy), KeyOf(y, st.sortBy)))
  {
    if KeyLess(KeyOf(x, st.sortBy), KeyOf(y, st.sortBy)) then -1 * Direction(st.sortDir)
    else 1 * Direction(st.sortDir)
  }

  /** `x` may stand before `y` in a list sorted by `st`: its key is at most
      `y`'s when ascending and at least `y`'s when descending. */
  predicate InOrder(x: Animal, y: Animal, st: Settings)
  {
    if st.sortDir == "desc" then KeyAtMost(KeyOf(y, st.sortBy), KeyOf(x, st.sortBy))
    else KeyAtMost(KeyOf(x, st.sortBy), KeyOf(y, st.sortBy))
  }

  /** Non-decreasing by `st.sortBy` when ascending, non-increasing when descending. */
  predicate Sorted(s: seq<Animal>, st: Settings)
  {
    forall i, j :: 0 <= i < j < |s| ==> InOrder(s[i], s[j], st)
  }

  lemma {:induction false} LexTransitive(a: string, b: string, c: string)
    requires LexLess(a, b) && LexLess(b, c)
    ensures LexLess(a, c)
    decreases |a|
  {
    if a != [] && a[0] == b[0] && b[0] == c[0] {
      LexTransitive(a[1..], b[1..], c[1..]);
    }
  }

  /** Of two different strings, one is below the other. */
  lemma {:induction false} LexTotal(a: string, b: string)
    requires a != b
    ensures LexLess(a, b) || LexLess(b, a)
    decreases |a|
  {
    if a != [] && b != [] && a[0] == b[0] {
      assert a == [a[0]] + a[1..] && b == [b[0]] + b[1..];
      LexTotal(a[1..], b[1..]);
    }
  }

  /** For one field, `<` is a strict total order: irreflexive, transitive, and
      of two different keys one is below the other. */
  lemma KeyLessOrder(x: Animal, y: Animal, z: Animal, sortBy: SortKey)
    ensures !KeyLess(KeyOf(x, sortBy), KeyOf(x, sortBy))
    ensures KeyLess(KeyOf(x, sortBy), KeyOf(y, sortBy)) && KeyLess(KeyOf(y, sortBy), KeyOf(z, sortBy))
            ==> KeyLess(KeyOf(x, sortBy), KeyOf(z, sortBy))
    ensures KeyOf(x, sortBy) != KeyOf(y, sortBy)
            ==> KeyLess(KeyOf(x, sortBy), KeyOf(y, sortBy)) || KeyLess(KeyOf(y, sortBy), KeyOf(x, sortBy))
  {
    match sortBy
    case Name => LexFacts(x.name, y.name, z.name);
    case Desc => LexFacts(x.desc, y.desc, z.desc);
    case Type => LexFacts(x.kind, y.kind, z.kind);
    case _ =>
  }

  lemma LexFacts(a: string, b: string, c: string)
    ensures !LexLess(a, a)
    ensures LexLess(a, b) && LexLess(b, c) ==> LexLess(a, c)
    ensures a != b ==> LexLess(a, b) || LexLess(b, a)
  {
    if LexLess(a, b) && LexLess(b, c) { LexTransitive(a, b, c); }
    if a != b { LexTotal(a, b); }
  }

  /** The order the comparator sorts into: a negative answer lets `x` stand
      before `y`, any other answer lets `y` stand before `x`. */
  lemma CriteriaInOrder(x: Animal, y: Animal, st: Settings)
    ensures SortByCriteria(x, y, st) < 0 ==> InOrder(x, y, st)
    ensures SortByCriteria(x, y, st) > 0 ==> InOrder(y, x, st)
  {
    KeyLessOrder(x, y, y, st.sortBy);
    KeyLessOrder(y, x, x, st.sortBy);
  }

  /** Standing in order is transitive. */
  lemma InOrderTransitive(x: Animal, y: Animal, z: Animal, st: Settings)
    requires InOrder(x, y, st) && InOrder(y, z, st)
    ensures InOrder(x, z, st)
  {
    KeyLessOrder(x, y, z, st.sortBy);
    KeyLessOrder(z, y, x, st.sortBy);
  }
}
