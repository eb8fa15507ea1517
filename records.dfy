/** The animal records of animalbase.js: their shape, how one is built from an
    entry of the data file (`preapareObject`), and how a record is looked up
    by name (`allAnimals.find`). */
module Records {
  import opened Filtering

  datatype Option<T> = None | Some(value: T)

  /** One animal. `kind` is the source's `type` field (`type` is a Dafny
      keyword). `star` and `winner` are the two fields the handlers flip. */
  datatype Animal = Animal(name: string, desc: string, kind: string, age: int, star: bool, winner: bool)

  /** An entry of the data file once it has been parsed as JSON. */
  datatype JsonAnimal = JsonAnimal(fullname: string, age: int)

  /** The prototype every record is created from. */
  const Prototype := Animal("", "-unknown animal-", "", 0, false, false)

  /** JavaScript's `String.prototype.split` with a one-character separator:
      every separator cuts, so two adjacent separators give an empty part. */
  function Split(s: string, sep: char): (parts: seq<string>)
    ensures |parts| >= 1
    ensures forall part :: part in parts ==> sep !in part
    decreases |s|
  {
    if s == [] then [""]
    else
      var rest := Split(s[1..], sep);
      if s[0] == sep then [""] + rest
      else [[s[0]] + rest[0]] + rest[1..]
  }

  /** The inverse of `Split`: the parts glued with the separator. */
  function Join(parts: seq<string>, sep: char): string
    requires |parts| >= 1
    decreases |parts|
  {
    if |parts| == 1 then parts[0] else parts[0] + [sep] + Join(parts[1..], sep)
  }

  /** Gluing the parts of a string gives the string back. */
  lemma {:induction false} JoinSplit(s: string, sep: char)
    ensures Join(Split(s, sep), sep) == s
    decreases |s|
  {
    if s != [] {
      JoinSplit(s[1..], sep);
      var rest := Split(s[1..], sep);
      if s[0] == sep {
        assert ([""] + rest)[1..] == rest;
      } else {
        var parts := [[s[0]] + rest[0]] + rest[1..];
        assert parts[1..] == rest[1..];
        if |rest| == 1 {
          assert s == [s[0]] + s[1..];
        } else {
          assert Join(rest, sep) == rest[0] + [sep] + Join(rest[1..], sep);
          assert s == [s[0]] + s[1..];
        }
      }
    }
  }

  /** Splitting a part that holds no separator followed by one separator. */
  lemma {:induction false} SplitAfterPart(w: string, sep: char, r: string)
    requires sep !in w
    ensures Split(w + [sep] + r, sep) == [w] + Split(r, sep)
    decreases |w|
  {
    if w == [] {
      assert w + [sep] + r == [sep] + r;
      assert ([sep] + r)[1..] == r;
    } else {
      var s := w + [sep] + r;
      assert s[0] == w[0] && s[1..] == w[1..] + [sep] + r;
      SplitAfterPart(w[1..], sep, r);
      assert [w[0]] + w[1..] == w;
    }
  }

  /** A string without the separator is a single part. */
  lemma {:induction false} SplitWhole(w: string, sep: char)
    requires sep !in w
    ensures Split(w, sep) == [w]
    decreases |w|
  {
    if w != [] {
      SplitWhole(w[1..], sep);
      assert [w[0]] + w[1..] == w;
    }
  }

  /** Splitting glued parts gives the parts back, when no part holds the separator. */
  lemma {:induction false} SplitJoin(parts: seq<string>, sep: char)
    requires |parts| >= 1
    requires forall j :: 0 <= j < |parts| ==> sep !in parts[j]
    ensures Split(Join(parts, sep), sep) == parts
    decreases |parts|
  {
    if |parts| == 1 {
      SplitWhole(parts[0], sep);
    } else {
      SplitJoin(parts[1..], sep);
      SplitAfterPart(parts[0], sep, Join(parts[1..], sep));
      assert [parts[0]] + parts[1..] == parts;
    }
  }

  /** A string cut at every separator has one more part than it has separators. */
  lemma {:induction false} SplitLength(s: string, sep: char)
    ensures |Split(s, sep)| == multiset(s)[sep] + 1
    decreases |s|
  {
    if s != [] {
      SplitLength(s[1..], sep);
      assert s == [s[0]] + s[1..];
      assert multiset(s) == multiset{s[0]} + multiset(s[1..]);
    }
  }

  /** `preapareObject`: the record an entry of the data file describes. The
      full name is cut at every single space; parts 0, 2 and 3 are the name,
      the description and the type; the age is copied; `star` is set false and
      `winner` keeps the prototype's false. An entry whose full name has fewer
      than four parts is refused. */
  function PrepareObject(j: JsonAnimal): (r: Option<Animal>)
    ensures r.Some? <==> multiset(j.fullname)[' '] >= 3
    ensures r.Some? ==>
      var texts := Split(j.fullname, ' ');
      |texts| >= 4 && r.value == Animal(texts[0], texts[2], texts[3], j.age, false, false)
  {
    var texts := Split(j.fullname, ' ');
    SplitLength(j.fullname, ' ');
    if |texts| < 4 then None
    else Some(Prototype.(name := texts[0], desc := texts[2], kind := texts[3], age := j.age, star := false))
  }

  /** A full name glued from at least four space-free words is read back
      word by word: words 0, 2 and 3 become the name, the description and the type. */
  lemma PrepareObjectRoundTrip(words: seq<string>, age: int)
    requires |words| >= 4
    requires forall j :: 0 <= j < |words| ==> ' ' !in words[j]
    ensures PrepareObject(JsonAnimal(Join(words, ' '), age))
         == Some(Animal(words[0], words[2], words[3], age, false, false))
  {
    SplitJoin(words, ' ');
  }

  /** `jsonData.map(preapareObject)`: every entry in order, or nothing when an
      entry is refused. */
  function PrepareObjects(json: seq<JsonAnimal>): (r: Option<seq<Animal>>)
    ensures r.Some? <==> forall j :: 0 <= j < |json| ==> PrepareObject(json[j]).Some?
    ensures r.Some? ==> |r.value| == |json|
    ensures r.Some? ==> forall j :: 0 <= j < |json| ==> r.value[j] == PrepareObject(json[j]).value
    decreases |json|
  {
    if json == [] then Some([])
    else
      match (PrepareObject(json[0]), PrepareObjects(json[1..]))
      case (Some(a), Some(rest)) => Some([a] + rest)
      case (None, _) => None
      case (_, None) => None
  }

  /** `allAnimals.find(item => item.name === name)`: the index of the first
      record with that name, if there is one. */
  function Find(s: seq<Animal>, name: string): (r: Option<nat>)
    ensures r.Some? ==> r.value < |s| && s[r.value].name == name
    ensures r.Some? ==> forall j :: 0 <= j < r.value ==> s[j].name != name
    ensures r.None? ==> forall j :: 0 <= j < |s| ==> s[j].name != name
    decreases |s|
  {
    if s == [] then None
    else if s[0].name == name then Some(0)
    else match Find(s[1..], name)
      case None => None
      case Some(k) => Some(k + 1)
  }

  function HasName(name: string): Animal -> bool
  {
    (a: Animal) => a.name == name
  }

  function HasKind(kind: string): Animal -> bool
  {
    (a: Animal) => a.kind == kind
  }

  /** The records called `name`, in collection order. */
  function Named(s: seq<Animal>, name: string): seq<Animal>
  {
    Where(s, HasName(name))
  }

  /** Records are identified by name: no two share one. */
  ghost predicate NamesUnique(s: seq<Animal>)
  {
    forall name :: |Named(s, name)| <= 1
  }

  /** Under unique names, the record `Find` returns is the one record with that name. */
  lemma FindNamed(s: seq<Animal>, name: string)
    requires NamesUnique(s)
    ensures Find(s, name).Some? <==> |Named(s, name)| == 1
    ensures Find(s, name).Some? ==> Named(s, name) == [s[Find(s, name).value]]
  {
    match Find(s, name)
    case Some(k) =>
      assert HasName(name)(s[k]);
      WhereSingleton(s, HasName(name), k);
    case None =>
      WhereEmpty(s, HasName(name));
  }

  /** Under unique names, two records at different indices have different names. */
  lemma NamesDiffer(s: seq<Animal>, i: nat, j: nat)
    requires NamesUnique(s) && i < j < |s|
    ensures s[i].name != s[j].name
  {
    var name := s[i].name;
    assert |Named(s, name)| <= 1;
    if s[j].name == name {
      WhereTwo(s, HasName(name), i, j);
      assert false;
    }
  }
}
