/** The winner rules of animalbase.js as functions on the collection: what a
    click on a record's winner field decides (`setWinner` and
    `tryToMakeAWinner`), what each decision and each conflict resolution does
    to the records, and the proof that none of them breaks the rule "at most
    one winner per type, at most two winners in all". */
module WinnerRules {
  import opened Filtering
  import opened Records

  predicate IsWinner(a: Animal)
  {
    a.winner
  }

  /** `allAnimals.filter(animal => animal.winner)`: the winners in collection order. */
  function Winners(s: seq<Animal>): (r: seq<Animal>)
    ensures |r| <= |s|
    ensures forall a :: a in r ==> a in s && a.winner
  {
    Where(s, IsWinner)
  }

  /** `winners.filter(animal => animal.type === kind)`: the winners of one type. */
  function SameKindWinners(s: seq<Animal>, kind: string): (r: seq<Animal>)
    ensures |r| <= |Winners(s)|
    ensures forall a :: a in r ==> a in s && a.winner && a.kind == kind
  {
    Where(Winners(s), HasKind(kind))
  }

  /** At most two winners, and at most one of each type. */
  ghost predicate WinnerRulesHold(s: seq<Animal>)
  {
    && |Winners(s)| <= 2
    && forall kind :: |SameKindWinners(s, kind)| <= 1
  }

  /** What a click on a record's winner field decides. */
  datatype Outcome =
    | Unset                                            // the record was a winner: clear it
    | Promote                                          // no conflict: make it a winner
    | SingleConflict(other: string)                    // the named winner has the same type
    | DoubleConflict(winnerA: string, winnerB: string) // the two named winners fill both places

  /** `setWinner` and `tryToMakeAWinner`: a winner is unset; otherwise the
      first winner of the same type, looked for first, opens the one-winner
      choice; failing that, two or more winners open the two-winner choice
      with the first two winners in collection order; otherwise the record is
      promoted at once. */
  function Decide(s: seq<Animal>, target: Animal): (r: Outcome)
    ensures r.Unset? <==> target.winner
    ensures r.SingleConflict? ==> !target.winner && SameKindWinners(s, target.kind) != []
    ensures r.DoubleConflict? ==> SameKindWinners(s, target.kind) == [] && |Winners(s)| >= 2
    ensures r.Promote? ==> SameKindWinners(s, target.kind) == [] && |Winners(s)| < 2
  {
    if target.winner then Unset
    else
      var winners := Winners(s);
      var other := Where(winners, HasKind(target.kind));
      if other != [] then SingleConflict(other[0].name)
      else if |winners| >= 2 then DoubleConflict(winners[0].name, winners[1].name)
      else Promote
  }

  /** The collection with record `k`'s winner field set to `b`
      (`removeWinner`, `makeWinner`, and the toggle in `setWinner`). */
  function WithWinner(s: seq<Animal>, k: nat, b: bool): (r: seq<Animal>)
    requires k < |s|
    ensures |r| == |s| && r[k] == s[k].(winner := b)
    ensures forall j :: 0 <= j < |s| && j != k ==> r[j] == s[j]
    ensures forall j :: 0 <= j < |s| ==> r[j].name == s[j].name && r[j].kind == s[j].kind && r[j].star == s[j].star
  {
    s[k := s[k].(winner := b)]
  }

  /** The collection after a click on record `k`: unset and promote change
      that record; a conflict changes nothing until it is resolved. */
  function AfterRequest(s: seq<Animal>, k: nat): (r: seq<Animal>)
    requires k < |s|
    ensures |r| == |s|
    ensures forall j :: 0 <= j < |s| && j != k ==> r[j] == s[j]
    ensures r[k] == s[k].(winner := Decide(s, s[k]).Promote?)
    ensures Decide(s, s[k]).SingleConflict? || Decide(s, s[k]).DoubleConflict? ==> r == s
  {
    match Decide(s, s[k])
    case Unset => WithWinner(s, k, false)
    case Promote => WithWinner(s, k, true)
    case _ => s
  }

  /** The collection after choosing to replace winner `incumbent` by record
      `target` (`clickRemoveOther`, `clickRemoveA`, `clickRemoveB`). */
  function AfterReplace(s: seq<Animal>, incumbent: nat, target: nat): seq<Animal>
    requires incumbent < |s| && target < |s|
  {
    WithWinner(WithWinner(s, incumbent, false), target, true)
  }

  /** Replacing the winner called `incumbent` by the record called `target`,
      both looked up by name; nothing happens when either is missing. */
  function ReplaceNamed(s: seq<Animal>, incumbent: string, target: string): (r: seq<Animal>)
    ensures |r| == |s|
    ensures forall j :: 0 <= j < |s| ==> r[j].name == s[j].name && r[j].kind == s[j].kind && r[j].star == s[j].star
  {
    match (Find(s, incumbent), Find(s, target))
    case (Some(i), Some(t)) => AfterReplace(s, i, t)
    case _ => s
  }

  /** How setting one record's winner field changes the number of winners
      and the number of winners of each type. */
  lemma WithWinnerCounts(s: seq<Animal>, k: nat, b: bool, kind: string)
    requires k < |s|
    ensures |Winners(WithWinner(s, k, b))|
         == |Winners(s)| - (if s[k].winner then 1 else 0) + (if b then 1 else 0)
    ensures |SameKindWinners(WithWinner(s, k, b), kind)|
         == |SameKindWinners(s, kind)| - (if s[k].winner && s[k].kind == kind then 1 else 0)
            + (if b && s[k].kind == kind then 1 else 0)
  {
    var y := s[k].(winner := b);
    WhereUpdate(s, k, y, IsWinner);
    var p := And(IsWinner, HasKind(kind));
    WhereWhere(s, IsWinner, HasKind(kind));
    WhereWhere(s[k := y], IsWinner, HasKind(kind));
    WhereUpdate(s, k, y, p);
  }

  /** A type has no winner exactly when no winner in the collection has that type. */
  lemma NoSameKindWinner(s: seq<Animal>, kind: string)
    ensures SameKindWinners(s, kind) == []
        <==> forall j :: 0 <= j < |s| ==> !(s[j].winner && s[j].kind == kind)
  {
    var p := And(IsWinner, HasKind(kind));
    WhereWhere(s, IsWinner, HasKind(kind));
    WhereEmpty(s, p);
  }

  /** A click on a record keeps the winner rules. */
  lemma RequestKeepsRules(s: seq<Animal>, k: nat)
    requires k < |s| && WinnerRulesHold(s)
    ensures WinnerRulesHold(AfterRequest(s, k))
  {
    var t := AfterRequest(s, k);
    match Decide(s, s[k])
    case Unset =>
      forall kind ensures |SameKindWinners(t, kind)| <= 1 {
        WithWinnerCounts(s, k, false, kind);
      }
      WithWinnerCounts(s, k, false, "");
    case Promote =>
      forall kind ensures |SameKindWinners(t, kind)| <= 1 {
        WithWinnerCounts(s, k, true, kind);
      }
      WithWinnerCounts(s, k, true, "");
    case SingleConflict(_) =>
    case DoubleConflict(_, _) =>
  }

  /** Replacing a winner by a record that is not one keeps the winner rules,
      when the two have the same type or the record's type has no winner yet. */
  lemma ReplaceKeepsRules(s: seq<Animal>, incumbent: nat, target: nat)
    requires incumbent < |s| && target < |s| && WinnerRulesHold(s)
    requires s[incumbent].winner && !s[target].winner
    requires s[incumbent].kind == s[target].kind || SameKindWinners(s, s[target].kind) == []
    ensures WinnerRulesHold(AfterReplace(s, incumbent, target))
  {
    var s1 := WithWinner(s, incumbent, false);
    assert s1[target] == s[target];
    forall kind ensures |SameKindWinners(AfterReplace(s, incumbent, target), kind)| <= 1 {
      WithWinnerCounts(s, incumbent, false, kind);
      WithWinnerCounts(s1, target, true, kind);
    }
    WithWinnerCounts(s, incumbent, false, "");
    WithWinnerCounts(s1, target, true, "");
  }

  /** Which of the four outcomes a click gives, in terms of the collection:
      unset exactly for a winner; otherwise a conflict of one exactly when a
      winner of the same type exists, a conflict of two exactly when none does
      and there are two winners or more, and promotion exactly when there is
      neither. */
  lemma DecideCases(s: seq<Animal>, target: Animal)
    ensures Decide(s, target) == Unset <==> target.winner
    ensures Decide(s, target).SingleConflict?
        <==> !target.winner && exists j :: 0 <= j < |s| && s[j].winner && s[j].kind == target.kind
    ensures Decide(s, target).DoubleConflict?
        <==> && !target.winner
             && (forall j :: 0 <= j < |s| ==> !(s[j].winner && s[j].kind == target.kind))
             && |Winners(s)| >= 2
    ensures Decide(s, target) == Promote
        <==> && !target.winner
             && (forall j :: 0 <= j < |s| ==> !(s[j].winner && s[j].kind == target.kind))
             && |Winners(s)| < 2
  {
    NoSameKindWinner(s, target.kind);
  }

  /** The incumbent a conflict of one names is the first winner of the
      target's type in collection order. */
  lemma SingleConflictIncumbent(s: seq<Animal>, target: Animal) returns (k: nat)
    requires Decide(s, target).SingleConflict?
    ensures k < |s| && s[k].winner && s[k].kind == target.kind
    ensures Decide(s, target).other == s[k].name
    ensures forall j :: 0 <= j < k ==> !(s[j].winner && s[j].kind == target.kind)
  {
    var p := And(IsWinner, HasKind(target.kind));
    WhereWhere(s, IsWinner, HasKind(target.kind));
    k := WhereHead(s, p);
  }

  /** The incumbents a conflict of two names are the first two winners in
      collection order (whatever order the list is shown in); with unique
      names they are two different records. */
  lemma DoubleConflictIncumbents(s: seq<Animal>, target: Animal) returns (ka: nat, kb: nat)
    requires Decide(s, target).DoubleConflict?
    ensures ka < kb < |s| && s[ka].winner && s[kb].winner
    ensures Decide(s, target).winnerA == s[ka].name && Decide(s, target).winnerB == s[kb].name
    ensures forall j :: 0 <= j < kb && j != ka ==> !s[j].winner
    ensures NamesUnique(s) ==> Decide(s, target).winnerA != Decide(s, target).winnerB
  {
    ka, kb := WhereSecond(s, IsWinner);
    if NamesUnique(s) {
      NamesDiffer(s, ka, kb);
    }
  }

  /** Promoting a record and clicking it again unsets it and gives the
      collection back; a third click promotes it once more. */
  lemma ToggleTwice(s: seq<Animal>, k: nat)
    requires k < |s| && Decide(s, s[k]) == Promote
    ensures Decide(AfterRequest(s, k), AfterRequest(s, k)[k]) == Unset
    ensures AfterRequest(AfterRequest(s, k), k) == s
    ensures Decide(AfterRequest(AfterRequest(s, k), k), s[k]) == Promote
  {
    var t := AfterRequest(s, k);
    assert t[k].winner;
    assert t[k := t[k].(winner := false)] == s;
  }

  /** A replace clears only the incumbent's winner field and sets only the
      selected record's; every other record and field stays as it was. */
  lemma ReplaceNamedEffect(s: seq<Animal>, incumbent: string, target: string)
    requires Find(s, incumbent).Some? && Find(s, target).Some?
    requires Find(s, incumbent) != Find(s, target)
    ensures var r, i, t := ReplaceNamed(s, incumbent, target), Find(s, incumbent).value, Find(s, target).value;
      && |r| == |s|
      && r[i] == s[i].(winner := false)
      && r[t] == s[t].(winner := true)
      && forall j :: 0 <= j < |s| && j != i && j != t ==> r[j] == s[j]
  {
  }

  /** Two lions and a wolf, no winners: the first lion is promoted; the
      second lion then meets the first in a conflict of one, and replacing
      makes the second lion the winner instead. */
  lemma ScenarioSameType()
    ensures var s := [Animal("Leo", "lazy", "lion", 4, false, false),
                      Animal("Mia", "mild", "lion", 3, false, false),
                      Animal("Rex", "rough", "wolf", 5, false, false)];
      && Decide(s, s[0]) == Promote
      && var s1 := AfterRequest(s, 0);
      && s1[0].winner
      && Decide(s1, s1[1]) == SingleConflict("Leo")
      && AfterRequest(s1, 1) == s1
      && var s2 := ReplaceNamed(s1, "Leo", "Mia");
      && !s2[0].winner && s2[1].winner && !s2[2].winner
  {
    var s := [Animal("Leo", "lazy", "lion", 4, false, false),
              Animal("Mia", "mild", "lion", 3, false, false),
              Animal("Rex", "rough", "wolf", 5, false, false)];
    assert Winners(s) == [] by { WhereEmpty(s, IsWinner); }
    var s1 := AfterRequest(s, 0);
    assert Winners(s1) == [s1[0]] by {
      assert s1 == [s1[0]] + s[1..];
      WhereConcat([s1[0]], s[1..], IsWinner);
      WhereEmpty(s[1..], IsWinner);
    }
    assert Find(s1, "Leo") == Some(0);
    assert Find(s1, "Mia") == Some(1);
  }

  /** A cat and a dog are winners and a bird is clicked: the conflict of two
      names the cat and the dog and changes no record; replacing the first
      makes the bird a winner beside the dog. */
  lemma ScenarioTwoWinners()
    ensures var s := [Animal("A", "agile", "cat", 2, false, true),
                      Animal("B", "brave", "dog", 6, false, true),
                      Animal("C", "calm", "bird", 1, false, false)];
      && Decide(s, s[2]) == DoubleConflict("A", "B")
      && AfterRequest(s, 2) == s
      && var s1 := ReplaceNamed(s, "A", "C");
      && !s1[0].winner && s1[1].winner && s1[2].winner
  {
    var s := [Animal("A", "agile", "cat", 2, false, true),
              Animal("B", "brave", "dog", 6, false, true),
              Animal("C", "calm", "bird", 1, false, false)];
    assert Winners(s) == [s[0], s[1]] by {
      assert s == [s[0]] + [s[1]] + [s[2]];
      WhereConcat([s[0]] + [s[1]], [s[2]], IsWinner);
      WhereConcat([s[0]], [s[1]], IsWinner);
    }
    assert Where(Winners(s), HasKind("bird")) == [];
    assert Find(s, "A") == Some(0);
    assert Find(s, "C") == Some(2);
  }
}
