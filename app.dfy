/** The state animalbase.js keeps and the handlers that change it: the record
    collection `allAnimals` (an array, sorted in place whenever every type is
    shown), the `settings` object, and the open winner dialog, which the
    source keeps in closures and listeners and this model keeps as a value. */
module App {
  import opened Filtering
  import opened Records
  import opened Ordering
  import opened Projection
  import opened WinnerRules

  /** The winner dialog: closed, or open on a choice that names the
      incumbent(s) and the selected record. */
  datatype Dialog =
    | Idle
    | AwaitingSingle(other: string, selected: string)
    | AwaitingTwo(winnerA: string, winnerB: string, selected: string)

  /** What a click on a winner field did: refused while a dialog is open,
      nothing for a name not in the collection, or the decision taken. */
  datatype Response = Busy | NotFound | Decided(outcome: Outcome)

  /** The dialog an outcome opens for the selected record. */
  function Prompt(o: Outcome, selected: string): Dialog
  {
    match o
    case SingleConflict(other) => AwaitingSingle(other, selected)
    case DoubleConflict(a, b) => AwaitingTwo(a, b, selected)
    case _ => Idle
  }

  /** An open dialog still describes the collection: each name it holds is
      one record; for the one-winner choice the incumbent is a winner of the
      selected record's type; for the two-winner choice both incumbents are
      winners and the selected record's type has none; the selected record is
      not a winner. */
  ghost predicate DialogOk(s: seq<Animal>, d: Dialog)
  {
    match d
    case Idle => true
    case AwaitingSingle(other, selected) =>
      && |Named(s, other)| == 1 && |Named(s, selected)| == 1
      && Named(s, other)[0].winner && !Named(s, selected)[0].winner
      && Named(s, other)[0].kind == Named(s, selected)[0].kind
    case AwaitingTwo(a, b, selected) =>
      && |Named(s, a)| == 1 && |Named(s, b)| == 1 && |Named(s, selected)| == 1
      && Named(s, a)[0].winner && Named(s, b)[0].winner && !Named(s, selected)[0].winner
      && SameKindWinners(s, Named(s, selected)[0].kind) == []
  }

  /** Everything the handlers rely on between two clicks. */
  ghost predicate StateOk(s: seq<Animal>, d: Dialog)
  {
    NamesUnique(s) && WinnerRulesHold(s) && DialogOk(s, d)
  }

  /** `buildList`'s effect: `view` holds the filtered records sorted by the
      settings; when every type is shown the collection itself was sorted
      into that order, otherwise the collection is untouched. */
  ghost predicate IsProjection(view: seq<Animal>, before: seq<Animal>, after: seq<Animal>, st: Settings)
  {
    && multiset(view) == multiset(Filtered(before, st.filter))
    && Sorted(view, st)
    && (if st.filter == "all" then after == view else after == before)
  }

  /** `setStar`'s change: the `star` field of the first record called `name` flipped. */
  function StarFlipped(s: seq<Animal>, name: string): (r: seq<Animal>)
    ensures |r| == |s|
    ensures forall j :: 0 <= j < |s| ==> r[j].name == s[j].name && r[j].kind == s[j].kind && r[j].winner == s[j].winner
  {
    match Find(s, name)
    case Some(k) => s[k := s[k].(star := !s[k].star)]
    case None => s
  }

  /** Only the `star` field of the first record with that name changes;
      no record changes when no record has that name. */
  lemma StarFlippedOnly(s: seq<Animal>, name: string)
    ensures |StarFlipped(s, name)| == |s|
    ensures Find(s, name).None? ==> StarFlipped(s, name) == s
    ensures Find(s, name).Some? ==>
      var k := Find(s, name).value;
      && StarFlipped(s, name)[k] == s[k].(star := !s[k].star)
      && forall j :: 0 <= j < |s| && j != k ==> StarFlipped(s, name)[j] == s[j]
  {
  }

  /** Flipping the star of the same name twice gives the collection back. */
  lemma StarFlippedTwice(s: seq<Animal>, name: string)
    ensures StarFlipped(StarFlipped(s, name), name) == s
  {
    match Find(s, name)
    case None =>
    case Some(k) =>
      var t := StarFlipped(s, name);
      forall j | 0 <= j < |t| ensures t[j].name == s[j].name { }
      assert Find(t, name) == Some(k);
      assert t[k := t[k].(star := !t[k].star)] == s;
  }

  /** Reordering the collection (the in-place sort) keeps names unique, the
      winner rules holding, and an open dialog describing the collection. */
  lemma PermutationKeepsState(s: seq<Animal>, t: seq<Animal>, d: Dialog)
    requires multiset(s) == multiset(t) && StateOk(s, d)
    ensures StateOk(t, d)
  {
    forall name ensures |Named(t, name)| <= 1 {
      assert |Named(s, name)| <= 1;
      WherePermutation(s, t, HasName(name));
    }
    WherePermutation(s, t, IsWinner);
    forall kind ensures |SameKindWinners(t, kind)| == |SameKindWinners(s, kind)| {
      WherePermutation(Winners(s), Winners(t), HasKind(kind));
    }
    match d
    case Idle =>
    case AwaitingSingle(other, selected) =>
      SamePermutedRecord(s, t, other);
      SamePermutedRecord(s, t, selected);
    case AwaitingTwo(a, b, selected) =>
      SamePermutedRecord(s, t, a);
      SamePermutedRecord(s, t, b);
      SamePermutedRecord(s, t, selected);
  }

  /** The one record with a given name is the same record after a permutation. */
  lemma SamePermutedRecord(s: seq<Animal>, t: seq<Animal>, name: string)
    requires multiset(s) == multiset(t) && |Named(s, name)| == 1
    ensures Named(t, name) == Named(s, name)
  {
    WherePermutation(s, t, HasName(name));
    var x, y := Named(s, name), Named(t, name);
    assert multiset(x) == multiset{x[0]};
    assert y[0] in multiset(y);
    assert y == [y[0]];
  }

  /** Replacing record `k` by one with the same name, winner field and type
      keeps the state consistent. */
  lemma SameFieldsKeepState(s: seq<Animal>, k: nat, y: Animal, d: Dialog)
    requires k < |s| && StateOk(s, d)
    requires y.name == s[k].name && y.winner == s[k].winner && y.kind == s[k].kind
    ensures StateOk(s[k := y], d)
  {
    var t := s[k := y];
    forall name ensures |Named(t, name)| == |Named(s, name)| {
      WhereUpdate(s, k, y, HasName(name));
    }
    WhereUpdate(s, k, y, IsWinner);
    forall kind ensures |SameKindWinners(t, kind)| == |SameKindWinners(s, kind)| {
      WhereWhere(s, IsWinner, HasKind(kind));
      WhereWhere(t, IsWinner, HasKind(kind));
      WhereUpdate(s, k, y, And(IsWinner, HasKind(kind)));
    }
    forall name | |Named(s, name)| == 1
      ensures Named(t, name)[0].winner == Named(s, name)[0].winner
      ensures Named(t, name)[0].kind == Named(s, name)[0].kind
    {
      if s[k].name == name {
        assert HasName(name)(s[k]) && HasName(name)(t[k]);
        WhereSingleton(s, HasName(name), k);
        WhereSingleton(t, HasName(name), k);
      } else {
        WhereUpdateRejected(s, k, y, HasName(name));
      }
    }
  }

  /** Setting one winner field keeps names unique. */
  lemma WinnerFlipKeepsNames(s: seq<Animal>, k: nat, b: bool)
    requires k < |s| && NamesUnique(s)
    ensures NamesUnique(WithWinner(s, k, b))
  {
    forall name ensures |Named(WithWinner(s, k, b), name)| == |Named(s, name)| {
      WhereUpdate(s, k, s[k].(winner := b), HasName(name));
    }
  }

  /** A conflict opens a dialog that describes the collection. */
  lemma ConflictOpensDialog(s: seq<Animal>, k: nat)
    requires k < |s| && NamesUnique(s)
    requires Decide(s, s[k]).SingleConflict? || Decide(s, s[k]).DoubleConflict?
    ensures DialogOk(s, Prompt(Decide(s, s[k]), s[k].name))
  {
    var name := s[k].name;
    assert HasName(name)(s[k]);
    assert |Named(s, name)| <= 1;
    WhereSingleton(s, HasName(name), k);
    if Decide(s, s[k]).SingleConflict? {
      var i := SingleConflictIncumbent(s, s[k]);
      var other := s[i].name;
      assert HasName(other)(s[i]);
      assert |Named(s, other)| <= 1;
      WhereSingleton(s, HasName(other), i);
    } else {
      var ia, ib := DoubleConflictIncumbents(s, s[k]);
      var a, b := s[ia].name, s[ib].name;
      assert HasName(a)(s[ia]) && HasName(b)(s[ib]);
      assert |Named(s, a)| <= 1 && |Named(s, b)| <= 1;
      WhereSingleton(s, HasName(a), ia);
      WhereSingleton(s, HasName(b), ib);
    }
  }

  /** Replacing the incumbent called `other` by the record called `selected`
      keeps names unique and the winner rules, when the incumbent is a winner,
      the selected record is not, and either they share a type or the
      selected record's type has no winner. */
  lemma ReplaceKeepsState(s: seq<Animal>, other: string, selected: string)
    requires NamesUnique(s) && WinnerRulesHold(s)
    requires |Named(s, other)| == 1 && |Named(s, selected)| == 1
    requires Named(s, other)[0].winner && !Named(s, selected)[0].winner
    requires Named(s, other)[0].kind == Named(s, selected)[0].kind
          || SameKindWinners(s, Named(s, selected)[0].kind) == []
    ensures Find(s, other).Some? && Find(s, selected).Some?
    ensures StateOk(ReplaceNamed(s, other, selected), Idle)
  {
    FindNamed(s, other);
    FindNamed(s, selected);
    var i, t := Find(s, other).value, Find(s, selected).value;
    ReplaceKeepsRules(s, i, t);
    WinnerFlipKeepsNames(s, i, false);
    WinnerFlipKeepsNames(WithWinner(s, i, false), t, true);
  }

  class AnimalBase {
    /** `allAnimals`. */
    const animals: array<Animal>
    /** The `settings` object. */
    var settings: Settings
    /** The winner dialog that is open, if any. */
    var dialog: Dialog

    ghost predicate Valid()
      reads this, animals
    {
      StateOk(animals[..], dialog)
    }

    /** `start` and `prepareObjects`: the records of the data file, no
        winners, no dialog, and the first `buildList`. `st` is the settings
        that rebuild uses: the defaults, unless a filter or sort button was
        clicked while the file was loading. */
    constructor (json: seq<JsonAnimal>, st: Settings)
      requires PrepareObjects(json).Some?
      requires NamesUnique(PrepareObjects(json).value)
      ensures Valid() && fresh(animals)
      ensures settings == st && dialog == Idle
      ensures multiset(animals[..]) == multiset(PrepareObjects(json).value)
      ensures st.filter == "all" ==> Sorted(animals[..], st)
      ensures st.filter != "all" ==> animals[..] == PrepareObjects(json).value
    {
      var records := PrepareObjects(json).value;
      animals := new Animal[|records|](i requires 0 <= i < |records| => records[i]);
      settings := st;
      dialog := Idle;
      new;
      assert animals[..] == records;
      WhereEmpty(records, IsWinner);
      forall kind ensures SameKindWinners(records, kind) == [] { }
      var view := BuildList();
    }

    /** `buildList`: filter, sort, and hand the result to the display. */
    method BuildList() returns (view: seq<Animal>)
      requires Valid()
      modifies animals
      ensures Valid()
      ensures IsProjection(view, old(animals[..]), animals[..], settings)
    {
      if settings.filter == "all" {
        PrepareSortedList(animals, settings);
        PermutationKeepsState(old(animals[..]), animals[..], dialog);
        view := animals[..];
      } else {
        var list := Filtered(animals[..], settings.filter);
        var a := new Animal[|list|](i requires 0 <= i < |list| => list[i]);
        assert a[..] == list;
        PrepareSortedList(a, settings);
        view := a[..];
      }
    }

    /** `setFilter`. */
    method SetFilter(filter: string) returns (view: seq<Animal>)
      requires Valid()
      modifies this, animals
      ensures Valid()
      ensures settings == old(settings).(filter := filter) && dialog == old(dialog)
      ensures IsProjection(view, old(animals[..]), animals[..], settings)
    {
      settings := settings.(filter := filter);
      view := BuildList();
    }

    /** `setSort`. */
    method SetSort(sortBy: SortKey, sortDir: string) returns (view: seq<Animal>)
      requires Valid()
      modifies this, animals
      ensures Valid()
      ensures settings == old(settings).(sortBy := sortBy, sortDir := sortDir) && dialog == old(dialog)
      ensures IsProjection(view, old(animals[..]), animals[..], settings)
    {
      settings := settings.(sortBy := sortBy, sortDir := sortDir);
      view := BuildList();
    }

    /** `setStar`: flips the star of the first record with that name and
        rebuilds the list; a name not in the collection changes nothing. */
    method SetStar(name: string) returns (found: bool, view: seq<Animal>)
      requires Valid()
      modifies animals
      ensures Valid()
      ensures found == Find(old(animals[..]), name).Some?
      ensures !found ==> animals[..] == old(animals[..]) && view == []
      ensures found ==> IsProjection(view, StarFlipped(old(animals[..]), name), animals[..], settings)
    {
      var k := Find(animals[..], name);
      if k.None? {
        found, view := false, [];
        return;
      }
      found := true;
      var i := k.value;
      var flipped := animals[i].(star := !animals[i].star);
      SameFieldsKeepState(animals[..], i, flipped, dialog);
      animals[i] := flipped;
      view := BuildList();
    }

    /** `setWinner` and `tryToMakeAWinner`. While a dialog is open the click
        is refused; a name not in the collection changes nothing. Otherwise a
        winner is unset, a record without conflict is promoted, and a conflict
        opens its dialog without changing a record; the list is rebuilt. */
    method SetWinner(name: string) returns (r: Response, view: seq<Animal>)
      requires Valid()
      modifies this, animals
      ensures Valid() && settings == old(settings)
      ensures old(dialog) != Idle ==>
        r == Busy && dialog == old(dialog) && animals[..] == old(animals[..]) && view == []
      ensures old(dialog) == Idle && Find(old(animals[..]), name).None? ==>
        r == NotFound && dialog == Idle && animals[..] == old(animals[..]) && view == []
      ensures old(dialog) == Idle && Find(old(animals[..]), name).Some? ==>
        var s := old(animals[..]);
        var k := Find(s, name).value;
        && r == Decided(Decide(s, s[k]))
        && dialog == Prompt(Decide(s, s[k]), name)
        && IsProjection(view, AfterRequest(s, k), animals[..], settings)
    {
      if dialog != Idle {
        r, view := Busy, [];
        return;
      }
      var s := animals[..];
      var found := Find(s, name);
      if found.None? {
        r, view := NotFound, [];
        return;
      }
      var k := found.value;
      var outcome := Decide(s, s[k]);
      r := Decided(outcome);
      match outcome {
        case Unset =>
          animals[k] := animals[k].(winner := !animals[k].winner);
        case Promote =>
          MakeWinner(k);
        case SingleConflict(other) =>
          dialog := AwaitingSingle(other, name);
        case DoubleConflict(a, b) =>
          dialog := AwaitingTwo(a, b, name);
      }
      assert animals[..] == AfterRequest(s, k);
      RequestKeepsRules(s, k);
      if outcome.Unset? || outcome.Promote? {
        WinnerFlipKeepsNames(s, k, outcome.Promote?);
      } else {
        ConflictOpensDialog(s, k);
      }
      view := BuildList();
    }

    /** `closeDialog` of either dialog: ignore the choice; no record changes. */
    method CloseDialog()
      requires Valid()
      modifies this
      ensures Valid() && dialog == Idle && settings == old(settings)
      ensures animals[..] == old(animals[..])
    {
      dialog := Idle;
    }

    /** `clickRemoveOther`: the incumbent of the one-winner dialog stops being
        a winner, the selected record becomes one, the list is rebuilt and the
        dialog closes. Without that dialog open the button does nothing. */
    method ClickRemoveOther() returns (done: bool, view: seq<Animal>)
      requires Valid()
      modifies this, animals
      ensures Valid() && settings == old(settings)
      ensures done == old(dialog).AwaitingSingle?
      ensures !done ==> dialog == old(dialog) && animals[..] == old(animals[..]) && view == []
      ensures done ==> dialog == Idle
      ensures done ==>
        IsProjection(view, ReplaceNamed(old(animals[..]), old(dialog).other, old(dialog).selected), animals[..], settings)
    {
      if !dialog.AwaitingSingle? {
        done, view := false, [];
        return;
      }
      done := true;
      view := Replace(dialog.other, dialog.selected);
    }

    /** `clickRemoveA`: as `ClickRemoveOther`, replacing the first incumbent
        of the two-winner dialog. */
    method ClickRemoveA() returns (done: bool, view: seq<Animal>)
      requires Valid()
      modifies this, animals
      ensures Valid() && settings == old(settings)
      ensures done == old(dialog).AwaitingTwo?
      ensures !done ==> dialog == old(dialog) && animals[..] == old(animals[..]) && view == []
      ensures done ==> dialog == Idle
      ensures done ==>
        IsProjection(view, ReplaceNamed(old(animals[..]), old(dialog).winnerA, old(dialog).selected), animals[..], settings)
    {
      if !dialog.AwaitingTwo? {
        done, view := false, [];
        return;
      }
      done := true;
      view := Replace(dialog.winnerA, dialog.selected);
    }

    /** `clickRemoveB`: as `ClickRemoveA`, replacing the second incumbent. */
    method ClickRemoveB() returns (done: bool, view: seq<Animal>)
      requires Valid()
      modifies this, animals
      ensures Valid() && settings == old(settings)
      ensures done == old(dialog).AwaitingTwo?
      ensures !done ==> dialog == old(dialog) && animals[..] == old(animals[..]) && view == []
      ensures done ==> dialog == Idle
      ensures done ==>
        IsProjection(view, ReplaceNamed(old(animals[..]), old(dialog).winnerB, old(dialog).selected), animals[..], settings)
    {
      if !dialog.AwaitingTwo? {
        done, view := false, [];
        return;
      }
      done := true;
      view := Replace(dialog.winnerB, dialog.selected);
    }

    /** The body the three replace buttons share: `removeWinner(incumbent)`,
        `makeWinner(selected)`, `buildList()`, `closeDialog()`. The dialog is
        closed before the list is rebuilt, which the list does not read. */
    method Replace(other: string, selected: string) returns (view: seq<Animal>)
      requires Valid()
      requires dialog.AwaitingSingle? || dialog.AwaitingTwo?
      requires dialog.AwaitingSingle? ==> other == dialog.other
      requires dialog.AwaitingTwo? ==> other == dialog.winnerA || other == dialog.winnerB
      requires selected == dialog.selected
      modifies this, animals
      ensures Valid() && settings == old(settings) && dialog == Idle
      ensures IsProjection(view, ReplaceNamed(old(animals[..]), other, selected), animals[..], settings)
    {
      var s := animals[..];
      ReplaceKeepsState(s, other, selected);
      var i, t := Find(s, other).value, Find(s, selected).value;
      RemoveWinner(i);
      MakeWinner(t);
      assert animals[..] == ReplaceNamed(s, other, selected);
      dialog := Idle;
      view := BuildList();
    }

    /** `removeWinner`. */
    method RemoveWinner(k: nat)
      requires k < animals.Length
      modifies animals
      ensures animals[..] == WithWinner(old(animals[..]), k, false)
    {
      animals[k] := animals[k].(winner := false);
    }

    /** `makeWinner`. */
    method MakeWinner(k: nat)
      requires k < animals.Length
      modifies animals
      ensures animals[..] == WithWinner(old(animals[..]), k, true)
    {
      animals[k] := animals[k].(winner := true);
    }
  }
}
