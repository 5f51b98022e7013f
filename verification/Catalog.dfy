/** The backup set: every database the server lists, minus the excluded names. */
module Catalog {

  /**
   * `array_diff($databases, $databases_excluded)`: the catalog entries whose
   * name is not excluded, in catalog order (array_diff keeps the keys, so the
   * dump loop visits them in the order SHOW DATABASES listed them).
   */
  function BackupSet(all: seq<string>, excluded: seq<string>): (r: seq<string>)
    ensures |r| <= |all|
  {
    if all == [] then []
    else
      var rest := BackupSet(all[1..], excluded);
      if all[0] in excluded then rest else [all[0]] + rest
  }

  /** The backup set holds exactly the catalog names that are not excluded. */
  lemma {:induction false} BackupSetMembers(all: seq<string>, excluded: seq<string>)
    ensures forall x :: x in BackupSet(all, excluded) <==> x in all && x !in excluded
  {
    if all != [] {
      BackupSetMembers(all[1..], excluded);
      assert all == [all[0]] + all[1..];
    }
  }

  /** A name that is not excluded is dumped as many times as the catalog lists it. */
  lemma {:induction false} BackupSetKeepsMultiplicity(all: seq<string>, excluded: seq<string>, x: string)
    requires x !in excluded
    ensures multiset(BackupSet(all, excluded))[x] == multiset(all)[x]
  {
    if all != [] {
      BackupSetKeepsMultiplicity(all[1..], excluded, x);
      assert all == [all[0]] + all[1..];
    }
  }

  /** The backup set of a catalog with a first entry: that entry unless it is excluded, then the rest. */
  lemma BackupSetCons(x: string, rest: seq<string>, excluded: seq<string>)
    ensures BackupSet([x] + rest, excluded) == (if x in excluded then [] else [x]) + BackupSet(rest, excluded)
  {
    assert ([x] + rest)[1..] == rest;
  }

  /** The backup set of a concatenation is the concatenation of the backup sets: the catalog order is kept. */
  lemma {:induction false} BackupSetKeepsOrder(a: seq<string>, b: seq<string>, excluded: seq<string>)
    ensures BackupSet(a + b, excluded) == BackupSet(a, excluded) + BackupSet(b, excluded)
  {
    if a == [] {
      assert a + b == b;
    } else {
      BackupSetKeepsOrder(a[1..], b, excluded);
      assert a + b == [a[0]] + (a[1..] + b);
      assert a == [a[0]] + a[1..];
      BackupSetCons(a[0], a[1..] + b, excluded);
      BackupSetCons(a[0], a[1..], excluded);
    }
  }

  /** Only the set of excluded names matters: their order and repetitions (DISTINCT) do not. */
  lemma {:induction false} BackupSetDependsOnExcludedSet(all: seq<string>, e1: seq<string>, e2: seq<string>)
    requires forall x :: x in e1 <==> x in e2
    ensures BackupSet(all, e1) == BackupSet(all, e2)
  {
    if all != [] {
      BackupSetDependsOnExcludedSet(all[1..], e1, e2);
    }
  }

  /** With nothing excluded the whole catalog is backed up. */
  lemma {:induction false} BackupSetNoExclusions(all: seq<string>)
    ensures BackupSet(all, []) == all
  {
    if all != [] {
      BackupSetNoExclusions(all[1..]);
      assert all == [all[0]] + all[1..];
    }
  }

  /**
   * The databases line 97 visits as the script is written, under PHP 7.
   * `$databases_excluded` is only created inside the fetch loop at lines 83-85.
   * So when `backup_exclude` has no rows, `array_diff` at line 91 receives an
   * undefined variable, warns and returns null, and the foreach over null
   * dumps nothing. It never dumps an excluded database.
   */
  function BackupSetAsWritten(all: seq<string>, excluded: seq<string>): (r: seq<string>)
    ensures forall x :: x in r ==> x in all && x !in excluded
  {
    if excluded == [] then []
    else
      BackupSetMembers(all, excluded);
      BackupSet(all, excluded)
  }

  /**
   * The discrepancy: with nothing excluded the script as written backs up no
   * database, while the intended backup set is the whole catalog.
   */
  lemma {:induction false} NoExclusionsBacksUpNothingAsWritten(all: seq<string>)
    requires all != []
    ensures BackupSetAsWritten(all, []) == [] != BackupSet(all, []) == all
  {
    BackupSetNoExclusions(all);
  }

  /** Catalog A, B, C, D with B and D excluded backs up A then C. */
  lemma BackupSetExample()
    ensures BackupSet(["A", "B", "C", "D"], ["B", "D"]) == ["A", "C"]
    ensures BackupSet(["A", "B", "C", "D"], ["D", "B", "D"]) == ["A", "C"]
  {
    var all, ex := ["A", "B", "C", "D"], ["B", "D"];
    assert BackupSet(all[4..], ex) == [];
    assert BackupSet(all[3..], ex) == [] by { assert all[3..][1..] == all[4..]; }
    assert BackupSet(all[2..], ex) == ["C"] by { assert all[2..][1..] == all[3..]; }
    assert BackupSet(all[1..], ex) == ["C"] by { assert all[1..][1..] == all[2..]; }
    assert BackupSet(all, ex) == ["A", "C"];
    BackupSetDependsOnExcludedSet(all, ["B", "D"], ["D", "B", "D"]);
  }
}
