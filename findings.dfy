/**
 * Two places where `parseStructure` as written differs from what it is
 * evidently meant to do. Each is modelled here as written, with the input
 * that shows the difference; the walk in the Walker module is the
 * corrected behaviour.
 */
module Findings {
  import opened Wrappers
  import opened PhpStrings
  import opened Json
  import opened Generator
  import opened Walker

  // ------------------------------------------------------------------
  // The group key: `substr($object, 0, strlen($object) - strpos($object, '-group'))`

  /**
   * The group branch's key update as written: it keeps `strlen - strpos`
   * characters (PHP's `false` from `strpos` counts as 0 there).
   */
  function AsWrittenGroupStrip(key: string): (r: string)
    ensures Strpos(key, ObjectGroupKeyword).None? ==> r == key
    ensures Strpos(key, ObjectGroupKeyword).Some? ==>
      r == key[..|key| - Strpos(key, ObjectGroupKeyword).value]
  {
    var p := match Strpos(key, ObjectGroupKeyword) case Some(p) => p case None => 0;
    Substr(key, 0, |key| - p)
  }

  /**
   * The key `$object` holds in each of the first `n` iterations over a
   * group's elements: the update runs again on the already cut key.
   */
  function AsWrittenGroupKeys(key: string, n: nat): (r: seq<string>)
    decreases n
    ensures |r| == n
    ensures n > 0 ==> r[0] == AsWrittenGroupStrip(key)
  {
    if n == 0 then [] else [AsWrittenGroupStrip(key)] + AsWrittenGroupKeys(AsWrittenGroupStrip(key), n - 1)
  }

  /** For `<kind>-group` the update always keeps exactly six characters. */
  lemma AsWrittenKeepsSix(b: string)
    requires |b| > 0 && Strpos(b, ObjectGroupKeyword).None?
    ensures AsWrittenGroupStrip(b + ObjectGroupKeyword) == (b + ObjectGroupKeyword)[..6]
  {
    StrposOfSuffixed(b);
  }

  /** The update finds the kind of a group exactly when the kind has six characters. */
  lemma AsWrittenRightIffSix(b: string)
    requires |b| > 0 && Strpos(b, ObjectGroupKeyword).None?
    ensures IsGroupKey(b + ObjectGroupKeyword) &&
      (AsWrittenGroupStrip(b + ObjectGroupKeyword) == GroupBase(b + ObjectGroupKeyword) <==> |b| == 6)
  {
    AsWrittenKeepsSix(b);
    GroupBaseOfSuffixed(b);
    if |b| == 6 {
      assert (b + ObjectGroupKeyword)[..6] == b;
    }
  }

  /** A key without "-group" is left as it is by the update. */
  lemma {:induction false} AsWrittenKeysStable(s: string, n: nat)
    requires Strpos(s, ObjectGroupKeyword).None?
    ensures forall i :: 0 <= i < n ==> AsWrittenGroupKeys(s, n)[i] == s
  {
    if n > 0 {
      AsWrittenKeysStable(s, n - 1);
      assert AsWrittenGroupKeys(s, n) == [s] + AsWrittenGroupKeys(s, n - 1);
    }
  }

  lemma ViewHyphenNotGrouped()
    ensures Strpos(":view-", ObjectGroupKeyword).None?
  {
    forall j: nat
      ensures !OccursAt(":view-", ObjectGroupKeyword, j)
    {
      if j == 0 {
        assert ":view-"[0] != ObjectGroupKeyword[0];
      }
    }
  }

  lemma ViewGroupStrip()
    ensures AsWrittenGroupStrip(":view-group") == ":view-"
    ensures IsGroupKey(":view-group") && GroupBase(":view-group") == ":view"
  {
    NoHyphenNoGroup(":view");
    assert ":view" + ObjectGroupKeyword == ":view-group";
    AsWrittenKeepsSix(":view");
    assert (":view" + ObjectGroupKeyword)[..6] == ":view-";
    GroupBaseOfSuffixed(":view");
  }

  /**
   * `:view-group`: every element is declared under `:view-`, which is not a
   * recognised kind, while the intended kind is `:view`.
   */
  lemma ViewGroupLosesKind(n: nat)
    ensures forall i :: 0 <= i < n ==> AsWrittenGroupKeys(":view-group", n)[i] == ":view-"
    ensures ":view-" !in TopLevelObjects
    ensures IsGroupKey(":view-group") && GroupBase(":view-group") == ":view" && ":view" in TopLevelObjects
  {
    ViewGroupStrip();
    ViewHyphenNotGrouped();
    if n > 0 {
      AsWrittenKeysStable(":view-", n - 1);
      assert AsWrittenGroupKeys(":view-group", n) == [":view-"] + AsWrittenGroupKeys(":view-", n - 1);
    }
  }

  /** As written, no element of a `:view-group` renders a statement; with the intended kind each renders its view. */
  lemma ViewGroupElementSilent(ctx: Ctx, v: Value)
    ensures OwnStatement(ctx, ":view-", v) == Success([])
    ensures OwnStatement(ctx, ":view", v).Success? == StructureSql(ctx, Single(":view", v)).Success?
  {
    ViewGroupLosesKind(0);
  }

  // ------------------------------------------------------------------
  // The nested-object loop of the object branch

  /** `isAnotherObjectPresent($parent[$kind])`. */
  function NextKind(parent: Value, kind: string): (r: Option<string>)
    ensures Lookup(parent, kind).None? ==> r.None?
    ensures Lookup(parent, kind).Some? ==> r == GetProvidedTopLevelObject(Lookup(parent, kind).value)
  {
    match Lookup(parent, kind)
    case None => None
    case Some(child) => GetProvidedTopLevelObject(child)
  }

  /** `isAnotherObjectPresent($parent[$kind])` as a function of the kind alone. */
  function NextIn(parent: Value): string -> Option<string> {
    k => NextKind(parent, k)
  }

  /**
   * The kinds a `while ($kind) { ...; $kind = next($kind); }` loop runs its
   * body for, at most `fuel` of them.
   */
  function LoopKinds(next: string -> Option<string>, t: Option<string>, fuel: nat): (r: seq<string>)
    decreases fuel
    ensures |r| <= fuel
    ensures t.None? ==> r == []
    ensures fuel > 0 && t.Some? ==> |r| > 0 && r[0] == t.value
  {
    if fuel == 0 || t.None? then []
    else [t.value] + LoopKinds(next, next(t.value), fuel - 1)
  }

  /**
   * The kinds the `while` loop below an object runs its body for: each
   * round looks the next kind up in the parent declaration again, not in
   * the child it just walked.
   */
  function AsWrittenLoopKinds(parent: Value, t: Option<string>, fuel: nat): seq<string> {
    LoopKinds(NextIn(parent), t, fuel)
  }

  /**
   * The statements the `while` loop below the entry `key: decl` appends as
   * written: every round appends `USE <name>` when the key is a database,
   * then what the recursive `parseStructure` call on that round's one-entry
   * document appends, given here as `round(kind)`.
   */
  function AsWrittenLoopStatements(key: string, decl: Value, kinds: seq<string>, round: string -> seq<string>): seq<string>
    decreases |kinds|
  {
    if kinds == [] then []
    else
      (if Lower(key) == DatabaseKind then [UseStatement(decl)] else []) + round(kinds[0]) +
      AsWrittenLoopStatements(key, decl, kinds[1..], round)
  }

  /** Below a database, as written, every round appends its own `USE <name>`. */
  lemma {:induction false} UsePerRound(key: string, decl: Value, kinds: seq<string>, round: string -> seq<string>)
    requires Lower(key) == DatabaseKind
    ensures multiset(AsWrittenLoopStatements(key, decl, kinds, round))[UseStatement(decl)] >= |kinds|
    decreases |kinds|
  {
    if kinds != [] {
      UsePerRound(key, decl, kinds[1..], round);
      var use := [UseStatement(decl)];
      var rest := AsWrittenLoopStatements(key, decl, kinds[1..], round);
      assert AsWrittenLoopStatements(key, decl, kinds, round) == use + round(kinds[0]) + rest;
      assert multiset(use + round(kinds[0]) + rest) == multiset(use) + multiset(round(kinds[0])) + multiset(rest);
    }
  }

  /** The `:crud-action` entry every declaration below carries, so that its own statement has a template. */
  const Create := Field(CrudActionKeyword, Str("create"))

  /** A database `shop` with a table `orders` that has an index. */
  const OrdersIndex := Obj([Create])
  const OrdersTable := Obj([Field("name", Str("orders")), Create, Field(":index", OrdersIndex)])
  const Shop := Obj([Field("name", Str("shop")), Create, Field(":table", OrdersTable)])

  /** Looking a key up in a three-entry object. */
  lemma LookupTriple(a: Field, b: Field, c: Field, k: string)
    ensures Lookup(Obj([a, b, c]), k) ==
      if k == a.key then Some(a.value) else if k == b.key then Some(b.value) else if k == c.key then Some(c.value) else None
  {
    var es := Entries(Obj([a, b, c]));
    assert es[0] == a && es[1] == b && es[2] == c;
  }

  lemma ShopKinds()
    ensures GetProvidedTopLevelObject(Shop) == Some(":table")
    ensures Lookup(Shop, ":table") == Some(OrdersTable)
    ensures GetProvidedTopLevelObject(OrdersTable) == Some(":index")
    ensures Lookup(Shop, ":index").None?
  {
    var name, table := Field("name", Str("shop")), Field(":table", OrdersTable);
    LookupTriple(name, Create, table, ":table");
    LookupTriple(name, Create, table, ":index");
    ShopProvidesTable();
    OrdersProvidesIndex();
  }

  lemma ShopProvidesTable()
    ensures GetProvidedTopLevelObject(Shop) == Some(":table")
  {
    var name, table := Field("name", Str("shop")), Field(":table", OrdersTable);
    LookupTriple(name, Create, table, TopLevelObjects[0]);
    LookupTriple(name, Create, table, TopLevelObjects[1]);
    assert FirstKindFrom(Shop, TopLevelObjects, 1) == Some(1);
    assert FirstKindFrom(Shop, TopLevelObjects, 0) == Some(1);
  }

  lemma OrdersProvidesIndex()
    ensures GetProvidedTopLevelObject(OrdersTable) == Some(":index")
  {
    var name, index := Field("name", Str("orders")), Field(":index", OrdersIndex);
    LookupTriple(name, Create, index, TopLevelObjects[0]);
    LookupTriple(name, Create, index, TopLevelObjects[1]);
    LookupTriple(name, Create, index, TopLevelObjects[2]);
    LookupTriple(name, Create, index, TopLevelObjects[3]);
    LookupTriple(name, Create, index, TopLevelObjects[4]);
    assert FirstKindFrom(OrdersTable, TopLevelObjects, 4) == Some(4);
    assert FirstKindFrom(OrdersTable, TopLevelObjects, 3) == Some(4);
    assert FirstKindFrom(OrdersTable, TopLevelObjects, 2) == Some(4);
    assert FirstKindFrom(OrdersTable, TopLevelObjects, 1) == Some(4);
    assert FirstKindFrom(OrdersTable, TopLevelObjects, 0) == Some(4);
  }

  /**
   * As written the loop below `shop` runs twice, for `:table` and then for
   * `:index` (looked up in `shop`, where it is absent, so the second round's
   * document declares nothing), and each round appends `USE shop`.
   */
  lemma ShopLoopRunsTwice(fuel: nat, round: string -> seq<string>)
    requires fuel >= 2
    ensures AsWrittenLoopKinds(Shop, GetProvidedTopLevelObject(Shop), fuel) == [":table", ":index"]
    ensures AsWrittenLoopStatements(DatabaseKind, Shop, [":table", ":index"], round) ==
      ["USE shop"] + round(":table") + ["USE shop"] + round(":index")
    ensures multiset(AsWrittenLoopStatements(DatabaseKind, Shop, [":table", ":index"], round))["USE shop"] >= 2
    ensures Lookup(Shop, ":index").None?
  {
    ShopKinds();
    assert NextIn(Shop)(":table") == Some(":index");
    assert NextIn(Shop)(":index").None?;
    TwoRounds(NextIn(Shop), ":table", ":index", fuel);
    ShopStatements(round);
  }

  /** Two rounds below the database `shop` append `USE shop` before each. */
  lemma ShopStatements(round: string -> seq<string>)
    ensures AsWrittenLoopStatements(DatabaseKind, Shop, [":table", ":index"], round) ==
      ["USE shop"] + round(":table") + ["USE shop"] + round(":index")
  {
    DatabaseKey();
    DatabaseTwoRounds(DatabaseKind, Shop, ":table", ":index", round);
    ShopUse();
  }

  /** Two rounds below any database append its `USE` statement before each. */
  lemma DatabaseTwoRounds(key: string, decl: Value, first: string, second: string, round: string -> seq<string>)
    requires Lower(key) == DatabaseKind
    ensures AsWrittenLoopStatements(key, decl, [first, second], round) ==
      [UseStatement(decl)] + round(first) + [UseStatement(decl)] + round(second)
  {
    var use := [UseStatement(decl)];
    assert [first, second][1..] == [second];
    assert [second][1..] == [];
    assert AsWrittenLoopStatements(key, decl, [second], round) == use + round(second) + [];
  }

  /** A loop whose second kind has no next kind runs exactly twice. */
  lemma TwoRounds(next: string -> Option<string>, first: string, second: string, fuel: nat)
    requires fuel >= 2
    requires next(first) == Some(second) && next(second).None?
    ensures LoopKinds(next, Some(first), fuel) == [first, second]
  {
    assert LoopKinds(next, None, fuel - 2) == [];
    assert LoopKinds(next, Some(second), fuel - 1) == [second];
  }

  /** The corrected walk of `shop`: its statement, one `USE shop`, then the table. */
  lemma ShopUsesOnce(ctx: Ctx, own: seq<string>, sub: seq<string>)
    requires OwnStatement(ctx, DatabaseKind, Shop) == Success(own)
    requires WalkEntry(ctx, ":table", OrdersTable) == Success(sub)
    ensures WalkEntry(ctx, DatabaseKind, Shop) == Success(own + ["USE shop"] + sub)
  {
    ShopKinds();
    DatabaseKey();
    ShopUse();
    DatabaseUsesOnce(ctx, DatabaseKind, Shop, ":table", own, sub);
  }

  lemma DatabaseKey()
    ensures Lower(DatabaseKind) == DatabaseKind && !IsGroupKey(DatabaseKind)
  {
    DatabaseKindHyphenFree();
    NoHyphenNoGroup(DatabaseKind);
    forall i | 0 <= i < |DatabaseKind|
      ensures Lower(DatabaseKind)[i] == DatabaseKind[i]
    {
      assert !('A' <= DatabaseKind[i] <= 'Z');
    }
  }

  lemma ShopUse()
    ensures UseStatement(Shop) == "USE shop"
  {
    LookupTriple(Field("name", Str("shop")), Create, Field(":table", OrdersTable), "name");
  }

  /** A table nested in a table of the parent. */
  const InnerTable := Obj([Create, Field(":table", Obj([Create]))])
  const Cyclic := Obj([Create, Field(":table", InnerTable)])

  /** Looking a key up in a two-entry object. */
  lemma LookupPair(a: Field, b: Field, k: string)
    ensures Lookup(Obj([a, b]), k) == if k == a.key then Some(a.value) else if k == b.key then Some(b.value) else None
  {
    var es := Entries(Obj([a, b]));
    assert es[0] == a && es[1] == b;
  }

  lemma CyclicKinds()
    ensures GetProvidedTopLevelObject(Cyclic) == Some(":table")
    ensures NextKind(Cyclic, ":table") == Some(":table")
    ensures Lookup(Cyclic, ":table") == Some(InnerTable)
  {
    LookupPair(Create, Field(":table", InnerTable), ":database");
    LookupPair(Create, Field(":table", InnerTable), ":table");
    assert FirstKindFrom(Cyclic, TopLevelObjects, 1) == Some(1);
    assert FirstKindFrom(Cyclic, TopLevelObjects, 0) == Some(1);
    InnerTableProvidesTable();
  }

  lemma InnerTableProvidesTable()
    ensures GetProvidedTopLevelObject(InnerTable) == Some(":table")
  {
    LookupPair(Create, Field(":table", Obj([Create])), ":database");
    LookupPair(Create, Field(":table", Obj([Create])), ":table");
    assert FirstKindFrom(InnerTable, TopLevelObjects, 1) == Some(1);
    assert FirstKindFrom(InnerTable, TopLevelObjects, 0) == Some(1);
  }

  /**
   * A loop whose next kind is always the kind it just had never ends:
   * however much fuel is given, all of it is used.
   */
  lemma {:induction false} SelfNestedLoopNeverEnds(next: string -> Option<string>, kind: string, fuel: nat)
    requires next(kind) == Some(kind)
    ensures |LoopKinds(next, Some(kind), fuel)| == fuel
    ensures forall i :: 0 <= i < fuel ==> LoopKinds(next, Some(kind), fuel)[i] == kind
  {
    if fuel > 0 {
      var rest := LoopKinds(next, Some(kind), fuel - 1);
      SelfNestedLoopNeverEnds(next, kind, fuel - 1);
      assert LoopKinds(next, Some(kind), fuel) == [kind] + rest;
      var all := [kind] + rest;
      forall i | 0 <= i < fuel
        ensures all[i] == kind
      {
        if i > 0 {
          assert all[i] == rest[i - 1];
        }
      }
    }
  }

  /** `Cyclic` is such a parent: its loop visits `:table` for as long as fuel lasts. */
  lemma CyclicLoopNeverEnds(fuel: nat)
    ensures |AsWrittenLoopKinds(Cyclic, GetProvidedTopLevelObject(Cyclic), fuel)| == fuel
    ensures forall i :: 0 <= i < fuel ==> AsWrittenLoopKinds(Cyclic, GetProvidedTopLevelObject(Cyclic), fuel)[i] == ":table"
  {
    CyclicKinds();
    assert NextIn(Cyclic)(":table") == Some(":table");
    SelfNestedLoopNeverEnds(NextIn(Cyclic), ":table", fuel);
  }

  /** The corrected walk of `Cyclic` as a database: one `USE`, then one descent into a smaller value. */
  lemma CyclicWalkedOnce(ctx: Ctx, own: seq<string>)
    requires OwnStatement(ctx, DatabaseKind, Cyclic) == Success(own)
    ensures WalkObject(ctx, DatabaseKind, Cyclic, true) ==
      Then(Success(own + [UseStatement(Cyclic)]), WalkEntry(ctx, ":table", InnerTable))
    ensures Size(InnerTable) < Size(Cyclic)
  {
    CyclicKinds();
    WalkObjectNested(ctx, DatabaseKind, Cyclic, true, own, ":table");
  }
}
