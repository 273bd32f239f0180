/**
 * The document walk of `parseStructure` as functions: every entry of the
 * document in order, a group entry element by element under its base
 * kind, and for every object its own statement followed by the objects
 * nested in it (after `USE <name>` below a database). The group key is
 * cut at its first "-group" and nesting is followed one level per call;
 * the source's own arithmetic and loop are modelled in the Findings
 * module.
 */
module Walker {
  import opened Wrappers
  import opened PhpStrings
  import opened Json
  import opened Generator

  const ObjectGroupKeyword := "-group"
  const DatabaseKind := ":database"

  /** `strpos($key, '-group')` is neither `false` nor 0: the key takes the group branch. */
  predicate IsGroupKey(key: string) {
    var p := Strpos(key, ObjectGroupKeyword);
    p.Some? && p.value > 0
  }

  /** An occurrence inside a prefix is an occurrence in the whole string. */
  lemma OccursInPrefix(s: string, n: nat, needle: string, j: nat)
    requires n <= |s|
    ensures OccursAt(s[..n], needle, j) ==> OccursAt(s, needle, j)
  {
    if OccursAt(s[..n], needle, j) {
      assert s[..n][j..j + |needle|] == s[j..j + |needle|];
    }
  }

  /** The kind a group key stands for: the key cut before its first "-group". */
  function GroupBase(key: string): (b: string)
    requires IsGroupKey(key)
    ensures 0 < |b| && OccursAt(key, ObjectGroupKeyword, |b|)
    ensures b == key[..|b|]
    ensures Strpos(b, ObjectGroupKeyword).None?
  {
    var p := Strpos(key, ObjectGroupKeyword).value;
    forall j: nat
      ensures !OccursAt(key[..p], ObjectGroupKeyword, j)
    {
      OccursInPrefix(key, p, ObjectGroupKeyword, j);
    }
    key[..p]
  }

  /** "-group" cannot start before its own first occurrence at the end of a "-group"-free prefix. */
  lemma StrposOfSuffixed(b: string)
    requires Strpos(b, ObjectGroupKeyword).None?
    ensures Strpos(b + ObjectGroupKeyword, ObjectGroupKeyword) == Some(|b|)
  {
    var k := b + ObjectGroupKeyword;
    assert k[|b|..|b| + 6] == ObjectGroupKeyword;
    forall j: nat | j < |b|
      ensures !OccursAt(k, ObjectGroupKeyword, j)
    {
      if j + 6 <= |b| {
        assert k[j..j + 6] == b[j..j + 6];
        assert !OccursAt(b, ObjectGroupKeyword, j);
      } else {
        assert k[|b|] == '-';
        assert k[j..j + 6][|b| - j] == k[|b|];
        assert ObjectGroupKeyword[|b| - j] != '-';
      }
    }
    StrposFirst(k, ObjectGroupKeyword, |b|);
  }

  /** A kind followed by "-group" is a group key whose base is that kind. */
  lemma GroupBaseOfSuffixed(b: string)
    requires |b| > 0 && Strpos(b, ObjectGroupKeyword).None?
    ensures IsGroupKey(b + ObjectGroupKeyword)
    ensures GroupBase(b + ObjectGroupKeyword) == b
  {
    StrposOfSuffixed(b);
  }

  /** A base kind is never itself a group key. */
  lemma GroupBaseNotGroup(key: string)
    requires IsGroupKey(key)
    ensures !IsGroupKey(GroupBase(key))
  {
  }

  /** `"USE $dbname"` with `$dbname` the declaration's `name` (empty when absent). */
  function UseStatement(decl: Value): (s: string)
    ensures |s| >= 4 && s[..4] == "USE "
    ensures Lookup(decl, "name").None? ==> s == "USE "
    ensures forall n :: Lookup(decl, "name") == Some(Str(n)) ==> s == "USE " + n
  {
    "USE " + match Lookup(decl, "name") case None => "" case Some(n) => PhpString(n)
  }

  /** The statement of the object itself, when `[$key => $v]` is a valid top-level object. */
  function OwnStatement(ctx: Ctx, key: string, v: Value): (r: Result<seq<string>, Error>)
    ensures key !in TopLevelObjects ==> r == Success([])
    ensures key in TopLevelObjects ==> r.Success? == StructureSql(ctx, Single(key, v)).Success?
    ensures key in TopLevelObjects && r.Success? ==> r.value == [StructureSql(ctx, Single(key, v)).value]
  {
    SingleValid(key, v);
    if IsValidTopLevelObject(Single(key, v)) then
      var s :- StructureSql(ctx, Single(key, v));
      Success([s])
    else Success([])
  }

  /** One entry `$key => $v` of a document. */
  function WalkEntry(ctx: Ctx, key: string, v: Value): Result<seq<string>, Error>
    decreases Size(v), 2, 0
  {
    if IsGroupKey(key) then WalkGroup(ctx, GroupBase(key), v, 0)
    else WalkObject(ctx, key, v, Lower(key) == DatabaseKind)
  }

  /** An object's own statement, then `USE` when asked, then the first kind nested in it. */
  function WalkObject(ctx: Ctx, key: string, v: Value, emitUse: bool): Result<seq<string>, Error>
    decreases Size(v), 1, 0
  {
    var own :- OwnStatement(ctx, key, v);
    match GetProvidedTopLevelObject(v)
    case None => Success(own)
    case Some(t) => Then(Success(own + (if emitUse then [UseStatement(v)] else [])), WalkEntry(ctx, t, Lookup(v, t).value))
  }

  /** The elements of a group from the `k`-th on, each an object of the base kind, without `USE`. */
  function WalkGroup(ctx: Ctx, base: string, v: Value, k: nat): Result<seq<string>, Error>
    requires k <= |Elements(v)|
    decreases Size(v), 1, |Elements(v)| - k
  {
    if k == |Elements(v)| then Success([])
    else Then(WalkElement(ctx, base, v, k), WalkGroup(ctx, base, v, k + 1))
  }

  /** Element `k` of a group: an object of the base kind, without `USE`. */
  function WalkElement(ctx: Ctx, base: string, v: Value, k: nat): Result<seq<string>, Error>
    requires k < |Elements(v)|
    decreases Size(v), 0, 0
  {
    ElementSmaller(v, k);
    WalkObject(ctx, base, Elements(v)[k], false)
  }

  /** A key that is not a group key is walked as one object. */
  lemma WalkEntryObject(ctx: Ctx, key: string, v: Value)
    requires !IsGroupKey(key)
    ensures WalkEntry(ctx, key, v) == WalkObject(ctx, key, v, Lower(key) == DatabaseKind)
  {
  }

  /** A group key is walked element by element under its base kind. */
  lemma WalkEntryGroup(ctx: Ctx, key: string, v: Value)
    requires IsGroupKey(key)
    ensures WalkEntry(ctx, key, v) == WalkGroup(ctx, GroupBase(key), v, 0)
  {
  }

  /** Past the last element a group produces nothing. */
  lemma WalkGroupDone(ctx: Ctx, base: string, v: Value)
    ensures WalkGroup(ctx, base, v, |Elements(v)|) == Success([])
  {
  }

  /** The `k`-th element of a group is walked before the elements after it. */
  lemma WalkGroupStep(ctx: Ctx, base: string, v: Value, k: nat)
    requires k < |Elements(v)|
    ensures WalkGroup(ctx, base, v, k) == Then(WalkElement(ctx, base, v, k), WalkGroup(ctx, base, v, k + 1))
  {
  }

  lemma WalkElementObject(ctx: Ctx, base: string, v: Value, k: nat)
    requires k < |Elements(v)|
    ensures WalkElement(ctx, base, v, k) == WalkObject(ctx, base, Elements(v)[k], false)
  {
  }

  /** A failing own statement is the failure of the whole object. */
  lemma WalkObjectOwnFails(ctx: Ctx, key: string, v: Value, emitUse: bool)
    requires OwnStatement(ctx, key, v).Failure?
    ensures WalkObject(ctx, key, v, emitUse) == Failure(OwnStatement(ctx, key, v).error)
  {
  }

  /** An object with no kind nested in it gives its own statements only. */
  lemma WalkObjectLeaf(ctx: Ctx, key: string, v: Value, emitUse: bool, own: seq<string>)
    requires OwnStatement(ctx, key, v) == Success(own)
    requires GetProvidedTopLevelObject(v).None?
    ensures WalkObject(ctx, key, v, emitUse) == Success(own)
  {
  }

  /** An object with a kind nested in it: its statements, the optional `USE`, then the nested walk. */
  lemma WalkObjectNested(ctx: Ctx, key: string, v: Value, emitUse: bool, own: seq<string>, t: string)
    requires OwnStatement(ctx, key, v) == Success(own)
    requires GetProvidedTopLevelObject(v) == Some(t)
    ensures Lookup(v, t).Some?
    ensures WalkObject(ctx, key, v, emitUse) ==
      Then(Success(own + (if emitUse then [UseStatement(v)] else [])), WalkEntry(ctx, t, Lookup(v, t).value))
  {
  }

  /** The entries of a document, in document order. */
  function WalkFields(ctx: Ctx, fs: seq<Field>): Result<seq<string>, Error> {
    if fs == [] then Success([])
    else Then(WalkFields(ctx, fs[..|fs| - 1]), WalkEntry(ctx, fs[|fs| - 1].key, fs[|fs| - 1].value))
  }

  /** `parseStructure` on a document: the statements it appends to `generatedSql`. */
  function Walk(ctx: Ctx, doc: Value): Result<seq<string>, Error> {
    WalkFields(ctx, Entries(doc))
  }

  /** Two walks in sequence: the second runs only when the first succeeds. */
  function Then(a: Result<seq<string>, Error>, b: Result<seq<string>, Error>): Result<seq<string>, Error> {
    var x :- a;
    var y :- b;
    Success(x + y)
  }

  /** `Then` is associative: grouping of three walks in sequence does not matter. */
  lemma ThenAssoc(a: Result<seq<string>, Error>, b: Result<seq<string>, Error>, c: Result<seq<string>, Error>)
    ensures Then(Then(a, b), c) == Then(a, Then(b, c))
  {
    if a.Success? && b.Success? && c.Success? {
      assert a.value + b.value + c.value == a.value + (b.value + c.value);
    }
  }

  /** The last entry of a non-empty list is walked after the others. */
  lemma WalkFieldsLast(ctx: Ctx, fs: seq<Field>)
    requires fs != []
    ensures WalkFields(ctx, fs) == Then(WalkFields(ctx, fs[..|fs| - 1]), WalkEntry(ctx, fs[|fs| - 1].key, fs[|fs| - 1].value))
  {
  }

  lemma ThenEmpty(x: Result<seq<string>, Error>)
    ensures Then(x, Success([])) == x
  {
    match x
    case Success(y) => assert y + [] == y;
    case Failure(_) =>
  }

  /** Walking is compositional: the entries of `fs + gs` give the statements of `fs`, then those of `gs`. */
  lemma {:induction false} WalkFieldsAppend(ctx: Ctx, fs: seq<Field>, gs: seq<Field>)
    ensures WalkFields(ctx, fs + gs) == Then(WalkFields(ctx, fs), WalkFields(ctx, gs))
    decreases |gs|
  {
    if gs == [] {
      assert fs + gs == fs;
      ThenEmpty(WalkFields(ctx, fs));
    } else {
      var gs' := gs[..|gs| - 1];
      var g := gs[|gs| - 1];
      assert (fs + gs)[..|fs + gs| - 1] == fs + gs';
      assert (fs + gs)[|fs + gs| - 1] == g;
      WalkFieldsAppend(ctx, fs, gs');
      WalkFieldsLast(ctx, fs + gs);
      WalkFieldsLast(ctx, gs);
      ThenAssoc(WalkFields(ctx, fs), WalkFields(ctx, gs'), WalkEntry(ctx, g.key, g.value));
    }
  }

  /** A failure in the entries walked so far is the failure of the whole document. */
  lemma {:induction false} WalkFieldsFailurePersists(ctx: Ctx, fs: seq<Field>, k: nat)
    requires k <= |fs| && WalkFields(ctx, fs[..k]).Failure?
    ensures WalkFields(ctx, fs) == WalkFields(ctx, fs[..k])
    decreases |fs| - k
  {
    if k < |fs| {
      assert fs[..k + 1][..k] == fs[..k];
      assert WalkFields(ctx, fs[..k + 1]) == WalkFields(ctx, fs[..k]);
      WalkFieldsFailurePersists(ctx, fs, k + 1);
    } else {
      assert fs[..k] == fs;
    }
  }

  /** A walk that fails fails whatever was produced before it. */
  lemma ThenFailure(a: seq<string>, x: Result<seq<string>, Error>)
    requires x.Failure?
    ensures Then(Success(a), x) == x
  {
  }

  lemma ThenSuccess(a: seq<string>, b: seq<string>)
    ensures Then(Success(a), Success(b)) == Success(a + b)
  {
  }

  lemma ThenNothing(x: Result<seq<string>, Error>)
    ensures Then(Success([]), x) == x
  {
    match x
    case Success(y) => assert [] + y == y;
    case Failure(_) =>
  }

  /** One more entry of a document: its statements follow those of the entries before it. */
  lemma WalkFieldsStep(ctx: Ctx, fs: seq<Field>, i: nat)
    requires i < |fs|
    ensures WalkFields(ctx, fs[..i + 1]) == Then(WalkFields(ctx, fs[..i]), WalkEntry(ctx, fs[i].key, fs[i].value))
  {
    assert fs[..i + 1][..i] == fs[..i];
    assert fs[..i + 1][i] == fs[i];
  }

  /** Statements already produced can be moved in front of a walk still to run. */
  lemma ThenShift(a: seq<string>, b: seq<string>, x: Result<seq<string>, Error>)
    ensures Then(Success(a), Then(Success(b), x)) == Then(Success(a + b), x)
  {
    match x
    case Success(y) => assert a + (b + y) == a + b + y;
    case Failure(_) =>
  }

  /** A one-entry document is walked as its entry. */
  lemma WalkSingle(ctx: Ctx, key: string, v: Value)
    ensures Walk(ctx, Single(key, v)) == WalkEntry(ctx, key, v)
  {
    var fs := Entries(Single(key, v));
    assert fs[..0] == [];
    assert WalkFields(ctx, fs) == Then(Success([]), WalkEntry(ctx, key, v));
    match WalkEntry(ctx, key, v)
    case Success(x) => assert [] + x == x;
    case Failure(_) =>
  }

  /** The document `[$base => $e_0, ..., $base => $e_n-1]` spelled out entry by entry. */
  function Spread(base: string, es: seq<Value>): (fs: seq<Field>)
    ensures |fs| == |es|
    ensures forall i :: 0 <= i < |es| ==> fs[i] == Field(base, es[i])
  {
    seq(|es|, i requires 0 <= i < |es| => Field(base, es[i]))
  }

  lemma SpreadCons(base: string, es: seq<Value>, k: nat)
    requires k < |es|
    ensures Spread(base, es[k..]) == [Field(base, es[k])] + Spread(base, es[k + 1..])
  {
    var a, b := Spread(base, es[k..]), [Field(base, es[k])] + Spread(base, es[k + 1..]);
    assert |a| == |b|;
    forall i | 0 <= i < |a|
      ensures a[i] == b[i]
    {
      if i > 0 {
        assert es[k..][i] == es[k + 1..][i - 1];
      }
    }
  }

  lemma WalkFieldsOne(ctx: Ctx, f: Field)
    ensures WalkFields(ctx, [f]) == WalkEntry(ctx, f.key, f.value)
  {
    assert [f][..0] == [];
    ThenNothing(WalkEntry(ctx, f.key, f.value));
  }

  lemma {:induction false} GroupSpread(ctx: Ctx, base: string, es: seq<Value>, k: nat)
    requires k <= |es| && !IsGroupKey(base) && Lower(base) != DatabaseKind
    ensures WalkGroup(ctx, base, List(es), k) == WalkFields(ctx, Spread(base, es[k..]))
    decreases |es| - k
  {
    if k < |es| {
      GroupSpread(ctx, base, es, k + 1);
      var f := Field(base, es[k]);
      var rest := Spread(base, es[k + 1..]);
      SpreadCons(base, es, k);
      WalkFieldsAppend(ctx, [f], rest);
      WalkFieldsOne(ctx, f);
      WalkEntryObject(ctx, base, es[k]);
      assert Elements(List(es))[k] == es[k];
      WalkElementObject(ctx, base, List(es), k);
      WalkGroupStep(ctx, base, List(es), k);
    } else {
      assert Spread(base, es[k..]) == [];
      WalkGroupDone(ctx, base, List(es));
    }
  }

  /**
   * A group of a kind that is not the database behaves exactly like one
   * entry of the base kind per element, in list order.
   */
  lemma GroupAsSeparateEntries(ctx: Ctx, key: string, es: seq<Value>)
    requires IsGroupKey(key) && Lower(GroupBase(key)) != DatabaseKind
    ensures WalkEntry(ctx, key, List(es)) == WalkFields(ctx, Spread(GroupBase(key), es))
  {
    GroupBaseNotGroup(key);
    GroupSpread(ctx, GroupBase(key), es, 0);
    assert es[0..] == es;
  }

  /** A key without a hyphen never contains "-group". */
  lemma NoHyphenNoGroup(s: string)
    requires '-' !in s
    ensures Strpos(s, ObjectGroupKeyword).None?
  {
    forall j: nat
      ensures !OccursAt(s, ObjectGroupKeyword, j)
    {
      if j + 6 <= |s| {
        assert s[j] in s;
        assert s[j..j + 6][0] == s[j];
      }
    }
  }

  /**
   * Below a database (a key that lower-cases to ":database") the first nested
   * object follows the key's own statements and a single `USE <name>`.
   */
  lemma DatabaseUsesOnce(ctx: Ctx, key: string, decl: Value, t: string, own: seq<string>, sub: seq<string>)
    requires Lower(key) == DatabaseKind && !IsGroupKey(key)
    requires GetProvidedTopLevelObject(decl) == Some(t)
    requires OwnStatement(ctx, key, decl) == Success(own)
    requires WalkEntry(ctx, t, Lookup(decl, t).value) == Success(sub)
    ensures WalkEntry(ctx, key, decl) == Success(own + [UseStatement(decl)] + sub)
  {
  }

  /** A key whose lower-case form has no hyphen has none itself, so it is never a group key. */
  lemma LowerHyphenFree(key: string)
    requires '-' !in Lower(key)
    ensures !IsGroupKey(key)
  {
    forall i | 0 <= i < |key|
      ensures key[i] != '-'
    {
      assert Lower(key)[i] in Lower(key);
    }
    NoHyphenNoGroup(key);
  }

  lemma PairThen<T>(a: T, b: T, c: seq<T>)
    ensures [a] + [b] + c == [a, b] + c
  {
  }

  lemma AppendAssoc<T>(a: seq<T>, b: seq<T>, c: seq<T>)
    ensures a + b + c == a + (b + c)
  {
  }

  lemma AppendThree<T>(a: seq<T>, b: seq<T>, c: seq<T>, d: seq<T>)
    ensures a + b + c + d == a + (b + c + d)
  {
  }

  lemma DatabaseKindHyphenFree()
    ensures '-' !in DatabaseKind
  {
  }

  /** The database document of a schema: its statement, `USE <name>`, then what is nested in it. */
  lemma DatabaseDocument(ctx: Ctx, key: string, decl: Value, t: string, own: string, sub: seq<string>)
    requires Lower(key) == DatabaseKind
    requires GetProvidedTopLevelObject(decl) == Some(t)
    requires OwnStatement(ctx, key, decl) == Success([own])
    requires WalkEntry(ctx, t, Lookup(decl, t).value) == Success(sub)
    ensures Walk(ctx, Single(key, decl)) == Success([own, UseStatement(decl)] + sub)
  {
    DatabaseKindHyphenFree();
    LowerHyphenFree(key);
    DatabaseUsesOnce(ctx, key, decl, t, [own], sub);
    PairThen(own, UseStatement(decl), sub);
    WalkSingle(ctx, key, decl);
  }

  /** An unknown, non-group key with no recognised kind inside produces nothing. */
  lemma UnknownKeyIgnored(ctx: Ctx, key: string, v: Value)
    requires key !in TopLevelObjects && !IsGroupKey(key)
    requires GetProvidedTopLevelObject(v).None?
    ensures WalkEntry(ctx, key, v) == Success([])
  {
    assert WalkEntry(ctx, key, v) == WalkObject(ctx, key, v, Lower(key) == DatabaseKind);
  }

  /** An unknown, non-group key still has the objects nested in it walked. */
  lemma UnknownKeyDescends(ctx: Ctx, key: string, v: Value, t: string)
    requires key !in TopLevelObjects && !IsGroupKey(key) && Lower(key) != DatabaseKind
    requires GetProvidedTopLevelObject(v) == Some(t)
    ensures WalkEntry(ctx, key, v) == WalkEntry(ctx, t, Lookup(v, t).value)
  {
    assert WalkEntry(ctx, key, v) == WalkObject(ctx, key, v, false);
    assert OwnStatement(ctx, key, v) == Success([]);
    match WalkEntry(ctx, t, Lookup(v, t).value)
    case Success(sub) => assert [] + [] + sub == sub;
    case Failure(_) =>
  }
}
