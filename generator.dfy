/**
 * Statement rendering of `JsonDbStructure`: the kind and definer
 * whitelists, template file names, template loading through the
 * extractor's rules, and the two token passes (`generateSqlFromStructure`
 * and `generateSqlFromObjectDefiner`) as functions. The template
 * directory is replaced by a table from file name to decoded document.
 */
module Generator {
  import opened Wrappers
  import opened PhpStrings
  import opened Json
  import opened Jsyn
  import opened Substitution

  /** The ten kinds a document may declare, in the order the source searches them. */
  const TopLevelObjects: seq<string> := [
    ":database", ":table", ":table-group", ":view", ":index",
    ":trigger", ":function", ":stored-procedure", ":storage", ":security"
  ]

  /** Attributes whose value is a list rendered through a template of the same name. */
  const ObjectDefiners: seq<string> := ["columns", "add-column", "foreign-key"]

  const CrudActionKeyword := ":crud-action"
  const JsynExtension := ".jsyn"

  /** Template file name to decoded `.jsyn` document. */
  type Templates = map<string, JsynDocument>

  /** What every rendering reads: the template table and the vendor. */
  datatype Ctx = Ctx(templates: Templates, vendor: string)

  datatype Error =
    | TemplateNotFound(file: string)
    | VendorMissing(file: string, vendor: string)
    | StructureError(kind: string)

  lemma KindsStartWithColon()
    ensures forall k :: k in TopLevelObjects ==> |k| > 1 && k[0] == ':'
  {
  }

  /** `objectIdentifierToString`: the identifier without its leading character. */
  function ObjectIdentifierToString(id: string): (r: string)
    ensures |id| > 0 ==> r == id[1..]
    ensures |id| == 0 ==> r == ""
  {
    Substr(id, 1, |id| - 1)
  }

  /** `guessJsynFileName`: `<action>-<kind without ':'>.jsyn` for a recognised kind, else `false`. */
  function GuessJsynFileName(kind: string, crudAction: string): (r: Option<string>)
    ensures r.Some? <==> kind in TopLevelObjects
    ensures r.Some? ==> |kind| > 0 && r.value == Lower(crudAction) + "-" + kind[1..] + JsynExtension
  {
    if kind in TopLevelObjects then
      KindsStartWithColon();
      Some(Lower(crudAction) + "-" + ObjectIdentifierToString(kind) + JsynExtension)
    else None
  }

  lemma LowerKeepsHyphenOut(a: string)
    requires '-' !in a
    ensures '-' !in Lower(a)
  {
    forall i | 0 <= i < |a|
      ensures Lower(a)[i] != '-'
    {
      assert a[i] in a;
    }
  }

  /** `f[n]` is the first hyphen of `f`. */
  predicate FirstHyphenAt(f: string, n: nat) {
    n < |f| && f[n] == '-' && forall j :: 0 <= j < n ==> f[j] != '-'
  }

  lemma FirstHyphenUnique(f: string, n: nat, m: nat)
    requires FirstHyphenAt(f, n) && FirstHyphenAt(f, m)
    ensures n == m
  {
  }

  lemma HyphenAfterPrefix(x: string, rest: string)
    requires '-' !in x
    ensures FirstHyphenAt(x + "-" + rest, |x|)
  {
    var f := x + "-" + rest;
    forall j | 0 <= j < |x|
      ensures f[j] != '-'
    {
      assert f[j] == x[j];
      assert x[j] in x;
    }
  }

  /** Splitting at the first hyphen: a hyphen-free prefix followed by "-" is determined by the whole. */
  lemma SplitAtHyphen(x1: string, r1: string, x2: string, r2: string)
    requires '-' !in x1 && '-' !in x2
    requires x1 + "-" + r1 == x2 + "-" + r2
    ensures x1 == x2 && r1 == r2
  {
    var f := x1 + "-" + r1;
    HyphenAfterPrefix(x1, r1);
    HyphenAfterPrefix(x2, r2);
    FirstHyphenUnique(f, |x1|, |x2|);
    assert x1 == f[..|x1|] == x2;
    assert r1 == f[|x1| + 1..] == r2;
  }

  /** Same first character and same remainder: same string. */
  lemma SameHeadSameTail(k1: string, k2: string)
    requires |k1| > 0 && |k2| > 0 && k1[0] == k2[0] && k1[1..] == k2[1..]
    ensures k1 == k2
  {
    assert k1 == [k1[0]] + k1[1..];
    assert k2 == [k2[0]] + k2[1..];
  }

  /**
   * Template names are unambiguous: two (kind, action) pairs with hyphen-free
   * actions that name the same file are the same pair, up to the case of the action.
   */
  lemma FileNameInjective(k1: string, a1: string, k2: string, a2: string)
    requires k1 in TopLevelObjects && k2 in TopLevelObjects
    requires '-' !in a1 && '-' !in a2
    requires GuessJsynFileName(k1, a1) == GuessJsynFileName(k2, a2)
    ensures Lower(a1) == Lower(a2) && k1 == k2
  {
    KindsStartWithColon();
    assert |k1| > 1 && k1[0] == ':' && |k2| > 1 && k2[0] == ':';
    var f1 := GuessJsynFileName(k1, a1).value;
    var f2 := GuessJsynFileName(k2, a2).value;
    assert f1 == Lower(a1) + "-" + k1[1..] + JsynExtension;
    assert f2 == Lower(a2) + "-" + k2[1..] + JsynExtension;
    LowerKeepsHyphenOut(a1);
    LowerKeepsHyphenOut(a2);
    FileNameSplit(Lower(a1), k1, Lower(a2), k2);
  }

  lemma FileNameSplit(x1: string, k1: string, x2: string, k2: string)
    requires |k1| > 1 && k1[0] == ':' && |k2| > 1 && k2[0] == ':'
    requires '-' !in x1 && '-' !in x2
    requires x1 + "-" + k1[1..] + JsynExtension == x2 + "-" + k2[1..] + JsynExtension
    ensures x1 == x2 && k1 == k2
  {
    var r1, r2 := k1[1..] + JsynExtension, k2[1..] + JsynExtension;
    assert x1 + "-" + k1[1..] + JsynExtension == x1 + "-" + r1;
    assert x2 + "-" + k2[1..] + JsynExtension == x2 + "-" + r2;
    SplitAtHyphen(x1, r1, x2, r2);
    assert k1[1..] == r1[..|r1| - |JsynExtension|];
    assert k2[1..] == r2[..|r2| - |JsynExtension|];
    SameHeadSameTail(k1, k2);
  }

  /** `kind` is entry `j` of `kinds`, at or after `from`, and `v` holds no earlier entry from `from` on. */
  predicate KindRankFrom(v: Value, kinds: seq<string>, from: nat, j: nat, kind: string) {
    from <= j < |kinds| && kinds[j] == kind &&
    forall i :: from <= i < j ==> Lookup(v, kinds[i]).None?
  }

  /** The position of the first entry of `kinds`, at or after `from`, that `v` holds. */
  function FirstKindFrom(v: Value, kinds: seq<string>, from: nat): (r: Option<nat>)
    decreases |kinds| - from
    ensures r.Some? ==> from <= r.value < |kinds| && Lookup(v, kinds[r.value]).Some?
  {
    if from >= |kinds| then None
    else if Lookup(v, kinds[from]).Some? then Some(from)
    else FirstKindFrom(v, kinds, from + 1)
  }

  /** The position found is the first one the value holds; none found means the value holds none. */
  lemma {:induction false} FirstKindFromIsFirst(v: Value, kinds: seq<string>, from: nat)
    decreases |kinds| - from
    ensures FirstKindFrom(v, kinds, from).Some? ==>
      KindRankFrom(v, kinds, from, FirstKindFrom(v, kinds, from).value, kinds[FirstKindFrom(v, kinds, from).value])
    ensures FirstKindFrom(v, kinds, from).None? ==> forall i :: from <= i < |kinds| ==> Lookup(v, kinds[i]).None?
  {
    if from < |kinds| && Lookup(v, kinds[from]).None? {
      var r := FirstKindFrom(v, kinds, from + 1);
      assert FirstKindFrom(v, kinds, from) == r;
      FirstKindFromIsFirst(v, kinds, from + 1);
      if r.Some? {
        forall i | from <= i < r.value
          ensures Lookup(v, kinds[i]).None?
        {
          if i > from {
            assert from + 1 <= i < r.value;
          }
        }
      } else {
        forall i | from <= i < |kinds|
          ensures Lookup(v, kinds[i]).None?
        {
          if i > from {
            assert from + 1 <= i < |kinds|;
          }
        }
      }
    }
  }

  /**
   * `getProvidedTopLevelObject` (and the identical search `isAnotherObjectPresent`):
   * the first kind, in whitelist order, that the value holds.
   */
  function GetProvidedTopLevelObject(v: Value): (r: Option<string>)
    ensures r.Some? ==> r.value in TopLevelObjects && Lookup(v, r.value).Some?
    ensures r.Some? ==> exists j :: KindRankFrom(v, TopLevelObjects, 0, j, r.value)
    ensures r.None? <==> forall k :: k in TopLevelObjects ==> Lookup(v, k).None?
  {
    FirstKindFromIsFirst(v, TopLevelObjects, 0);
    match FirstKindFrom(v, TopLevelObjects, 0)
    case None => None
    case Some(j) => Some(TopLevelObjects[j])
  }

  /** `isValidTopLevelObject`: the value holds some recognised kind. */
  predicate IsValidTopLevelObject(v: Value)
    ensures IsValidTopLevelObject(v) <==> exists k :: k in TopLevelObjects && Lookup(v, k).Some?
  {
    GetProvidedTopLevelObject(v).Some?
  }

  /** The one-entry document `[$key => $value]` the walker builds around a declaration. */
  function Single(key: string, value: Value): Value {
    Obj([Field(key, value)])
  }

  lemma LookupSingle(key: string, value: Value, k: string)
    ensures Lookup(Single(key, value), k) == if k == key then Some(value) else None
  {
    assert Entries(Single(key, value))[0].key == key;
  }

  /** A one-entry document is valid exactly when its key is a recognised kind. */
  lemma SingleValid(key: string, value: Value)
    ensures IsValidTopLevelObject(Single(key, value)) <==> key in TopLevelObjects
    ensures key in TopLevelObjects ==> GetProvidedTopLevelObject(Single(key, value)) == Some(key)
  {
    forall k | k in TopLevelObjects
      ensures Lookup(Single(key, value), k) == if k == key then Some(value) else None
    {
      LookupSingle(key, value, k);
    }
  }

  /** Loading a template as `new JsynExtractor($file, $vendor)` followed by `formatJsyn` does. */
  function LoadTemplate(ctx: Ctx, file: string): (r: Result<seq<string>, Error>)
    ensures file !in ctx.templates ==> r == Failure(TemplateNotFound(file))
    ensures file in ctx.templates && SelectVendor(ctx.templates[file], ctx.vendor).None? ==>
      r == Failure(VendorMissing(file, ctx.vendor))
    ensures r.Success? ==> (file in ctx.templates && SelectVendor(ctx.templates[file], ctx.vendor).Some? &&
      r.value == FormatTokens(SelectVendor(ctx.templates[file], ctx.vendor).value))
  {
    if file !in ctx.templates then Failure(TemplateNotFound(file))
    else match SelectVendor(ctx.templates[file], ctx.vendor)
      case None => Failure(VendorMissing(file, ctx.vendor))
      case Some(toks) => Success(FormatTokens(toks))
  }

  /** `strtolower($decl[':crud-action'])` before lower-casing: the action text of a declaration. */
  function CrudAction(kind: string, decl: Value): (r: Result<string, Error>)
    ensures !IsArray(decl) ==> r == Failure(StructureError(kind))
    ensures IsArray(decl) && Lookup(decl, CrudActionKeyword).None? ==> r == Success("")
    ensures forall s :: IsArray(decl) && Lookup(decl, CrudActionKeyword) == Some(Str(s)) ==> r == Success(s)
    ensures IsArray(decl) && Lookup(decl, CrudActionKeyword).Some? && !IsArray(Lookup(decl, CrudActionKeyword).value) ==>
      r == Success(PhpString(Lookup(decl, CrudActionKeyword).value))
    ensures IsArray(decl) && Lookup(decl, CrudActionKeyword).Some? && IsArray(Lookup(decl, CrudActionKeyword).value) ==>
      r == Failure(StructureError(kind))
  {
    if !IsArray(decl) then Failure(StructureError(kind))
    else match Lookup(decl, CrudActionKeyword)
      case None => Success("")
      case Some(a) => if IsArray(a) then Failure(StructureError(kind)) else Success(PhpString(a))
  }

  /** `generateSqlFromObjectDefiner([$definer => $element], $definer)`. */
  function DefinerSql(ctx: Ctx, definer: string, element: Value): Result<string, Error> {
    var toks :- LoadTemplate(ctx, definer + JsynExtension);
    Success(Render(DefinerPass(toks, element)))
  }

  /** The definer rendering of every element, in list order; the first failure aborts. */
  function DefinerSqls(ctx: Ctx, definer: string, elems: seq<Value>): (r: Result<seq<string>, Error>)
    ensures r.Success? <==> forall i :: 0 <= i < |elems| ==> DefinerSql(ctx, definer, elems[i]).Success?
    ensures r.Success? ==> |r.value| == |elems|
    ensures r.Success? ==> forall i :: 0 <= i < |elems| ==> r.value[i] == DefinerSql(ctx, definer, elems[i]).value
  {
    Collect(DefinerResults(ctx, definer, elems))
  }

  function DefinerResults(ctx: Ctx, definer: string, elems: seq<Value>): (rs: seq<Result<string, Error>>)
    ensures |rs| == |elems|
    ensures forall i :: 0 <= i < |elems| ==> rs[i] == DefinerSql(ctx, definer, elems[i])
  {
    seq(|elems|, i requires 0 <= i < |elems| => DefinerSql(ctx, definer, elems[i]))
  }

  /** `'(' . implode(', ', $parts) . ')'`: an expanded definer list. */
  function Parenthesised(parts: seq<string>): string {
    "(" + Join(", ", parts) + ")"
  }

  /** The parenthesised text of an expanded list: opens with '(' and closes with ')'. */
  predicate IsParenthesised(s: string) {
    |s| >= 2 && s[0] == '(' && s[|s| - 1] == ')'
  }

  lemma ParenthesisedShape(parts: seq<string>)
    ensures IsParenthesised(Parenthesised(parts))
  {
  }

  /** Does the declaration hold parenthesised text under `k`, as after an expansion of `k`? */
  predicate HoldsText(decl: Value, k: string) {
    Lookup(decl, k).Some? && Lookup(decl, k).value.Str? && IsParenthesised(Lookup(decl, k).value.s)
  }

  /** Is `t` the value placeholder `{k}`, the one form that can expand a definer under key `k`? */
  predicate NamesDefiner(t: string, k: string) {
    Classify(t, false).kind == Placeholder && AttributeKey(Classify(t, false).name) == k
  }

  /** One round of `generateSqlFromStructure`'s loop: its write to the slots and the declaration after it. */
  datatype Step = Step(write: Write, decl: Value)

  /**
   * The round for token `t` against the declaration as it stands: an
   * expanded definer list is also written back into the declaration in
   * place of the list, so later tokens naming it see that text.
   */
  function StructureStep(ctx: Ctx, t: string, decl: Value): Result<Step, Error> {
    var tok := Classify(t, false);
    var key := AttributeKey(tok.name);
    match Lookup(decl, key)
    case None => Success(Step(if tok.kind == Literal then Put(Kept(t)) else Drop, decl))
    case Some(v) =>
      if tok.kind == Placeholder && !v.Bool? && key in ObjectDefiners then
        var parts :- DefinerSqls(ctx, key, Elements(v));
        var text := Parenthesised(parts);
        Success(Step(Put(Kept(text)), SetEntry(decl, key, Str(text))))
      else Success(Step(Put(PresentSlot(tok, v)), decl))
  }

  /** The writes of a run of the loop and the declaration it leaves. */
  datatype Run = Run(writes: seq<Write>, decl: Value)

  /** The loop over `toks` in index order, threading the declaration; the first failure aborts. */
  function StructureRun(ctx: Ctx, toks: seq<string>, decl: Value): (r: Result<Run, Error>)
    ensures r.Success? ==> |r.value.writes| == |toks|
    decreases |toks|
  {
    if toks == [] then Success(Run([], decl))
    else
      var before :- StructureRun(ctx, toks[..|toks| - 1], decl);
      var s :- StructureStep(ctx, toks[|toks| - 1], before.decl);
      Success(Run(before.writes + [s.write], s.decl))
  }

  /** The slots after `generateSqlFromStructure`'s loop over a whole template. */
  function StructurePass(ctx: Ctx, toks: seq<string>, decl: Value): Result<seq<Slot>, Error> {
    var run :- StructureRun(ctx, toks, decl);
    Success(ApplyAll(Initial(toks), run.writes))
  }

  /** The declaration as the loop reaches token `i` (the original one when the loop fails before). */
  function DeclAt(ctx: Ctx, toks: seq<string>, decl: Value, i: nat): Value
    requires i <= |toks|
  {
    match StructureRun(ctx, toks[..i], decl)
    case Success(run) => run.decl
    case Failure(_) => decl
  }

  /** The write the loop makes at token `j` (a drop when the loop fails). */
  function WriteAt(ctx: Ctx, toks: seq<string>, decl: Value, j: nat): Write
    requires j < |toks|
  {
    match StructureRun(ctx, toks, decl)
    case Success(run) => run.writes[j]
    case Failure(_) => Drop
  }

  /** `generateSqlFromStructure($doc)`: the statement for the first kind the document holds. */
  function StructureSql(ctx: Ctx, doc: Value): Result<string, Error> {
    match GetProvidedTopLevelObject(doc)
    case None => Failure(StructureError(""))
    case Some(kind) =>
      var decl := Lookup(doc, kind).value;
      var crud :- CrudAction(kind, decl);
      var toks :- LoadTemplate(ctx, GuessJsynFileName(kind, crud).value);
      var slots :- StructurePass(ctx, toks, decl);
      Success(Render(slots))
  }

  /** Running one more token is one more round against the declaration the shorter run left. */
  lemma StructureRunSnoc(ctx: Ctx, toks: seq<string>, decl: Value, i: nat)
    requires i < |toks|
    ensures StructureRun(ctx, toks[..i + 1], decl) ==
      var before :- StructureRun(ctx, toks[..i], decl);
      var s :- StructureStep(ctx, toks[i], before.decl);
      Success(Run(before.writes + [s.write], s.decl))
  {
    assert toks[..i + 1][..i] == toks[..i];
    assert toks[..i + 1][i] == toks[i];
  }

  /** Every prefix of a successful run succeeds, with a prefix of its writes. */
  lemma {:induction false} StructureRunPrefix(ctx: Ctx, toks: seq<string>, decl: Value, n: nat)
    requires n <= |toks|
    requires StructureRun(ctx, toks, decl).Success?
    ensures StructureRun(ctx, toks[..n], decl).Success?
    ensures StructureRun(ctx, toks[..n], decl).value.writes == StructureRun(ctx, toks, decl).value.writes[..n]
    decreases |toks|
  {
    if n == |toks| {
      assert toks[..n] == toks;
    } else {
      var init := toks[..|toks| - 1];
      assert init[..n] == toks[..n];
      StructureRunPrefix(ctx, init, decl, n);
    }
  }

  /** A failure within a prefix is the failure of the whole run. */
  lemma {:induction false} StructureRunFailurePersists(ctx: Ctx, toks: seq<string>, decl: Value, n: nat)
    requires n <= |toks|
    requires StructureRun(ctx, toks[..n], decl).Failure?
    ensures StructureRun(ctx, toks, decl) == StructureRun(ctx, toks[..n], decl)
    decreases |toks| - n
  {
    if n == |toks| {
      assert toks[..n] == toks;
    } else {
      StructureRunSnoc(ctx, toks, decl, n);
      StructureRunFailurePersists(ctx, toks, decl, n + 1);
    }
  }

  /** Round `i` of a successful run: it succeeds against `DeclAt(i)`, and its write and new declaration are the run's. */
  lemma StructureRunAt(ctx: Ctx, toks: seq<string>, decl: Value, i: nat)
    requires i < |toks|
    requires StructureRun(ctx, toks, decl).Success?
    ensures StructureStep(ctx, toks[i], DeclAt(ctx, toks, decl, i)).Success?
    ensures WriteAt(ctx, toks, decl, i) == StructureStep(ctx, toks[i], DeclAt(ctx, toks, decl, i)).value.write
    ensures DeclAt(ctx, toks, decl, i + 1) == StructureStep(ctx, toks[i], DeclAt(ctx, toks, decl, i)).value.decl
  {
    StructureRunPrefix(ctx, toks, decl, i + 1);
    StructureRunSnoc(ctx, toks, decl, i);
    var ws := StructureRun(ctx, toks, decl).value.writes;
    assert ws[..i + 1][i] == ws[i];
  }

  /** A round changes the declaration only under the key of a value placeholder. */
  lemma StepKeepsOtherKeys(ctx: Ctx, t: string, decl: Value, k: string)
    requires StructureStep(ctx, t, decl).Success?
    requires !NamesDefiner(t, k)
    ensures Lookup(StructureStep(ctx, t, decl).value.decl, k) == Lookup(decl, k)
  {
  }

  /**
   * Under a key no earlier value placeholder names, and under any key that
   * is not a definer, the declaration seen at token `i` is the original one.
   */
  lemma DeclAtOriginal(ctx: Ctx, toks: seq<string>, decl: Value, i: nat, k: string)
    requires i <= |toks|
    requires k !in ObjectDefiners || forall j :: 0 <= j < i ==> !NamesDefiner(toks[j], k)
    ensures Lookup(DeclAt(ctx, toks, decl, i), k) == Lookup(decl, k)
  {
    assert toks[..0] == [];
    OriginalFrom(ctx, toks, decl, 0, i, k);
  }

  /** The original value under `k`, seen by round `n`, survives to round `m` when no round between expands `k`. */
  lemma {:induction false} OriginalFrom(ctx: Ctx, toks: seq<string>, decl: Value, n: nat, m: nat, k: string)
    requires n <= m <= |toks|
    requires Lookup(DeclAt(ctx, toks, decl, n), k) == Lookup(decl, k)
    requires k !in ObjectDefiners || forall j :: n <= j < m ==> !NamesDefiner(toks[j], k)
    ensures Lookup(DeclAt(ctx, toks, decl, m), k) == Lookup(decl, k)
    decreases m - n
  {
    if n < m {
      DeclAtKeeps(ctx, toks, decl, n, k);
      OriginalFrom(ctx, toks, decl, n + 1, m, k);
    }
  }

  /**
   * Round `i` keeps the value under `k` when its token is no value
   * placeholder expanding `k`; a failing run falls back to the original.
   */
  lemma DeclAtKeeps(ctx: Ctx, toks: seq<string>, decl: Value, i: nat, k: string)
    requires i < |toks|
    requires k !in ObjectDefiners || !NamesDefiner(toks[i], k)
    ensures Lookup(DeclAt(ctx, toks, decl, i + 1), k) == Lookup(DeclAt(ctx, toks, decl, i), k) ||
      DeclAt(ctx, toks, decl, i + 1) == decl
  {
    StructureRunSnoc(ctx, toks, decl, i);
    var before := StructureRun(ctx, toks[..i], decl);
    if before.Success? && StructureStep(ctx, toks[i], before.value.decl).Success? {
      var d := before.value.decl;
      if NamesDefiner(toks[i], k) {
        assert StructureStep(ctx, toks[i], d).value.decl == d;
      } else {
        StepKeepsOtherKeys(ctx, toks[i], d, k);
      }
    }
  }

  /** Slot `i` after a successful pass is what its own round's write and the next one settle it to. */
  lemma StructurePassAt(ctx: Ctx, toks: seq<string>, decl: Value, i: nat)
    requires i < |toks|
    requires StructurePass(ctx, toks, decl).Success?
    ensures StructureRun(ctx, toks, decl).Success?
    ensures StructureStep(ctx, toks[i], DeclAt(ctx, toks, decl, i)).Success?
    ensures WriteAt(ctx, toks, decl, i) == StructureStep(ctx, toks[i], DeclAt(ctx, toks, decl, i)).value.write
    ensures StructurePass(ctx, toks, decl).value[i] == SettledAt(StructureRun(ctx, toks, decl).value.writes, i)
  {
    StructureRunAt(ctx, toks, decl, i);
    ApplyAllSettled(Initial(toks), StructureRun(ctx, toks, decl).value.writes);
  }

  /** A one-entry document of a recognised kind renders its declaration through `<action>-<kind>.jsyn`. */
  lemma StructureSqlOfSingle(ctx: Ctx, kind: string, decl: Value)
    requires kind in TopLevelObjects
    ensures StructureSql(ctx, Single(kind, decl)) ==
      var crud :- CrudAction(kind, decl);
      var toks :- LoadTemplate(ctx, Lower(crud) + "-" + ObjectIdentifierToString(kind) + JsynExtension);
      var slots :- StructurePass(ctx, toks, decl);
      Success(Render(slots))
  {
    SingleValid(kind, decl);
    LookupSingle(kind, decl, kind);
  }

  /** The round for a definer placeholder, when it succeeds, writes the expanded list to the slot and to the declaration. */
  lemma StructureStepDefiner(ctx: Ctx, t: string, decl: Value, v: Value)
    requires Classify(t, false).kind == Placeholder
    requires AttributeKey(Classify(t, false).name) in ObjectDefiners
    requires Lookup(decl, AttributeKey(Classify(t, false).name)) == Some(v) && !v.Bool?
    requires StructureStep(ctx, t, decl).Success?
    ensures var key := AttributeKey(Classify(t, false).name);
      var parts := DefinerSqls(ctx, key, Elements(v));
      parts.Success? &&
      StructureStep(ctx, t, decl).value ==
        Step(Put(Kept(Parenthesised(parts.value))), SetEntry(decl, key, Str(Parenthesised(parts.value))))
  {
  }

  /**
   * A value placeholder naming a definer whose current value is present and
   * not boolean is replaced by the parenthesised, comma-joined renderings of
   * that value's elements in list order.
   */
  lemma StructureDefinerExpanded(ctx: Ctx, toks: seq<string>, decl: Value, i: nat, v: Value)
    requires i < |toks|
    requires Classify(toks[i], false).kind == Placeholder
    requires AttributeKey(Classify(toks[i], false).name) in ObjectDefiners
    requires Lookup(DeclAt(ctx, toks, decl, i), AttributeKey(Classify(toks[i], false).name)) == Some(v) && !v.Bool?
    requires StructurePass(ctx, toks, decl).Success?
    ensures var parts := DefinerSqls(ctx, AttributeKey(Classify(toks[i], false).name), Elements(v));
      parts.Success? &&
      |parts.value| == |Elements(v)| &&
      StructurePass(ctx, toks, decl).value[i] == Kept(Parenthesised(parts.value))
  {
    var ws := StructureRun(ctx, toks, decl).value.writes;
    StructurePassAt(ctx, toks, decl, i);
    StructureStepDefiner(ctx, toks[i], DeclAt(ctx, toks, decl, i), v);
    var text := Parenthesised(DefinerSqls(ctx, AttributeKey(Classify(toks[i], false).name), Elements(v)).value);
    assert ws[i] == Put(Kept(text));
    assert text != Assign by {
      assert text[0] == '(';
    }
    assert SettledAt(ws, i) == Kept(text);
  }

  /**
   * The first value placeholder naming a definer expands the list of the
   * original declaration.
   */
  lemma DefinerFirstExpansion(ctx: Ctx, toks: seq<string>, decl: Value, i: nat, v: Value)
    requires i < |toks|
    requires Classify(toks[i], false).kind == Placeholder
    requires AttributeKey(Classify(toks[i], false).name) in ObjectDefiners
    requires forall j :: 0 <= j < i ==> !NamesDefiner(toks[j], AttributeKey(Classify(toks[i], false).name))
    requires Lookup(decl, AttributeKey(Classify(toks[i], false).name)) == Some(v) && !v.Bool?
    requires StructurePass(ctx, toks, decl).Success?
    ensures var parts := DefinerSqls(ctx, AttributeKey(Classify(toks[i], false).name), Elements(v));
      parts.Success? &&
      |parts.value| == |Elements(v)| &&
      StructurePass(ctx, toks, decl).value[i] == Kept(Parenthesised(parts.value))
  {
    DeclAtOriginal(ctx, toks, decl, i, AttributeKey(Classify(toks[i], false).name));
    StructureDefinerExpanded(ctx, toks, decl, i, v);
  }

  /**
   * Once token `j` has expanded definer `k`, the declaration holds
   * parenthesised text under `k` at every later token.
   */
  lemma ExpandedStaysText(ctx: Ctx, toks: seq<string>, decl: Value, j: nat, m: nat, k: string)
    requires j < m <= |toks|
    requires NamesDefiner(toks[j], k) && k in ObjectDefiners
    requires Lookup(DeclAt(ctx, toks, decl, j), k).Some? && !Lookup(DeclAt(ctx, toks, decl, j), k).value.Bool?
    requires StructureRun(ctx, toks, decl).Success?
    ensures HoldsText(DeclAt(ctx, toks, decl, m), k)
  {
    ExpansionAt(ctx, toks, decl, j, k);
    TextFrom(ctx, toks, decl, j + 1, m, k);
  }

  /** Parenthesised text under `k` seen by round `n` is still there at every later round `m`. */
  lemma {:induction false} TextFrom(ctx: Ctx, toks: seq<string>, decl: Value, n: nat, m: nat, k: string)
    requires n <= m <= |toks|
    requires k in ObjectDefiners && HoldsText(DeclAt(ctx, toks, decl, n), k)
    requires StructureRun(ctx, toks, decl).Success?
    ensures HoldsText(DeclAt(ctx, toks, decl, m), k)
    decreases m - n
  {
    if n < m {
      TextStaysAt(ctx, toks, decl, n, k);
      TextFrom(ctx, toks, decl, n + 1, m, k);
    }
  }

  /** The round that expands definer `k` leaves parenthesised text under `k` for the next round. */
  lemma ExpansionAt(ctx: Ctx, toks: seq<string>, decl: Value, j: nat, k: string)
    requires j < |toks|
    requires NamesDefiner(toks[j], k) && k in ObjectDefiners
    requires Lookup(DeclAt(ctx, toks, decl, j), k).Some? && !Lookup(DeclAt(ctx, toks, decl, j), k).value.Bool?
    requires StructureRun(ctx, toks, decl).Success?
    ensures HoldsText(DeclAt(ctx, toks, decl, j + 1), k)
  {
    StructureRunAt(ctx, toks, decl, j);
    ExpansionWritesText(ctx, toks[j], DeclAt(ctx, toks, decl, j), k);
  }

  /** Parenthesised text under `k` seen by round `i` is still there for round `i + 1`. */
  lemma TextStaysAt(ctx: Ctx, toks: seq<string>, decl: Value, i: nat, k: string)
    requires i < |toks|
    requires k in ObjectDefiners && HoldsText(DeclAt(ctx, toks, decl, i), k)
    requires StructureRun(ctx, toks, decl).Success?
    ensures HoldsText(DeclAt(ctx, toks, decl, i + 1), k)
  {
    StructureRunAt(ctx, toks, decl, i);
    TextStaysText(ctx, toks[i], DeclAt(ctx, toks, decl, i), k);
  }

  /** A round expanding definer `k` leaves parenthesised text under `k`. */
  lemma ExpansionWritesText(ctx: Ctx, t: string, decl: Value, k: string)
    requires NamesDefiner(t, k) && k in ObjectDefiners
    requires Lookup(decl, k).Some? && !Lookup(decl, k).value.Bool?
    requires StructureStep(ctx, t, decl).Success?
    ensures HoldsText(StructureStep(ctx, t, decl).value.decl, k)
  {
    var v := Lookup(decl, k).value;
    StructureStepDefiner(ctx, t, decl, v);
    ParenthesisedShape(DefinerSqls(ctx, k, Elements(v)).value);
  }

  /** Parenthesised text under `k` stays so through any round: a re-expansion of it writes "()". */
  lemma TextStaysText(ctx: Ctx, t: string, decl: Value, k: string)
    requires k in ObjectDefiners
    requires HoldsText(decl, k)
    requires StructureStep(ctx, t, decl).Success?
    ensures HoldsText(StructureStep(ctx, t, decl).value.decl, k)
  {
    if NamesDefiner(t, k) {
      var v := Lookup(decl, k).value;
      StructureStepDefiner(ctx, t, decl, v);
      assert Elements(v) == [];
      assert DefinerSqls(ctx, k, []).value == [];
      ParenthesisedShape([]);
    } else {
      StepKeepsOtherKeys(ctx, t, decl, k);
    }
  }

  /**
   * A later value placeholder naming a definer an earlier one expanded
   * renders "()": it iterates the text written back, which has no elements.
   */
  lemma DefinerRepeatedEmpty(ctx: Ctx, toks: seq<string>, decl: Value, j: nat, i: nat)
    requires j < i < |toks|
    requires NamesDefiner(toks[j], AttributeKey(Classify(toks[i], false).name))
    requires Classify(toks[i], false).kind == Placeholder
    requires AttributeKey(Classify(toks[i], false).name) in ObjectDefiners
    requires Lookup(DeclAt(ctx, toks, decl, j), AttributeKey(Classify(toks[i], false).name)).Some?
    requires !Lookup(DeclAt(ctx, toks, decl, j), AttributeKey(Classify(toks[i], false).name)).value.Bool?
    requires StructurePass(ctx, toks, decl).Success?
    ensures StructurePass(ctx, toks, decl).value[i] == Kept("()")
  {
    var k := AttributeKey(Classify(toks[i], false).name);
    StructurePassAt(ctx, toks, decl, i);
    ExpandedStaysText(ctx, toks, decl, j, i, k);
    var v := Lookup(DeclAt(ctx, toks, decl, i), k).value;
    StructureDefinerExpanded(ctx, toks, decl, i, v);
    assert Elements(v) == [];
    assert DefinerSqls(ctx, k, []).value == [];
    ParenthesisedEmpty();
  }

  /** A flag naming a definer an earlier placeholder expanded is shown: the text written back is truthy. */
  lemma DefinerExpandedFlagShown(ctx: Ctx, toks: seq<string>, decl: Value, j: nat, i: nat)
    requires j < i < |toks|
    requires NamesDefiner(toks[j], AttributeKey(Classify(toks[i], false).name))
    requires Classify(toks[i], false).kind == Flag
    requires AttributeKey(Classify(toks[i], false).name) in ObjectDefiners
    requires Lookup(DeclAt(ctx, toks, decl, j), AttributeKey(Classify(toks[i], false).name)).Some?
    requires !Lookup(DeclAt(ctx, toks, decl, j), AttributeKey(Classify(toks[i], false).name)).value.Bool?
    requires Upper(Classify(toks[i], false).name) != Assign
    requires StructurePass(ctx, toks, decl).Success?
    ensures StructurePass(ctx, toks, decl).value[i] == Kept(Upper(Classify(toks[i], false).name))
  {
    var k := AttributeKey(Classify(toks[i], false).name);
    StructurePassAt(ctx, toks, decl, i);
    ExpandedStaysText(ctx, toks, decl, j, i, k);
    var v := Lookup(DeclAt(ctx, toks, decl, i), k).value;
    assert Truthy(v) by {
      assert v.s[0] == '(';
    }
    StructureFlag(ctx, toks, decl, i, v);
  }

  /** An empty definer list renders as "()". */
  lemma EmptyDefinerList(ctx: Ctx, toks: seq<string>, decl: Value, i: nat, v: Value)
    requires i < |toks|
    requires Classify(toks[i], false).kind == Placeholder
    requires AttributeKey(Classify(toks[i], false).name) in ObjectDefiners
    requires Lookup(DeclAt(ctx, toks, decl, i), AttributeKey(Classify(toks[i], false).name)) == Some(v)
    requires Elements(v) == [] && !v.Bool?
    requires StructurePass(ctx, toks, decl).Success?
    ensures StructurePass(ctx, toks, decl).value[i] == Kept("()")
  {
    StructureDefinerExpanded(ctx, toks, decl, i, v);
    var parts := DefinerSqls(ctx, AttributeKey(Classify(toks[i], false).name), Elements(v)).value;
    assert parts == [];
    ParenthesisedEmpty();
  }

  lemma ParenthesisedEmpty()
    ensures Parenthesised([]) == "()"
  {
    assert Join(", ", []) == "";
  }

  /** A present placeholder with an ordinary value is replaced by the value's text. */
  lemma StructureValueSubstituted(ctx: Ctx, toks: seq<string>, decl: Value, i: nat, v: Value)
    requires i < |toks|
    requires Classify(toks[i], false).kind == Placeholder
    requires AttributeKey(Classify(toks[i], false).name) !in ObjectDefiners
    requires Lookup(decl, AttributeKey(Classify(toks[i], false).name)) == Some(v) && !v.Bool?
    requires PhpString(v) != Assign
    requires StructurePass(ctx, toks, decl).Success?
    ensures StructurePass(ctx, toks, decl).value[i] == Kept(PhpString(v))
  {
    var ws := StructureRun(ctx, toks, decl).value.writes;
    DeclAtOriginal(ctx, toks, decl, i, AttributeKey(Classify(toks[i], false).name));
    StructurePassAt(ctx, toks, decl, i);
    assert ws[i] == Put(Kept(PhpString(v)));
  }

  /**
   * A flag token `[name]` whose attribute is present in the current
   * declaration becomes the upper-cased name, spaces kept, when the
   * attribute is truthy, and `null` otherwise.
   */
  lemma StructureFlag(ctx: Ctx, toks: seq<string>, decl: Value, i: nat, v: Value)
    requires i < |toks|
    requires Classify(toks[i], false).kind == Flag
    requires Lookup(DeclAt(ctx, toks, decl, i), AttributeKey(Classify(toks[i], false).name)) == Some(v)
    requires Upper(Classify(toks[i], false).name) != Assign
    requires StructurePass(ctx, toks, decl).Success?
    ensures StructurePass(ctx, toks, decl).value[i] ==
      if Truthy(v) then Kept(Upper(Classify(toks[i], false).name)) else Null
  {
    var ws := StructureRun(ctx, toks, decl).value.writes;
    StructurePassAt(ctx, toks, decl, i);
    var tok := Classify(toks[i], false);
    assert ws[i] == Put(FlagSlot(tok, v));
  }

  /** A value placeholder whose attribute is boolean acts as a flag: upper-cased name when true, `null` when false. */
  lemma StructureBooleanPlaceholder(ctx: Ctx, toks: seq<string>, decl: Value, i: nat, b: bool)
    requires i < |toks|
    requires Classify(toks[i], false).kind == Placeholder
    requires Lookup(DeclAt(ctx, toks, decl, i), AttributeKey(Classify(toks[i], false).name)) == Some(Bool(b))
    requires Upper(Classify(toks[i], false).name) != Assign
    requires StructurePass(ctx, toks, decl).Success?
    ensures StructurePass(ctx, toks, decl).value[i] ==
      if b then Kept(Upper(Classify(toks[i], false).name)) else Null
  {
    var ws := StructureRun(ctx, toks, decl).value.writes;
    StructurePassAt(ctx, toks, decl, i);
    var tok := Classify(toks[i], false);
    assert ws[i] == Put(FlagSlot(tok, Bool(b)));
  }

  /**
   * A literal token is kept as written when no attribute bears its name,
   * and otherwise becomes its upper-cased text when that attribute is
   * truthy and `null` when not; an `=` kept this way still goes when the
   * next token is dropped.
   */
  lemma StructureLiteralKept(ctx: Ctx, toks: seq<string>, decl: Value, i: nat)
    requires i < |toks|
    requires Classify(toks[i], false).kind == Literal
    requires StructurePass(ctx, toks, decl).Success?
    ensures var dropNext := i + 1 < |toks| && WriteAt(ctx, toks, decl, i + 1).Drop?;
      StructurePass(ctx, toks, decl).value[i] ==
        match Lookup(DeclAt(ctx, toks, decl, i), AttributeKey(toks[i]))
        case None => if toks[i] == Assign && dropNext then Removed else Kept(toks[i])
        case Some(v) =>
          if !Truthy(v) then Null
          else if Upper(toks[i]) == Assign && dropNext then Removed
          else Kept(Upper(toks[i]))
  {
    var ws := StructureRun(ctx, toks, decl).value.writes;
    StructurePassAt(ctx, toks, decl, i);
    ClassifyKinds(toks[i], false);
    if i + 1 < |toks| {
      StructurePassAt(ctx, toks, decl, i + 1);
    }
  }

  /** A non-literal token whose attribute is absent is removed, and a kept `=` just before it with it. */
  lemma StructureAbsentDropped(ctx: Ctx, toks: seq<string>, decl: Value, i: nat)
    requires i < |toks|
    requires Classify(toks[i], false).kind != Literal
    requires Lookup(DeclAt(ctx, toks, decl, i), AttributeKey(Classify(toks[i], false).name)).None?
    requires StructurePass(ctx, toks, decl).Success?
    ensures StructurePass(ctx, toks, decl).value[i] == Removed
    ensures i > 0 && WriteAt(ctx, toks, decl, i - 1) == Put(Kept(Assign)) ==>
      StructurePass(ctx, toks, decl).value[i - 1] == Removed
  {
    var ws := StructureRun(ctx, toks, decl).value.writes;
    StructurePassAt(ctx, toks, decl, i);
    assert ws[i] == Drop;
    if i > 0 && WriteAt(ctx, toks, decl, i - 1) == Put(Kept(Assign)) {
      StructurePassAt(ctx, toks, decl, i - 1);
      assert ws[i - 1] == Put(Kept(Assign));
      assert SettledAt(ws, i - 1) == Removed;
    }
  }

  /**
   * A false attribute leaves a `null` slot, which is not dropped, so a kept
   * `=` just before it stays: `DEFAULT = [x]` with `x` false keeps its `=`.
   */
  lemma FalseFlagKeepsAssign(ctx: Ctx, toks: seq<string>, decl: Value, i: nat)
    requires 0 < i < |toks|
    requires Classify(toks[i], false).kind == Flag
    requires Lookup(DeclAt(ctx, toks, decl, i), AttributeKey(Classify(toks[i], false).name)).Some?
    requires !Truthy(Lookup(DeclAt(ctx, toks, decl, i), AttributeKey(Classify(toks[i], false).name)).value)
    requires WriteAt(ctx, toks, decl, i - 1) == Put(Kept(Assign))
    requires StructurePass(ctx, toks, decl).Success?
    ensures StructurePass(ctx, toks, decl).value[i - 1] == Kept(Assign)
    ensures StructurePass(ctx, toks, decl).value[i] == Null
  {
    var ws := StructureRun(ctx, toks, decl).value.writes;
    FalseFlagWrite(ctx, toks, decl, i);
    ApplyAllSettled(Initial(toks), ws);
    assert ws[i] == Put(Null);
    assert ws[i - 1] == Put(Kept(Assign));
    assert SettledAt(ws, i - 1) == Kept(Assign);
    assert SettledAt(ws, i) == Null;
  }

  /** The round of a flag whose attribute is present and falsy writes `null`. */
  lemma FalseFlagWrite(ctx: Ctx, toks: seq<string>, decl: Value, i: nat)
    requires i < |toks|
    requires Classify(toks[i], false).kind == Flag
    requires Lookup(DeclAt(ctx, toks, decl, i), AttributeKey(Classify(toks[i], false).name)).Some?
    requires !Truthy(Lookup(DeclAt(ctx, toks, decl, i), AttributeKey(Classify(toks[i], false).name)).value)
    requires StructurePass(ctx, toks, decl).Success?
    ensures StructureRun(ctx, toks, decl).Success?
    ensures WriteAt(ctx, toks, decl, i) == Put(Null)
  {
    StructurePassAt(ctx, toks, decl, i);
  }
}
