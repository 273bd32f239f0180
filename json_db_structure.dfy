/**
 * The generator object `JsonDbStructure`: it holds the decoded document,
 * the vendor, the templates it reads and the statements generated so far,
 * and its methods do what the source's methods do, loop for loop. Each
 * method is proved equal to the function of the Generator or Walker module
 * that specifies it.
 */
module Scripd {
  import opened Wrappers
  import opened PhpStrings
  import opened Json
  import opened Jsyn
  import opened Substitution
  import opened Generator
  import opened Walker

  class JsonDbStructure {
    var jsonStructure: Value
    var sqlVendor: string
    /** The `.jsyn` files of the template directory, decoded. */
    var templates: Templates
    var generatedSql: seq<string>

    constructor (jsonStructure: Value, templates: Templates, sqlVendor: string := DefaultVendor)
      ensures this.jsonStructure == jsonStructure
      ensures this.templates == templates
      ensures this.sqlVendor == sqlVendor
      ensures generatedSql == []
    {
      this.jsonStructure := jsonStructure;
      this.templates := templates;
      this.sqlVendor := sqlVendor;
      generatedSql := [];
    }

    /** `setJsynDirectory`: templates are read from another directory from now on. */
    method SetJsynDirectory(templates: Templates)
      modifies this`templates
      ensures this.templates == templates
    {
      this.templates := templates;
    }

    method SetSqlVendor(sqlVendor: string)
      modifies this`sqlVendor
      ensures this.sqlVendor == sqlVendor
    {
      this.sqlVendor := sqlVendor;
    }

    /** A template through a fresh extractor: select the vendor, then `formatJsyn`. */
    method LoadJsyn(file: string) returns (r: Result<seq<string>, Error>)
      ensures r == LoadTemplate(Ctx(templates, sqlVendor), file)
    {
      if file !in templates {
        return Failure(TemplateNotFound(file));
      }
      var extractor := new JsynExtractor(templates[file], sqlVendor);
      extractor.FormatJsyn();
      var jsyn := extractor.GetJsyn();
      if jsyn.None? {
        return Failure(VendorMissing(file, sqlVendor));
      }
      return Success(jsyn.value);
    }

    /**
     * `generateSqlFromObjectDefiner([$definer => $element], $definer)`: the
     * definer's template filled from one element. The source's outer loop
     * runs once, over the one-entry array its only caller builds.
     */
    method GenerateSqlFromObjectDefiner(element: Value, definer: string) returns (r: Result<string, Error>)
      ensures r == DefinerSql(Ctx(templates, sqlVendor), definer, element)
    {
      var loaded := LoadJsyn(definer + JsynExtension);
      if loaded.Failure? {
        return Failure(loaded.error);
      }
      var toks := loaded.value;
      ghost var ws := DefinerWrites(toks, element);
      var jsyn := Initial(toks);
      var i := 0;
      assert ws[..0] == [];
      while i < |toks|
        invariant 0 <= i <= |toks|
        invariant jsyn == ApplyAll(Initial(toks), ws[..i])
      {
        ApplyAllPrefix(Initial(toks), ws[..i]);
        ghost var before := jsyn;
        jsyn := FillDefinerSlot(jsyn, i, toks[i], element);
        assert jsyn == ApplyWrite(before, i, ws[i]);
        ApplyAllStep(Initial(toks), ws, i);
        assert jsyn == ApplyAll(Initial(toks), ws[..i + 1]);
        i := i + 1;
      }
      assert ws[..|toks|] == ws;
      return Success(Render(jsyn));
    }

    /**
     * One iteration of `generateSqlFromObjectDefiner`'s loop: the token `t`
     * in slot `i` is filled from the element's attributes, kept, or removed
     * together with an `=` before it.
     */
    static method FillDefinerSlot(jsyn: seq<Slot>, i: nat, t: string, element: Value) returns (r: seq<Slot>)
      requires i < |jsyn| && jsyn[i] == Kept(t)
      ensures r == ApplyWrite(jsyn, i, DefinerWrite(t, element))
    {
      r := jsyn;
      var tok := Classify(t, true);
      var attr := Lookup(element, AttributeKey(tok.name));
      if attr.Some? {
        var v := attr.value;
        if tok.kind == Placeholder && !v.Bool? {
          r := r[i := Kept(PhpString(v))];
        } else {
          var name := if tok.kind == CommaFlag then ", " + tok.name else tok.name;
          r := r[i := if Truthy(v) then Kept(Upper(name)) else Null];
        }
      } else if tok.kind != Literal {
        if i > 0 && r[i - 1] == Kept(Assign) {
          r := r[i - 1 := Removed];
        }
        r := r[i := Removed];
      }
    }

    /** The loop over a definer list: one definer rendering per element, in order. */
    method ExpandDefiner(definer: string, elems: seq<Value>) returns (r: Result<seq<string>, Error>)
      ensures r == DefinerSqls(Ctx(templates, sqlVendor), definer, elems)
    {
      ghost var rs := DefinerResults(Ctx(templates, sqlVendor), definer, elems);
      var parts: seq<string> := [];
      var k := 0;
      while k < |elems|
        invariant 0 <= k <= |elems|
        invariant Collect(rs[..k]) == Success(parts)
      {
        var s := GenerateSqlFromObjectDefiner(elems[k], definer);
        if s.Failure? {
          CollectFirstFailure(rs, k);
          return Failure(s.error);
        }
        CollectStep(rs, k);
        parts := parts + [s.value];
        k := k + 1;
      }
      assert rs[..k] == rs;
      return Success(parts);
    }

    /**
     * One iteration of `generateSqlFromStructure`'s loop: the token `t` in
     * slot `i` is filled from the declaration (a definer list expanded
     * through its own template and written back into the declaration), kept,
     * or removed together with an `=` before it.
     */
    method FillStructureSlot(jsyn: seq<Slot>, i: nat, t: string, decl: Value)
      returns (r: Result<seq<Slot>, Error>, decl': Value)
      requires i < |jsyn| && jsyn[i] == Kept(t)
      ensures r.Success? <==> StructureStep(Ctx(templates, sqlVendor), t, decl).Success?
      ensures r.Success? ==> r.value == ApplyWrite(jsyn, i, StructureStep(Ctx(templates, sqlVendor), t, decl).value.write)
      ensures r.Success? ==> decl' == StructureStep(Ctx(templates, sqlVendor), t, decl).value.decl
      ensures r.Failure? ==> r.error == StructureStep(Ctx(templates, sqlVendor), t, decl).error
    {
      decl' := decl;
      var slots := jsyn;
      var tok := Classify(t, false);
      var key := AttributeKey(tok.name);
      var attr := Lookup(decl, key);
      if attr.Some? {
        var v := attr.value;
        if tok.kind == Placeholder && !v.Bool? {
          if key in ObjectDefiners {
            var parts := ExpandDefiner(key, Elements(v));
            if parts.Failure? {
              return Failure(parts.error), decl';
            }
            var text := Parenthesised(parts.value);
            decl' := SetEntry(decl, key, Str(text));
            slots := slots[i := Kept(text)];
          } else {
            slots := slots[i := Kept(PhpString(v))];
          }
        } else {
          slots := slots[i := if Truthy(v) then Kept(Upper(tok.name)) else Null];
        }
      } else if tok.kind != Literal {
        if i > 0 && slots[i - 1] == Kept(Assign) {
          slots := slots[i - 1 := Removed];
        }
        slots := slots[i := Removed];
      }
      return Success(slots), decl';
    }

    /** `generateSqlFromStructure($doc)`: the statement for the first kind the document holds. */
    method GenerateSqlFromStructure(doc: Value) returns (r: Result<string, Error>)
      ensures r == StructureSql(Ctx(templates, sqlVendor), doc)
    {
      var kind := GetProvidedTopLevelObject(doc);
      if kind.None? {
        return Failure(StructureError(""));
      }
      var decl := Lookup(doc, kind.value).value;
      var crud := CrudAction(kind.value, decl);
      if crud.Failure? {
        return Failure(crud.error);
      }
      var file := GuessJsynFileName(kind.value, crud.value);
      var loaded := LoadJsyn(file.value);
      if loaded.Failure? {
        return Failure(loaded.error);
      }
      var slots := FillStructureTemplate(loaded.value, decl);
      if slots.Failure? {
        return Failure(slots.error);
      }
      return Success(Render(slots.value));
    }

    /**
     * The loop of `generateSqlFromStructure` over the template's tokens, in
     * index order, against the declaration as the earlier rounds left it.
     */
    method FillStructureTemplate(toks: seq<string>, decl: Value) returns (r: Result<seq<Slot>, Error>)
      ensures r == StructurePass(Ctx(templates, sqlVendor), toks, decl)
    {
      ghost var ctx := Ctx(templates, sqlVendor);
      ghost var ws: seq<Write> := [];
      var attrs := decl;
      var jsyn := Initial(toks);
      var i := 0;
      assert toks[..0] == [];
      while i < |toks|
        invariant 0 <= i <= |toks| && |ws| == i
        invariant StructureRun(ctx, toks[..i], decl) == Success(Run(ws, attrs))
        invariant jsyn == ApplyAll(Initial(toks), ws)
      {
        ApplyAllUntouched(Initial(toks), ws, i);
        StructureRunSnoc(ctx, toks, decl, i);
        var filled, attrs' := FillStructureSlot(jsyn, i, toks[i], attrs);
        if filled.Failure? {
          StructureRunFailurePersists(ctx, toks, decl, i + 1);
          return Failure(filled.error);
        }
        ghost var w := StructureStep(ctx, toks[i], attrs).value.write;
        ApplyAllSnoc(Initial(toks), ws, w);
        jsyn := filled.value;
        attrs := attrs';
        ws := ws + [w];
        i := i + 1;
      }
      assert toks[..|toks|] == toks;
      return Success(jsyn);
    }

    /** `parseStructure`: every entry of the document, in order, appended to `generatedSql`. */
    method ParseStructure() returns (r: Result<seq<string>, Error>)
      modifies this`generatedSql
      ensures r == Walk(Ctx(templates, sqlVendor), jsonStructure)
      ensures r.Success? ==> generatedSql == old(generatedSql) + r.value
    {
      ghost var ctx := Ctx(templates, sqlVendor);
      var fs := Entries(jsonStructure);
      var acc: seq<string> := [];
      var i := 0;
      while i < |fs|
        invariant 0 <= i <= |fs|
        invariant Ctx(templates, sqlVendor) == ctx
        invariant WalkFields(ctx, fs[..i]) == Success(acc)
        invariant generatedSql == old(generatedSql) + acc
      {
        WalkFieldsStep(ctx, fs, i);
        var e := ParseEntry(ctx, fs[i].key, fs[i].value);
        if e.Failure? {
          ThenFailure(acc, e);
          WalkFieldsFailurePersists(ctx, fs, i + 1);
          return Failure(e.error);
        }
        ThenSuccess(acc, e.value);
        AppendAssoc(old(generatedSql), acc, e.value);
        acc := acc + e.value;
        i := i + 1;
      }
      assert fs[..i] == fs;
      return Success(acc);
    }

    /** One `$object => $jsonStructure` entry: the group branch or the object branch. */
    method ParseEntry(ghost ctx: Ctx, key: string, v: Value) returns (r: Result<seq<string>, Error>)
      requires ctx == Ctx(templates, sqlVendor)
      modifies this`generatedSql
      decreases Size(v), 2, 0
      ensures r == WalkEntry(ctx, key, v)
      ensures r.Success? ==> generatedSql == old(generatedSql) + r.value
    {
      if !IsGroupKey(key) {
        WalkEntryObject(ctx, key, v);
        r := ParseObject(ctx, key, v, Lower(key) == DatabaseKind);
        return;
      }
      WalkEntryGroup(ctx, key, v);
      r := ParseGroup(ctx, GroupBase(key), v);
    }

    /** The group branch: every element of the list, in order, as an object of kind `base` without `USE`. */
    method ParseGroup(ghost ctx: Ctx, base: string, v: Value) returns (r: Result<seq<string>, Error>)
      requires ctx == Ctx(templates, sqlVendor)
      modifies this`generatedSql
      decreases Size(v), 1, |Elements(v)| + 1
      ensures r == WalkGroup(ctx, base, v, 0)
      ensures r.Success? ==> generatedSql == old(generatedSql) + r.value
    {
      var es := Elements(v);
      var acc: seq<string> := [];
      ThenNothing(WalkGroup(ctx, base, v, 0));
      var k := 0;
      while k < |es|
        invariant 0 <= k <= |es|
        invariant generatedSql == old(generatedSql) + acc
        invariant WalkGroup(ctx, base, v, 0) == Then(Success(acc), WalkGroup(ctx, base, v, k))
      {
        var e := ParseElement(ctx, base, v, k, acc);
        if e.Failure? {
          return Failure(e.error);
        }
        AppendAssoc(old(generatedSql), acc, e.value);
        acc := acc + e.value;
        k := k + 1;
      }
      WalkGroupDone(ctx, base, v);
      assert acc + [] == acc;
      return Success(acc);
    }

    /**
     * Element `k` of a group, as an object of kind `base` without `USE`; `acc`
     * holds the statements of the elements before it.
     */
    method ParseElement(ghost ctx: Ctx, base: string, v: Value, k: nat, ghost acc: seq<string>)
      returns (r: Result<seq<string>, Error>)
      requires ctx == Ctx(templates, sqlVendor) && k < |Elements(v)|
      requires WalkGroup(ctx, base, v, 0) == Then(Success(acc), WalkGroup(ctx, base, v, k))
      modifies this`generatedSql
      decreases Size(v), 1, |Elements(v)| - k
      ensures r.Failure? ==> WalkGroup(ctx, base, v, 0) == Failure(r.error)
      ensures r.Success? ==> WalkGroup(ctx, base, v, 0) == Then(Success(acc + r.value), WalkGroup(ctx, base, v, k + 1))
      ensures r.Success? ==> generatedSql == old(generatedSql) + r.value
    {
      ElementSmaller(v, k);
      WalkGroupStep(ctx, base, v, k);
      WalkElementObject(ctx, base, v, k);
      r := ParseObject(ctx, base, Elements(v)[k], false);
      if r.Failure? {
        ThenFailure(acc, WalkGroup(ctx, base, v, k));
      } else {
        ThenShift(acc, r.value, WalkGroup(ctx, base, v, k + 1));
      }
    }

    /**
     * An object of kind `key`: its own statement when `[$key => $v]` is a valid
     * top-level object, then the first kind nested in it, after `USE <name>`
     * when `emitUse` holds.
     */
    method ParseObject(ghost ctx: Ctx, key: string, v: Value, emitUse: bool) returns (r: Result<seq<string>, Error>)
      requires ctx == Ctx(templates, sqlVendor)
      modifies this`generatedSql
      decreases Size(v), 1, 0
      ensures r == WalkObject(ctx, key, v, emitUse)
      ensures r.Success? ==> generatedSql == old(generatedSql) + r.value
    {
      ghost var before := generatedSql;
      var own := ParseOwnStatement(ctx, key, v);
      if own.Failure? {
        WalkObjectOwnFails(ctx, key, v, emitUse);
        return Failure(own.error);
      }
      var t := GetProvidedTopLevelObject(v);
      if t.None? {
        WalkObjectLeaf(ctx, key, v, emitUse, own.value);
        return own;
      }
      WalkObjectNested(ctx, key, v, emitUse, own.value, t.value);
      ghost var afterOwn := generatedSql;
      var use: seq<string> := [];
      if emitUse {
        generatedSql := generatedSql + [UseStatement(v)];
        use := [UseStatement(v)];
      }
      assert generatedSql == afterOwn + use;
      assert templates == old(templates) && sqlVendor == old(sqlVendor);
      var sub := ParseEntry(ctx, t.value, Lookup(v, t.value).value);
      if sub.Failure? {
        ThenFailure(own.value + use, sub);
        return Failure(sub.error);
      }
      ThenSuccess(own.value + use, sub.value);
      AppendThree(before, own.value, use, sub.value);
      return Success(own.value + use + sub.value);
    }

    /** The object's own statement: generated only when `[$key => $v]` is a valid top-level object. */
    method ParseOwnStatement(ghost ctx: Ctx, key: string, v: Value) returns (r: Result<seq<string>, Error>)
      requires ctx == Ctx(templates, sqlVendor)
      modifies this`generatedSql
      ensures r == OwnStatement(ctx, key, v)
      ensures r.Success? ==> generatedSql == old(generatedSql) + r.value
    {
      SingleValid(key, v);
      if IsValidTopLevelObject(Single(key, v)) {
        var s := GenerateSqlFromStructure(Single(key, v));
        if s.Failure? {
          return Failure(s.error);
        }
        generatedSql := generatedSql + [s.value];
        return Success([s.value]);
      }
      assert generatedSql == old(generatedSql) + [];
      return Success([]);
    }

    /** `getGeneratedSql`: the statements so far, `delimiter` between neighbours. */
    function GetGeneratedSql(delimiter: string := ";\n"): (r: string)
      reads this
      ensures generatedSql == [] ==> r == ""
      ensures |generatedSql| == 1 ==> r == generatedSql[0]
      ensures generatedSql != [] ==> |r| == TotalLength(generatedSql) + (|generatedSql| - 1) * |delimiter|
      ensures forall k :: 0 < k < |generatedSql| ==>
        r == Join(delimiter, generatedSql[..k]) + delimiter + Join(delimiter, generatedSql[k..])
    {
      if generatedSql == [] then Join(delimiter, generatedSql)
      else
        JoinLength(delimiter, generatedSql);
        JoinSplit(delimiter, generatedSql);
        Join(delimiter, generatedSql)
    }
  }
}
