/**
 * The token-substitution engine of `JsonDbStructure`: template tokens are
 * classified by their enclosing markers, resolved against an attribute
 * map, and the surviving slots are joined with single spaces.
 *
 * The source keeps the template in a PHP array `$jsyn` and rewrites it in
 * place: token i either overwrites slot i, or is dropped, in which case
 * slot i is `unset` together with slot i-1 when that slot still holds `=`.
 * A slot is therefore kept text, `null` (rendered as "" by `implode`) or
 * removed (skipped by `implode`).
 */
module Substitution {
  import opened Wrappers
  import opened PhpStrings
  import opened Json

  datatype Slot = Kept(text: string) | Null | Removed

  /** What the loop does at one index: overwrite the slot, or drop the placeholder. */
  datatype Write = Drop | Put(slot: Slot)

  const Assign: string := "="

  /** One iteration of the loop, applied in place to the slot array. */
  function ApplyWrite(slots: seq<Slot>, i: nat, w: Write): (r: seq<Slot>)
    requires i < |slots|
    ensures |r| == |slots|
    ensures r[i] == (if w.Put? then w.slot else Removed)
    ensures i > 0 ==> r[i - 1] == (if w.Drop? && slots[i - 1] == Kept(Assign) then Removed else slots[i - 1])
    ensures forall j :: 0 <= j < |slots| && j != i && j + 1 != i ==> r[j] == slots[j]
  {
    match w
    case Put(s) => slots[i := s]
    case Drop =>
      var s := if i > 0 && slots[i - 1] == Kept(Assign) then slots[i - 1 := Removed] else slots;
      s[i := Removed]
  }

  /** The loop over the first |ws| indices, in index order. */
  function ApplyAll(init: seq<Slot>, ws: seq<Write>): (r: seq<Slot>)
    requires |ws| <= |init|
    ensures |r| == |init|
  {
    if ws == [] then init
    else ApplyWrite(ApplyAll(init, ws[..|ws| - 1]), |ws| - 1, ws[|ws| - 1])
  }

  /** One more iteration of the loop applies the next write to the slots so far. */
  lemma ApplyAllStep(init: seq<Slot>, ws: seq<Write>, i: nat)
    requires i < |ws| <= |init|
    ensures ApplyAll(init, ws[..i + 1]) == ApplyWrite(ApplyAll(init, ws[..i]), i, ws[i])
  {
    assert ws[..i + 1][..i] == ws[..i];
  }

  /** The same step, written as the loop does it: one write appended to those so far. */
  lemma ApplyAllSnoc(init: seq<Slot>, ws: seq<Write>, w: Write)
    requires |ws| < |init|
    ensures ApplyAll(init, ws + [w]) == ApplyWrite(ApplyAll(init, ws), |ws|, w)
  {
    assert (ws + [w])[..|ws|] == ws;
  }

  /**
   * The final content of slot j, stated without the loop: what write j put
   * there, removed again when it is `=` and the next placeholder was dropped.
   */
  function SettledAt(ws: seq<Write>, j: nat): Slot
    requires j < |ws|
  {
    match ws[j]
    case Drop => Removed
    case Put(s) => if j + 1 < |ws| && ws[j + 1].Drop? && s == Kept(Assign) then Removed else s
  }

  function Settled(ws: seq<Write>): (r: seq<Slot>)
    ensures |r| == |ws|
    ensures forall j :: 0 <= j < |ws| ==> r[j] == SettledAt(ws, j)
  {
    seq(|ws|, j requires 0 <= j < |ws| => SettledAt(ws, j))
  }

  /** After the first |ws| iterations, those slots are settled and the rest untouched. */
  lemma {:induction false} ApplyAllPrefix(init: seq<Slot>, ws: seq<Write>)
    requires |ws| <= |init|
    ensures forall j :: 0 <= j < |ws| ==> ApplyAll(init, ws)[j] == SettledAt(ws, j)
    ensures forall j :: |ws| <= j < |init| ==> ApplyAll(init, ws)[j] == init[j]
  {
    if ws != [] {
      var m := |ws| - 1;
      var prev := ws[..m];
      ApplyAllPrefix(init, prev);
      forall j | 0 <= j < m
        ensures ApplyAll(init, ws)[j] == SettledAt(ws, j)
      {
        if j + 1 < m {
          assert ws[j] == prev[j] && ws[j + 1] == prev[j + 1];
        } else {
          assert ws[j] == prev[j];
        }
      }
    }
  }

  /** A slot the loop has not reached yet still holds its initial content. */
  lemma ApplyAllUntouched(init: seq<Slot>, ws: seq<Write>, j: nat)
    requires |ws| <= j < |init|
    ensures ApplyAll(init, ws)[j] == init[j]
  {
    ApplyAllPrefix(init, ws);
  }

  /** The in-place loop computes the closed form: slot j depends only on writes j and j+1. */
  lemma ApplyAllSettled(init: seq<Slot>, ws: seq<Write>)
    requires |ws| == |init|
    ensures ApplyAll(init, ws) == Settled(ws)
  {
    ApplyAllPrefix(init, ws);
  }

  /** What `implode(' ', $jsyn)` sees: removed slots skipped, `null` as "". */
  function Survivors(slots: seq<Slot>): (r: seq<string>)
    ensures |r| <= |slots|
  {
    if slots == [] then []
    else
      Survivors(slots[..|slots| - 1]) +
      match slots[|slots| - 1]
      case Kept(s) => [s]
      case Null => [""]
      case Removed => []
  }

  lemma {:induction false} SurvivorsAppend(a: seq<Slot>, b: seq<Slot>)
    ensures Survivors(a + b) == Survivors(a) + Survivors(b)
    decreases |b|
  {
    if b != [] {
      assert (a + b)[..|a + b| - 1] == a + b[..|b| - 1];
      SurvivorsAppend(a, b[..|b| - 1]);
    } else {
      assert a + b == a;
    }
  }

  /** A removed slot contributes nothing, wherever it stands. */
  lemma SurvivorsSkipRemoved(a: seq<Slot>, b: seq<Slot>)
    ensures Survivors(a + [Removed] + b) == Survivors(a + b)
  {
    SurvivorsAppend(a + [Removed], b);
    SurvivorsAppend(a, [Removed]);
    SurvivorsAppend(a, b);
    assert Survivors([Removed]) == [];
  }

  /** The rendered fragment: surviving slots joined by single spaces. */
  function Render(slots: seq<Slot>): string {
    Join(" ", Survivors(slots))
  }

  /** The template as the loop starts: every slot holds its token. */
  function Initial(toks: seq<string>): (r: seq<Slot>)
    ensures |r| == |toks|
    ensures forall i :: 0 <= i < |toks| ==> r[i] == Kept(toks[i])
  {
    seq(|toks|, i requires 0 <= i < |toks| => Kept(toks[i]))
  }

  // ------------------------------------------------------------------
  // Token classification

  /** `enclosed($pre, $post, $s)`: the first character is `pre` and the last is `post`. */
  function Enclosed(pre: char, post: char, s: string): (r: bool)
    ensures r <==> |s| > 0 && s[0] == pre && s[|s| - 1] == post
  {
    Substr(s, 0, 1) == [pre] && SubstrFrom(s, |s| - 1) == [post]
  }

  /** Both marker characters removed everywhere, as the two nested `str_replace` calls do. */
  function StripMarkers(s: string, open: char, close: char): (r: string)
    ensures open !in r && close !in r
  {
    RemoveChar(RemoveChar(s, close), open)
  }

  /**
   * `Placeholder` is the source's `$toSetValue`; `Literal` is `$isConstant`;
   * `Flag` is a bracketed token that is neither; `CommaFlag` is
   * `$replaceWithComma`, recognised only inside definer templates.
   */
  datatype TokenKind = Literal | Placeholder | Flag | CommaFlag

  datatype Token = Token(kind: TokenKind, name: string)

  function Classify(t: string, inDefiner: bool): (tok: Token)
    ensures tok.kind == CommaFlag ==> inDefiner
  {
    if Enclosed('[', ']', t) then
      var s := StripMarkers(t, '[', ']');
      if Enclosed('{', '}', s) then Token(Placeholder, StripMarkers(s, '{', '}'))
      else if inDefiner && Enclosed('(', ')', s) then Token(CommaFlag, StripMarkers(s, '(', ')'))
      else Token(Flag, s)
    else if Enclosed('{', '}', t) then Token(Placeholder, StripMarkers(t, '{', '}'))
    else Token(Literal, t)
  }

  /** Which markers make which kind of token. */
  lemma ClassifyKinds(t: string, inDefiner: bool)
    ensures var k := Classify(t, inDefiner).kind;
      && (k == Placeholder <==>
            (Enclosed('{', '}', t) && !Enclosed('[', ']', t)) ||
            (Enclosed('[', ']', t) && Enclosed('{', '}', StripMarkers(t, '[', ']'))))
      && (k == Literal <==> !Enclosed('[', ']', t) && !Enclosed('{', '}', t))
      && (k == Literal ==> Classify(t, inDefiner).name == t)
  {
  }

  /** A name with none of the six marker characters. */
  predicate MarkerFree(name: string) {
    forall c :: c in name ==> c != '[' && c != ']' && c != '{' && c != '}' && c != '(' && c != ')'
  }

  /** How a template author writes a token of each kind. */
  function Markup(tok: Token): string {
    match tok.kind
    case Literal => tok.name
    case Placeholder => "{" + tok.name + "}"
    case Flag => "[" + tok.name + "]"
    case CommaFlag => "[(" + tok.name + ")]"
  }

  lemma {:induction false} RemoveCharAppend(a: string, b: string, c: char)
    ensures RemoveChar(a + b, c) == RemoveChar(a, c) + RemoveChar(b, c)
    decreases |a|
  {
    if a != [] {
      assert (a + b)[1..] == a[1..] + b;
      RemoveCharAppend(a[1..], b, c);
    } else {
      assert a + b == b;
    }
  }

  /** Stripping a pair of markers off a marker-free name gives the name back. */
  lemma StripWrapped(open: char, name: string, close: char)
    requires open !in name && close !in name && open != close
    ensures StripMarkers([open] + name + [close], open, close) == name
  {
    RemoveCharAppend([open] + name, [close], close);
    RemoveCharAppend([open], name, close);
    RemoveCharAppend([open], name, open);
  }

  lemma MarkupLiteral(name: string, inDefiner: bool)
    requires MarkerFree(name)
    ensures Classify(name, inDefiner) == Token(Literal, name)
  {
    assert !Enclosed('[', ']', name) && !Enclosed('{', '}', name) by {
      if |name| > 0 { assert name[0] in name; }
    }
  }

  lemma MarkupPlaceholder(name: string, inDefiner: bool)
    requires MarkerFree(name)
    ensures Classify(['{'] + name + ['}'], inDefiner) == Token(Placeholder, name)
  {
    StripWrapped('{', name, '}');
  }

  lemma MarkupFlag(name: string, inDefiner: bool)
    requires MarkerFree(name)
    ensures Classify(['['] + name + [']'], inDefiner) == Token(Flag, name)
  {
    StripWrapped('[', name, ']');
    assert !Enclosed('{', '}', name) && !Enclosed('(', ')', name) by {
      if |name| > 0 { assert name[0] in name; }
    }
  }

  lemma MarkupCommaFlag(name: string)
    requires MarkerFree(name)
    ensures Classify(['['] + (['('] + name + [')']) + [']'], true) == Token(CommaFlag, name)
  {
    var inner := ['('] + name + [')'];
    assert '[' !in inner && ']' !in inner;
    StripWrapped('[', inner, ']');
    StripWrapped('(', name, ')');
  }

  /** Classification reads back every token a template author writes with a marker-free name. */
  lemma ClassifyMarkup(tok: Token, inDefiner: bool)
    requires MarkerFree(tok.name)
    requires tok.kind == CommaFlag ==> inDefiner
    ensures Classify(Markup(tok), inDefiner) == tok
  {
    var name := tok.name;
    match tok.kind
    case Literal =>
      MarkupLiteral(name, inDefiner);
    case Placeholder =>
      assert Markup(tok) == ['{'] + name + ['}'];
      MarkupPlaceholder(name, inDefiner);
    case Flag =>
      assert Markup(tok) == ['['] + name + [']'];
      MarkupFlag(name, inDefiner);
    case CommaFlag =>
      assert Markup(tok) == ['['] + (['('] + name + [')']) + [']'];
      MarkupCommaFlag(name);
  }

  // ------------------------------------------------------------------
  // Resolution of one token

  /** `str_replace(' ', '-', $name)`: the attribute key a placeholder name refers to. */
  function AttributeKey(name: string): (key: string)
    ensures |key| == |name| && ' ' !in key
    ensures forall i :: 0 <= i < |name| && name[i] != ' ' ==> key[i] == name[i]
    ensures forall i :: 0 <= i < |name| && name[i] == ' ' ==> key[i] == '-'
  {
    ReplaceChar(name, ' ', '-')
  }

  /**
   * A token whose attribute is present but is boolean or not a value
   * placeholder: the upper-cased name (after ", " for a comma flag) when
   * the attribute is truthy, else `null`.
   */
  function FlagSlot(tok: Token, v: Value): (s: Slot)
    ensures Truthy(v) ==> s == Kept(Upper(if tok.kind == CommaFlag then ", " + tok.name else tok.name))
    ensures !Truthy(v) ==> s == Null
  {
    if Truthy(v) then Kept(Upper(if tok.kind == CommaFlag then ", " + tok.name else tok.name)) else Null
  }

  /** The slot for a token whose attribute `v` is present and no definer expansion applies. */
  function PresentSlot(tok: Token, v: Value): Slot {
    if tok.kind == Placeholder && !v.Bool? then Kept(PhpString(v)) else FlagSlot(tok, v)
  }

  /** The write of `generateSqlFromObjectDefiner`'s loop for token `t` against one definer element. */
  function DefinerWrite(t: string, attrs: Value): Write {
    var tok := Classify(t, true);
    match Lookup(attrs, AttributeKey(tok.name))
    case None => if tok.kind == Literal then Put(Kept(t)) else Drop
    case Some(v) => Put(PresentSlot(tok, v))
  }

  function DefinerWrites(toks: seq<string>, attrs: Value): (ws: seq<Write>)
    ensures |ws| == |toks|
    ensures forall i :: 0 <= i < |toks| ==> ws[i] == DefinerWrite(toks[i], attrs)
  {
    seq(|toks|, i requires 0 <= i < |toks| => DefinerWrite(toks[i], attrs))
  }

  /** The slots after `generateSqlFromObjectDefiner`'s loop over a whole template. */
  function DefinerPass(toks: seq<string>, attrs: Value): (r: seq<Slot>)
    ensures |r| == |toks|
  {
    ApplyAll(Initial(toks), DefinerWrites(toks, attrs))
  }

  /** A literal whose text is not an attribute key survives with its text, unless it is an `=` before a dropped placeholder. */
  lemma DefinerLiteralKept(toks: seq<string>, attrs: Value, i: nat)
    requires i < |toks|
    requires Classify(toks[i], true).kind == Literal
    requires Lookup(attrs, AttributeKey(toks[i])).None?
    ensures DefinerPass(toks, attrs)[i] ==
      if toks[i] == Assign && i + 1 < |toks| && DefinerWrite(toks[i + 1], attrs).Drop? then Removed
      else Kept(toks[i])
  {
    ClassifyKinds(toks[i], true);
    ApplyAllSettled(Initial(toks), DefinerWrites(toks, attrs));
  }

  /**
   * A non-literal token whose attribute is absent is removed, and so is the
   * slot before it if that slot ended its own iteration holding `=`.
   */
  lemma DefinerAbsentDropped(toks: seq<string>, attrs: Value, i: nat)
    requires i < |toks|
    requires Classify(toks[i], true).kind != Literal
    requires Lookup(attrs, AttributeKey(Classify(toks[i], true).name)).None?
    ensures DefinerPass(toks, attrs)[i] == Removed
    ensures i > 0 && DefinerWrite(toks[i - 1], attrs) == Put(Kept(Assign)) ==> DefinerPass(toks, attrs)[i - 1] == Removed
  {
    ApplyAllSettled(Initial(toks), DefinerWrites(toks, attrs));
  }

  /** A comma flag `[(name)]` becomes ", NAME" when its guard attribute is truthy, and `null` when it is not. */
  lemma DefinerCommaFlag(toks: seq<string>, attrs: Value, i: nat, v: Value)
    requires i < |toks|
    requires Classify(toks[i], true).kind == CommaFlag
    requires Lookup(attrs, AttributeKey(Classify(toks[i], true).name)) == Some(v)
    ensures DefinerPass(toks, attrs)[i] == if Truthy(v) then Kept(Upper(", " + Classify(toks[i], true).name)) else Null
  {
    var ws := DefinerWrites(toks, attrs);
    var text := Upper(", " + Classify(toks[i], true).name);
    ApplyAllSettled(Initial(toks), ws);
    if Truthy(v) {
      assert ws[i] == Put(Kept(text));
      assert text != Assign by {
        assert text[0] == ',';
      }
      assert SettledAt(ws, i) == Kept(text);
    } else {
      assert ws[i] == Put(Null);
      assert SettledAt(ws, i) == Null;
    }
  }

  /** A present placeholder with a non-boolean value is replaced by the value's text (an array gives "Array"). */
  lemma DefinerValueSubstituted(toks: seq<string>, attrs: Value, i: nat, v: Value)
    requires i < |toks|
    requires Classify(toks[i], true).kind == Placeholder
    requires Lookup(attrs, AttributeKey(Classify(toks[i], true).name)) == Some(v) && !v.Bool?
    requires PhpString(v) != Assign
    ensures DefinerPass(toks, attrs)[i] == Kept(PhpString(v))
  {
    var ws := DefinerWrites(toks, attrs);
    ApplyAllSettled(Initial(toks), ws);
    assert ws[i] == Put(Kept(PhpString(v)));
    assert SettledAt(ws, i) == Kept(PhpString(v));
  }

  /**
   * A flag `[name]`, or a placeholder whose attribute is boolean, becomes
   * the upper-cased name when its attribute is truthy and `null` when not.
   */
  lemma DefinerFlag(toks: seq<string>, attrs: Value, i: nat, v: Value)
    requires i < |toks|
    requires Lookup(attrs, AttributeKey(Classify(toks[i], true).name)) == Some(v)
    requires Classify(toks[i], true).kind == Flag || (Classify(toks[i], true).kind == Placeholder && v.Bool?)
    requires Upper(Classify(toks[i], true).name) != Assign
    ensures DefinerPass(toks, attrs)[i] == if Truthy(v) then Kept(Upper(Classify(toks[i], true).name)) else Null
  {
    var ws := DefinerWrites(toks, attrs);
    var tok := Classify(toks[i], true);
    ApplyAllSettled(Initial(toks), ws);
    assert ws[i] == Put(FlagSlot(tok, v));
    assert SettledAt(ws, i) == FlagSlot(tok, v);
  }
}
