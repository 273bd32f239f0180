/**
 * The template helper: a `.jsyn` document maps vendor names to token
 * lists; the extractor keeps the list of the requested vendor (or of
 * `default`) and normalises the case of its tokens.
 */
module Jsyn {
  import opened Wrappers
  import opened PhpStrings

  /** A decoded `.jsyn` document: vendor name to token list. */
  type JsynDocument = map<string, seq<string>>

  const DefaultVendor := "default"

  /** The requested vendor's token list if the document has one, else the `default` list. */
  function SelectVendor(doc: JsynDocument, vendor: string): (r: Option<seq<string>>)
    ensures vendor in doc ==> r == Some(doc[vendor])
    ensures vendor !in doc && DefaultVendor in doc ==> r == Some(doc[DefaultVendor])
    ensures r.None? <==> vendor !in doc && DefaultVendor !in doc
  {
    if vendor in doc then Some(doc[vendor])
    else if DefaultVendor in doc then Some(doc[DefaultVendor])
    else None
  }

  /** `strpos($t, '[') === 0 || strpos($t, '{') === 0`: the token opens with a marker. */
  predicate IsMarked(t: string)
    ensures IsMarked(t) <==> |t| > 0 && (t[0] == '[' || t[0] == '{')
  {
    assert |t| > 0 && t[0] == '[' ==> OccursAt(t, "[", 0);
    assert |t| > 0 && t[0] == '{' ==> OccursAt(t, "{", 0);
    Strpos(t, "[") == Some(0) || Strpos(t, "{") == Some(0)
  }

  /** One step of `formatJsyn`: markers in lower case, keywords in upper case. */
  function FormatToken(t: string): (r: string)
    ensures |r| == |t|
    ensures IsMarked(t) ==> r == Lower(t)
    ensures !IsMarked(t) ==> r == Upper(t)
  {
    if IsMarked(t) then Lower(t) else Upper(t)
  }

  /** `formatJsyn` on a whole list: token count and order kept, each token formatted on its own. */
  function FormatTokens(toks: seq<string>): (r: seq<string>)
    ensures |r| == |toks|
    ensures forall i :: 0 <= i < |toks| ==> r[i] == FormatToken(toks[i])
  {
    if toks == [] then [] else FormatTokens(toks[..|toks| - 1]) + [FormatToken(toks[|toks| - 1])]
  }

  /** Case changes never move a marker: a token is marked after formatting iff it was before. */
  lemma FormatTokenKeepsMarker(t: string)
    ensures IsMarked(FormatToken(t)) <==> IsMarked(t)
  {
  }

  lemma {:induction false} FormatTokenIdempotent(t: string)
    ensures FormatToken(FormatToken(t)) == FormatToken(t)
  {
    FormatTokenKeepsMarker(t);
    if IsMarked(t) {
      LowerIdempotent(t);
    } else {
      UpperIdempotent(t);
    }
  }

  /** `formatJsyn` is idempotent: formatting a formatted list changes nothing. */
  lemma {:induction false} FormatTokensIdempotent(toks: seq<string>)
    ensures FormatTokens(FormatTokens(toks)) == FormatTokens(toks)
  {
    var once := FormatTokens(toks);
    forall i | 0 <= i < |toks|
      ensures FormatTokens(once)[i] == once[i]
    {
      FormatTokenIdempotent(toks[i]);
    }
  }

  /**
   * A `.jsyn` extractor. The source's constructor reads the file and
   * selects the vendor; here the decoded document is handed in.
   */
  class JsynExtractor {
    /** The selected token list; None stands for the `null` the source keeps when no list exists. */
    var jsyn: Option<seq<string>>
    var sqlSyntax: string

    constructor (jsynFile: JsynDocument, sqlSyntax: string)
      ensures this.sqlSyntax == sqlSyntax
      ensures jsyn == SelectVendor(jsynFile, sqlSyntax)
    {
      this.sqlSyntax := sqlSyntax;
      if sqlSyntax in jsynFile {
        jsyn := Some(jsynFile[sqlSyntax]);
      } else if DefaultVendor in jsynFile {
        jsyn := Some(jsynFile[DefaultVendor]);
      } else {
        jsyn := None;
      }
    }

    method GetJsyn() returns (r: Option<seq<string>>)
      ensures r == jsyn
    {
      r := jsyn;
    }

    /** Rewrites every token in place; with no list selected there is nothing to rewrite. */
    method FormatJsyn()
      modifies this`jsyn
      ensures old(jsyn).None? ==> jsyn == old(jsyn)
      ensures old(jsyn).Some? ==> jsyn == Some(FormatTokens(old(jsyn).value))
    {
      if jsyn.None? {
        return;
      }
      ghost var original := jsyn.value;
      var i := 0;
      while i < |jsyn.value|
        invariant jsyn.Some? && |jsyn.value| == |original|
        invariant 0 <= i <= |original|
        invariant forall j :: 0 <= j < i ==> jsyn.value[j] == FormatToken(original[j])
        invariant forall j :: i <= j < |original| ==> jsyn.value[j] == original[j]
      {
        var t := jsyn.value[i];
        if IsMarked(t) {
          jsyn := Some(jsyn.value[i := Lower(t)]);
        } else {
          jsyn := Some(jsyn.value[i := Upper(t)]);
        }
        i := i + 1;
      }
      assert jsyn.value == FormatTokens(original);
    }

    /** `__toString`: the token list joined by single spaces (None where the source would fail on `null`). */
    function ToString(): (r: Option<string>)
      reads this
      ensures r.Some? <==> jsyn.Some?
      ensures jsyn.Some? ==> r == Some(Join(" ", jsyn.value))
      ensures jsyn.Some? && jsyn.value != [] ==> |r.value| == TotalLength(jsyn.value) + |jsyn.value| - 1
      ensures jsyn.Some? ==> forall k :: 0 < k < |jsyn.value| ==>
        r.value == Join(" ", jsyn.value[..k]) + " " + Join(" ", jsyn.value[k..])
    {
      if jsyn.Some? then
        JoinSplit(" ", jsyn.value);
        if jsyn.value != [] then
          JoinLength(" ", jsyn.value);
          Some(Join(" ", jsyn.value))
        else Some(Join(" ", jsyn.value))
      else None
    }
  }
}
