/**
 * The PHP string built-ins the generator relies on, over byte-like
 * characters: `strtolower`/`strtoupper` (ASCII only, as in PHP 8),
 * `substr`, `strpos`, `str_replace` of one character and `implode`.
 */
module PhpStrings {
  import opened Wrappers

  function LowerChar(c: char): char {
    if 'A' <= c <= 'Z' then (c as int + 32) as char else c
  }

  function UpperChar(c: char): char {
    if 'a' <= c <= 'z' then (c as int - 32) as char else c
  }

  /** `strtolower`: every ASCII capital is replaced by its small letter. */
  function Lower(s: string): (r: string)
    ensures |r| == |s|
    ensures forall i :: 0 <= i < |s| ==> r[i] == LowerChar(s[i])
  {
    if s == [] then [] else [LowerChar(s[0])] + Lower(s[1..])
  }

  /** `strtoupper`: every ASCII small letter is replaced by its capital. */
  function Upper(s: string): (r: string)
    ensures |r| == |s|
    ensures forall i :: 0 <= i < |s| ==> r[i] == UpperChar(s[i])
  {
    if s == [] then [] else [UpperChar(s[0])] + Upper(s[1..])
  }

  lemma LowerIdempotent(s: string)
    ensures Lower(Lower(s)) == Lower(s)
  {
  }

  lemma UpperIdempotent(s: string)
    ensures Upper(Upper(s)) == Upper(s)
  {
  }

  /** The start position PHP 8 `substr` uses for an offset. */
  function SubstrStart(len: nat, offset: int): (start: nat)
    ensures start <= len
  {
    if offset > len then len
    else if offset >= 0 then offset
    else if len + offset > 0 then len + offset
    else 0
  }

  /** PHP 8 `substr($s, $offset, $length)`. */
  function Substr(s: string, offset: int, length: int): (r: string)
    ensures 0 <= offset && 0 <= length && offset + length <= |s| ==> r == s[offset..offset + length]
    ensures 0 <= offset <= |s| && 0 <= length && offset + length > |s| ==> r == s[offset..]
    ensures |r| <= |s|
  {
    var start := SubstrStart(|s|, offset);
    var rest := |s| - start;
    var len := if length >= 0 then (if length < rest then length else rest)
               else (if rest + length > 0 then rest + length else 0);
    s[start..start + len]
  }

  /** PHP 8 `substr($s, $offset)` with no length: to the end of the string. */
  function SubstrFrom(s: string, offset: int): (r: string)
    ensures 0 <= offset <= |s| ==> r == s[offset..]
    ensures offset < 0 && |s| + offset >= 0 ==> r == s[|s| + offset..]
  {
    s[SubstrStart(|s|, offset)..]
  }

  /** Does `needle` occur in `haystack` at position `at`? */
  predicate OccursAt(haystack: string, needle: string, at: nat) {
    at + |needle| <= |haystack| && haystack[at..at + |needle|] == needle
  }

  /** The first occurrence of `needle` at or after `from`, if any. */
  function StrposFrom(haystack: string, needle: string, from: nat): (r: Option<nat>)
    decreases |haystack| - from
    ensures r.Some? ==> from <= r.value && OccursAt(haystack, needle, r.value)
    ensures r.Some? ==> forall j :: from <= j < r.value ==> !OccursAt(haystack, needle, j)
    ensures r.None? ==> forall j :: from <= j ==> !OccursAt(haystack, needle, j)
  {
    if from + |needle| > |haystack| then None
    else if haystack[from..from + |needle|] == needle then Some(from)
    else StrposFrom(haystack, needle, from + 1)
  }

  /** `strpos`: the position of the first occurrence of `needle`, or `false` (None). */
  function Strpos(haystack: string, needle: string): (r: Option<nat>)
    ensures r.Some? ==> OccursAt(haystack, needle, r.value)
    ensures r.Some? ==> forall j :: 0 <= j < r.value ==> !OccursAt(haystack, needle, j)
    ensures r.None? ==> forall j :: 0 <= j ==> !OccursAt(haystack, needle, j)
  {
    StrposFrom(haystack, needle, 0)
  }

  /** If `needle` occurs at `at` and nowhere before it, `strpos` finds `at`. */
  lemma StrposFirst(haystack: string, needle: string, at: nat)
    requires OccursAt(haystack, needle, at)
    requires forall j :: 0 <= j < at ==> !OccursAt(haystack, needle, j)
    ensures Strpos(haystack, needle) == Some(at)
  {
  }

  /** `str_replace($c, null, $s)`: every occurrence of the character `c` removed. */
  function RemoveChar(s: string, c: char): (r: string)
    ensures c !in r
    ensures forall x :: x in r <==> x in s && x != c
    ensures c !in s ==> r == s
    ensures |r| <= |s|
  {
    if s == [] then []
    else if s[0] == c then RemoveChar(s[1..], c)
    else [s[0]] + RemoveChar(s[1..], c)
  }

  /** `str_replace($from, $to, $s)` for single characters: a pointwise substitution. */
  function ReplaceChar(s: string, from: char, to: char): (r: string)
    ensures |r| == |s|
    ensures forall i :: 0 <= i < |s| ==> r[i] == (if s[i] == from then to else s[i])
  {
    if s == [] then [] else [if s[0] == from then to else s[0]] + ReplaceChar(s[1..], from, to)
  }

  /** `implode($sep, $xs)`: the pieces in order with `sep` between neighbours. */
  function Join(sep: string, xs: seq<string>): (r: string)
  {
    if xs == [] then ""
    else if |xs| == 1 then xs[0]
    else Join(sep, xs[..|xs| - 1]) + sep + xs[|xs| - 1]
  }

  function TotalLength(xs: seq<string>): nat {
    if xs == [] then 0 else TotalLength(xs[..|xs| - 1]) + |xs[|xs| - 1]|
  }

  /** Joining puts exactly one separator between each pair of neighbours. */
  lemma {:induction false} JoinLength(sep: string, xs: seq<string>)
    requires xs != []
    ensures |Join(sep, xs)| == TotalLength(xs) + (|xs| - 1) * |sep|
  {
    if |xs| > 1 {
      var init := xs[..|xs| - 1];
      JoinLength(sep, init);
      assert Join(sep, xs) == Join(sep, init) + sep + xs[|xs| - 1];
      assert TotalLength(xs) == TotalLength(init) + |xs[|xs| - 1]|;
      assert (|xs| - 1) * |sep| == (|init| - 1) * |sep| + |sep|;
    }
  }

  /** Joining is compositional: the join of `xs + ys` is the two joins with one separator between. */
  lemma {:induction false} JoinAppend(sep: string, xs: seq<string>, ys: seq<string>)
    requires xs != [] && ys != []
    ensures Join(sep, xs + ys) == Join(sep, xs) + sep + Join(sep, ys)
    decreases |ys|
  {
    if |ys| == 1 {
      assert (xs + ys)[..|xs + ys| - 1] == xs;
    } else {
      var ys' := ys[..|ys| - 1];
      assert (xs + ys)[..|xs + ys| - 1] == xs + ys';
      JoinAppend(sep, xs, ys');
    }
  }

  /** Cutting the parts at any inner position splits the join at one delimiter. */
  lemma JoinSplit(sep: string, xs: seq<string>)
    ensures forall k :: 0 < k < |xs| ==> Join(sep, xs) == Join(sep, xs[..k]) + sep + Join(sep, xs[k..])
  {
    forall k | 0 < k < |xs|
      ensures Join(sep, xs) == Join(sep, xs[..k]) + sep + Join(sep, xs[k..])
    {
      assert xs[..k] + xs[k..] == xs;
      JoinAppend(sep, xs[..k], xs[k..]);
    }
  }

  function DigitChar(d: nat): char
    requires d < 10
  {
    ('0' as int + d) as char
  }

  /** The decimal text PHP prints for a natural number. */
  function NatToString(n: nat): (r: string)
    ensures |r| > 0
    ensures forall i :: 0 <= i < |r| ==> '0' <= r[i] <= '9'
    ensures |r| > 1 ==> r[0] != '0'
  {
    if n < 10 then [DigitChar(n)] else NatToString(n / 10) + [DigitChar(n % 10)]
  }

  /** The decimal text PHP prints for an integer. */
  function IntToString(i: int): (r: string)
    ensures |r| > 0
  {
    if i < 0 then "-" + NatToString(-i) else NatToString(i)
  }
}
