/** The part of Python's `str.format(**kwargs)` that the badge and license
    catalogs use: `{key}` replaced by the keyword argument `key`, `{{` and `}}`
    standing for literal braces, and a `KeyError` when a key is not supplied.

    The catalogs themselves hold their templates as piece lists (literal text
    and named holes); `Unparse` gives the template text, and `FormatUnparse`
    shows that formatting that text is the same as filling the holes. */
module Placeholders {

  /** A keyword-argument name as it may appear between braces: an ASCII
      identifier. */
  predicate IsKeyChar(c: char) {
    'a' <= c <= 'z' || 'A' <= c <= 'Z' || '0' <= c <= '9' || c == '_'
  }

  predicate IsKey(k: string) {
    && |k| > 0
    && !('0' <= k[0] <= '9')
    && forall i :: 0 <= i < |k| ==> IsKeyChar(k[i])
  }

  /** A string known to be a valid key. */
  type Key = k: string | IsKey(k) witness "key"

  predicate BraceFree(s: string) {
    '{' !in s && '}' !in s
  }

  /** Outcome of a format call: the text, the `KeyError` naming the first key
      that was not supplied, or a template outside the modelled syntax (an
      unmatched brace, or a field that is not a plain key). */
  datatype FormatResult = Formatted(text: string) | MissingKey(key: string) | Invalid

  function Prepend(s: string, r: FormatResult): (r': FormatResult)
    ensures r'.Formatted? <==> r.Formatted?
    ensures r'.Formatted? ==> r'.text == s + r.text
    ensures !r.Formatted? ==> r' == r
  {
    match r
    case Formatted(t) => Formatted(s + t)
    case _ => r
  }

  /** Index of the first `}` at or after `i`, or `|t|` when there is none. */
  function CloseBrace(t: string, i: nat): (j: nat)
    requires i <= |t|
    ensures i <= j <= |t|
    ensures forall k :: i <= k < j ==> t[k] != '}'
    ensures j < |t| ==> t[j] == '}'
    decreases |t| - i
  {
    if i == |t| || t[i] == '}' then i else CloseBrace(t, i + 1)
  }

  /** `t.format(**kw)`, scanning left to right as Python does. */
  function Format(t: string, kw: map<string, string>): (r: FormatResult)
    ensures r.MissingKey? ==> IsKey(r.key) && r.key !in kw
    ensures BraceFree(t) ==> r == Formatted(t)
    decreases |t|
  {
    if t == [] then Formatted([])
    else if t[0] == '{' then
      if |t| >= 2 && t[1] == '{' then Prepend("{", Format(t[2..], kw))
      else
        var j := CloseBrace(t, 1);
        if j == |t| then Invalid
        else
          var key := t[1..j];
          if !IsKey(key) then Invalid
          else if key !in kw then MissingKey(key)
          else Prepend(kw[key], Format(t[j + 1..], kw))
    else if t[0] == '}' then
      if |t| >= 2 && t[1] == '}' then Prepend("}", Format(t[2..], kw)) else Invalid
    else
      assert BraceFree(t) ==> BraceFree(t[1..]) by {
        assert forall c :: c in t[1..] ==> c in t;
      }
      Prepend([t[0]], Format(t[1..], kw))
  }

  /** One piece of a catalog template: literal text or a named hole. */
  datatype Piece = Lit(text: string) | Hole(key: string)

  /** Literal text is always allowed; a hole must name a key. */
  predicate WellFormedPiece(p: Piece) {
    p.Hole? ==> IsKey(p.key)
  }

  predicate WellFormed(ps: seq<Piece>) {
    forall i :: 0 <= i < |ps| ==> WellFormedPiece(ps[i])
  }

  /** Literal text as it is written inside a format string: each brace doubled. */
  function EscapeBraces(s: string): (r: string)
    ensures BraceFree(s) ==> r == s
    decreases |s|
  {
    if s == [] then []
    else
      assert BraceFree(s) ==> BraceFree(s[1..]) by {
        assert forall c :: c in s[1..] ==> c in s;
      }
      (if s[0] == '{' then "{{" else if s[0] == '}' then "}}" else [s[0]]) + EscapeBraces(s[1..])
  }

  /** A catalog template: a piece list within the modelled syntax. */
  type Pattern = ps: seq<Piece> | WellFormed(ps) witness []

  /** The template text a piece list stands for. */
  function Unparse(ps: seq<Piece>): string
    decreases |ps|
  {
    if ps == [] then []
    else
      (match ps[0]
       case Lit(s) => EscapeBraces(s)
       case Hole(k) => "{" + k + "}")
      + Unparse(ps[1..])
  }

  /** The names of the holes. */
  function Keys(ps: seq<Piece>): (r: set<string>)
    ensures forall k :: k in r <==> exists i :: 0 <= i < |ps| && ps[i] == Hole(k)
    decreases |ps|
  {
    assert forall i :: 0 < i < |ps| ==> ps[i] == ps[1..][i - 1];
    if ps == [] then {}
    else (if ps[0].Hole? then {ps[0].key} else {}) + Keys(ps[1..])
  }

  /** Filling the holes from `kw`, stopping at the first hole with no value. */
  function Instantiate(ps: seq<Piece>, kw: map<string, string>): (r: FormatResult)
    ensures !r.Invalid?
    ensures r.Formatted? <==> Keys(ps) <= kw.Keys
    ensures r.MissingKey? ==> r.key in Keys(ps) && r.key !in kw
    decreases |ps|
  {
    if ps == [] then Formatted([])
    else
      match ps[0]
      case Lit(s) => Prepend(s, Instantiate(ps[1..], kw))
      case Hole(k) =>
        if k in kw then Prepend(kw[k], Instantiate(ps[1..], kw)) else MissingKey(k)
  }

  /** Only the values of the template's own keys matter: extra keyword
      arguments are ignored. */
  lemma {:induction false} InstantiateLocal(ps: seq<Piece>, kw: map<string, string>, kw': map<string, string>)
    requires forall k :: k in Keys(ps) ==> (k in kw <==> k in kw')
    requires forall k :: k in Keys(ps) && k in kw ==> kw[k] == kw'[k]
    ensures Instantiate(ps, kw) == Instantiate(ps, kw')
    decreases |ps|
  {
    if ps != [] {
      InstantiateLocal(ps[1..], kw, kw');
    }
  }

  lemma PrependPrepend(a: string, b: string, r: FormatResult)
    ensures Prepend(a, Prepend(b, r)) == Prepend(a + b, r)
  {
    if r.Formatted? {
      assert a + (b + r.text) == (a + b) + r.text;
    }
  }

  /** Escaped literal text is copied through unchanged. */
  lemma {:induction false} FormatLiteral(s: string, t: string, kw: map<string, string>)
    ensures Format(EscapeBraces(s) + t, kw) == Prepend(s, Format(t, kw))
    decreases |s|
  {
    if s == [] {
      assert EscapeBraces(s) + t == t;
      assert Prepend(s, Format(t, kw)) == Format(t, kw) by {
        if Format(t, kw).Formatted? {
          assert s + Format(t, kw).text == Format(t, kw).text;
        }
      }
    } else {
      var head := if s[0] == '{' then "{{" else if s[0] == '}' then "}}" else [s[0]];
      var rest := EscapeBraces(s[1..]) + t;
      var u := EscapeBraces(s) + t;
      assert u == head + rest;
      if s[0] == '{' || s[0] == '}' {
        assert u[0] == s[0] && u[1] == s[0] && u[2..] == rest;
      } else {
        assert u[0] == s[0] && u[1..] == rest;
      }
      FormatLiteral(s[1..], t, kw);
      PrependPrepend([s[0]], s[1..], Format(t, kw));
      assert [s[0]] + s[1..] == s;
    }
  }

  /** A `{key}` field is looked up in `kw`. */
  lemma FormatHole(k: string, t: string, kw: map<string, string>)
    requires IsKey(k)
    ensures Format("{" + k + "}" + t, kw)
            == if k in kw then Prepend(kw[k], Format(t, kw)) else MissingKey(k)
  {
    var u := "{" + k + "}" + t;
    assert u[0] == '{';
    assert u[1] == k[0] && IsKeyChar(k[0]);
    var j := CloseBrace(u, 1);
    assert forall i :: 1 <= i < 1 + |k| ==> u[i] == k[i - 1];
    assert u[1 + |k|] == '}';
    assert j == 1 + |k|;
    assert u[1..j] == k;
    assert u[j + 1..] == t;
  }

  /** Formatting the text of a well-formed piece list fills its holes. */
  lemma {:induction false} FormatUnparse(ps: seq<Piece>, kw: map<string, string>)
    requires WellFormed(ps)
    ensures Format(Unparse(ps), kw) == Instantiate(ps, kw)
    decreases |ps|
  {
    if ps != [] {
      assert WellFormedPiece(ps[0]);
      assert WellFormed(ps[1..]) by {
        assert forall i :: 0 <= i < |ps| - 1 ==> ps[1..][i] == ps[i + 1];
      }
      FormatUnparse(ps[1..], kw);
      match ps[0]
      case Lit(s) =>
        FormatLiteral(s, Unparse(ps[1..]), kw);
      case Hole(k) =>
        assert Unparse(ps) == "{" + k + "}" + Unparse(ps[1..]);
        FormatHole(k, Unparse(ps[1..]), kw);
    }
  }

  /** A template whose pieces are all literal text ignores its arguments. */
  lemma NoKeysIgnoresArguments(ps: seq<Piece>, kw: map<string, string>, kw': map<string, string>)
    requires Keys(ps) == {}
    ensures Instantiate(ps, kw) == Instantiate(ps, kw')
    ensures Instantiate(ps, kw).Formatted?
  {
    InstantiateLocal(ps, kw, kw');
  }
}
