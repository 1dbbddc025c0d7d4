/** The search term handling: the term is escaped so that every regular-expression
    metacharacter stands for itself, and the escaped pattern is then matched
    case-insensitively anywhere inside a field. Only the fragment of regular
    expressions that escaping produces is interpreted here: literal characters and a
    backslash before a metacharacter. Case folding is ASCII only. */
module Patterns {
  import opened Optional

  /** The characters of the class `[.*+?^${}()|[\]\\]` used by the search handler. */
  const MetaChars: string := ".*+?^${}()|[]\\"

  predicate IsMeta(c: char)
  {
    c in MetaChars
  }

  /** `term.replace(/[.*+?^${}()|[\]\\]/g, "\\$&")`: a backslash before each metacharacter. */
  function Escape(term: string): (p: string)
    ensures |term| <= |p| <= 2 * |term|
    ensures (forall k :: 0 <= k < |term| ==> !IsMeta(term[k])) ==> p == term
  {
    if term == [] then []
    else (if IsMeta(term[0]) then ['\\', term[0]] else [term[0]]) + Escape(term[1..])
  }

  /** The text a pattern stands for, when the pattern is made only of plain characters and
      escaped metacharacters; None for any other pattern (an unescaped metacharacter, or a
      backslash before something else), which this model does not interpret. */
  function Literal(p: string): (r: Option<string>)
    ensures r.Some? ==> |r.value| <= |p|
  {
    if p == [] then Some([])
    else if p[0] == '\\' then
      if |p| >= 2 && IsMeta(p[1]) then Prepend(p[1], Literal(p[2..])) else None
    else if IsMeta(p[0]) then None
    else Prepend(p[0], Literal(p[1..]))
  }

  function Prepend(c: char, r: Option<string>): Option<string>
  {
    match r
    case None => None
    case Some(t) => Some([c] + t)
  }

  /** Escaping yields a pattern that stands for exactly the term. */
  lemma {:induction false} EscapeIsLiteral(term: string)
    ensures Literal(Escape(term)) == Some(term)
  {
    if term != [] {
      EscapeIsLiteral(term[1..]);
      var p := Escape(term);
      if IsMeta(term[0]) {
        assert p == ['\\', term[0]] + Escape(term[1..]);
        assert p[2..] == Escape(term[1..]);
      } else {
        assert p == [term[0]] + Escape(term[1..]);
        assert p[1..] == Escape(term[1..]);
      }
      assert term == [term[0]] + term[1..];
    }
  }

  /** Conversely, the escaped term is the only pattern of the fragment that stands for it,
      so a pattern means a literal text exactly when it is that text escaped. */
  lemma {:induction false} LiteralIsEscape(p: string, term: string)
    requires Literal(p) == Some(term)
    ensures p == Escape(term)
  {
    if p != [] {
      if p[0] == '\\' {
        var t :| Literal(p[2..]) == Some(t) && term == [p[1]] + t;
        LiteralIsEscape(p[2..], t);
        assert term[1..] == t;
        assert p == [p[0], p[1]] + p[2..];
      } else {
        var t :| Literal(p[1..]) == Some(t) && term == [p[0]] + t;
        LiteralIsEscape(p[1..], t);
        assert term[1..] == t;
        assert p == [p[0]] + p[1..];
      }
    }
  }

  /** ASCII case folding, standing in for the `i` flag. */
  function Fold(c: char): char
  {
    if 'A' <= c <= 'Z' then (c as int + 32) as char else c
  }

  predicate SameFolded(a: string, b: string)
  {
    |a| == |b| && forall k :: 0 <= k < |a| ==> Fold(a[k]) == Fold(b[k])
  }

  /** The literal text occurs in `text` at position `i`, up to case. */
  ghost predicate OccursAt(text: string, lit: string, i: int)
  {
    0 <= i && i + |lit| <= |text| && SameFolded(text[i..i + |lit|], lit)
  }

  /** The literal text occurs somewhere in `text`, up to case. */
  ghost predicate Occurs(text: string, lit: string)
  {
    exists i :: OccursAt(text, lit, i)
  }

  /** Whether a case-insensitive search for the literal text succeeds: a scan from the left. */
  function ContainsFolded(text: string, lit: string): (b: bool)
    ensures b <==> Occurs(text, lit)
    decreases |text|
  {
    if |lit| <= |text| && SameFolded(text[..|lit|], lit) then
      assert OccursAt(text, lit, 0);
      true
    else if text == [] then false
    else
      var b := ContainsFolded(text[1..], lit);
      assert b ==> exists i :: OccursAt(text, lit, i) by {
        if b {
          var i :| OccursAt(text[1..], lit, i);
          assert text[1..][i..i + |lit|] == text[i + 1..i + 1 + |lit|];
          assert OccursAt(text, lit, i + 1);
        }
      }
      assert (exists i :: OccursAt(text, lit, i)) ==> b by {
        if exists i :: OccursAt(text, lit, i) {
          var i :| OccursAt(text, lit, i);
          assert i != 0;
          assert text[1..][i - 1..i - 1 + |lit|] == text[i..i + |lit|];
          assert OccursAt(text[1..], lit, i - 1);
        }
      }
      b
  }

  /** The store's case-insensitive regular-expression match of a pattern of the fragment
      against a field: it succeeds when the text the pattern stands for occurs in the field. */
  predicate Matches(pattern: string, text: string)
    requires Literal(pattern).Some?
    ensures Matches(pattern, text) <==> Occurs(text, Literal(pattern).value)
  {
    ContainsFolded(text, Literal(pattern).value)
  }

  /** The escaped term matches a text exactly when the term occurs in it, up to case. */
  lemma EscapedMatches(term: string, text: string)
    ensures Literal(Escape(term)).Some?
    ensures Matches(Escape(term), text) <==> Occurs(text, term)
  {
    EscapeIsLiteral(term);
  }
}
