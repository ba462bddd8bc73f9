/**
 * Placeholder substitution of the translation resolver: every match of the
 * global pattern `{{(\w+)}}` is replaced by the value bound to its word, and
 * a match whose word has no value is kept as it is.
 *
 * The regular expression is modelled by a tokenizer that scans left to
 * right exactly as a global leftmost match does: at each position it either
 * recognises a whole `{{word}}` token or passes one character through.
 */
module Placeholders {
  import opened Wrappers

  /** The `\w` character class. */
  predicate IsWordChar(c: char)
  {
    ('a' <= c <= 'z') || ('A' <= c <= 'Z') || ('0' <= c <= '9') || c == '_'
  }

  predicate IsWord(w: string)
  {
    |w| > 0 && forall i :: 0 <= i < |w| ==> IsWordChar(w[i])
  }

  /** Length of the longest run of word characters at the head of `s` (what a greedy `\w+` takes). */
  function WordRun(s: string): (n: nat)
    ensures n <= |s|
    ensures forall i :: 0 <= i < n ==> IsWordChar(s[i])
    ensures n < |s| ==> !IsWordChar(s[n])
    decreases |s|
  {
    if |s| == 0 || !IsWordChar(s[0]) then 0 else 1 + WordRun(s[1..])
  }

  /** A piece of a template: a character passed through, or a `{{name}}` token. */
  datatype Piece = Char(c: char) | Token(name: string)

  function PieceText(p: Piece): string
  {
    match p
    case Char(c) => [c]
    case Token(w) => "{{" + w + "}}"
  }

  /** The source text of a sequence of pieces. */
  function Unparse(pieces: seq<Piece>): string
  {
    if |pieces| == 0 then "" else PieceText(pieces[0]) + Unparse(pieces[1..])
  }

  /** The word of the token the pattern matches at the very start of `s`, if it matches there. */
  function TokenAt(s: string): (w: Option<string>)
    ensures w.Some? ==> IsWord(w.value) && |w.value| + 4 <= |s|
    ensures w.Some? ==> s[..|w.value| + 4] == "{{" + w.value + "}}"
  {
    if |s| >= 2 && s[0] == '{' && s[1] == '{' then
      var n := WordRun(s[2..]);
      if 0 < n && n + 4 <= |s| && s[n + 2] == '}' && s[n + 3] == '}' then
        assert forall i :: 0 <= i < n ==> s[2..n + 2][i] == s[2..][i];
        Some(s[2..n + 2])
      else None
    else None
  }

  function Tokenize(s: string): seq<Piece>
    decreases |s|
  {
    if |s| == 0 then []
    else
      match TokenAt(s)
      case Some(w) => [Token(w)] + Tokenize(s[|w| + 4..])
      case None => [Char(s[0])] + Tokenize(s[1..])
  }

  /** The text a piece becomes once substituted. */
  function Fill(p: Piece, values: map<string, string>): string
  {
    match p
    case Char(c) => [c]
    case Token(w) => if w in values then values[w] else PieceText(p)
  }

  function Substitute(pieces: seq<Piece>, values: map<string, string>): string
  {
    if |pieces| == 0 then "" else Fill(pieces[0], values) + Substitute(pieces[1..], values)
  }

  /** `replacePlaceholders(str, values)`; `values` is `None` when the caller passed no map. */
  function ReplacePlaceholders(str: string, values: Option<map<string, string>>): (r: string)
    ensures values.None? ==> r == str
  {
    match values
    case None => str
    case Some(v) => Substitute(Tokenize(str), v)
  }

  /** The names of the tokens a template holds. */
  predicate Mentions(pieces: seq<Piece>, name: string)
  {
    exists i :: 0 <= i < |pieces| && pieces[i] == Token(name)
  }

  /** Tokenizing loses nothing: the pieces spell the original string. */
  lemma {:induction false} UnparseTokenize(s: string)
    ensures Unparse(Tokenize(s)) == s
    decreases |s|
  {
    if |s| > 0 {
      match TokenAt(s)
      case Some(w) =>
        UnparseTokenize(s[|w| + 4..]);
        assert s == s[..|w| + 4] + s[|w| + 4..];
      case None =>
        UnparseTokenize(s[1..]);
        assert s == [s[0]] + s[1..];
    }
  }

  /** Every token the tokenizer produces carries a non-empty word, as `\w+` requires. */
  lemma {:induction false} TokensAreWords(s: string)
    ensures forall i :: 0 <= i < |Tokenize(s)| && Tokenize(s)[i].Token? ==> IsWord(Tokenize(s)[i].name)
    decreases |s|
  {
    if |s| > 0 {
      match TokenAt(s)
      case Some(w) =>
        TokensAreWords(s[|w| + 4..]);
        assert Tokenize(s) == [Token(w)] + Tokenize(s[|w| + 4..]);
      case None =>
        TokensAreWords(s[1..]);
        assert Tokenize(s) == [Char(s[0])] + Tokenize(s[1..]);
    }
  }

  /** Substitution with no bound token names leaves the template's text as it is. */
  lemma {:induction false} SubstituteUnbound(pieces: seq<Piece>, values: map<string, string>)
    requires forall name :: Mentions(pieces, name) ==> name !in values
    ensures Substitute(pieces, values) == Unparse(pieces)
    decreases |pieces|
  {
    if |pieces| > 0 {
      forall name | Mentions(pieces[1..], name)
        ensures name !in values
      {
        var i :| 0 <= i < |pieces[1..]| && pieces[1..][i] == Token(name);
        assert pieces[i + 1] == Token(name);
      }
      SubstituteUnbound(pieces[1..], values);
      if pieces[0].Token? {
        assert Mentions(pieces, pieces[0].name);
      }
    }
  }

  /** A placeholder whose name has no value is kept verbatim, so a template none of whose names are bound is unchanged. */
  lemma ReplaceUnboundKeepsText(str: string, values: map<string, string>)
    requires forall name :: Mentions(Tokenize(str), name) ==> name !in values
    ensures ReplacePlaceholders(str, Some(values)) == str
  {
    SubstituteUnbound(Tokenize(str), values);
    UnparseTokenize(str);
  }

  /** An empty value map changes nothing. */
  lemma ReplaceEmptyMap(str: string)
    ensures ReplacePlaceholders(str, Some(map[])) == str
  {
    ReplaceUnboundKeepsText(str, map[]);
  }

  /**
   * The scan misses no match: every character passed through is at a
   * position where the pattern does not match the remaining text.
   * Together with `UnparseTokenize` and `TokensAreWords`, this makes the
   * pieces exactly the global leftmost matches of `{{(\w+)}}`.
   */
  lemma {:induction false} CharsAreNotTokenStarts(s: string)
    ensures forall i :: 0 <= i < |Tokenize(s)| && Tokenize(s)[i].Char? ==> TokenAt(Unparse(Tokenize(s)[i..])).None?
    decreases |s|
  {
    if |s| > 0 {
      var ps := Tokenize(s);
      var rest := if TokenAt(s).Some? then s[|TokenAt(s).value| + 4..] else s[1..];
      CharsAreNotTokenStarts(rest);
      assert ps == [ps[0]] + Tokenize(rest);
      UnparseTokenize(s);
      forall i | 0 <= i < |ps| && ps[i].Char?
        ensures TokenAt(Unparse(ps[i..])).None?
      {
        if i == 0 {
          assert ps[0..] == ps;
        } else {
          assert ps[i..] == Tokenize(rest)[i - 1..];
        }
      }
    }
  }

  /** A `{{w}}` token at the head of a template is recognised as one token, whatever follows it. */
  lemma TokenizeLeadingToken(w: string, rest: string)
    requires IsWord(w)
    ensures Tokenize("{{" + w + "}}" + rest) == [Token(w)] + Tokenize(rest)
  {
    var s := "{{" + w + "}}" + rest;
    var n := WordRun(s[2..]);
    assert forall i :: 0 <= i < |w| ==> s[2..][i] == w[i];
    assert s[2..][|w|] == '}';
    assert n == |w|;
    assert s[2..n + 2] == w;
    assert TokenAt(s) == Some(w);
    assert s[|w| + 4..] == rest;
  }

  /** A template that is exactly one `{{w}}` token is tokenized as that token. */
  lemma TokenizeSingle(w: string)
    requires IsWord(w)
    ensures Tokenize("{{" + w + "}}") == [Token(w)]
  {
    TokenizeLeadingToken(w, "");
    assert "{{" + w + "}}" + "" == "{{" + w + "}}";
  }

  /** The pieces of text that holds no `{`: every character passed through. */
  function PlainPieces(t: string): (pieces: seq<Piece>)
    ensures Unparse(pieces) == t
    decreases |t|
  {
    if |t| == 0 then [] else [Char(t[0])] + PlainPieces(t[1..])
  }

  /** A character other than `{` cannot start a match, so it is passed through. */
  lemma TokenizePassThrough(s: string)
    requires |s| > 0 && s[0] != '{'
    ensures Tokenize(s) == [Char(s[0])] + Tokenize(s[1..])
  {
  }

  /** Text without `{` cannot start a match, so it is passed through character by character. */
  lemma {:induction false} TokenizePlainPrefix(t: string, rest: string)
    requires '{' !in t
    ensures Tokenize(t + rest) == PlainPieces(t) + Tokenize(rest)
    decreases |t|
  {
    var u := t + rest;
    if |t| == 0 {
      assert u == rest;
    } else {
      assert u[0] == t[0] && u[1..] == t[1..] + rest;
      TokenizePassThrough(u);
      TokenizePlainPrefix(t[1..], rest);
    }
  }

  lemma {:induction false} SubstituteConcat(a: seq<Piece>, b: seq<Piece>, values: map<string, string>)
    ensures Substitute(a + b, values) == Substitute(a, values) + Substitute(b, values)
    decreases |a|
  {
    if |a| == 0 {
      assert a + b == b;
    } else {
      assert (a + b)[0] == a[0];
      assert (a + b)[1..] == a[1..] + b;
      SubstituteConcat(a[1..], b, values);
    }
  }

  lemma {:induction false} SubstitutePlain(t: string, values: map<string, string>)
    ensures Substitute(PlainPieces(t), values) == t
    decreases |t|
  {
    if |t| > 0 {
      SubstitutePlain(t[1..], values);
      assert t == [t[0]] + t[1..];
    }
  }

  /** With `{` nowhere else, a template holding one `{{w}}` token is its plain text around that token. */
  lemma TokenizeTokenInText(before: string, w: string, after: string)
    requires IsWord(w) && '{' !in before && '{' !in after
    ensures Tokenize(before + "{{" + w + "}}" + after) == PlainPieces(before) + [Token(w)] + PlainPieces(after)
  {
    var tail := "{{" + w + "}}" + after;
    RegroupToken(before, w, after);
    TokenizePlainPrefix(before, tail);
    TokenizeLeadingToken(w, after);
    TokenizePlain(after);
    Regroup(PlainPieces(before), [Token(w)], PlainPieces(after));
  }

  lemma RegroupToken(before: string, w: string, after: string)
    ensures before + "{{" + w + "}}" + after == before + ("{{" + w + "}}" + after)
  {
  }

  lemma Regroup<T>(a: seq<T>, b: seq<T>, c: seq<T>)
    ensures a + b + c == a + (b + c)
  {
  }

  lemma {:induction false} TokenizePlain(t: string)
    requires '{' !in t
    ensures Tokenize(t) == PlainPieces(t)
    decreases |t|
  {
    if |t| > 0 {
      TokenizePassThrough(t);
      TokenizePlain(t[1..]);
    }
  }

  /**
   * A placeholder inside longer text: with `{` nowhere else, `{{w}}`
   * becomes `values[w]` when `w` has a value and stays `{{w}}` otherwise,
   * and the text around it is kept.
   */
  lemma ReplaceTokenInText(before: string, w: string, after: string, values: map<string, string>)
    requires IsWord(w) && '{' !in before && '{' !in after
    ensures ReplacePlaceholders(before + "{{" + w + "}}" + after, Some(values)) ==
      before + (if w in values then values[w] else "{{" + w + "}}") + after
  {
    TokenizeTokenInText(before, w, after);
    SubstituteConcat(PlainPieces(before) + [Token(w)], PlainPieces(after), values);
    SubstituteConcat(PlainPieces(before), [Token(w)], values);
    SubstitutePlain(before, values);
    SubstitutePlain(after, values);
    assert Substitute([Token(w)], values) == Fill(Token(w), values) + "";
    var filled := if w in values then values[w] else "{{" + w + "}}";
    assert Substitute(PlainPieces(before) + [Token(w)], values) == before + filled;
  }

  /** The role-creation message `✅ Created role: {{name}}` fills in the role's name after its leading text. */
  lemma CreatedRoleMessage(name: string)
    ensures ReplacePlaceholders("\U{2705} Created role: {{name}}", Some(map["name" := name])) == "\U{2705} Created role: " + name
  {
    assert IsWord("name");
    ReplaceTokenInText("\U{2705} Created role: ", "name", "", map["name" := name]);
    assert "\U{2705} Created role: " + "{{" + "name" + "}}" + "" == "\U{2705} Created role: {{name}}";
    assert "\U{2705} Created role: " + name + "" == "\U{2705} Created role: " + name;
  }

  /** `{{w}}` with a value for `w` becomes that value; without one it stays `{{w}}`. */
  lemma ReplaceSingleToken(w: string, values: map<string, string>)
    requires IsWord(w)
    ensures w in values ==> ReplacePlaceholders("{{" + w + "}}", Some(values)) == values[w]
    ensures w !in values ==> ReplacePlaceholders("{{" + w + "}}", Some(values)) == "{{" + w + "}}"
  {
    TokenizeSingle(w);
    assert Substitute([Token(w)], values) == Fill(Token(w), values) + "";
  }
}
