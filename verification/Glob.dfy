/**
 Model globs. A glob is compiled to the text of an anchored regular expression,
 and that text is read back by the expression syntax's own rules; the language it
 denotes is compared with the glob relation defined without expressions.
 */
module Glob {
  import opened Options

  // ---- What a glob means ----

  /** What one character of a pattern may stand for: "*" any run and "?" one character, newlines excluded. */
  predicate Fits(c: char, part: string) {
    if c == '*' then '\n' !in part
    else if c == '?' then |part| == 1 && part[0] != '\n'
    else part == [c]
  }

  function Flat(parts: seq<string>): string {
    if parts == [] then "" else parts[0] + Flat(parts[1..])
  }

  ghost predicate Splits(pattern: string, parts: seq<string>, name: string) {
    && |parts| == |pattern|
    && Flat(parts) == name
    && forall i | 0 <= i < |pattern| :: Fits(pattern[i], parts[i])
  }

  /** The whole name is the pattern's characters, each stood for by a part of it. */
  ghost predicate Denotes(pattern: string, name: string) {
    exists parts :: Splits(pattern, parts, name)
  }

  // ---- Compiling a glob ----

  /** The characters with a meaning of their own in an expression. */
  predicate IsMeta(c: char) {
    c in "\\.+*?()|[]{}^$"
  }

  /** regexp.QuoteMeta of one character. */
  function QuoteMeta(c: char): string {
    if IsMeta(c) then ['\\', c] else [c]
  }

  function Piece(c: char): string {
    if c == '*' then ".*" else if c == '?' then "." else QuoteMeta(c)
  }

  function Pieces(pattern: string): string {
    if pattern == "" then "" else Piece(pattern[0]) + Pieces(pattern[1..])
  }

  function Expression(pattern: string): string {
    "^" + Pieces(pattern) + "$"
  }

  lemma {:induction false} PiecesAppend(p: string, c: char)
    ensures Pieces(p + [c]) == Pieces(p) + Piece(c)
  {
    if p == "" {
      assert p + [c] == [c];
    } else {
      assert (p + [c])[1..] == p[1..] + [c];
      PiecesAppend(p[1..], c);
    }
  }

  method CompileGlob(pattern: string) returns (expr: string)
    ensures expr == Expression(pattern)
    ensures forall name :: Matches(expr, name) <==> Denotes(pattern, name)
  {
    expr := "^";
    for i := 0 to |pattern|
      invariant expr == "^" + Pieces(pattern[..i])
    {
      var c := pattern[i];
      assert pattern[..i + 1] == pattern[..i] + [c];
      PiecesAppend(pattern[..i], c);
      if c == '*' {
        expr := expr + ".*";
      } else if c == '?' {
        expr := expr + ".";
      } else {
        expr := expr + QuoteMeta(c);
      }
    }
    assert pattern[..|pattern|] == pattern;
    expr := expr + "$";
    forall name ensures Matches(expr, name) <==> Denotes(pattern, name) {
      CompiledMeansGlob(pattern, name);
    }
  }

  // ---- What an expression means ----

  datatype Atom = Literal(c: char) | AnyOne | AnyRun

  /**
   Reads the body of an anchored expression made of literals, escapes, "." and ".*"; anything
   else is not of this form.
   */
  function ParseBody(body: string): Option<seq<Atom>>
    decreases |body|
  {
    if body == "" then Some([])
    else if body[0] == '\\' then
      if |body| >= 2 && IsMeta(body[1]) then Cons(Literal(body[1]), ParseBody(body[2..])) else None
    else if body[0] == '.' then
      if |body| >= 2 && body[1] == '*' then Cons(AnyRun, ParseBody(body[2..])) else Cons(AnyOne, ParseBody(body[1..]))
    else if IsMeta(body[0]) then None
    else Cons(Literal(body[0]), ParseBody(body[1..]))
  }

  function Cons(a: Atom, rest: Option<seq<Atom>>): Option<seq<Atom>> {
    match rest
    case None => None
    case Some(atoms) => Some([a] + atoms)
  }

  predicate MatchesAtoms(atoms: seq<Atom>, s: string)
    decreases |atoms| + |s|
  {
    if atoms == [] then s == ""
    else
      match atoms[0]
      case Literal(c) => s != "" && s[0] == c && MatchesAtoms(atoms[1..], s[1..])
      case AnyOne => s != "" && s[0] != '\n' && MatchesAtoms(atoms[1..], s[1..])
      case AnyRun =>
        MatchesAtoms(atoms[1..], s) || (s != "" && s[0] != '\n' && MatchesAtoms(atoms, s[1..]))
  }

  /** An anchored expression matches the whole of s. */
  predicate Matches(expr: string, s: string) {
    && |expr| >= 2 && expr[0] == '^' && expr[|expr| - 1] == '$'
    && var atoms := ParseBody(expr[1..|expr| - 1]);
       atoms.Some? && MatchesAtoms(atoms.value, s)
  }

  // ---- The compiled expression means the glob ----

  function AtomsOf(pattern: string): seq<Atom> {
    if pattern == "" then []
    else
      [if pattern[0] == '*' then AnyRun else if pattern[0] == '?' then AnyOne else Literal(pattern[0])]
      + AtomsOf(pattern[1..])
  }

  /** Every pattern compiles, and no character of it gains a meaning it does not have in a glob. */
  lemma {:induction false} PiecesParse(pattern: string)
    ensures ParseBody(Pieces(pattern)) == Some(AtomsOf(pattern))
    ensures Pieces(pattern) == "" || Pieces(pattern)[0] != '*'
  {
    if pattern != "" {
      PiecesParse(pattern[1..]);
      var c, rest := pattern[0], Pieces(pattern[1..]);
      var body := Piece(c) + rest;
      if c == '*' || (c != '?' && IsMeta(c)) {
        assert body[2..] == rest;
      } else {
        assert body[1..] == rest;
      }
    }
  }

  lemma CompiledMeansGlob(pattern: string, name: string)
    ensures Matches(Expression(pattern), name) <==> Denotes(pattern, name)
  {
    var e := Expression(pattern);
    assert e[1..|e| - 1] == Pieces(pattern);
    PiecesParse(pattern);
    if MatchesAtoms(AtomsOf(pattern), name) {
      var parts := Divide(pattern, name);
    }
    forall parts | Splits(pattern, parts, name) ensures MatchesAtoms(AtomsOf(pattern), name) {
      SplitsMatch(pattern, parts, name);
    }
  }

  /** A match yields the parts. */
  lemma {:induction false} Divide(pattern: string, name: string) returns (parts: seq<string>)
    requires MatchesAtoms(AtomsOf(pattern), name)
    ensures Splits(pattern, parts, name)
    decreases |pattern| + |name|
  {
    if pattern == "" {
      parts := [];
    } else {
      var c := pattern[0];
      assert AtomsOf(pattern)[1..] == AtomsOf(pattern[1..]);
      if c == '*' && !MatchesAtoms(AtomsOf(pattern[1..]), name) {
        var longer := Divide(pattern, name[1..]);
        parts := [[name[0]] + longer[0]] + longer[1..];
        assert Flat(parts) == [name[0]] + Flat(longer);
      } else {
        var first := if c == '*' then "" else [name[0]];
        var rest := Divide(pattern[1..], name[|first|..]);
        parts := [first] + rest;
        assert Flat(parts) == first + Flat(rest);
        assert Fits(c, first);
      }
    }
  }

  lemma {:induction false} SplitsMatch(pattern: string, parts: seq<string>, name: string)
    requires Splits(pattern, parts, name)
    ensures MatchesAtoms(AtomsOf(pattern), name)
    decreases |pattern| + |name|
  {
    if pattern != "" {
      var c := pattern[0];
      assert AtomsOf(pattern)[1..] == AtomsOf(pattern[1..]);
      assert Fits(c, parts[0]);
      if c == '*' && parts[0] != "" {
        var shorter := [parts[0][1..]] + parts[1..];
        assert shorter[1..] == parts[1..];
        assert Flat(shorter) == name[1..];
        SplitsMatch(pattern, shorter, name[1..]);
      } else {
        assert name[|parts[0]|..] == Flat(parts[1..]);
        SplitsMatch(pattern[1..], parts[1..], name[|parts[0]|..]);
      }
    }
  }

  /** The glob "*" alone denotes every name without a newline. */
  lemma StarDenotes(name: string)
    ensures Denotes("*", name) <==> '\n' !in name
  {
    if '\n' !in name {
      assert Flat([name]) == name + Flat([]);
      assert Splits("*", [name], name);
    }
    forall parts | Splits("*", parts, name) ensures '\n' !in name {
      assert parts == [parts[0]];
      assert Flat(parts) == parts[0] + Flat([]);
      assert Fits("*"[0], parts[0]);
    }
  }
}
