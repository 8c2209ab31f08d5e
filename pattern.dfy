/** The regular expressions the handlers hand to the document store.

    The search handlers escape the query with
    `query.replace(/[.*+?^${}()|[\]\\]/g, '\\$&')`, which puts a backslash in
    front of every SyntaxCharacter of ECMA-262 (section 22.2.1, Patterns).
    Booking builds `^<name>$` from the department name WITHOUT escaping it.

    Only the literal fragment of the pattern language is given a meaning here:
    patterns made of ordinary characters and escaped syntax characters,
    optionally anchored at both ends. The store evaluates them case-insensitively
    (`i` flag, ASCII folding). Any other pattern is left to an `Engine`. */
module Pattern {
  import opened Common
  import opened Text

  /** SyntaxCharacter of ECMA-262 section 22.2.1: ^ $ \ . * + ? ( ) [ ] { } | */
  predicate IsSyntaxChar(c: char)
  {
    c == '^' || c == '$' || c == '\\' || c == '.' || c == '*' || c == '+' || c == '?'
    || c == '(' || c == ')' || c == '[' || c == ']' || c == '{' || c == '}' || c == '|'
  }

  predicate MetaFree(s: string)
  {
    forall i :: 0 <= i < |s| ==> !IsSyntaxChar(s[i])
  }

  function MetaCount(s: string): nat
  {
    if s == [] then 0 else (if IsSyntaxChar(s[0]) then 1 else 0) + MetaCount(s[1..])
  }

  function EscapeChar(c: char): string
  {
    if IsSyntaxChar(c) then ['\\', c] else [c]
  }

  /** The search handlers' escape: a backslash before each syntax character,
      every other character unchanged. */
  function Escape(q: string): (r: string)
    ensures |r| == |q| + MetaCount(q)
  {
    if q == [] then [] else EscapeChar(q[0]) + Escape(q[1..])
  }

  /** Drops the backslash of every escape sequence `\c`. */
  function StripEscapes(s: string): string
  {
    if |s| >= 2 && s[0] == '\\' then [s[1]] + StripEscapes(s[2..])
    else if s == [] then []
    else [s[0]] + StripEscapes(s[1..])
  }

  lemma StripEscapeChar(c: char, rest: string)
    ensures StripEscapes(EscapeChar(c) + rest) == [c] + StripEscapes(rest)
  {
    if IsSyntaxChar(c) {
      assert (['\\', c] + rest)[2..] == rest;
    } else {
      assert ([c] + rest)[1..] == rest;
    }
  }

  lemma {:induction false} StripEscapesOfEscape(q: string)
    ensures StripEscapes(Escape(q)) == q
  {
    if q != [] {
      StripEscapesOfEscape(q[1..]);
      StripEscapeChar(q[0], Escape(q[1..]));
      assert q == [q[0]] + q[1..];
    }
  }

  /** Two different queries never give the same pattern. */
  lemma EscapeInjective(a: string, b: string)
    requires Escape(a) == Escape(b)
    ensures a == b
  {
    StripEscapesOfEscape(a);
    StripEscapesOfEscape(b);
  }

  /** A query without syntax characters is passed through unchanged. */
  lemma {:induction false} EscapeIdentity(q: string)
    requires MetaFree(q)
    ensures Escape(q) == q
  {
    if q != [] {
      assert MetaFree(q[1..]) by {
        forall i | 0 <= i < |q[1..]| ensures !IsSyntaxChar(q[1..][i]) {
          assert q[1..][i] == q[i + 1];
        }
      }
      EscapeIdentity(q[1..]);
      assert !IsSyntaxChar(q[0]);
      assert q == [q[0]] + q[1..];
    }
  }

  datatype Token = Lit(c: char) | Caret | Dollar

  function Cons(t: Token, rest: Option<seq<Token>>): Option<seq<Token>>
  {
    match rest
    case None => None
    case Some(ts) => Some([t] + ts)
  }

  function Prefix(ts: seq<Token>, rest: Option<seq<Token>>): Option<seq<Token>>
  {
    match rest
    case None => None
    case Some(us) => Some(ts + us)
  }

  /** Splits a pattern of the literal fragment into tokens; None for anything
      else (an unescaped quantifier, group, class or alternation, or an escape
      of an ordinary character such as `\d`). */
  function Tokenize(p: string): Option<seq<Token>>
  {
    if p == [] then Some([])
    else if p[0] == '\\' then
      if |p| >= 2 && IsSyntaxChar(p[1]) then Cons(Lit(p[1]), Tokenize(p[2..])) else None
    else if p[0] == '^' then Cons(Caret, Tokenize(p[1..]))
    else if p[0] == '$' then Cons(Dollar, Tokenize(p[1..]))
    else if IsSyntaxChar(p[0]) then None
    else Cons(Lit(p[0]), Tokenize(p[1..]))
  }

  /** One literal token per character of `s`. */
  function Lits(s: string): seq<Token>
  {
    seq(|s|, i requires 0 <= i < |s| => Lit(s[i]))
  }

  predicate AllLit(ts: seq<Token>)
  {
    forall i :: 0 <= i < |ts| ==> ts[i].Lit?
  }

  function Chars(ts: seq<Token>): string
    requires AllLit(ts)
  {
    seq(|ts|, i requires 0 <= i < |ts| && AllLit(ts) => ts[i].c)
  }

  /** What a pattern of the fragment looks for: `text` anywhere in the
      subject, or the whole subject (`^text$`). */
  datatype Literal = Infix(text: string) | Whole(text: string)

  function Compile(p: string): Option<Literal>
  {
    match Tokenize(p)
    case None => None
    case Some(ts) =>
      if AllLit(ts) then Some(Infix(Chars(ts)))
      else if |ts| >= 2 && ts[0] == Caret && ts[|ts| - 1] == Dollar && AllLit(ts[1..|ts| - 1])
      then Some(Whole(Chars(ts[1..|ts| - 1])))
      else None
  }

  /** Whether the store's engine finds the literal in `subject` under the `i`
      flag. The store's `$` also matches just before a final newline. */
  predicate Matches(lit: Literal, subject: string)
  {
    match lit
    case Infix(t) => ContainsIgnoreCase(subject, t)
    case Whole(t) => EqualsIgnoreCase(subject, t) || EqualsIgnoreCase(subject, t + "\n")
  }

  /** The store's regular-expression engine on patterns outside the literal
      fragment: whether a pattern compiles, and whether it matches a subject.
      Its code is not part of this model. */
  datatype Engine = Engine(accepts: string -> bool, test: (string, string) -> bool)

  lemma TokenizePlain(c: char, tail: string)
    requires !IsSyntaxChar(c)
    ensures Tokenize([c] + tail) == Cons(Lit(c), Tokenize(tail))
  {
    assert ([c] + tail)[1..] == tail;
  }

  lemma TokenizeEscaped(c: char, tail: string)
    requires IsSyntaxChar(c)
    ensures Tokenize(['\\', c] + tail) == Cons(Lit(c), Tokenize(tail))
  {
    assert (['\\', c] + tail)[2..] == tail;
  }

  lemma EscapeCharTokens(c: char, tail: string)
    ensures Tokenize(EscapeChar(c) + tail) == Cons(Lit(c), Tokenize(tail))
  {
    if IsSyntaxChar(c) {
      TokenizeEscaped(c, tail);
    } else {
      TokenizePlain(c, tail);
    }
  }

  lemma ConsPrefix(t: Token, ts: seq<Token>, rest: Option<seq<Token>>)
    ensures Cons(t, Prefix(ts, rest)) == Prefix([t] + ts, rest)
  {
    match rest {
      case None =>
      case Some(us) => assert [t] + (ts + us) == ([t] + ts) + us;
    }
  }

  lemma PrefixEmpty(rest: Option<seq<Token>>)
    ensures Prefix([], rest) == rest
  {
    match rest {
      case None =>
      case Some(us) => assert [] + us == us;
    }
  }

  lemma {:induction false} TokenizeEscape(q: string, rest: string)
    ensures Tokenize(Escape(q) + rest) == Prefix(Lits(q), Tokenize(rest))
  {
    if q == [] {
      assert Escape(q) + rest == rest;
      assert Lits(q) == [];
      PrefixEmpty(Tokenize(rest));
    } else {
      var tail := Escape(q[1..]) + rest;
      TokenizeEscape(q[1..], rest);
      assert Escape(q) + rest == EscapeChar(q[0]) + tail;
      EscapeCharTokens(q[0], tail);
      ConsPrefix(Lit(q[0]), Lits(q[1..]), Tokenize(rest));
      assert Lits(q) == [Lit(q[0])] + Lits(q[1..]);
    }
  }

  lemma CharsOfLits(s: string)
    ensures AllLit(Lits(s)) && Chars(Lits(s)) == s
  {
  }

  /** An escaped query is a plain literal: it matches exactly the subjects that
      contain the query, ignoring case. */
  lemma CompileEscape(q: string)
    ensures Compile(Escape(q)) == Some(Infix(q))
  {
    TokenizeEscape(q, []);
    assert Escape(q) + [] == Escape(q);
    assert Tokenize([]) == Some([]);
    assert Lits(q) + [] == Lits(q);
    CharsOfLits(q);
  }

  /** `^` + Escape(name) + `$` matches exactly the subjects equal to `name`
      ignoring case (or followed by one final newline). */
  lemma CompileAnchoredEscape(name: string)
    ensures Compile("^" + Escape(name) + "$") == Some(Whole(name))
  {
    var p := "^" + Escape(name) + "$";
    TokenizeEscape(name, "$");
    assert "$"[1..] == [];
    assert Tokenize("$") == Cons(Dollar, Tokenize([]));
    assert [Dollar] + [] == [Dollar];
    assert p[1..] == Escape(name) + "$";
    assert Tokenize(p) == Cons(Caret, Tokenize(p[1..]));
    var ts := [Caret] + (Lits(name) + [Dollar]);
    assert Tokenize(p) == Some(ts);
    assert !AllLit(ts) by { assert !ts[0].Lit?; }
    assert ts[1..|ts| - 1] == Lits(name);
    CharsOfLits(name);
  }

  /** A department name without syntax characters compiles to a whole-string
      literal, although it is not escaped. */
  lemma CompileAnchoredMetaFree(name: string)
    requires MetaFree(name)
    ensures Compile("^" + name + "$") == Some(Whole(name))
  {
    EscapeIdentity(name);
    CompileAnchoredEscape(name);
  }

  /** The pattern `^Cardio.*$` is not in the literal fragment. */
  lemma StarLeavesFragment()
    ensures Tokenize("^" + "Cardio.*" + "$") == None
  {
    var p := "^" + "Cardio.*" + "$";
    assert MetaFree("Cardio") by {
      forall i | 0 <= i < 6 ensures !IsSyntaxChar("Cardio"[i]) {
      }
    }
    EscapeIdentity("Cardio");
    TokenizeEscape("Cardio", ".*$");
    assert Tokenize(".*$") == None;
    assert p[1..] == "Cardio" + ".*$";
  }

  /** An unescaped `.*` inside a department name leaves the literal fragment:
      the store treats it as an operator, where escaping would have made it
      literal text. */
  lemma UnescapedOperatorsStayOperators()
    ensures Compile("^" + "Cardio.*" + "$").None?
    ensures Compile("^" + Escape("Cardio.*") + "$") == Some(Whole("Cardio.*"))
  {
    StarLeavesFragment();
    CompileAnchoredEscape("Cardio.*");
  }
}
