/** String operations the handlers and schemas rely on: ASCII case folding
    (`toLowerCase`, the regular-expression `i` flag), `String.prototype.trim`
    and substring search. */
module Text {

  function LowerChar(c: char): char
  {
    if 'A' <= c <= 'Z' then (c as int + 32) as char else c
  }

  function Lower(s: string): (r: string)
    ensures |r| == |s|
  {
    if s == [] then [] else [LowerChar(s[0])] + Lower(s[1..])
  }

  lemma LowerCons(c: char, s: string)
    ensures Lower([c] + s) == [LowerChar(c)] + Lower(s)
  {
    assert ([c] + s)[1..] == s;
  }

  lemma {:induction false} LowerAt(s: string)
    ensures |Lower(s)| == |s|
    ensures forall i :: 0 <= i < |s| ==> Lower(s)[i] == LowerChar(s[i])
  {
    if s != [] {
      LowerAt(s[1..]);
    }
  }

  /** Every character is already lower case. */
  predicate IsLower(s: string)
  {
    forall i :: 0 <= i < |s| ==> LowerChar(s[i]) == s[i]
  }

  lemma LowerIsLower(s: string)
    ensures IsLower(Lower(s))
  {
    LowerAt(s);
  }

  lemma LowerOfLower(s: string)
    requires IsLower(s)
    ensures Lower(s) == s
  {
    LowerAt(s);
  }

  /** Characters removed by `String.prototype.trim`: ECMAScript WhiteSpace and
      LineTerminator. */
  predicate IsSpace(c: char)
  {
    var n := c as int;
    n == 0x09 || n == 0x0A || n == 0x0B || n == 0x0C || n == 0x0D || n == 0x20
    || n == 0xA0 || n == 0x1680 || (0x2000 <= n <= 0x200A) || n == 0x2028
    || n == 0x2029 || n == 0x202F || n == 0x205F || n == 0x3000 || n == 0xFEFF
  }

  function TrimStart(s: string): string
  {
    if s != [] && IsSpace(s[0]) then TrimStart(s[1..]) else s
  }

  lemma {:induction false} TrimStartSpec(s: string)
    ensures |TrimStart(s)| <= |s| && TrimStart(s) == s[|s| - |TrimStart(s)|..]
    ensures TrimStart(s) != [] ==> !IsSpace(TrimStart(s)[0])
    ensures forall i :: 0 <= i < |s| - |TrimStart(s)| ==> IsSpace(s[i])
  {
    if s != [] && IsSpace(s[0]) {
      TrimStartSpec(s[1..]);
      assert s[1..][|s[1..]| - |TrimStart(s)|..] == s[|s| - |TrimStart(s)|..];
    }
  }

  function TrimEnd(s: string): string
  {
    if s != [] && IsSpace(s[|s| - 1]) then TrimEnd(s[..|s| - 1]) else s
  }

  lemma {:induction false} TrimEndSpec(s: string)
    ensures |TrimEnd(s)| <= |s| && TrimEnd(s) == s[..|TrimEnd(s)|]
    ensures TrimEnd(s) != [] ==> !IsSpace(TrimEnd(s)[|TrimEnd(s)| - 1])
    ensures forall i :: |TrimEnd(s)| <= i < |s| ==> IsSpace(s[i])
  {
    if s != [] && IsSpace(s[|s| - 1]) {
      TrimEndSpec(s[..|s| - 1]);
    }
  }

  /** `String.prototype.trim`. */
  function Trim(s: string): string
  {
    TrimEnd(TrimStart(s))
  }

  lemma TrimIdempotent(s: string)
    ensures Trim(Trim(s)) == Trim(s)
  {
    var t := Trim(s);
    TrimStartSpec(s);
    TrimEndSpec(TrimStart(s));
    if t != [] {
      assert TrimStart(t) == t;
      assert TrimEnd(t) == t;
    }
  }

  /** A trimmed lower-case string stays lower case. */
  lemma TrimKeepsLower(s: string)
    requires IsLower(s)
    ensures IsLower(Trim(s))
  {
    var u := TrimStart(s);
    TrimStartSpec(s);
    TrimEndSpec(u);
    assert IsLower(u) by {
      forall i | 0 <= i < |u| ensures LowerChar(u[i]) == u[i] {
        assert u[i] == s[|s| - |u| + i];
      }
    }
    var t := TrimEnd(u);
    forall i | 0 <= i < |t| ensures LowerChar(t[i]) == t[i] {
      assert t[i] == u[i];
    }
  }

  /** `q` occurs in `s` at some position. */
  function IsInfix(q: string, s: string): bool
  {
    q <= s || (s != [] && IsInfix(q, s[1..]))
  }

  lemma {:induction false} IsInfixMeaning(q: string, s: string)
    ensures IsInfix(q, s) <==> exists i :: 0 <= i <= |s| && q <= s[i..]
  {
    if q <= s {
      assert s[0..] == s;
    } else if s == [] {
      forall i | 0 <= i <= |s| ensures !(q <= s[i..]) {
        assert s[i..] == s;
      }
    } else {
      IsInfixMeaning(q, s[1..]);
      if IsInfix(q, s[1..]) {
        var i :| 0 <= i <= |s[1..]| && q <= s[1..][i..];
        assert s[1..][i..] == s[i + 1..];
      } else {
        forall i | 0 <= i <= |s| ensures !(q <= s[i..]) {
          if i > 0 {
            assert s[1..][i - 1..] == s[i..];
          } else {
            assert s[i..] == s;
          }
        }
      }
    }
  }

  /** Case-insensitive equality, as the `i` flag compares ASCII letters. */
  predicate EqualsIgnoreCase(a: string, b: string)
  {
    Lower(a) == Lower(b)
  }

  /** `q` occurs in `s` ignoring ASCII case. */
  predicate ContainsIgnoreCase(s: string, q: string)
  {
    IsInfix(Lower(q), Lower(s))
  }
}
