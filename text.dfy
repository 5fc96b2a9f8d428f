/**
 * The two JavaScript string operations the analysis hook relies on:
 * `String.prototype.trim` and `String.prototype.substring`.
 * A `char` here is one Unicode scalar value; JavaScript's UTF-16 code units are not
 * modelled.
 */
module JsText {

  /** The ECMAScript WhiteSpace and LineTerminator code points, which `trim` removes. */
  predicate IsWhitespace(c: char)
  {
    || c == '\t' || c == '\U{000B}' || c == '\U{000C}' || c == ' ' || c == '\U{00A0}' || c == '\U{FEFF}'
    || c == '\n' || c == '\r' || c == '\U{2028}' || c == '\U{2029}'
    // the remaining members of the Unicode category Zs (space separators)
    || c == '\U{1680}' || ('\U{2000}' <= c <= '\U{200A}') || c == '\U{202F}' || c == '\U{205F}' || c == '\U{3000}'
  }

  predicate AllWhitespace(s: string)
  {
    forall i :: 0 <= i < |s| ==> IsWhitespace(s[i])
  }

  /** Neither end of `s` is whitespace. */
  predicate IsTrimmed(s: string)
  {
    s == [] || (!IsWhitespace(s[0]) && !IsWhitespace(s[|s| - 1]))
  }

  /**
   * `String.prototype.trim`: `s` with its leading and trailing whitespace removed,
   * one character at a time from the front, then from the back.
   */
  function Trim(s: string): string
    decreases |s|
  {
    if s != [] && IsWhitespace(s[0]) then Trim(s[1..])
    else if s != [] && IsWhitespace(s[|s| - 1]) then Trim(s[..|s| - 1])
    else s
  }

  /** What `Trim` returns has no whitespace at either end and is no longer than its input. */
  lemma {:induction false} TrimIsTrimmed(s: string)
    ensures IsTrimmed(Trim(s)) && |Trim(s)| <= |s|
    decreases |s|
  {
    if s != [] && IsWhitespace(s[0]) {
      TrimIsTrimmed(s[1..]);
    } else if s != [] && IsWhitespace(s[|s| - 1]) {
      TrimIsTrimmed(s[..|s| - 1]);
    }
  }

  /** How many whitespace characters `s` starts with. */
  function LeadingWhitespace(s: string): nat
    decreases |s|
  {
    if s != [] && IsWhitespace(s[0]) then 1 + LeadingWhitespace(s[1..]) else 0
  }

  /**
   * What `Trim` returns is the contiguous piece of `s` that starts after its leading
   * whitespace and has only whitespace after it.
   */
  lemma {:induction false} TrimIsInfix(s: string)
    ensures var r, start := Trim(s), LeadingWhitespace(s);
      && start + |r| <= |s| && r == s[start..start + |r|]
      && AllWhitespace(s[..start]) && AllWhitespace(s[start + |r|..])
    decreases |s|
  {
    var r := Trim(s);
    if s != [] && IsWhitespace(s[0]) {
      TrimIsInfix(s[1..]);
      InfixAfterWhitespace(s, LeadingWhitespace(s[1..]), |r|);
    } else if s != [] && IsWhitespace(s[|s| - 1]) {
      var t := s[..|s| - 1];
      TrimIsInfix(t);
      assert LeadingWhitespace(t) == 0 by {
        if t != [] {
          assert t[0] == s[0];
        }
      }
      InfixBeforeWhitespace(s, 0, |r|);
    } else {
      assert s[..0] == [] && s[|r|..] == [];
    }
  }

  /** An infix of `s[1..]` surrounded by whitespace is one of `s` when `s` starts with whitespace. */
  lemma InfixAfterWhitespace(s: string, start: nat, len: nat)
    requires s != [] && IsWhitespace(s[0])
    requires var t := s[1..]; start + len <= |t| && AllWhitespace(t[..start]) && AllWhitespace(t[start + len..])
    ensures s[start + 1..start + 1 + len] == s[1..][start..start + len]
    ensures AllWhitespace(s[..start + 1]) && AllWhitespace(s[start + 1 + len..])
  {
    var t := s[1..];
    var inS, inT := s[start + 1..start + 1 + len], t[start..start + len];
    forall k | 0 <= k < len ensures inS[k] == inT[k] {
      assert s[start + 1 + k] == t[start + k];
    }
    assert inS == inT;
    assert s[start + 1 + len..] == t[start + len..];
    assert s[..start + 1] == [s[0]] + t[..start];
    WhitespaceCons(s[0], t[..start]);
  }

  /** An infix of `s[..|s| - 1]` surrounded by whitespace is one of `s` when `s` ends with whitespace. */
  lemma InfixBeforeWhitespace(s: string, start: nat, len: nat)
    requires s != [] && IsWhitespace(s[|s| - 1])
    requires var t := s[..|s| - 1]; start + len <= |t| && AllWhitespace(t[..start]) && AllWhitespace(t[start + len..])
    ensures s[start..start + len] == s[..|s| - 1][start..start + len]
    ensures AllWhitespace(s[..start]) && AllWhitespace(s[start + len..])
  {
    var t := s[..|s| - 1];
    var inS, inT := s[start..start + len], t[start..start + len];
    forall k | 0 <= k < len ensures inS[k] == inT[k] {
      assert s[start + k] == t[start + k];
    }
    assert inS == inT;
    assert s[..start] == t[..start];
    assert s[start + len..] == t[start + len..] + [s[|s| - 1]];
    WhitespaceSnoc(t[start + len..], s[|s| - 1]);
  }

  lemma WhitespaceCons(c: char, t: string)
    requires IsWhitespace(c) && AllWhitespace(t)
    ensures AllWhitespace([c] + t)
  {
    forall i | 0 <= i < |t| + 1 ensures IsWhitespace(([c] + t)[i]) {
      if i > 0 {
        assert ([c] + t)[i] == t[i - 1];
      }
    }
  }

  lemma WhitespaceSnoc(t: string, c: char)
    requires AllWhitespace(t) && IsWhitespace(c)
    ensures AllWhitespace(t + [c])
  {
    forall i | 0 <= i < |t| + 1 ensures IsWhitespace((t + [c])[i]) {
      if i < |t| {
        assert (t + [c])[i] == t[i];
      }
    }
  }

  /**
   * `Trim` is exactly the operation that strips whitespace from both ends:
   * wrapping a trimmed string in whitespace and trimming gives it back.
   * With `TrimIsTrimmed` and `TrimIsInfix` this characterises it completely.
   */
  lemma {:induction false} TrimStripsPadding(a: string, r: string, b: string)
    requires AllWhitespace(a) && IsTrimmed(r) && AllWhitespace(b)
    ensures Trim(a + r + b) == r
    decreases |a| + |b|
  {
    var s := a + r + b;
    if a != [] {
      assert s[0] == a[0];
      assert s[1..] == a[1..] + r + b;
      assert AllWhitespace(a[1..]) by {
        forall i | 0 <= i < |a| - 1 ensures IsWhitespace(a[1..][i]) {
          assert a[1..][i] == a[i + 1];
        }
      }
      TrimStripsPadding(a[1..], r, b);
    } else if r == [] && b != [] {
      assert s == [] + [] + b;
      assert s[0] == b[0];
      assert s[1..] == [] + [] + b[1..];
      assert AllWhitespace(b[1..]) by {
        forall i | 0 <= i < |b| - 1 ensures IsWhitespace(b[1..][i]) {
          assert b[1..][i] == b[i + 1];
        }
      }
      TrimStripsPadding([], [], b[1..]);
    } else if b != [] {
      assert s[0] == r[0];
      assert s[|s| - 1] == b[|b| - 1];
      assert s[..|s| - 1] == [] + r + b[..|b| - 1];
      var init := b[..|b| - 1];
      assert AllWhitespace(init) by {
        forall i | 0 <= i < |init| ensures IsWhitespace(init[i]) {
          assert init[i] == b[i];
        }
      }
      TrimStripsPadding([], r, init);
    } else {
      assert s == r;
    }
  }

  /** Trimming twice is trimming once. */
  lemma TrimIdempotent(s: string)
    ensures Trim(Trim(s)) == Trim(s)
  {
    var r := Trim(s);
    TrimIsTrimmed(s);
    TrimStripsPadding([], r, []);
    assert [] + r + [] == r;
  }

  /** ECMAScript's clamping of a `substring` index into `[0, len]`. */
  function ClampIndex(x: int, len: nat): (c: nat)
    ensures c <= len
    ensures 0 <= x <= len ==> c == x
  {
    if x < 0 then 0 else if x > len then len else x
  }

  /**
   * `String.prototype.substring(start, end)` with integer arguments: both indices are
   * clamped into the string and the smaller one is the start.
   */
  function Substring(s: string, start: int, end: int): (r: string)
    ensures |r| <= |s|
    ensures 0 <= start <= end <= |s| ==> r == s[start..end]
  {
    var a, b := ClampIndex(start, |s|), ClampIndex(end, |s|);
    if a <= b then s[a..b] else s[b..a]
  }

  /** `substring(0, n)` keeps exactly the first `min(|s|, n)` characters. */
  lemma SubstringFromZero(s: string, n: nat)
    ensures Substring(s, 0, n) <= s
    ensures |Substring(s, 0, n)| == if |s| < n then |s| else n
  {
  }

  /** `substring` does not care about the order of its two indices. */
  lemma SubstringSymmetric(s: string, start: int, end: int)
    ensures Substring(s, start, end) == Substring(s, end, start)
  {
  }
}
