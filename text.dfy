/**
 * The three JavaScript string operations the portal's matching logic is built
 * from: `String.prototype.trim`, `String.prototype.toLowerCase` and
 * `String.prototype.includes`.
 */
module Text {

  /** ECMAScript's WhiteSpace and LineTerminator characters: what `trim` strips. */
  predicate IsWhitespace(c: char) {
    || c == '\t' || c == '\n' || c == '\U{000B}' || c == '\U{000C}' || c == '\r'
    || c == ' ' || c == '\U{00A0}' || c == '\U{1680}'
    || ('\U{2000}' <= c <= '\U{200A}')
    || c == '\U{2028}' || c == '\U{2029}' || c == '\U{202F}' || c == '\U{205F}'
    || c == '\U{3000}' || c == '\U{FEFF}'
  }

  ghost predicate AllWhitespace(s: string) {
    forall i | 0 <= i < |s| :: IsWhitespace(s[i])
  }

  /** Drops leading whitespace. */
  function TrimStart(s: string): (r: string)
    ensures |r| <= |s| && r == s[|s| - |r|..]
    ensures AllWhitespace(s[..|s| - |r|])
    ensures r == [] || !IsWhitespace(r[0])
  {
    if s != [] && IsWhitespace(s[0]) then
      var r := TrimStart(s[1..]);
      assert s[1..][..|s| - 1 - |r|] == s[1..|s| - |r|];
      assert s[1..][|s| - 1 - |r|..] == s[|s| - |r|..];
      WhitespaceCons(s, |s| - |r|);
      r
    else
      s
  }

  /** Drops trailing whitespace. */
  function TrimEnd(s: string): (r: string)
    ensures |r| <= |s| && r == s[..|r|]
    ensures AllWhitespace(s[|r|..])
    ensures r == [] || !IsWhitespace(r[|r| - 1])
  {
    if s != [] && IsWhitespace(s[|s| - 1]) then
      var r := TrimEnd(s[..|s| - 1]);
      WhitespaceSnoc(s, |r|);
      r
    else
      s
  }

  /** A whitespace character followed by a run of whitespace is a run of whitespace. */
  lemma WhitespaceCons(s: string, k: int)
    requires 0 < k <= |s| && IsWhitespace(s[0]) && AllWhitespace(s[1..k])
    ensures AllWhitespace(s[..k])
  {
    forall i | 1 <= i < k ensures IsWhitespace(s[i]) {
      assert s[i] == s[1..k][i - 1];
    }
  }

  /** A run of whitespace followed by a whitespace character is a run of whitespace. */
  lemma WhitespaceSnoc(s: string, k: int)
    requires 0 <= k < |s| && IsWhitespace(s[|s| - 1]) && AllWhitespace(s[..|s| - 1][k..])
    ensures AllWhitespace(s[k..])
  {
    forall i | k <= i < |s| - 1 ensures IsWhitespace(s[i]) {
      assert s[i] == s[..|s| - 1][k..][i - k];
    }
  }

  /** `r` is a slice of `s` with nothing but whitespace before and after it. */
  ghost predicate IsStripped(r: string, s: string) {
    exists a | 0 <= a <= |s| - |r| ::
      r == s[a..a + |r|] && AllWhitespace(s[..a]) && AllWhitespace(s[a + |r|..])
  }

  /**
   * `s.trim()`: the slice of `s` left once whitespace is stripped from both
   * ends. It is empty exactly when `s` is all whitespace.
   */
  function Trim(s: string): (r: string)
    ensures |r| <= |s|
    ensures r == [] || (!IsWhitespace(r[0]) && !IsWhitespace(r[|r| - 1]))
    ensures r == [] <==> AllWhitespace(s)
  {
    var r := TrimEnd(TrimStart(s));
    TrimEmptyIff(s);
    r
  }

  /** `s.trim()` is `s` with its leading and trailing whitespace cut off, and nothing else. */
  lemma TrimIsStripped(s: string)
    ensures IsStripped(Trim(s), s)
  {
    var t := TrimStart(s);
    var a := |s| - |t|;
    var r := TrimEnd(t);
    assert Trim(s) == r;
    assert t == s[a..];
    assert t[|r|..] == s[a + |r|..];
    assert r == s[a..a + |r|];
    StrippedAt(r, s, a);
  }

  /** A witness for `IsStripped`: the slice of `s` at `a` with whitespace on both sides. */
  lemma StrippedAt(r: string, s: string, a: int)
    requires 0 <= a <= |s| - |r| && r == s[a..a + |r|]
    requires AllWhitespace(s[..a]) && AllWhitespace(s[a + |r|..])
    ensures IsStripped(r, s)
  {
  }

  lemma TrimEmptyIff(s: string)
    ensures TrimEnd(TrimStart(s)) == [] <==> AllWhitespace(s)
  {
    var t := TrimStart(s);
    var k := |s| - |t|;
    if TrimEnd(t) == [] {
      assert AllWhitespace(t[0..]);
      assert s[..k] == s;
    } else {
      assert t[0] == s[k];
      assert !IsWhitespace(s[k]);
    }
  }

  /** Lower-cases the ASCII letters A-Z and leaves every other character alone. */
  function LowerChar(c: char): (d: char)
    ensures 'A' <= c <= 'Z' ==> d as int == c as int + 32
    ensures !('A' <= c <= 'Z') ==> d == c
    ensures !('A' <= d <= 'Z')
  {
    if 'A' <= c <= 'Z' then (c as int + 32) as char else c
  }

  /** `s.toLowerCase()`, restricted to ASCII letters. */
  function ToLower(s: string): (r: string)
    ensures |r| == |s|
    ensures forall i | 0 <= i < |s| :: r[i] == LowerChar(s[i])
  {
    seq(|s|, i requires 0 <= i < |s| => LowerChar(s[i]))
  }

  /** `p` appears in `s` starting at index `i`. */
  ghost predicate OccursAt(p: string, s: string, i: int) {
    0 <= i && i + |p| <= |s| && s[i..i + |p|] == p
  }

  /** `p` is a contiguous piece of `s`: the meaning of `s.includes(p)`. */
  ghost predicate IsSubstring(p: string, s: string) {
    exists i :: OccursAt(p, s, i)
  }

  /** `s.includes(p)`, searching from the left. */
  function Includes(s: string, p: string): (b: bool)
    ensures b ==> IsSubstring(p, s)
  {
    if |p| <= |s| && s[..|p|] == p then
      assert OccursAt(p, s, 0);
      true
    else if |p| <= |s| && Includes(s[1..], p) then
      SubstringOfTail(p, s);
      true
    else
      false
  }

  /** An occurrence in `s[1..]` is an occurrence in `s`. */
  lemma SubstringOfTail(p: string, s: string)
    requires s != [] && IsSubstring(p, s[1..])
    ensures IsSubstring(p, s)
  {
    var i :| OccursAt(p, s[1..], i);
    OccursAtShift(p, s, i);
  }

  /** An occurrence one character into `s[1..]` is an occurrence in `s`, and back. */
  lemma OccursAtShift(p: string, s: string, i: int)
    requires s != [] && 0 <= i
    ensures OccursAt(p, s[1..], i) <==> OccursAt(p, s, i + 1)
  {
    if i + |p| <= |s| - 1 {
      assert s[1..][i..i + |p|] == s[i + 1..i + 1 + |p|];
    }
  }

  lemma {:induction false} IncludesIsSubstring(s: string, p: string)
    ensures Includes(s, p) <==> IsSubstring(p, s)
  {
    if |p| <= |s| {
      if s[..|p|] == p {
        assert OccursAt(p, s, 0);
      } else {
        IncludesIsSubstring(s[1..], p);
        if !Includes(s[1..], p) {
          forall i | OccursAt(p, s, i) ensures false {
            if i != 0 {
              OccursAtShift(p, s, i - 1);
            }
          }
        }
      }
    } else {
      forall i | OccursAt(p, s, i) ensures false { }
    }
  }

  /** A string includes whatever is placed in the middle of it. */
  lemma IncludesMiddle(a: string, b: string, c: string)
    ensures Includes(a + b + c, b)
  {
    assert (a + b + c)[|a|..|a| + |b|] == b;
    assert OccursAt(b, a + b + c, |a|);
    IncludesIsSubstring(a + b + c, b);
  }

  /** A string with no whitespace at either end is its own trim. */
  lemma TrimUnchanged(s: string)
    requires s == [] || (!IsWhitespace(s[0]) && !IsWhitespace(s[|s| - 1]))
    ensures Trim(s) == s
  {
  }

  /** A string with no upper-case ASCII letter is its own lower-case form. */
  lemma ToLowerUnchanged(s: string)
    requires forall i | 0 <= i < |s| :: !('A' <= s[i] <= 'Z')
    ensures ToLower(s) == s
  {
  }

  /** Every string includes the empty string, so an empty search term matches everything. */
  lemma EmptyIsIncluded(s: string)
    ensures Includes(s, "")
  {
    assert s[..0] == "";
  }

  /** A non-empty pattern never occurs in the empty string. */
  lemma NothingInEmpty(p: string)
    requires p != []
    ensures !Includes("", p)
  {
  }

  /** A pattern whose first character does not occur in `s` is not included in it. */
  lemma {:induction false} FirstCharMissing(s: string, p: string)
    requires p != [] && p[0] !in s
    ensures !Includes(s, p)
  {
    if |p| <= |s| {
      assert s[..|p|][0] == s[0];
      assert s == [s[0]] + s[1..];
      FirstCharMissing(s[1..], p);
    }
  }

  /** A pattern whose first character does not occur in `s` is not a substring of it. */
  lemma FirstCharMissingSubstring(s: string, p: string)
    requires p != [] && p[0] !in s
    ensures !IsSubstring(p, s)
  {
    forall i | OccursAt(p, s, i) ensures false {
    }
  }

  /** Lower-casing leaves whitespace alone, so lower-casing and trimming commute. */
  lemma {:induction false} TrimToLowerCommute(s: string)
    ensures Trim(ToLower(s)) == ToLower(Trim(s))
  {
    TrimStartToLower(s);
    TrimEndToLower(TrimStart(s));
  }

  /** Lower-casing maps whitespace to itself and nothing else to whitespace. */
  lemma LowerCharWhitespace(c: char)
    ensures IsWhitespace(LowerChar(c)) <==> IsWhitespace(c)
  {
  }

  lemma {:induction false} TrimStartToLower(s: string)
    ensures TrimStart(ToLower(s)) == ToLower(TrimStart(s))
  {
    if s != [] {
      var l := ToLower(s);
      LowerCharWhitespace(s[0]);
      assert l[0] == LowerChar(s[0]);
      assert l[1..] == ToLower(s[1..]);
      if IsWhitespace(s[0]) {
        TrimStartToLower(s[1..]);
      }
    }
  }

  lemma {:induction false} TrimEndToLower(s: string)
    ensures TrimEnd(ToLower(s)) == ToLower(TrimEnd(s))
  {
    if s != [] {
      var l := ToLower(s);
      LowerCharWhitespace(s[|s| - 1]);
      assert l[|s| - 1] == LowerChar(s[|s| - 1]);
      assert l[..|s| - 1] == ToLower(s[..|s| - 1]);
      if IsWhitespace(s[|s| - 1]) {
        TrimEndToLower(s[..|s| - 1]);
      }
    }
  }

  /** Lower-casing distributes over concatenation. */
  lemma ToLowerAppend(a: string, b: string)
    ensures ToLower(a + b) == ToLower(a) + ToLower(b)
  {
  }

  /** Lower-casing does not create spaces. */
  lemma NoSpaceAfterLower(s: string)
    requires ' ' !in s
    ensures ' ' !in ToLower(s)
  {
    forall i | 0 <= i < |s| ensures ToLower(s)[i] != ' ' {
      assert s[i] in s;
    }
  }

  /** Lower-casing twice is lower-casing once. */
  lemma ToLowerIdempotent(s: string)
    ensures ToLower(ToLower(s)) == ToLower(s)
  {
  }
}
