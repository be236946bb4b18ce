/** Strings as the segmentation engine sees them: sequences of characters, with
    JavaScript's white-space class, String.prototype.trim, split on one
    character and Array.prototype.join with one character. */
module Strings {
  import opened Seqs

  type String = seq<char>

  /** JavaScript's white space (the `\s` class of a regular expression, and what
      `trim()` removes): the WhiteSpace code points (tab, vertical tab, form
      feed, space, no-break space, zero-width no-break space), the Zs category
      and the LineTerminator code points (line feed, carriage return, line
      and paragraph separators), tested by code-point range. */
  predicate IsWs(c: char) {
    if c <= ' ' then c == ' ' || '\t' <= c <= '\r'
    else if c < '\U{A0}' then false
    else if c < '\U{2000}' then c == '\U{A0}' || c == '\U{1680}'
    else if c <= '\U{200A}' then true
    else if c < '\U{3000}' then c == '\U{2028}' || c == '\U{2029}' || c == '\U{202F}' || c == '\U{205F}'
    else c == '\U{3000}' || c == '\U{FEFF}'
  }

  /** The characters the regular-expression `.` does not match. */
  predicate IsLineTerminator(c: char) {
    c == '\n' || c == '\r' || c == '\U{2028}' || c == '\U{2029}'
  }

  predicate AllWs(s: String) {
    forall i :: 0 <= i < |s| ==> IsWs(s[i])
  }

  /** A string that `trim()` leaves alone: empty, or bordered by non-white space. */
  predicate IsTrimmed(s: String) {
    s == [] || (!IsWs(s[0]) && !IsWs(s[|s| - 1]))
  }

  /** Number of leading white-space characters. */
  function Lead(s: String): (n: nat)
    ensures n <= |s|
  {
    if |s| > 0 && IsWs(s[0]) then 1 + Lead(s[1..]) else 0
  }

  /** Number of trailing white-space characters. */
  function Trail(s: String): (n: nat)
    ensures n <= |s|
  {
    if |s| > 0 && IsWs(s[|s| - 1]) then 1 + Trail(s[..|s| - 1]) else 0
  }

  /** `Lead` counts the longest white-space prefix: the prefix is all white
      space and the next character, if any, is not. */
  lemma {:induction false} LeadSpec(s: String)
    ensures forall i :: 0 <= i < Lead(s) ==> IsWs(s[i])
    ensures Lead(s) < |s| ==> !IsWs(s[Lead(s)])
  {
    if |s| > 0 && IsWs(s[0]) {
      var rest := s[1..];
      LeadSpec(rest);
      forall i | 1 <= i < Lead(s) ensures IsWs(s[i]) {
        assert s[i] == rest[i - 1];
      }
      assert Lead(s) < |s| ==> s[Lead(s)] == rest[Lead(rest)];
    }
  }

  /** `Trail` counts the longest white-space suffix. */
  lemma {:induction false} TrailSpec(s: String)
    ensures forall i :: |s| - Trail(s) <= i < |s| ==> IsWs(s[i])
    ensures Trail(s) < |s| ==> !IsWs(s[|s| - Trail(s) - 1])
  {
    if |s| > 0 && IsWs(s[|s| - 1]) {
      var init := s[..|s| - 1];
      TrailSpec(init);
      forall i | |s| - Trail(s) <= i < |s| - 1 ensures IsWs(s[i]) {
        assert s[i] == init[i];
      }
    }
  }

  /** Unless `s` is all white space, its leading and trailing white space are
      apart. */
  lemma LeadTrailApart(s: String)
    requires Lead(s) < |s|
    ensures Lead(s) + Trail(s) < |s|
  {
    LeadSpec(s);
    TrailSpec(s);
  }

  /** String.prototype.trim: what is left once the leading and the trailing
      white space are removed (nothing, when `s` is all white space). The
      result is itself trimmed. */
  function Trim(s: String): (r: String)
    ensures IsTrimmed(r)
  {
    if Lead(s) == |s| then []
    else
      LeadSpec(s);
      TrailSpec(s);
      LeadTrailApart(s);
      s[Lead(s)..|s| - Trail(s)]
  }

  /** Every character of `s` from `i` up to `j` is white space. */
  predicate WsIn(s: String, i: nat, j: nat)
    requires i <= j <= |s|
  {
    forall t :: i <= t < j ==> IsWs(s[t])
  }

  /** TrimShape in positions of `s`: white space up to `Lead(s)`, the trim
      from there, white space after it. */
  lemma TrimRange(s: String)
    ensures Lead(s) + |Trim(s)| <= |s|
    ensures WsIn(s, 0, Lead(s)) && WsIn(s, Lead(s) + |Trim(s)|, |s|)
    ensures forall t :: 0 <= t < |Trim(s)| ==> Trim(s)[t] == s[Lead(s) + t]
  {
    LeadSpec(s);
    if Lead(s) < |s| {
      TrailSpec(s);
      LeadTrailApart(s);
    }
  }

  /** `s` is its leading white space, its trim and its trailing white space,
      in that order. */
  lemma TrimShape(s: String)
    ensures Lead(s) + |Trim(s)| <= |s|
    ensures s == s[..Lead(s)] + Trim(s) + s[Lead(s) + |Trim(s)|..]
    ensures AllWs(s[..Lead(s)]) && AllWs(s[Lead(s) + |Trim(s)|..])
  {
    var a, r := Lead(s), Trim(s);
    TrimIsSlice(s);
    SliceThree(s, a, a + |r|);
    TrimRange(s);
  }

  lemma TrimIsSlice(s: String)
    ensures Lead(s) + |Trim(s)| <= |s| && Trim(s) == s[Lead(s)..Lead(s) + |Trim(s)|]
  {
    TrimRange(s);
  }

  /** The trim of a slice `c[a..e]`, stated in positions of `c`: white space
      from `a` to `j`, the trim from `j`, white space after it up to `e`. */
  lemma TrimShapeIn(c: String, a: nat, e: nat)
    requires a <= e <= |c|
    ensures var j := a + Lead(c[a..e]);
      j + |Trim(c[a..e])| <= e
      && WsIn(c, a, j) && WsIn(c, j + |Trim(c[a..e])|, e)
      && forall t :: 0 <= t < |Trim(c[a..e])| ==> Trim(c[a..e])[t] == c[j + t]
  {
    var body := c[a..e];
    var core := Trim(body);
    var j := a + Lead(body);
    TrimRange(body);
    WsInSlice(c, a, e, 0, Lead(body));
    WsInSlice(c, a, e, Lead(body) + |core|, |body|);
    forall t | 0 <= t < |core| ensures core[t] == c[j + t] {
      assert c[j + t] == body[j + t - a];
    }
  }

  /** White space in a slice is white space in the whole. */
  lemma WsInSlice(c: String, a: nat, e: nat, i: nat, j: nat)
    requires a <= e <= |c| && i <= j <= e - a && WsIn(c[a..e], i, j)
    ensures WsIn(c, a + i, a + j)
  {
  }

  lemma {:induction false} LeadAfterWs(w: String, m: String)
    requires AllWs(w)
    ensures Lead(w + m) == |w| + Lead(m)
  {
    if w != [] {
      assert (w + m)[1..] == w[1..] + m;
      LeadAfterWs(w[1..], m);
    } else {
      assert w + m == m;
    }
  }

  lemma {:induction false} TrailBeforeWs(m: String, w: String)
    requires AllWs(w)
    ensures Trail(m + w) == Trail(m) + |w|
  {
    if w != [] {
      assert (m + w)[..|m + w| - 1] == m + w[..|w| - 1];
      TrailBeforeWs(m, w[..|w| - 1]);
    } else {
      assert m + w == m;
    }
  }

  /** Trimming removes exactly white-space padding: `w1 + m + w2` trims to `m`
      whenever `w1` and `w2` are white space and `m` is trimmed. */
  lemma TrimOfPadded(w1: String, m: String, w2: String)
    requires AllWs(w1) && AllWs(w2) && IsTrimmed(m)
    ensures Trim(w1 + m + w2) == m
  {
    var s := w1 + m + w2;
    if m == [] {
      assert AllWs(s + []) by {
        assert s + [] == w1 + w2;
      }
      LeadAfterWs(s, []);
      assert s + [] == s;
    } else {
      assert s == w1 + (m + w2);
      LeadAfterWs(w1, m + w2);
      assert (m + w2)[0] == m[0];
      TrailBeforeWs(w1 + m, w2);
      assert (w1 + m)[|w1 + m| - 1] == m[|m| - 1];
      assert s[|w1|..|s| - |w2|] == m;
    }
  }

  /** A trimmed string is its own trim. */
  lemma TrimOfTrimmed(s: String)
    requires IsTrimmed(s)
    ensures Trim(s) == s
  {
  }

  lemma TrimIdempotent(s: String)
    ensures Trim(Trim(s)) == Trim(s)
  {
  }

  /** A string trims to nothing exactly when it is all white space. */
  lemma TrimEmpty(s: String)
    ensures Trim(s) == [] <==> AllWs(s)
  {
    if AllWs(s) {
      TrimOfPadded(s, [], []);
      assert s + [] + [] == s;
    }
    if Trim(s) == [] {
      TrimRange(s);
    }
  }

  /** A white-space character in front does not change the trim. */
  lemma TrimWsCons(c: char, x: String)
    requires IsWs(c)
    ensures Trim([c] + x) == Trim(x)
  {
    var a, r := Lead(x), Trim(x);
    TrimShape(x);
    var w1, w2 := [c] + x[..a], x[a + |r|..];
    assert [c] + x == w1 + r + w2;
    TrimOfPadded(w1, r, w2);
  }

  /** A white-space character at the end does not change the trim. */
  lemma TrimWsSnoc(x: String, c: char)
    requires IsWs(c)
    ensures Trim(x + [c]) == Trim(x)
  {
    var a, r := Lead(x), Trim(x);
    TrimShape(x);
    var w1, w2 := x[..a], x[a + |r|..] + [c];
    assert x + [c] == w1 + r + w2;
    TrimOfPadded(w1, r, w2);
  }

  /** A character that does not occur in `s` does not occur in its trim. */
  lemma TrimKeepsAbsent(s: String, c: char)
    requires c !in s
    ensures c !in Trim(s)
  {
  }

  /** Number of occurrences of `c` in `s`. */
  function Count(s: String, c: char): (n: nat)
    ensures n <= |s|
    ensures n == 0 <==> c !in s
  {
    if s == [] then 0
    else
      assert s == [s[0]] + s[1..];
      (if s[0] == c then 1 else 0) + Count(s[1..], c)
  }

  lemma {:induction false} CountConcat(s: String, t: String, c: char)
    ensures Count(s + t, c) == Count(s, c) + Count(t, c)
  {
    if s != [] {
      assert (s + t)[1..] == s[1..] + t;
      CountConcat(s[1..], t, c);
    } else {
      assert s + t == t;
    }
  }

  /** String.prototype.split with a one-character separator: the pieces
      between the occurrences of `sep` (so `""` splits into `[""]`). */
  function Split(s: String, sep: char): (parts: seq<String>)
    ensures |parts| > 0
  {
    if s == [] then [[]]
    else
      var rest := Split(s[1..], sep);
      if s[0] == sep then [[]] + rest
      else [[s[0]] + rest[0]] + rest[1..]
  }

  /** A split has one more piece than there are separators, and no piece
      holds the separator. */
  lemma {:induction false} SplitPieces(s: String, sep: char)
    ensures |Split(s, sep)| == Count(s, sep) + 1
    ensures forall k :: 0 <= k < |Split(s, sep)| ==> sep !in Split(s, sep)[k]
  {
    if s != [] {
      SplitPieces(s[1..], sep);
      var rest := Split(s[1..], sep);
      if s[0] != sep {
        var parts := Split(s, sep);
        assert sep !in [s[0]] + rest[0];
        assert forall k :: 1 <= k < |parts| ==> parts[k] == rest[k];
      }
    }
  }

  /** Array.prototype.join with a one-character separator (`[]` joins to `""`). */
  function Join(parts: seq<String>, sep: char): (s: String)
  {
    if |parts| == 0 then []
    else if |parts| == 1 then parts[0]
    else parts[0] + [sep] + Join(parts[1..], sep)
  }

  /** Joining puts the separator after the first part when more follow. */
  lemma JoinCons(x: String, rest: seq<String>, sep: char)
    requires |rest| > 0
    ensures Join([x] + rest, sep) == x + [sep] + Join(rest, sep)
  {
    assert ([x] + rest)[1..] == rest;
  }

  /** Joining the pieces of a split gives back the string. */
  lemma {:induction false} JoinSplit(s: String, sep: char)
    ensures Join(Split(s, sep), sep) == s
  {
    if s != [] {
      var rest := Split(s[1..], sep);
      JoinSplit(s[1..], sep);
      if s[0] == sep {
        assert Split(s, sep)[1..] == rest;
      } else {
        var parts := Split(s, sep);
        assert parts[1..] == rest[1..];
        if |rest| > 1 {
          assert Join(rest, sep) == rest[0] + [sep] + Join(rest[1..], sep);
        }
      }
    }
  }

  lemma {:induction false} SplitWithoutSep(p: String, sep: char)
    requires sep !in p
    ensures Split(p, sep) == [p]
  {
    if p != [] {
      SplitWithoutSep(p[1..], sep);
      assert [p[0]] + p[1..] == p;
    }
  }

  lemma {:induction false} SplitAfterPiece(p: String, r: String, sep: char)
    requires sep !in p
    ensures Split(p + [sep] + r, sep) == [p] + Split(r, sep)
  {
    if p == [] {
      assert p + [sep] + r == [sep] + r;
      assert ([sep] + r)[1..] == r;
    } else {
      SplitAfterPiece(p[1..], r, sep);
      assert (p + [sep] + r)[1..] == p[1..] + [sep] + r;
      assert [p[0]] + p[1..] == p;
    }
  }

  /** Splitting a join of separator-free pieces gives back the pieces. */
  lemma {:induction false} SplitJoin(parts: seq<String>, sep: char)
    requires |parts| > 0
    requires forall k :: 0 <= k < |parts| ==> sep !in parts[k]
    ensures Split(Join(parts, sep), sep) == parts
  {
    if |parts| == 1 {
      SplitWithoutSep(parts[0], sep);
    } else {
      SplitJoin(parts[1..], sep);
      SplitAfterPiece(parts[0], Join(parts[1..], sep), sep);
      assert [parts[0]] + parts[1..] == parts;
    }
  }

  /** Appending the separator to a string opens a new, empty last piece. */
  lemma {:induction false} SplitSnocSep(s: String, sep: char)
    ensures Split(s + [sep], sep) == Split(s, sep) + [[]]
  {
    if s == [] {
      assert s + [sep] == [sep];
    } else {
      var rest := Split(s[1..], sep);
      assert (s + [sep])[1..] == s[1..] + [sep];
      SplitSnocSep(s[1..], sep);
      if s[0] == sep {
        calc {
          Split(s + [sep], sep);
          [[]] + Split(s[1..] + [sep], sep);
          [[]] + (rest + [[]]);
          ([[]] + rest) + [[]];
        }
      } else {
        var rest' := rest + [[]];
        calc {
          Split(s + [sep], sep);
          [[s[0]] + rest'[0]] + rest'[1..];
          { assert rest'[1..] == rest[1..] + [[]]; }
          ([[s[0]] + rest[0]] + rest[1..]) + [[]];
        }
      }
    }
  }

  /** The last piece of a split, extended by `c`. */
  function ExtendLast(parts: seq<String>, c: char): seq<String>
    requires |parts| > 0
  {
    parts[..|parts| - 1] + [parts[|parts| - 1] + [c]]
  }

  lemma SnocOtherStepSep(s: String, c: char, sep: char)
    requires s != [] && s[0] == sep && c != sep
    requires Split(s[1..] + [c], sep) == ExtendLast(Split(s[1..], sep), c)
    ensures Split(s + [c], sep) == ExtendLast(Split(s, sep), c)
  {
    var rest := Split(s[1..], sep);
    var n := |rest|;
    assert (s + [c])[1..] == s[1..] + [c];
    assert Split(s + [c], sep) == [[]] + ExtendLast(rest, c);
    assert Split(s, sep) == [[]] + rest;
    assert ([[]] + rest)[..n] == [[]] + rest[..n - 1];
  }

  lemma ExtendLastCons(x: String, p: seq<String>, c: char)
    requires |p| > 0
    ensures ExtendLast([x] + p, c) == [x] + ExtendLast(p, c)
  {
  }

  lemma SnocOtherStepOther(s: String, c: char, sep: char)
    requires s != [] && s[0] != sep && c != sep
    requires Split(s[1..] + [c], sep) == ExtendLast(Split(s[1..], sep), c)
    ensures Split(s + [c], sep) == ExtendLast(Split(s, sep), c)
  {
    var rest := Split(s[1..], sep);
    var rest' := ExtendLast(rest, c);
    assert (s + [c])[1..] == s[1..] + [c];
    assert Split(s + [c], sep) == [[s[0]] + rest'[0]] + rest'[1..];
    assert Split(s, sep) == [[s[0]] + rest[0]] + rest[1..];
    if |rest| > 1 {
      assert rest == [rest[0]] + rest[1..];
      ExtendLastCons(rest[0], rest[1..], c);
      ExtendLastCons([s[0]] + rest[0], rest[1..], c);
    } else {
      assert rest' == [rest[0] + [c]];
      assert [s[0]] + (rest[0] + [c]) == ([s[0]] + rest[0]) + [c];
    }
  }

  /** Appending any other character to a string extends its last piece. */
  lemma {:induction false} SplitSnocOther(s: String, c: char, sep: char)
    requires c != sep
    ensures Split(s + [c], sep) == ExtendLast(Split(s, sep), c)
  {
    if s == [] {
      assert s + [c] == [c];
      assert [c][1..] == [];
      assert Split([c], sep) == [[c] + []] + [];
      assert [c] + [] == [c];
      var parts := Split(s, sep);
      assert parts == [[]];
      assert parts[0] + [c] == [c];
      assert parts[..0] + [[c]] == [[c]];
    } else {
      SplitSnocOther(s[1..], c, sep);
      if s[0] == sep {
        SnocOtherStepSep(s, c, sep);
      } else {
        SnocOtherStepOther(s, c, sep);
      }
    }
  }
}
