/** The Python `str` built-ins the document builder relies on, on `seq<char>`.
    Letter case is modelled for ASCII and for the Cyrillic block U+0400..U+045F;
    whitespace is exactly the set of characters for which `str.isspace()` holds. */
module PyStr {
  import opened Wrappers

  // ---------------------------------------------------------------- characters

  /** `c.isspace()`. */
  predicate IsSpace(c: char) {
    ('\t' <= c <= '\r') || ('\U{1C}' <= c <= ' ') || c == '\U{85}' || c == '\U{A0}'
    || c == '\U{1680}' || ('\U{2000}' <= c <= '\U{200A}') || c == '\U{2028}' || c == '\U{2029}'
    || c == '\U{202F}' || c == '\U{205F}' || c == '\U{3000}'
  }

  /** `c.isdigit()` restricted to ASCII digits. */
  predicate IsDigit(c: char) {
    '0' <= c <= '9'
  }

  /** `c.isupper()`. */
  predicate IsUpper(c: char) {
    ('A' <= c <= 'Z') || ('\U{0400}' <= c <= '\U{042F}')
  }

  /** `c.islower()`. */
  predicate IsLower(c: char) {
    ('a' <= c <= 'z') || ('\U{0430}' <= c <= '\U{045F}')
  }

  /** `c.upper()`. */
  function Upper(c: char): (u: char)
    ensures !IsLower(u)
    ensures IsLower(c) ==> IsUpper(u)
    ensures !IsLower(c) ==> u == c
    ensures IsSpace(u) <==> IsSpace(c)
  {
    if 'a' <= c <= 'z' then (c as int - 0x20) as char
    else if '\U{0430}' <= c <= '\U{044F}' then (c as int - 0x20) as char
    else if '\U{0450}' <= c <= '\U{045F}' then (c as int - 0x50) as char
    else c
  }

  /** `c.lower()`. */
  function Lower(c: char): (l: char)
    ensures !IsUpper(l)
    ensures IsUpper(c) ==> IsLower(l)
    ensures !IsUpper(c) ==> l == c
    ensures IsSpace(l) <==> IsSpace(c)
  {
    if 'A' <= c <= 'Z' then (c as int + 0x20) as char
    else if '\U{0410}' <= c <= '\U{042F}' then (c as int + 0x20) as char
    else if '\U{0400}' <= c <= '\U{040F}' then (c as int + 0x50) as char
    else c
  }

  // ------------------------------------------------------------------- strings

  /** `s.lower()`. */
  function LowerStr(s: string): (r: string)
    ensures |r| == |s|
    ensures forall i :: 0 <= i < |s| ==> r[i] == Lower(s[i])
  {
    seq(|s|, i requires 0 <= i < |s| => Lower(s[i]))
  }

  /** `s.capitalize()`: first character upper-cased, the rest lower-cased. */
  function Capitalize(s: string): (r: string)
    ensures |r| == |s|
    ensures s != [] ==> r[0] == Upper(s[0])
    ensures forall i :: 1 <= i < |s| ==> r[i] == Lower(s[i])
  {
    if s == [] then [] else [Upper(s[0])] + LowerStr(s[1..])
  }

  /** `s[0].upper() + s[1:]`, the normalisation `get_inflected` applies to its result. */
  function UpperFirst(s: string): (r: string)
    ensures |r| == |s|
    ensures s != [] ==> r[0] == Upper(s[0]) && r[1..] == s[1..]
  {
    if s == [] then [] else [Upper(s[0])] + s[1..]
  }

  /** `s.isdigit()` for ASCII digits: non-empty and digits only. */
  predicate IsDigits(s: string) {
    |s| > 0 && forall i :: 0 <= i < |s| ==> IsDigit(s[i])
  }

  predicate NoDigit(s: string) {
    forall i :: 0 <= i < |s| ==> !IsDigit(s[i])
  }

  predicate NoSpace(s: string) {
    forall i :: 0 <= i < |s| ==> !IsSpace(s[i])
  }

  predicate StartsWith(s: string, p: string) {
    |p| <= |s| && s[..|p|] == p
  }

  /** `s.endswith(p)`. */
  predicate EndsWith(s: string, p: string) {
    |p| <= |s| && s[|s| - |p|..] == p
  }

  /** `p in s`. */
  predicate Contains(s: string, p: string)
    decreases |s|
  {
    StartsWith(s, p) || (s != [] && Contains(s[1..], p))
  }

  lemma {:induction false} ContainsAt(s: string, p: string, i: nat)
    requires i + |p| <= |s| && s[i..i + |p|] == p
    ensures Contains(s, p)
    decreases i
  {
    if i > 0 {
      assert s[1..][i - 1..i - 1 + |p|] == s[i..i + |p|];
      ContainsAt(s[1..], p, i - 1);
    }
  }

  lemma {:induction false} ContainsWitness(s: string, p: string) returns (i: nat)
    requires Contains(s, p)
    ensures i + |p| <= |s| && s[i..i + |p|] == p
    decreases |s|
  {
    if StartsWith(s, p) {
      i := 0;
    } else {
      var k := ContainsWitness(s[1..], p);
      i := k + 1;
      assert s[i..i + |p|] == s[1..][k..k + |p|];
    }
  }

  lemma SliceOfSlice(s: string, lo: nat, hi: nat, k: nat, n: nat)
    requires lo <= hi <= |s| && k + n <= hi - lo
    ensures s[lo + k..lo + k + n] == s[lo..hi][k..k + n]
  {
    var t := s[lo..hi];
    var a, b := s[lo + k..lo + k + n], t[k..k + n];
    forall j | 0 <= j < n ensures a[j] == b[j] {
      assert b[j] == t[k + j] == s[lo + (k + j)];
    }
  }

  /** A substring of a string without `p` has no `p` either. */
  lemma NotContainsSlice(s: string, p: string, lo: nat, hi: nat)
    requires lo <= hi <= |s|
    requires !Contains(s, p)
    ensures !Contains(s[lo..hi], p)
  {
    if Contains(s[lo..hi], p) {
      var k := ContainsWitness(s[lo..hi], p);
      SliceOfSlice(s, lo, hi, k, |p|);
      ContainsAt(s, p, lo + k);
    }
  }

  /** A string that contains `p` contains every tail of `p`. */
  lemma ContainsTail(s: string, p: string, k: nat)
    requires k <= |p|
    ensures Contains(s, p) ==> Contains(s, p[k..])
  {
    if Contains(s, p) {
      var i := ContainsWitness(s, p);
      SliceOfSlice(s, i, i + |p|, k, |p| - k);
      assert p[k..|p|] == p[k..];
      ContainsAt(s, p[k..], i + k);
    }
  }

  /** `s.find(c)`: the first index of `c`, or -1. */
  function FindChar(s: string, c: char): (r: int)
    ensures -1 <= r < |s|
    ensures r == -1 <==> c !in s
    ensures r >= 0 ==> s[r] == c && c !in s[..r]
  {
    if s == [] then -1
    else if s[0] == c then 0
    else
      var k := FindChar(s[1..], c);
      assert s[1..] == s[..|s|][1..];
      if k == -1 then -1 else (assert s[..k + 1] == [s[0]] + s[1..][..k]; k + 1)
  }

  /** `s.rfind(c)`: the last index of `c`, or -1. */
  function RFindChar(s: string, c: char): (r: int)
    ensures -1 <= r < |s|
    ensures r == -1 <==> c !in s
    ensures r >= 0 ==> s[r] == c && c !in s[r + 1..]
  {
    if s == [] then -1
    else if s[|s| - 1] == c then |s| - 1
    else
      var k := RFindChar(s[..|s| - 1], c);
      assert s == s[..|s| - 1] + [s[|s| - 1]];
      if k == -1 then -1 else (assert s[k + 1..] == s[..|s| - 1][k + 1..] + [s[|s| - 1]]; k)
  }

  /** `s[lo:hi]` for indices already inside the string: empty when `hi <= lo`. */
  function Slice(s: string, lo: nat, hi: nat): (r: string)
    requires lo <= |s| && hi <= |s|
    ensures hi <= lo ==> r == []
    ensures lo < hi ==> r == s[lo..hi]
  {
    if hi <= lo then [] else s[lo..hi]
  }

  /** `s.find(p)` for a sub-string, as an option. */
  function Find(s: string, p: string): (r: Option<nat>)
    ensures r.Some? ==> r.value + |p| <= |s| && s[r.value..r.value + |p|] == p
    decreases |s|
  {
    if StartsWith(s, p) then Some(0)
    else if s == [] then None
    else match Find(s[1..], p)
      case None => None
      case Some(k) => (assert s[k + 1..k + 1 + |p|] == s[1..][k..k + |p|]; Some(k + 1))
  }

  /** The first occurrence of a non-empty pattern made of digits in a string
      whose first `i` characters are not digits is at `i` when it occurs there. */
  lemma {:induction false} FindAfterNonDigits(s: string, p: string, i: nat)
    requires |p| > 0 && IsDigit(p[0])
    requires i + |p| <= |s| && s[i..i + |p|] == p
    requires NoDigit(s[..i])
    ensures Find(s, p) == Some(i)
    decreases i
  {
    if i == 0 {
      assert StartsWith(s, p);
    } else {
      assert s[0] == s[..i][0];
      assert !StartsWith(s, p);
      assert s[1..][i - 1..i - 1 + |p|] == s[i..i + |p|];
      assert s[1..][..i - 1] == s[..i][1..];
      FindAfterNonDigits(s[1..], p, i - 1);
    }
  }

  /** `s.replace(p, rep)`: non-overlapping occurrences, left to right. */
  function ReplaceAll(s: string, p: string, rep: string): (r: string)
    requires |p| > 0
    ensures !Contains(s, p) ==> r == s
    decreases |s|
  {
    if |s| < |p| then s
    else if s[..|p|] == p then rep + ReplaceAll(s[|p|..], p, rep)
    else [s[0]] + ReplaceAll(s[1..], p, rep)
  }

  /** `s.replace(p, rep, 1)`. */
  function ReplaceFirst(s: string, p: string, rep: string): (r: string)
    ensures Find(s, p).None? ==> r == s
    ensures Find(s, p).Some? ==> var i := Find(s, p).value; r == s[..i] + rep + s[i + |p|..]
  {
    match Find(s, p)
    case None => s
    case Some(i) => s[..i] + rep + s[i + |p|..]
  }

  /** With a one-character pattern, `replace` works character by character. */
  lemma {:induction false} ReplaceCharConcat(a: string, b: string, c: char, rep: string)
    ensures ReplaceAll(a + b, [c], rep) == ReplaceAll(a, [c], rep) + ReplaceAll(b, [c], rep)
    decreases |a|
  {
    if a == [] {
      assert a + b == b;
    } else {
      assert (a + b)[1..] == a[1..] + b;
      assert (a + b)[..1] == a[..1] == [a[0]];
      ReplaceCharConcat(a[1..], b, c, rep);
    }
  }

  lemma ReplaceCharNotIn(s: string, c: char, rep: string)
    requires c !in s
    ensures ReplaceAll(s, [c], rep) == s
    decreases |s|
  {
    if s != [] {
      assert s[..1] == [s[0]];
      ReplaceCharNotIn(s[1..], c, rep);
    }
  }

  // ---------------------------------------------------------- strip and split

  /** `s.lstrip()`. */
  function LStrip(s: string): (r: string)
    ensures |r| <= |s| && r == s[|s| - |r|..]
    ensures forall i :: 0 <= i < |s| - |r| ==> IsSpace(s[i])
    ensures r != [] ==> !IsSpace(r[0])
  {
    if s != [] && IsSpace(s[0]) then LStrip(s[1..]) else s
  }

  /** `s.rstrip()`. */
  function RStrip(s: string): (r: string)
    ensures |r| <= |s| && r == s[..|r|]
    ensures forall i :: |r| <= i < |s| ==> IsSpace(s[i])
    ensures r != [] ==> !IsSpace(r[|r| - 1])
  {
    if s != [] && IsSpace(s[|s| - 1]) then RStrip(s[..|s| - 1]) else s
  }

  /** `s.strip()`. */
  function Strip(s: string): (r: string)
    ensures |r| <= |s|
    ensures r != [] ==> !IsSpace(r[0]) && !IsSpace(r[|r| - 1])
  {
    LStrip(RStrip(s))
  }

  /** `s.strip()` is a piece of `s` with only whitespace cut on either side. */
  lemma StripSlice(s: string) returns (lo: nat)
    ensures StrippedAt(s, Strip(s), lo)
  {
    var t := RStrip(s);
    var r := LStrip(t);
    assert r == Strip(s);
    lo := |t| - |r|;
    assert t == s[..|t|];
    assert r == t[lo..];
    assert r == s[lo..|t|];
    forall i | 0 <= i < lo
      ensures IsSpace(s[i])
    {
      assert s[i] == t[i];
    }
  }

  /** `r` is `s[lo..lo + |r|]` and every character of `s` outside it is whitespace. */
  predicate StrippedAt(s: string, r: string, lo: nat) {
    lo + |r| <= |s| && s[lo..lo + |r|] == r
    && (forall i :: 0 <= i < lo ==> IsSpace(s[i]))
    && (forall i :: lo + |r| <= i < |s| ==> IsSpace(s[i]))
  }

  lemma {:induction false} StripIdempotent(s: string)
    ensures Strip(Strip(s)) == Strip(s)
  {
    var r := Strip(s);
    if r != [] {
      assert RStrip(r) == r;
      assert LStrip(r) == r;
    }
  }

  /** A non-empty token without whitespace, as `split()` produces. */
  predicate IsToken(w: string) {
    w != [] && NoSpace(w)
  }

  /** The longest whitespace-free prefix of `s`. */
  function Word(s: string): (w: string)
    ensures w <= s && NoSpace(w)
    ensures |w| < |s| ==> IsSpace(s[|w|])
    ensures s != [] && !IsSpace(s[0]) ==> w != []
  {
    if s == [] || IsSpace(s[0]) then [] else [s[0]] + Word(s[1..])
  }

  /** `s.split()`: the maximal runs of non-whitespace, in order. */
  function Split(s: string): (ws: seq<string>)
    ensures forall k :: 0 <= k < |ws| ==> IsToken(ws[k])
    ensures NoSpace(s) && s != [] ==> ws == [s]
    decreases |s|
  {
    if s == [] then []
    else if IsSpace(s[0]) then Split(s[1..])
    else
      var w := Word(s);
      assert NoSpace(s) ==> w == s;
      [w] + Split(s[|w|..])
  }

  /** `sep.join(ws)`. */
  function Join(ws: seq<string>, sep: string): (r: string)
    ensures |ws| == 1 ==> r == ws[0]
  {
    if |ws| == 0 then []
    else if |ws| == 1 then ws[0]
    else ws[0] + sep + Join(ws[1..], sep)
  }

  lemma {:induction false} JoinAppend(ws: seq<string>, w: string, sep: string)
    requires |ws| > 0
    ensures Join(ws + [w], sep) == Join(ws, sep) + sep + w
    decreases |ws|
  {
    if |ws| > 1 {
      assert (ws + [w])[1..] == ws[1..] + [w];
      JoinAppend(ws[1..], w, sep);
    }
  }

  lemma WordOfJoin(w: string, rest: string)
    requires IsToken(w)
    requires rest == [] || IsSpace(rest[0])
    ensures Word(w + rest) == w
    decreases |w|
  {
    if |w| > 1 {
      assert (w + rest)[1..] == w[1..] + rest;
      WordOfJoin(w[1..], rest);
    } else {
      assert (w + rest)[1..] == rest;
    }
  }

  /** `" ".join` and `split()` are inverse on tokens. */
  lemma {:induction false} SplitJoin(ws: seq<string>)
    requires forall k :: 0 <= k < |ws| ==> IsToken(ws[k])
    ensures Split(Join(ws, " ")) == ws
    decreases |ws|
  {
    if |ws| == 1 {
    } else if |ws| > 1 {
      var rest := Join(ws[1..], " ");
      var s := ws[0] + (" " + rest);
      assert Join(ws, " ") == s;
      WordOfJoin(ws[0], " " + rest);
      assert s[|ws[0]|..] == " " + rest;
      assert (" " + rest)[1..] == rest;
      SplitJoin(ws[1..]);
    }
  }

  /** Every character printable ASCII or between U+00A1 and U+167F (Latin-1,
      Cyrillic), checked one character at a time so that it unfolds on
      literals; such a string has no whitespace. */
  predicate NoSpaceByChar(s: string) {
    s == [] || ((' ' < s[0] < '\U{7F}' || '\U{A0}' < s[0] < '\U{1680}') && NoSpaceByChar(s[1..]))
  }

  lemma {:induction false} NoSpaceByCharSound(s: string)
    requires NoSpaceByChar(s)
    ensures NoSpace(s)
  {
    if s != [] {
      NoSpaceByCharSound(s[1..]);
      assert forall i :: 1 <= i < |s| ==> s[i] == s[1..][i - 1];
    }
  }

  lemma ConcatAssoc(x: string, y: string, z: string)
    ensures (x + y) + z == x + (y + z)
  {
  }

  /** A full name written as three words splits back into them. */
  lemma SplitThreeWords(a: string, b: string, c: string)
    requires a != [] && b != [] && c != []
    requires NoSpaceByChar(a) && NoSpaceByChar(b) && NoSpaceByChar(c)
    ensures Split(a + " " + b + " " + c) == [a, b, c]
  {
    NoSpaceByCharSound(a);
    NoSpaceByCharSound(b);
    NoSpaceByCharSound(c);
    var ws := [a, b, c];
    assert ws[1..] == [b, c];
    assert [b, c][1..] == [c];
    var t := b + " " + c;
    assert Join([b, c], " ") == t;
    var A := a + " ";
    assert Join(ws, " ") == A + t;
    ConcatAssoc(b, " ", c);
    ConcatAssoc(A, b, " " + c);
    ConcatAssoc(A + b, " ", c);
    SplitJoin(ws);
  }

  /** Four words joined by single spaces split back into them. */
  lemma SplitFourTokens(a: string, b: string, c: string, e: string)
    requires IsToken(a) && IsToken(b) && IsToken(c) && IsToken(e)
    ensures Split(a + " " + b + " " + c + " " + e) == [a, b, c, e]
  {
    var ws := [a, b, c, e];
    assert ws[1..] == [b, c, e];
    assert [b, c, e][1..] == [c, e];
    assert [c, e][1..] == [e];
    var t := c + " " + e;
    assert Join([c, e], " ") == t;
    var u := b + " " + t;
    assert Join([b, c, e], " ") == u;
    var A := a + " ";
    assert Join(ws, " ") == A + u;
    var P := A + b + " ";
    ConcatAssoc(P, c, " ");
    ConcatAssoc(P, c + " ", e);
    ConcatAssoc(c, " ", e);
    ConcatAssoc(A + b, " ", t);
    ConcatAssoc(A, b, " " + t);
    ConcatAssoc(b, " ", t);
    SplitJoin(ws);
  }
}
