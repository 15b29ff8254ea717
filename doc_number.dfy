/** Sequential document numbers (`increment_doc_number`, main.py:210-217): the
    document of the i-th employee in a batch gets the start number bumped by i. */
module DocNumber {
  import opened Wrappers
  import opened PyStr
  import opened Decimal

  /** The end of the run of digits that starts at `i`. */
  function DigitRunEnd(s: string, i: nat): (j: nat)
    requires i <= |s|
    ensures i <= j <= |s|
    ensures forall k :: i <= k < j ==> IsDigit(s[k])
    ensures j == |s| || !IsDigit(s[j])
    decreases |s| - i
  {
    if i < |s| && IsDigit(s[i]) then DigitRunEnd(s, i + 1) else i
  }

  /** The index of the first digit at or after `i`, if any. */
  function FirstDigitFrom(s: string, i: nat): (r: Option<nat>)
    requires i <= |s|
    ensures r.None? ==> forall k :: i <= k < |s| ==> !IsDigit(s[k])
    ensures r.Some? ==> i <= r.value < |s| && IsDigit(s[r.value])
    ensures r.Some? ==> forall k :: i <= k < r.value ==> !IsDigit(s[k])
    decreases |s| - i
  {
    if i == |s| then None
    else if IsDigit(s[i]) then Some(i)
    else FirstDigitFrom(s, i + 1)
  }

  /** `re.search(r'\d+', s)`: the leftmost maximal run of digits, as `(start, end)`. */
  function FirstDigitRun(s: string): (r: Option<(nat, nat)>)
    ensures r.None? <==> NoDigit(s)
    ensures r.Some? ==> var (i, j) := r.value;
      i < j <= |s| && NoDigit(s[..i]) && IsDigits(s[i..j]) && (j == |s| || !IsDigit(s[j]))
  {
    match FirstDigitFrom(s, 0)
    case None => None
    case Some(i) =>
      var j := DigitRunEnd(s, i);
      assert forall k :: 0 <= k < i ==> s[..i][k] == s[k];
      assert forall k :: 0 <= k < j - i ==> s[i..j][k] == s[i + k];
      Some((i, j))
  }

  /** Any splitting of `s` into a digit-free prefix, a maximal digit run and the
      rest is the one `FirstDigitRun` finds. */
  lemma FirstDigitRunUnique(s: string, i: nat, j: nat)
    requires i < j <= |s| && NoDigit(s[..i]) && IsDigits(s[i..j]) && (j == |s| || !IsDigit(s[j]))
    ensures FirstDigitRun(s) == Some((i, j))
  {
    forall q | 0 <= q < i
      ensures !IsDigit(s[q])
    {
      assert s[..i][q] == s[q];
    }
    forall q | i <= q < j
      ensures IsDigit(s[q])
    {
      assert s[i..j][q - i] == s[q];
    }
    var r := FirstDigitFrom(s, 0);
    assert IsDigit(s[i]);
    assert r.Some?;
    assert !(r.value < i) && !(r.value > i);
    var e := DigitRunEnd(s, i);
    assert e == j;
  }

  /** The run of digits put between a digit-free prefix and a rest that does not
      start with a digit is the leftmost run. */
  lemma RunBetween(pre: string, d: string, post: string)
    requires NoDigit(pre) && IsDigits(d) && (post == [] || !IsDigit(post[0]))
    ensures FirstDigitRun(pre + d + post) == Some((|pre|, |pre| + |d|))
  {
    var s := pre + d + post;
    assert s[..|pre|] == pre;
    assert s[|pre|..|pre| + |d|] == d;
    assert |pre| + |d| < |s| ==> s[|pre| + |d|] == post[0];
    FirstDigitRunUnique(s, |pre|, |pre| + |d|);
  }

  lemma ConcatParts(x: string, y: string, z: string)
    ensures (x + y + z)[..|x|] == x
    ensures (x + y + z)[|x|..|x| + |y|] == y
    ensures (x + y + z)[|x| + |y|..] == z
  {
  }

  /** `s.replace(number_str, new, 1)` hits the leftmost run of digits itself:
      no earlier occurrence of its digits can exist. */
  lemma ReplaceRun(s: string, i: nat, j: nat, rep: string)
    requires FirstDigitRun(s) == Some((i, j))
    ensures ReplaceFirst(s, s[i..j], rep) == s[..i] + rep + s[j..]
  {
    var p := s[i..j];
    assert |p| == j - i && IsDigit(p[0]);
    FindAfterNonDigits(s, p, i);
  }

  /** `increment_doc_number(base_num, step)`. */
  function IncrementDocNumber(base: string, step: int): (r: string)
    ensures step == 0 ==> r == base
    ensures step != 0 && FirstDigitRun(base).None? ==> r == base + "-" + IntToDecimal(step + 1)
    ensures step != 0 && FirstDigitRun(base).Some? ==> var (i, j) := FirstDigitRun(base).value;
      r == base[..i] + IntToDecimal(DecimalValue(base[i..j]) + step) + base[j..]
  {
    if step == 0 then base
    else match FirstDigitRun(base)
      case None => base + "-" + IntToDecimal(step + 1)
      case Some((i, j)) =>
        var numberStr := base[i..j];
        var newNumber := DecimalValue(numberStr) + step;
        ReplaceRun(base, i, j, IntToDecimal(newNumber));
        ReplaceFirst(base, numberStr, IntToDecimal(newNumber))
  }

  /** A bump replaces the leftmost run of digits by its value plus `step`. */
  lemma BumpAt(s: string, step: int, i: nat, k: nat)
    requires step != 0 && FirstDigitRun(s) == Some((i, k))
    ensures i < k <= |s| && IsDigits(s[i..k])
    ensures IncrementDocNumber(s, step) == s[..i] + IntToDecimal(DecimalValue(s[i..k]) + step) + s[k..]
  {
    var run := FirstDigitRun(s).value;
    assert run.0 == i && run.1 == k;
  }

  /** Bumping a number laid out as digit-free prefix, digits and rest. */
  lemma BumpBetween(pre: string, d: string, post: string, step: int)
    requires step != 0 && NoDigit(pre) && IsDigits(d) && (post == [] || !IsDigit(post[0]))
    ensures IncrementDocNumber(pre + d + post, step) == pre + IntToDecimal(DecimalValue(d) + step) + post
  {
    var s := pre + d + post;
    RunBetween(pre, d, post);
    ConcatParts(pre, d, post);
    var rep := IntToDecimal(DecimalValue(d) + step);
    BumpAt(s, step, |pre|, |pre| + |d|);
    assert IncrementDocNumber(s, step) == pre + rep + post;
  }

  /** The first bump leaves a numeral of value `DecimalValue(base[i..j]) + s` in
      place of the run. */
  lemma FirstBump(base: string, s: nat, i: nat, j: nat) returns (d: string)
    requires s != 0 && FirstDigitRun(base) == Some((i, j))
    ensures i < j <= |base| && IsDigits(base[i..j])
    ensures IsDigits(d) && DecimalValue(d) == DecimalValue(base[i..j]) + s
    ensures IncrementDocNumber(base, s) == base[..i] + d + base[j..]
  {
    BumpAt(base, s, i, j);
    d := NatToDecimal(DecimalValue(base[i..j]) + s);
    DecimalRoundTrip(DecimalValue(base[i..j]) + s);
  }

  /** Bumping by `s` and then by `t` is bumping by `s + t`: the replaced run
      stays the leftmost run of digits, and a start number without digits gets
      a suffix whose numeral is the next run to bump. */
  lemma {:induction false} IncrementAdditive(base: string, s: nat, t: nat)
    ensures IncrementDocNumber(IncrementDocNumber(base, s), t) == IncrementDocNumber(base, s + t)
  {
    if s != 0 && t != 0 {
      match FirstDigitRun(base)
      case Some((i, j)) =>
        var d := FirstBump(base, s, i, j);
        BumpAt(base, s + t, i, j);
        var pre, post := base[..i], base[j..];
        assert post == [] || !IsDigit(post[0]);
        BumpBetween(pre, d, post, t);
      case None =>
        SuffixAdditive(base, s, t);
    }
  }

  /** Without digits, the first bump appends `-` and a numeral, which the
      second bump then increments. */
  lemma SuffixAdditive(base: string, s: nat, t: nat)
    requires s != 0 && t != 0 && FirstDigitRun(base).None?
    ensures IncrementDocNumber(IncrementDocNumber(base, s), t) == IncrementDocNumber(base, s + t)
  {
    var pre, d := SuffixLayout(base, s, t);
    BumpBetween(pre, d, [], t);
  }

  /** A digit-free number bumped by `s` is a digit-free prefix, the digits of
      `s + 1` and nothing after them; bumped by `s + t` it has the digits of
      `s + 1 + t` in their place. */
  lemma SuffixLayout(base: string, s: nat, t: nat) returns (pre: string, d: string)
    requires s != 0 && t != 0 && FirstDigitRun(base).None?
    ensures NoDigit(pre) && IsDigits(d)
    ensures IncrementDocNumber(base, s) == pre + d + []
    ensures IncrementDocNumber(base, s + t) == pre + IntToDecimal(DecimalValue(d) + t) + []
  {
    pre := base + "-";
    d := NatToDecimal(s + 1);
    assert NoDigit(pre) by {
      assert forall k :: 0 <= k < |base| ==> pre[k] == base[k];
    }
    DecimalRoundTrip(s + 1);
    assert pre + d + [] == pre + d;
    var e := IntToDecimal(s + 1 + t);
    assert pre + e + [] == pre + e;
    assert s + t + 1 == s + 1 + t;
  }

  /** The examples a user sees with the default start number "12-К". */
  lemma Examples()
    ensures IncrementDocNumber("12-К", 0) == "12-К"
    ensures IncrementDocNumber("12-К", 3) == "15-К"
    ensures IncrementDocNumber("ABC", 1) == "ABC-2"
  {
    var b := "12-К";
    assert NoDigit(b[..0]) && IsDigits(b[0..2]) && !IsDigit(b[2]);
    FirstDigitRunUnique(b, 0, 2);
    assert b[0..2] == "12";
    assert DecimalValue("12") == 12 by { assert "12"[..1] == "1"; }
    assert NatToDecimal(15) == "15";
    assert NoDigit("ABC");
    assert NatToDecimal(2) == "2";
  }
}
