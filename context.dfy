/** Two inline strings of the per-person documents: the salary with its
    thousands grouped by spaces (main.py:602) and the file name a rendered
    document gets inside the archive (main.py:628-630). */
module DocContext {
  import opened PyStr
  import opened Decimal
  import opened Morphology

  // ------------------------------------------------------------ salary_digits

  /** The groups of a numeral, three digits each counted from the right. */
  function Groups(s: string): (gs: seq<string>)
    ensures |gs| >= 1
    decreases |s|
  {
    if |s| <= 3 then [s] else Groups(s[..|s| - 3]) + [s[|s| - 3..]]
  }

  /** The sign Python prints before a negative number. */
  function SignOf(n: int): (r: string)
    ensures r == [] || r == "-"
  {
    if n < 0 then "-" else ""
  }

  function Magnitude(n: int): (r: nat)
    ensures r == n || r == -n
  {
    if n < 0 then -n else n
  }

  /** The `,` option of Python's format mini-language applied to a numeral:
      a comma before every third digit from the right, that is, the groups
      joined by commas. */
  function CommaGrouped(s: string): (r: string)
    ensures r == Join(Groups(s), ",")
    decreases |s|
  {
    if |s| <= 3 then s
    else
      JoinAppend(Groups(s[..|s| - 3]), s[|s| - 3..], ",");
      CommaGrouped(s[..|s| - 3]) + "," + s[|s| - 3..]
  }

  /** An integer formatted with the thousands separator: the sign, then the
      groups of its decimal numeral joined by commas; one to three digits lead
      and every later group has three. */
  function FormatThousands(n: int): (r: string)
    ensures var gs := Groups(NatToDecimal(Magnitude(n)));
      WellGrouped(gs) && Join(gs, "") == NatToDecimal(Magnitude(n))
      && r == SignOf(n) + Join(gs, ",")
  {
    GroupsShape(NatToDecimal(Magnitude(n)));
    if n < 0 then "-" + CommaGrouped(NatToDecimal(-n)) else CommaGrouped(NatToDecimal(n))
  }

  /** `salary_digits`: the salary formatted with the thousands separator, each
      comma then replaced by a space. The result is the sign, then the digit
      groups joined by single spaces. */
  function SalaryDigits(salary: int): (r: string)
    ensures r == SignOf(salary) + Join(Groups(NatToDecimal(Magnitude(salary))), " ")
  {
    var f := FormatThousands(salary);
    var gs := Groups(NatToDecimal(Magnitude(salary)));
    DigitGroupsHaveNo(gs, ',');
    ReplaceSeparator(gs, ',', " ");
    if salary < 0 then
      ReplaceCharConcat("-", Join(gs, ","), ',', " ");
      ReplaceCharNotIn("-", ',', " ");
      ReplaceAll(f, ",", " ")
    else
      assert f == Join(gs, ",");
      ReplaceAll(f, ",", " ")
  }

  /** A leading group of one to three digits, then groups of exactly three. */
  predicate WellGrouped(gs: seq<string>) {
    |gs| >= 1 && 1 <= |gs[0]| <= 3
    && (forall k :: 1 <= k < |gs| ==> |gs[k]| == 3)
    && (forall k :: 0 <= k < |gs| ==> IsDigits(gs[k]))
  }

  lemma {:induction false} GroupsShape(s: string)
    requires IsDigits(s)
    ensures WellGrouped(Groups(s))
    ensures Join(Groups(s), "") == s
    decreases |s|
  {
    if |s| > 3 {
      var pre := s[..|s| - 3];
      var last := s[|s| - 3..];
      assert IsDigits(pre) by {
        assert forall k :: 0 <= k < |pre| ==> pre[k] == s[k];
      }
      assert IsDigits(last) by {
        assert forall k :: 0 <= k < 3 ==> last[k] == s[|s| - 3 + k];
      }
      GroupsShape(pre);
      AppendGroup(Groups(pre), last);
      JoinAppend(Groups(pre), last, "");
      assert pre + "" + last == s;
    }
  }

  /** A further group of exactly three digits keeps the grouping well-formed. */
  lemma AppendGroup(gs: seq<string>, last: string)
    requires WellGrouped(gs) && |last| == 3 && IsDigits(last)
    ensures WellGrouped(gs + [last])
  {
    var hs := gs + [last];
    assert forall k :: 0 <= k < |gs| ==> hs[k] == gs[k];
    assert hs[|gs|] == last;
  }

  /** Replacing a one-character separator that occurs in no part swaps the separator. */
  lemma {:induction false} ReplaceSeparator(gs: seq<string>, c: char, rep: string)
    requires forall k :: 0 <= k < |gs| ==> c !in gs[k]
    ensures ReplaceAll(Join(gs, [c]), [c], rep) == Join(gs, rep)
    decreases |gs|
  {
    if |gs| == 1 {
      ReplaceCharNotIn(gs[0], c, rep);
    } else if |gs| > 1 {
      var rest := Join(gs[1..], [c]);
      assert Join(gs, [c]) == gs[0] + ([c] + rest);
      ReplaceCharConcat(gs[0], [c] + rest, c, rep);
      ReplaceCharConcat([c], rest, c, rep);
      ReplaceCharNotIn(gs[0], c, rep);
      assert ReplaceAll([c], [c], rep) == rep + ReplaceAll([], [c], rep);
      ReplaceSeparator(gs[1..], c, rep);
    }
  }

  lemma DigitGroupsHaveNo(gs: seq<string>, c: char)
    requires WellGrouped(gs) && !IsDigit(c)
    ensures forall k :: 0 <= k < |gs| ==> c !in gs[k]
  {
    forall k | 0 <= k < |gs|
      ensures c !in gs[k]
    {
      assert IsDigits(gs[k]);
    }
  }

  /** The salary string is the sign, then the digit groups joined by single
      spaces; the groups, put back together, are the decimal numeral of the
      salary's magnitude. */
  lemma SalaryDigitsGroups(salary: int)
    ensures var gs := Groups(NatToDecimal(Magnitude(salary)));
      WellGrouped(gs) && Join(gs, "") == NatToDecimal(Magnitude(salary))
      && SalaryDigits(salary) == SignOf(salary) + Join(gs, " ")
  {
    GroupsShape(NatToDecimal(Magnitude(salary)));
  }

  /** Deleting the spaces gives back `str(salary)`. */
  lemma SalaryDigitsValue(salary: int)
    ensures ReplaceAll(SalaryDigits(salary), " ", "") == IntToDecimal(salary)
  {
    SalaryDigitsGroups(salary);
    var gs := Groups(NatToDecimal(Magnitude(salary)));
    DigitGroupsHaveNo(gs, ' ');
    ReplaceSeparator(gs, ' ', "");
    if salary < 0 {
      ReplaceCharConcat("-", Join(gs, " "), ' ', "");
      ReplaceCharNotIn("-", ' ', "");
    } else {
      assert "" + Join(gs, " ") == Join(gs, " ");
    }
  }

  /** For a non-negative salary, splitting the string at whitespace gives the
      groups. */
  lemma SalaryDigitsWords(salary: nat)
    ensures Split(SalaryDigits(salary)) == Groups(NatToDecimal(salary))
    ensures WellGrouped(Split(SalaryDigits(salary)))
  {
    var gs := Groups(NatToDecimal(salary));
    GroupsShape(NatToDecimal(salary));
    GroupsAreTokens(gs);
    assert SalaryDigits(salary) == Join(gs, " ") by {
      assert SalaryDigits(salary) == "" + Join(gs, " ");
    }
    SplitJoin(gs);
  }

  lemma GroupsAreTokens(gs: seq<string>)
    requires WellGrouped(gs)
    ensures forall k :: 0 <= k < |gs| ==> IsToken(gs[k])
  {
    forall k | 0 <= k < |gs|
      ensures IsToken(gs[k])
    {
      assert IsDigits(gs[k]) && gs[k] != [];
    }
  }

  lemma SalaryExample()
    ensures SalaryDigits(120000) == "120 000"
  {
    Numeral120000();
    SixDigitSalary(120000, "120", "000");
  }

  /** A six-digit salary is its two halves with a space between them. */
  lemma SixDigitSalary(n: nat, a: string, b: string)
    requires |a| == 3 && |b| == 3 && NatToDecimal(n) == a + b
    ensures SalaryDigits(n) == a + " " + b
  {
    var d := a + b;
    TwoGroups(d);
    assert d[..3] == a && d[3..] == b;
    JoinPair(a, b, " ");
    assert SalaryDigits(n) == "" + Join([a, b], " ");
  }

  lemma Numeral120000()
    ensures NatToDecimal(120000) == "120000"
  {
    var one, two, zero := DigitChar(1), DigitChar(2), DigitChar(0);
    assert one == '1' && two == '2' && zero == '0';
    AppendDigit(1, 2, [one]);
    AppendDigit(12, 0, [one, two]);
    AppendDigit(120, 0, [one, two, zero]);
    AppendDigit(1200, 0, [one, two, zero, zero]);
    AppendDigit(12000, 0, [one, two, zero, zero, zero]);
    assert [one, two, zero, zero, zero] + [DigitChar(0)] == "120000";
  }

  /** One more digit on the right of a numeral. */
  lemma AppendDigit(n: nat, k: nat, s: string)
    requires n >= 1 && k < 10 && NatToDecimal(n) == s
    ensures NatToDecimal(10 * n + k) == s + [DigitChar(k)]
  {
    assert (10 * n + k) / 10 == n && (10 * n + k) % 10 == k;
  }

  lemma TwoGroups(s: string)
    requires 3 < |s| <= 6
    ensures Groups(s) == [s[..|s| - 3], s[|s| - 3..]]
  {
    assert Groups(s[..|s| - 3]) == [s[..|s| - 3]];
  }

  lemma JoinPair(a: string, b: string, sep: string)
    ensures Join([a, b], sep) == a + sep + b
  {
    assert [a, b][1..] == [b];
  }

  // ------------------------------------------------------------ file names

  /** The role a task carries: an employee or a responsible person. */
  datatype Role = Emp | Resp

  /** `safe_fio`: the initials with their dots removed. */
  function SafeFio(fio: string): (r: string)
    ensures '.' !in r
  {
    RemoveCharComplete(GetInitials(fio), '.');
    ReplaceAll(GetInitials(fio), ".", "")
  }

  lemma {:induction false} RemoveCharComplete(s: string, c: char)
    ensures c !in ReplaceAll(s, [c], "")
    decreases |s|
  {
    if s != [] {
      assert s[..1] == [s[0]];
      RemoveCharComplete(s[1..], c);
    }
  }

  /** What a file name starts with: the number `i + 1` (at least two digits),
      the person and the role. */
  function PersonPrefix(i: nat, fio: string, role: Role): (p: string)
    ensures var k := FindChar(p, '_');
      2 <= k && IsDigits(p[..k]) && DecimalValue(p[..k]) == i + 1
  {
    NumberBeforeUnderscore(Pad(i + 1, 2), PersonTag(fio, role));
    Pad(i + 1, 2) + PersonTag(fio, role)
  }

  /** An underscore, the person's initials without dots, then `_RESP` for a
      responsible person. */
  function PersonTag(fio: string, role: Role): (t: string)
    ensures t != [] && t[0] == '_'
  {
    "_" + SafeFio(fio) + (if role == Resp then "_RESP" else "")
  }

  /** The archive entry name of document `docName` for the `i`-th selected
      person: the person's prefix, an underscore, the document's name, an
      underscore, the style and the `.docx` extension. */
  function OutputFileName(i: nat, fio: string, role: Role, docName: string, style: string): (r: string)
    ensures EndsWith(r, "_" + style + ".docx")
  {
    var post := "_" + style + ".docx";
    var r := PersonPrefix(i, fio, role) + ("_" + docName) + post;
    assert r[|r| - |post|..] == post;
    r
  }

  lemma NumberBeforeUnderscore(p: string, rest: string)
    requires IsDigits(p) && rest != [] && rest[0] == '_'
    ensures FindChar(p + rest, '_') == |p|
    ensures (p + rest)[..|p|] == p
  {
    var s := p + rest;
    assert s[|p|] == '_';
    assert '_' !in p by {
      assert forall j :: 0 <= j < |p| ==> IsDigit(p[j]);
    }
    assert s[..|p|] == p;
  }

  lemma Associate(p: string, t: string, d: string, q: string)
    ensures ((p + t) + d) + q == p + ((t + d) + q)
  {
  }

  /** The number before the first `_` is `i + 1`: documents of different
      people never share a name. */
  lemma FileNameIndex(i: nat, fio: string, role: Role, docName: string, style: string)
    ensures var r := OutputFileName(i, fio, role, docName, style);
      var k := FindChar(r, '_');
      k >= 0 && IsDigits(r[..k]) && DecimalValue(r[..k]) == i + 1
  {
    var p := Pad(i + 1, 2);
    var t := PersonTag(fio, role);
    var d := "_" + docName;
    var q := "_" + style + ".docx";
    var rest := (t + d) + q;
    Associate(p, t, d, q);
    NumberBeforeUnderscore(p, rest);
  }

  lemma FileNameIndexInjective(i: nat, j: nat, fio1: string, fio2: string, role1: Role, role2: Role,
                               doc1: string, doc2: string, style1: string, style2: string)
    requires OutputFileName(i, fio1, role1, doc1, style1) == OutputFileName(j, fio2, role2, doc2, style2)
    ensures i == j
  {
    FileNameIndex(i, fio1, role1, doc1, style1);
    FileNameIndex(j, fio2, role2, doc2, style2);
  }

  /** For one person, role and style, different documents get different names. */
  lemma FileNameDocInjective(i: nat, fio: string, role: Role, doc1: string, doc2: string, style: string)
    requires OutputFileName(i, fio, role, doc1, style) == OutputFileName(i, fio, role, doc2, style)
    ensures doc1 == doc2
  {
    var pre := PersonPrefix(i, fio, role);
    var post := "_" + style + ".docx";
    var r1 := OutputFileName(i, fio, role, doc1, style);
    var r2 := OutputFileName(i, fio, role, doc2, style);
    assert "_" + doc1 == r1[|pre|..|r1| - |post|];
    assert "_" + doc2 == r2[|pre|..|r2| - |post|];
    assert doc1 == ("_" + doc1)[1..];
  }
}
