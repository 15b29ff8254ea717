/** The passport line of an employee record (main.py:46-86): cleaning a table
    cell, normalising the row's labels, finding the document number, the issuer
    and the issue date by label, and composing
    `Паспорт: …, выдан …, дата выдачи …`. The date parser (`pd.to_datetime`)
    is an oracle passed in as a value. */
module Passport {
  import opened Wrappers
  import opened PyStr
  import opened Dates

  // --------------------------------------------------------------- clean_val

  /** A table cell: `Missing` is a value `pd.isna` recognises, `Value(text)`
      any other value, by its `str(val)`. */
  datatype Cell = Missing | Value(text: string)

  /** `clean_val(val)`: `None` for a missing, blank or "nan" cell, otherwise the
      trimmed text. */
  function CleanVal(val: Cell): (r: Option<string>)
    ensures val.Missing? ==> r.None?
    ensures val.Value? && (Strip(val.text) == [] || LowerStr(Strip(val.text)) == "nan") ==> r.None?
    ensures val.Value? && Strip(val.text) != [] && LowerStr(Strip(val.text)) != "nan" ==> r == Some(Strip(val.text))
    ensures r.Some? ==> r.value != [] && Strip(r.value) == r.value
  {
    match val
    case Missing => None
    case Value(t) =>
      var s := Strip(t);
      StripIdempotent(t);
      if s == [] || LowerStr(s) == "nan" then None else Some(s)
  }

  /** Cleaning is idempotent: a cleaned value, put back in a cell, cleans to itself. */
  lemma CleanValIdempotent(val: Cell)
    requires CleanVal(val).Some?
    ensures CleanVal(Value(CleanVal(val).value)) == CleanVal(val)
  {
    StripIdempotent(val.text);
  }

  // ------------------------------------------------------------- row labels

  /** One `(label, value)` pair per column of the row, in column order. */
  type Row = seq<(string, Cell)>

  /** A label lower-cased, then trimmed: the result is trimmed and has no
      upper-case letter. */
  function NormKey(k: string): (r: string)
    ensures Strip(r) == r
    ensures forall i :: 0 <= i < |r| ==> !IsUpper(r[i])
  {
    NormKeyFacts(k);
    Strip(LowerStr(k))
  }

  lemma NormKeyFacts(k: string)
    ensures Strip(Strip(LowerStr(k))) == Strip(LowerStr(k))
    ensures var r := Strip(LowerStr(k)); forall i :: 0 <= i < |r| ==> !IsUpper(r[i])
  {
    var l := LowerStr(k);
    StripIdempotent(l);
    StrippedNoUpper(l);
  }

  /** Trimming keeps a text free of upper-case characters. */
  lemma StrippedNoUpper(l: string)
    requires forall i :: 0 <= i < |l| ==> !IsUpper(l[i])
    ensures var r := Strip(l); forall i :: 0 <= i < |r| ==> !IsUpper(r[i])
  {
    var r := Strip(l);
    var lo := StripSlice(l);
    forall i | 0 <= i < |r|
      ensures !IsUpper(r[i])
    {
      assert r[i] == l[lo + i];
    }
  }

  /** Normalising a normalised label changes nothing. */
  lemma NormKeyIdempotent(k: string)
    ensures NormKey(NormKey(k)) == NormKey(k)
  {
    var r := NormKey(k);
    assert LowerStr(r) == r;
  }

  function Keys(m: Row): (ks: seq<string>)
    ensures |ks| == |m| && forall i :: 0 <= i < |m| ==> ks[i] == m[i].0
  {
    seq(|m|, i requires 0 <= i < |m| => m[i].0)
  }

  predicate DistinctKeys(m: Row) {
    forall i, j :: 0 <= i < j < |m| ==> m[i].0 != m[j].0
  }

  /** Assigning `v` to key `k` in a dictionary kept as its item list in
      insertion order: an existing key keeps its place and takes the new value,
      a new key goes last, and every other entry stays where it was. */
  function Put(m: Row, k: string, v: Cell): (r: Row)
    requires DistinctKeys(m)
    ensures DistinctKeys(r)
    ensures Keys(r) == if k in Keys(m) then Keys(m) else Keys(m) + [k]
    ensures (k, v) in r
    ensures forall i :: 0 <= i < |m| && m[i].0 != k ==> r[i] == m[i]
  {
    if k in Keys(m) then
      var r := seq(|m|, i requires 0 <= i < |m| => if m[i].0 == k then (k, v) else m[i]);
      assert Keys(r) == Keys(m);
      var i :| 0 <= i < |m| && Keys(m)[i] == k;
      assert r[i] == (k, v);
      r
    else
      var r := m + [(k, v)];
      assert Keys(r) == Keys(m) + [k];
      assert r[|m|] == (k, v);
      r
  }

  /** A dictionary built from `(key, value)` pairs in order, as a dict
      comprehension builds it: a repeated key keeps its first position and
      takes its last value. */
  function DictFrom(ps: Row): (m: Row)
    ensures DistinctKeys(m)
  {
    if ps == [] then []
    else
      var last := ps[|ps| - 1];
      Put(DictFrom(ps[..|ps| - 1]), last.0, last.1)
  }

  /** The row with every label normalised, before duplicates are merged. */
  function NormPairs(row: Row): (ps: Row)
    ensures |ps| == |row|
    ensures forall i :: 0 <= i < |row| ==> ps[i] == (NormKey(row[i].0), row[i].1)
  {
    seq(|row|, i requires 0 <= i < |row| => (NormKey(row[i].0), row[i].1))
  }

  /** The row as a dictionary keyed by normalised labels: columns whose labels
      collide after normalisation merge into one entry. */
  function Lowered(row: Row): (m: Row)
    ensures DistinctKeys(m)
  {
    DictFrom(NormPairs(row))
  }

  /** The keys of the dictionary are exactly the keys of the pairs. */
  lemma {:induction false} DictFromKeys(ps: Row)
    ensures forall k :: k in Keys(DictFrom(ps)) <==> k in Keys(ps)
  {
    if ps != [] {
      var pre := ps[..|ps| - 1];
      DictFromKeys(pre);
      assert Keys(ps) == Keys(pre) + [ps[|ps| - 1].0];
    }
  }

  /** Each key carries the value of the last pair with that key. */
  lemma {:induction false} DictFromLastWins(ps: Row, j: nat)
    requires j < |ps|
    requires forall i :: j < i < |ps| ==> ps[i].0 != ps[j].0
    ensures ps[j] in DictFrom(ps)
  {
    var pre := ps[..|ps| - 1];
    var k := ps[|ps| - 1].0;
    var d := DictFrom(pre);
    if j == |ps| - 1 {
      if k in Keys(d) {
        var i :| 0 <= i < |Keys(d)| && Keys(d)[i] == k;
        assert DictFrom(ps)[i] == ps[j];
      } else {
        assert DictFrom(ps)[|d|] == ps[j];
      }
    } else {
      assert pre[j] == ps[j];
      assert forall i :: j < i < |pre| ==> pre[i] == ps[i];
      DictFromLastWins(pre, j);
      var i :| 0 <= i < |d| && d[i] == ps[j];
      assert DictFrom(ps)[i] == ps[j];
    }
  }

  /** The labels of the normalised row are exactly the normalised labels. */
  lemma LoweredKeys(row: Row)
    ensures forall k :: k in Keys(Lowered(row)) <==> exists i :: 0 <= i < |row| && NormKey(row[i].0) == k
  {
    DictFromKeys(NormPairs(row));
    NormPairsKeys(row);
  }

  lemma NormPairsKeys(row: Row)
    ensures forall k :: k in Keys(NormPairs(row)) <==> exists i :: 0 <= i < |row| && NormKey(row[i].0) == k
  {
    var ps := NormPairs(row);
    var ks := Keys(ps);
    assert forall i :: 0 <= i < |row| ==> ks[i] == NormKey(row[i].0);
  }

  /** A label of the normalised row carries the value of the last column whose
      label normalises to it. */
  lemma LoweredLastWins(row: Row, j: nat)
    requires j < |row|
    requires forall i :: j < i < |row| ==> NormKey(row[i].0) != NormKey(row[j].0)
    ensures (NormKey(row[j].0), row[j].1) in Lowered(row)
  {
    DictFromLastWins(NormPairs(row), j);
  }

  /** Pairs whose keys are already distinct make a dictionary that is the
      pairs themselves, in the same order. */
  lemma {:induction false} DictFromDistinct(ps: Row)
    requires DistinctKeys(ps)
    ensures DictFrom(ps) == ps
  {
    if ps != [] {
      var pre, last := ps[..|ps| - 1], ps[|ps| - 1];
      DistinctInit(ps);
      DictFromDistinct(pre);
      assert DictFrom(ps) == Put(pre, last.0, last.1);
      PutNew(pre, last.0, last.1);
      InitLast(ps);
    }
  }

  lemma InitLast<T>(s: seq<T>)
    requires s != []
    ensures s == s[..|s| - 1] + [s[|s| - 1]]
  {
  }

  lemma DistinctInit(ps: Row)
    requires DistinctKeys(ps) && ps != []
    ensures DistinctKeys(ps[..|ps| - 1]) && ps[|ps| - 1].0 !in Keys(ps[..|ps| - 1])
  {
    var pre := ps[..|ps| - 1];
    assert forall i :: 0 <= i < |pre| ==> pre[i] == ps[i];
  }

  lemma PutNew(m: Row, k: string, v: Cell)
    requires DistinctKeys(m) && k !in Keys(m)
    ensures Put(m, k, v) == m + [(k, v)]
  {
  }

  /** When no two labels of the row collide after normalisation, the normalised
      row keeps every column, in the row's own column order. */
  lemma LoweredInColumnOrder(row: Row)
    requires DistinctKeys(NormPairs(row))
    ensures Lowered(row) == NormPairs(row)
  {
    DictFromDistinct(NormPairs(row));
  }

  // ------------------------------------------------------------ field search

  /** The three things `build_passport_string` looks for by label. */
  datatype Field = Number | Issuer | IssueDate

  predicate ContainsAny(key: string, words: seq<string>) {
    exists w :: w in words && Contains(key, w)
  }

  const NumberWords: seq<string> := ["паспорт", "серия", "номер", "документ"]
  const IssuerWords: seq<string> := ["кем выдан", "выдан", "кем"]
  const DateWords: seq<string> := ["дата", "когда", "число"]

  /** Whether a (normalised) label is a candidate for field `f`; an issuer
      label that mentions a date is skipped. Among the issuer keywords,
      "кем выдан" adds nothing to "выдан" and "кем". */
  predicate Matches(key: string, f: Field)
    ensures f == Number ==> (Matches(key, f) <==>
      Contains(key, "паспорт") || Contains(key, "серия") || Contains(key, "номер") || Contains(key, "документ"))
    ensures f == Issuer ==> (Matches(key, f) <==>
      (Contains(key, "выдан") || Contains(key, "кем")) && !Contains(key, "дата") && !Contains(key, "когда"))
    ensures f == IssueDate ==> (Matches(key, f) <==>
      Contains(key, "дата") || Contains(key, "когда") || Contains(key, "число"))
  {
    IssuerWordsReduce(key);
    assert NumberWords[0] == "паспорт" && NumberWords[1] == "серия" && NumberWords[2] == "номер" && NumberWords[3] == "документ";
    assert DateWords[0] == "дата" && DateWords[1] == "когда" && DateWords[2] == "число";
    match f
    case Number => ContainsAny(key, NumberWords)
    case Issuer => ContainsAny(key, IssuerWords) && !(Contains(key, "дата") || Contains(key, "когда"))
    case IssueDate => ContainsAny(key, DateWords)
  }

  lemma IssuerWordsReduce(key: string)
    ensures ContainsAny(key, IssuerWords) <==> Contains(key, "выдан") || Contains(key, "кем")
  {
    if ContainsAny(key, IssuerWords) {
      var w :| w in IssuerWords && Contains(key, w);
      if w == "кем выдан" {
        ContainsTail(key, w, 4);
        assert w[4..] == "выдан";
      }
    }
    assert IssuerWords[1] == "выдан" && IssuerWords[2] == "кем";
  }

  /** What a scan takes from one column: a value, or `None` to move on. */
  type Picker = ((string, Cell)) -> Option<string>

  /** The scan for field `f`: a column yields a value exactly when its label
      is a candidate and its cell is usable, and the value is the cleaned cell. */
  function FieldPick(f: Field): (pick: Picker)
    ensures forall e :: pick(e).Some? <==> Matches(e.0, f) && CleanVal(e.1).Some?
    ensures forall e :: pick(e).Some? ==> pick(e) == CleanVal(e.1)
  {
    (e: (string, Cell)) => if Matches(e.0, f) then CleanVal(e.1) else None
  }

  /** The first value a scan takes, in column order. */
  function FirstPick(m: Row, pick: Picker): (r: Option<string>)
    ensures r.Some? ==> exists i :: 0 <= i < |m| && pick(m[i]) == r
    decreases |m|
  {
    if m == [] then None
    else if pick(m[0]).Some? then pick(m[0])
    else FirstPick(m[1..], pick)
  }

  /** `FirstPick` is the value at the first column that yields one, and `None`
      exactly when no column does. */
  lemma {:induction false} FirstPickIsFirstHit(m: Row, pick: Picker)
    ensures FirstPick(m, pick).None? <==> forall i :: 0 <= i < |m| ==> pick(m[i]).None?
    ensures FirstPick(m, pick).Some? ==> exists i :: 0 <= i < |m| && pick(m[i]) == FirstPick(m, pick)
                                                   && forall j :: 0 <= j < i ==> pick(m[j]).None?
    decreases |m|
  {
    if m != [] {
      FirstPickIsFirstHit(m[1..], pick);
      assert forall i :: 1 <= i < |m| ==> m[i] == m[1..][i - 1];
      if pick(m[0]).None? && FirstPick(m, pick).Some? {
        var i :| 0 <= i < |m[1..]| && pick(m[1..][i]) == FirstPick(m[1..], pick)
          && forall j :: 0 <= j < i ==> pick(m[1..][j]).None?;
        assert pick(m[i + 1]) == FirstPick(m, pick);
      }
    }
  }

  lemma FirstPickSuffix(m: Row, pick: Picker, i: nat)
    requires i < |m| && pick(m[i]).None?
    ensures FirstPick(m[i..], pick) == FirstPick(m[i + 1..], pick)
  {
    assert m[i..][1..] == m[i + 1..];
  }

  /** The cleaned value of the first candidate column for `f` with a usable value. */
  function FirstValue(m: Row, f: Field): (r: Option<string>)
    ensures r.Some? ==> r.value != []
  {
    FirstPick(m, FieldPick(f))
  }

  /** The issuer is never read from a column whose label mentions a date. */
  lemma IssuerNotFromDateLabel(m: Row)
    requires FirstValue(m, Issuer).Some?
    ensures exists i :: 0 <= i < |m| && CleanVal(m[i].1) == FirstValue(m, Issuer)
                     && !Contains(m[i].0, "дата") && !Contains(m[i].0, "когда")
  {
    var i :| 0 <= i < |m| && FieldPick(Issuer)(m[i]) == FirstValue(m, Issuer);
  }

  // -------------------------------------------------------------- rendering

  /** A ten-digit number is shown as series and number: `1234 567890`. */
  function FormatNumber(v: string): (r: string)
    ensures v != [] ==> r != []
    ensures IsDigits(v) && |v| == 10 ==> |r| == 11 && r[..4] == v[..4] && r[4] == ' ' && r[5..] == v[4..]
    ensures !(IsDigits(v) && |v| == 10) ==> r == v
  {
    if IsDigits(v) && |v| == 10 then v[..4] + " " + v[4..] else v
  }

  /** The issue date: re-rendered as `DD.MM.YYYY` when the parser accepts it,
      kept as written otherwise. */
  function RenderDate(v: string, parseDate: string -> Option<ParsedDate>): (r: string)
    ensures v != [] ==> r != []
    ensures parseDate(v).Some? ==> r == StrftimeDMY(parseDate(v).value)
    ensures parseDate(v).Some? ==> |r| == 10 && r[2] == '.' && r[5] == '.'
    ensures parseDate(v).None? ==> r == v
  {
    match parseDate(v)
    case Some(d) => StrftimeDMY(d)
    case None => v
  }

  const Placeholder: string := "__________________"

  /** The list `parts` for the three found values, `""` meaning not found. */
  function PassportParts(num: string, issuer: string, date: string): (parts: seq<string>)
    ensures |parts| == 1 + (if issuer != "" then 1 else 0) + (if date != "" then 1 else 0)
    ensures parts[0] == "Паспорт: " + (if num != "" then num else Placeholder)
    ensures issuer != "" ==> parts[1] == "выдан " + issuer
    ensures date != "" ==> parts[|parts| - 1] == "дата выдачи " + date
  {
    var head := [if num != "" then "Паспорт: " + num else "Паспорт: " + Placeholder];
    var withIssuer := if issuer != "" then head + ["выдан " + issuer] else head;
    if date != "" then withIssuer + ["дата выдачи " + date] else withIssuer
  }

  /** `passport_num` after its scan: the formatted number, or `""`. */
  function NumberText(m: Row): (r: string)
  {
    match FirstValue(m, Number)
    case Some(v) => FormatNumber(v)
    case None => ""
  }

  /** `issued_by` after its scan: the issuer, or `""`. */
  function IssuerText(m: Row): (r: string)
  {
    FirstValue(m, Issuer).GetOr("")
  }

  /** `date_issued` after its scan: the rendered date, or `""`. */
  function DateText(m: Row, parseDate: string -> Option<ParsedDate>): (r: string)
  {
    match FirstValue(m, IssueDate)
    case Some(v) => RenderDate(v, parseDate)
    case None => ""
  }

  /** The value `build_passport_string(row)` returns; it always opens with the
      number clause's label. */
  function PassportString(row: Row, parseDate: string -> Option<ParsedDate>): (r: string)
    ensures StartsWith(r, "Паспорт: ")
  {
    var m := Lowered(row);
    var num, issuer, date := NumberText(m), IssuerText(m), DateText(m, parseDate);
    var r := Join(PassportParts(num, issuer, date), ", ");
    JoinedParts(num, issuer, date);
    OpeningOf(r, if num != "" then num else Placeholder,
      if issuer != "" then ", выдан " + issuer else "",
      if date != "" then ", дата выдачи " + date else "");
    r
  }

  lemma JoinAppendIf(ws: seq<string>, b: bool, w: string, sep: string)
    requires |ws| > 0
    ensures Join(if b then ws + [w] else ws, sep) == Join(ws, sep) + (if b then sep + w else "")
  {
    if b {
      JoinAppend(ws, w, sep);
    } else {
      assert Join(ws, sep) + "" == Join(ws, sep);
    }
  }

  /** Joining a head with two optional items. */
  lemma JoinOptionals(first: string, bi: bool, wi: string, bd: bool, wd: string, sep: string)
    ensures var withI := if bi then [first] + [wi] else [first];
      Join(if bd then withI + [wd] else withI, sep)
        == first + (if bi then sep + wi else "") + (if bd then sep + wd else "")
  {
    var withI := if bi then [first] + [wi] else [first];
    JoinAppendIf([first], bi, wi, sep);
    JoinAppendIf(withI, bd, wd, sep);
  }

  lemma IssuerClause(issuer: string)
    ensures ", " + ("выдан " + issuer) == ", выдан " + issuer
  {
  }

  lemma DateClause(date: string)
    ensures ", " + ("дата выдачи " + date) == ", дата выдачи " + date
  {
  }

  /** The parts joined with a comma and a space, written out clause by clause. */
  lemma JoinedParts(num: string, issuer: string, date: string)
    ensures Join(PassportParts(num, issuer, date), ", ") ==
      "Паспорт: " + (if num != "" then num else Placeholder)
      + (if issuer != "" then ", выдан " + issuer else "")
      + (if date != "" then ", дата выдачи " + date else "")
  {
    var first := "Паспорт: " + (if num != "" then num else Placeholder);
    JoinOptionals(first, issuer != "", "выдан " + issuer, date != "", "дата выдачи " + date, ", ");
    IssuerClause(issuer);
    DateClause(date);
  }

  /** The passport line is the number clause, then `, выдан …` when an issuer
      was found, then `, дата выдачи …` when a date was found. */
  lemma PassportClauses(row: Row, parseDate: string -> Option<ParsedDate>)
    ensures var m := Lowered(row);
      var num := NumberText(m);
      var issuer := IssuerText(m);
      var date := DateText(m, parseDate);
      PassportString(row, parseDate) ==
        "Паспорт: " + (if num != "" then num else Placeholder)
        + (if issuer != "" then ", выдан " + issuer else "")
        + (if date != "" then ", дата выдачи " + date else "")
  {
    var m := Lowered(row);
    JoinedParts(NumberText(m), IssuerText(m), DateText(m, parseDate));
  }

  lemma OpeningOf(s: string, num: string, t1: string, t2: string)
    requires s == "Паспорт: " + num + t1 + t2
    ensures StartsWith(s, "Паспорт: " + num)
    ensures StartsWith(s, "Паспорт: ")
  {
    var opening := "Паспорт: " + num;
    assert s == opening + (t1 + t2);
    assert s[..|opening|] == opening;
    assert s[..|"Паспорт: "|] == "Паспорт: ";
  }

  /** The number clause shows the formatted number, or the placeholder. */
  lemma NumberShown(m: Row)
    ensures var v := FirstValue(m, Number);
      (if NumberText(m) != "" then NumberText(m) else Placeholder)
        == if v.Some? then FormatNumber(v.value) else Placeholder
  {
  }

  /** The line always opens with `Паспорт: `, followed by the formatted number
      of the first usable number column, or by the placeholder when there is none. */
  lemma PassportOpening(row: Row, parseDate: string -> Option<ParsedDate>)
    ensures StartsWith(PassportString(row, parseDate), "Паспорт: ")
    ensures var v := FirstValue(Lowered(row), Number);
      StartsWith(PassportString(row, parseDate), "Паспорт: " + if v.Some? then FormatNumber(v.value) else Placeholder)
  {
    var m := Lowered(row);
    var s := PassportString(row, parseDate);
    var num := NumberText(m);
    var issuer := IssuerText(m);
    var date := DateText(m, parseDate);
    PassportClauses(row, parseDate);
    NumberShown(m);
    OpeningOf(s, if num != "" then num else Placeholder,
      if issuer != "" then ", выдан " + issuer else "",
      if date != "" then ", дата выдачи " + date else "");
  }

  /** `build_passport_string(row)` (main.py:52-86). */
  method BuildPassportString(row: Row, parseDate: string -> Option<ParsedDate>) returns (s: string)
    ensures s == PassportString(row, parseDate)
  {
    var rowLower := Lowered(row);
    var passportNum := ScanNumber(rowLower);
    var issuedBy := ScanIssuer(rowLower);
    var dateIssued := ScanIssueDate(rowLower, parseDate);

    var parts: seq<string> := [];
    if passportNum != "" {
      parts := parts + ["Паспорт: " + passportNum];
    } else {
      parts := parts + ["Паспорт: " + Placeholder];
    }
    assert parts == [if passportNum != "" then "Паспорт: " + passportNum else "Паспорт: " + Placeholder];
    if issuedBy != "" {
      parts := parts + ["выдан " + issuedBy];
    }
    if dateIssued != "" {
      parts := parts + ["дата выдачи " + dateIssued];
    }
    assert parts == PassportParts(passportNum, issuedBy, dateIssued);
    s := Join(parts, ", ");
  }

  /** The first loop of `build_passport_string` (main.py:54-62). */
  method ScanNumber(rowLower: Row) returns (passportNum: string)
    ensures passportNum == NumberText(rowLower)
  {
    passportNum := "";
    for i := 0 to |rowLower|
      invariant passportNum == ""
      invariant FirstValue(rowLower, Number) == FirstPick(rowLower[i..], FieldPick(Number))
    {
      var key := rowLower[i].0;
      if ContainsAny(key, NumberWords) {
        var val := CleanVal(rowLower[i].1);
        if val.Some? {
          var v := val.value;
          if IsDigits(v) && |v| == 10 {
            v := v[..4] + " " + v[4..];
          }
          passportNum := v;
          break;
        }
      }
      FirstPickSuffix(rowLower, FieldPick(Number), i);
    }
  }

  /** The second loop (main.py:64-69): labels mentioning a date are skipped. */
  method ScanIssuer(rowLower: Row) returns (issuedBy: string)
    ensures issuedBy == IssuerText(rowLower)
  {
    issuedBy := "";
    for i := 0 to |rowLower|
      invariant issuedBy == ""
      invariant FirstValue(rowLower, Issuer) == FirstPick(rowLower[i..], FieldPick(Issuer))
    {
      var key := rowLower[i].0;
      if ContainsAny(key, IssuerWords) {
        if Contains(key, "дата") || Contains(key, "когда") {
          FirstPickSuffix(rowLower, FieldPick(Issuer), i);
          continue;
        }
        var val := CleanVal(rowLower[i].1);
        if val.Some? {
          issuedBy := val.value;
          break;
        }
      }
      FirstPickSuffix(rowLower, FieldPick(Issuer), i);
    }
  }

  /** The third loop (main.py:71-78): the date is re-rendered when it parses. */
  method ScanIssueDate(rowLower: Row, parseDate: string -> Option<ParsedDate>) returns (dateIssued: string)
    ensures dateIssued == DateText(rowLower, parseDate)
  {
    dateIssued := "";
    for i := 0 to |rowLower|
      invariant dateIssued == ""
      invariant FirstValue(rowLower, IssueDate) == FirstPick(rowLower[i..], FieldPick(IssueDate))
    {
      var key := rowLower[i].0;
      if ContainsAny(key, DateWords) {
        var val := CleanVal(rowLower[i].1);
        if val.Some? {
          dateIssued := RenderDate(val.value, parseDate);
          break;
        }
      }
      FirstPickSuffix(rowLower, FieldPick(IssueDate), i);
    }
  }
}
