/** The name and position helpers of the document builder (main.py:88-96,
    164-208): inflection into a grammatical case, initials, grammatical gender,
    and case clean-up of text that arrives in capitals. The morphological
    analyzer (`pymorphy3`) is an oracle passed in as a value. */
module Morphology {
  import opened Wrappers
  import opened PyStr

  /** The grammatical cases the document builder asks for, by their pymorphy tags. */
  datatype GramCase = Gent | Accs | Datv

  /** What the builder uses of the analyzer: `inflect(w, c)` is the word form of
      `w` in case `c` (`None` when the analyzer cannot inflect it or raises), and
      `feminine(w)` says whether the first parse of `w` carries the `femn` tag
      (`None` when parsing raises). */
  datatype Analyzer = Analyzer(inflect: (string, GramCase) -> Option<string>, feminine: string -> Option<bool>)

  // ------------------------------------------------------------ get_inflected

  /** The loop body of `get_inflected` for one token `w` (main.py:168-180). */
  function InflectWord(w: string, c: GramCase, a: Analyzer): (r: string)
    ensures a.inflect(w, c).None? ==> r == w
    ensures a.inflect(w, c).Some? && w != [] && IsUpper(w[0]) ==> r == Capitalize(a.inflect(w, c).value)
    ensures a.inflect(w, c).Some? && (w == [] || !IsUpper(w[0])) ==> r == a.inflect(w, c).value
    ensures IsToken(w) && (a.inflect(w, c).Some? ==> IsToken(a.inflect(w, c).value)) ==> IsToken(r)
  {
    match a.inflect(w, c)
    case None => w
    case Some(word) =>
      if w != [] && IsUpper(w[0]) then
        CapitalizeToken(word);
        Capitalize(word)
      else word
  }

  lemma CapitalizeToken(w: string)
    ensures IsToken(w) ==> IsToken(Capitalize(w))
  {
  }

  /** Every token passed through `InflectWord`, in order. */
  function InflectWords(ws: seq<string>, c: GramCase, a: Analyzer): (rs: seq<string>)
    ensures |rs| == |ws|
    ensures forall k :: 0 <= k < |ws| ==> rs[k] == InflectWord(ws[k], c, a)
  {
    seq(|ws|, k requires 0 <= k < |ws| => InflectWord(ws[k], c, a))
  }

  /** What `get_inflected(text, case_tag)` returns; `morph == None` is the case
      where the analyzer could not be loaded (main.py:164-185). */
  function InflectedText(text: string, c: GramCase, morph: Option<Analyzer>): (r: string)
    ensures text == [] || morph.None? ==> r == text
    ensures text != [] && morph.Some? && r != [] ==> !IsLower(r[0])
  {
    if text == [] || morph.None? then text
    else UpperFirst(Join(InflectWords(Split(text), c, morph.value), " "))
  }

  /** `get_inflected(text, case_tag)`: inflects token by token and upper-cases
      the first character of the joined result. */
  method GetInflected(text: string, c: GramCase, morph: Option<Analyzer>) returns (r: string)
    ensures r == InflectedText(text, c, morph)
  {
    if text == [] || morph.None? {
      return text;
    }
    var a := morph.value;
    var words := Split(text);
    var res: seq<string> := [];
    for i := 0 to |words|
      invariant |res| == i
      invariant forall k :: 0 <= k < i ==> res[k] == InflectWord(words[k], c, a)
    {
      var w := words[i];
      var isCapitalized := IsUpper(w[0]);
      match a.inflect(w, c) {
        case Some(inflected) =>
          var word := inflected;
          if isCapitalized {
            word := Capitalize(word);
          }
          res := res + [word];
        case None =>
          res := res + [w];
      }
    }
    assert res == InflectWords(words, c, a);
    var finalStr := Join(res, " ");
    if finalStr != [] {
      r := [Upper(finalStr[0])] + finalStr[1..];
    } else {
      r := [];
    }
  }

  lemma UpperFirstConcat(a: string, b: string)
    requires a != []
    ensures UpperFirst(a + b) == UpperFirst(a) + b
  {
    assert (a + b)[1..] == a[1..] + b;
  }

  /** Upper-casing the first character of a join touches only the first token. */
  lemma UpperFirstJoin(t0: string, rest: seq<string>)
    requires t0 != []
    ensures UpperFirst(Join([t0] + rest, " ")) == Join([UpperFirst(t0)] + rest, " ")
  {
    var u0 := UpperFirst(t0);
    if rest != [] {
      var tail := " " + Join(rest, " ");
      assert ([u0] + rest)[1..] == rest;
      assert ([t0] + rest)[1..] == rest;
      assert Join([u0] + rest, " ") == u0 + tail;
      assert Join([t0] + rest, " ") == t0 + tail;
      UpperFirstConcat(t0, tail);
    } else {
      assert [u0] + rest == [u0];
      assert [t0] + rest == [t0];
    }
  }

  /** When the analyzer returns single words, the result has one token per input
      token: the inflected first token with its first letter upper-cased, then
      the other inflected tokens, each kept verbatim where it could not be
      inflected. */
  lemma {:induction false} InflectedTokens(text: string, c: GramCase, a: Analyzer)
    requires forall k :: 0 <= k < |Split(text)| && a.inflect(Split(text)[k], c).Some? ==>
      IsToken(a.inflect(Split(text)[k], c).value)
    requires Split(text) != []
    ensures var ts := InflectWords(Split(text), c, a);
      Split(InflectedText(text, c, Some(a))) == [UpperFirst(ts[0])] + ts[1..]
    ensures |Split(InflectedText(text, c, Some(a)))| == |Split(text)|
  {
    var ws := Split(text);
    var ts := InflectWords(ws, c, a);
    assert forall k :: 0 <= k < |ts| ==> IsToken(ts[k]) by {
      forall k | 0 <= k < |ts| ensures IsToken(ts[k]) {
        assert IsToken(ws[k]);
      }
    }
    assert text != [];
    assert ts == [ts[0]] + ts[1..];
    UpperFirstJoin(ts[0], ts[1..]);
    var us := [UpperFirst(ts[0])] + ts[1..];
    assert forall k :: 0 <= k < |us| ==> IsToken(us[k]) by {
      forall k | 0 <= k < |us| ensures IsToken(us[k]) {
        if k > 0 { assert us[k] == ts[k]; }
      }
    }
    SplitJoin(us);
  }

  /** Input without any token (empty or whitespace only) gives "" once the
      analyzer is loaded. */
  lemma BlankTextInflectsToEmpty(text: string, c: GramCase, a: Analyzer)
    requires Split(text) == []
    ensures InflectedText(text, c, Some(a)) == []
  {
  }

  // ------------------------------------------------------------- get_initials

  /** `get_initials(full_name)` (main.py:187-192). */
  function GetInitials(fullName: string): (r: string)
    ensures fullName == [] ==> r == []
    ensures |Split(fullName)| < 3 ==> r == fullName
    ensures |Split(fullName)| >= 3 ==> var p := Split(fullName);
      r == Capitalize(p[0]) + " " + [Upper(p[1][0]), '.', Upper(p[2][0]), '.']
  {
    if fullName == [] then []
    else
      var p := Split(fullName);
      if |p| >= 3 then Capitalize(p[0]) + " " + [Upper(p[1][0]), '.', Upper(p[2][0]), '.']
      else fullName
  }

  /** Initials are two tokens: the capitalised surname and "I.P.". */
  lemma {:induction false} InitialsTokens(fullName: string)
    requires |Split(fullName)| >= 3
    ensures var p := Split(fullName);
      Split(GetInitials(fullName)) == [Capitalize(p[0]), [Upper(p[1][0]), '.', Upper(p[2][0]), '.']]
  {
    var p := Split(fullName);
    var ts := [Capitalize(p[0]), [Upper(p[1][0]), '.', Upper(p[2][0]), '.']];
    assert IsToken(p[0]) && IsToken(p[1]) && IsToken(p[2]);
    CapitalizeToken(p[0]);
    assert IsToken(ts[1]);
    assert Join(ts, " ") == GetInitials(fullName);
    SplitJoin(ts);
  }

  /** Tokens after the third (a double patronymic, a note) do not change the initials. */
  lemma {:induction false} InitialsIgnoreExtraTokens(fullName: string)
    requires |Split(fullName)| >= 3
    ensures GetInitials(Join(Split(fullName)[..3], " ")) == GetInitials(fullName)
  {
    var p := Split(fullName);
    var q := p[..3];
    assert forall k :: 0 <= k < |q| ==> IsToken(q[k]);
    SplitJoin(q);
    assert Join(q, " ") != [];
  }

  // ---------------------------------------------------------- get_gender_word

  predicate FemininePatronymic(p: string) {
    EndsWith(p, "вна") || EndsWith(p, "чна") || EndsWith(p, "шна")
  }

  predicate MasculinePatronymic(p: string) {
    EndsWith(p, "вич")
  }

  /** The patronymic (the third token, lower-cased) settles the gender. */
  predicate PatronymicDecides(parts: seq<string>) {
    |parts| >= 3 && (FemininePatronymic(LowerStr(parts[2])) || MasculinePatronymic(LowerStr(parts[2])))
  }

  /** The analyzer, asked about the first name (the second token), says feminine. */
  predicate AnalyzerSaysFeminine(parts: seq<string>, morph: Option<Analyzer>) {
    |parts| >= 2 && morph.Some? && morph.value.feminine(parts[1]) == Some(true)
  }

  /** `get_gender_word(fio, word_masc, word_fem)` (main.py:194-208). */
  function GetGenderWord(fio: string, wordMasc: string, wordFem: string, morph: Option<Analyzer>): (r: string)
    ensures r == wordMasc || r == wordFem
    ensures Split(fio) == [] ==> r == wordMasc
    ensures var p := Split(fio);
      |p| >= 3 && FemininePatronymic(LowerStr(p[2])) ==> r == wordFem
    ensures var p := Split(fio);
      |p| >= 3 && !FemininePatronymic(LowerStr(p[2])) && MasculinePatronymic(LowerStr(p[2])) ==> r == wordMasc
    ensures var p := Split(fio);
      !PatronymicDecides(p) ==> r == if AnalyzerSaysFeminine(p, morph) then wordFem else wordMasc
  {
    if fio == [] then wordMasc
    else
      var parts := Split(fio);
      if |parts| >= 3 && FemininePatronymic(LowerStr(parts[2])) then wordFem
      else if |parts| >= 3 && MasculinePatronymic(LowerStr(parts[2])) then wordMasc
      else if |parts| >= 2 && morph.Some? then
        match morph.value.feminine(parts[1])
        case Some(true) => wordFem
        case _ => wordMasc
      else wordMasc
  }

  /** A recognised patronymic wins over the analyzer, whichever analyzer is loaded. */
  lemma PatronymicOverridesAnalyzer(fio: string, wordMasc: string, wordFem: string, m1: Option<Analyzer>, m2: Option<Analyzer>)
    requires PatronymicDecides(Split(fio))
    ensures GetGenderWord(fio, wordMasc, wordFem, m1) == GetGenderWord(fio, wordMasc, wordFem, m2)
  {
  }

  /** With distinct words, the feminine word comes out exactly when there is
      feminine evidence: a feminine patronymic, or no telling patronymic and an
      analyzer that reads the first name as feminine. */
  lemma GenderIff(fio: string, wordMasc: string, wordFem: string, morph: Option<Analyzer>)
    requires wordMasc != wordFem
    ensures var p := Split(fio);
      GetGenderWord(fio, wordMasc, wordFem, morph) == wordFem <==>
        (|p| >= 3 && FemininePatronymic(LowerStr(p[2])))
        || (!PatronymicDecides(p) && AnalyzerSaysFeminine(p, morph))
  {
  }

  // --------------------------------------------------------------- clean_case

  /** The number of upper-case characters of `s`. */
  function CountUpper(s: string): (n: nat)
    ensures n <= |s|
  {
    if s == [] then 0 else (if IsUpper(s[0]) then 1 else 0) + CountUpper(s[1..])
  }

  /** The text is longer than four characters and more than four fifths of
      them are upper-case, compared in integers: fewer than a fifth are not,
      so at least five are. */
  predicate MostlyUpper(text: string)
    ensures MostlyUpper(text) <==> |text| > 4 && 5 * (|text| - CountUpper(text)) < |text|
    ensures MostlyUpper(text) ==> CountUpper(text) >= 5
  {
    |text| > 4 && 5 * CountUpper(text) > 4 * |text|
  }

  /** `clean_case(text)` (main.py:88-96): text longer than four characters and
      more than 80% upper-case is capitalised, anything else is kept. */
  function CleanCase(text: string): (r: string)
    ensures |r| == |text|
    ensures !MostlyUpper(text) ==> r == text
    ensures MostlyUpper(text) ==>
      r[0] == Upper(text[0]) && forall i :: 1 <= i < |r| ==> r[i] == Lower(text[i])
  {
    if text == [] then []
    else if MostlyUpper(text) then Capitalize(text)
    else text
  }

  lemma {:induction false} LowerStrNoUpper(s: string)
    ensures CountUpper(LowerStr(s)) == 0
    decreases |s|
  {
    if s != [] {
      assert LowerStr(s)[1..] == LowerStr(s[1..]);
      LowerStrNoUpper(s[1..]);
    }
  }

  /** `clean_case` is idempotent: a capitalised text has at most one capital
      and is never again "mostly upper-case". */
  lemma {:induction false} CleanCaseIdempotent(text: string)
    ensures CleanCase(CleanCase(text)) == CleanCase(text)
  {
    if MostlyUpper(text) {
      var r := Capitalize(text);
      assert r[1..] == LowerStr(text[1..]);
      LowerStrNoUpper(text[1..]);
      assert CountUpper(r) <= 1;
    }
  }

  // ----------------------------------------------------------------- examples

  lemma InitialsExample()
    ensures GetInitials("Иванов" + " " + "Иван" + " " + "Иванович") == "Иванов И.И."
  {
    SplitThreeWords("Иванов", "Иван", "Иванович");
    assert Capitalize("Иванов") == "Иванов";
  }

  lemma ShortNameExample()
    ensures GetInitials("Иванов") == "Иванов"
  {
    assert NoSpaceByChar("Иванов");
    NoSpaceByCharSound("Иванов");
  }

  lemma PetrovnaIsFeminine()
    ensures FemininePatronymic(LowerStr("Петровна"))
  {
    var p := LowerStr("Петровна");
    assert p == "петровна";
    assert p[5..] == "вна";
  }

  lemma SergeevichIsMasculine()
    ensures !FemininePatronymic(LowerStr("Сергеевич")) && MasculinePatronymic(LowerStr("Сергеевич"))
  {
    var p := LowerStr("Сергеевич");
    assert p == "сергеевич";
    assert p[6..] == "вич";
  }

  lemma FeminineExample(morph: Option<Analyzer>)
    ensures GetGenderWord("Иванова" + " " + "Мария" + " " + "Петровна", "принят", "принята", morph) == "принята"
  {
    SplitThreeWords("Иванова", "Мария", "Петровна");
    PetrovnaIsFeminine();
  }

  lemma MasculineExample(morph: Option<Analyzer>)
    ensures GetGenderWord("Петров" + " " + "Иван" + " " + "Сергеевич", "принят", "принята", morph) == "принят"
  {
    SplitThreeWords("Петров", "Иван", "Сергеевич");
    SergeevichIsMasculine();
  }
}
