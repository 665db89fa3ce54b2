/** The three display formatters of InputData (bot.py), as pure functions of the raw
    registry fields, with the properties of their output. */
module Formatters {
  import opened Casing
  import opened PyStr

  datatype Result<T, E> = Ok(value: T) | Err(error: E)

  /** The exception that escapes get_final_address: indexing a segment that is not there. */
  datatype AddressError = IndexError

  // ---------------------------------------------------------------------------
  // Name: get_final_name

  /** Legal form (before the first '"') lower-cased, the rest with all '"' dropped, in
      guillemets, followed by one space. */
  function FinalName(name: string): string {
    var parts := Split(name, "\"");
    Lower(parts[0]) + "«" + Join(parts[1..], "") + "» "
  }

  /** The name layout in terms of the first quotation mark. */
  lemma {:induction false} NameLayout(name: string)
    ensures match FirstIndex(name, "\"")
      case None => FinalName(name) == Lower(name) + "«» "
      case Some(k) => FinalName(name) == Lower(name[..k]) + "«" + RemoveAll(name[k + 1..], '"') + "» "
  {
    match FirstIndex(name, "\"")
    case None =>
    case Some(k) =>
      JoinSplitRemoves(name[k + 1..], '"');
  }

  /** The text inside the guillemets keeps every character of the short name except the
      quotation marks, in order and case. */
  lemma {:induction false} NameShortPart(name: string, k: nat)
    requires FirstIndex(name, "\"") == Some(k)
    ensures FinalName(name) == Lower(name[..k]) + "«" + RemoveAll(name[k + 1..], '"') + "» "
    ensures '"' !in RemoveAll(name[k + 1..], '"')
    ensures '"' !in name[..k]
  {
    NameLayout(name);
    FirstIndexSpec(name, "\"");
    forall j | 0 <= j < k
      ensures name[..k][j] != '"'
    {
      assert !OccursAt(name, "\"", j);
      assert name[j..j + 1] == [name[j]];
    }
  }

  // ---------------------------------------------------------------------------
  // Numbers: get_final_numbers

  function FinalNumbers(ogrn: string, inn: string, kpp: string): string {
    "(ОГРН " + ogrn + ", ИНН " + inn + ", КПП " + kpp + ")\n\n"
  }

  /** If two strings are split as `x + a` where `x` has no comma and `a` starts with one,
      the split points agree. */
  lemma {:induction false} CommaFreePrefix(x: string, a: string, y: string, b: string)
    requires ',' !in x && ',' !in y
    requires |a| > 0 && a[0] == ',' && |b| > 0 && b[0] == ','
    requires x + a == y + b
    ensures x == y && a == b
  {
    assert a[..1] == "," && b[..1] == ",";
    FirstIndexAfter(x, ",", a);
    FirstIndexAfter(y, ",", b);
    assert x == (x + a)[..|x|];
    assert y == (y + b)[..|y|];
    assert a == (x + a)[|x|..];
    assert b == (y + b)[|y|..];
  }

  lemma {:induction false} CancelPrefix(p: string, u: string, v: string)
    requires p + u == p + v
    ensures u == v
  {
    assert u == (p + u)[|p|..];
    assert v == (p + v)[|p|..];
  }

  lemma {:induction false} CancelSuffix(u: string, v: string, t: string)
    requires u + t == v + t
    ensures u == v
  {
    assert u == (u + t)[..|u|];
    assert v == (v + t)[..|v|];
  }

  /** The numbers pass through unchanged: the template loses nothing, so the three
      identifiers can be read back from it (for OGRN and INN without commas, which digit
      strings never hold). */
  lemma {:induction false} NumbersInjective(ogrn: string, inn: string, kpp: string, ogrn': string, inn': string, kpp': string)
    requires ',' !in ogrn && ',' !in inn && ',' !in ogrn' && ',' !in inn'
    requires FinalNumbers(ogrn, inn, kpp) == FinalNumbers(ogrn', inn', kpp')
    ensures ogrn == ogrn' && inn == inn' && kpp == kpp'
  {
    var c := kpp + ")\n\n";
    var c' := kpp' + ")\n\n";
    var b := inn + (", КПП " + c);
    var b' := inn' + (", КПП " + c');
    var a := ogrn + (", ИНН " + b);
    var a' := ogrn' + (", ИНН " + b');
    assert FinalNumbers(ogrn, inn, kpp) == "(ОГРН " + a;
    assert FinalNumbers(ogrn', inn', kpp') == "(ОГРН " + a';
    CancelPrefix("(ОГРН ", a, a');
    CommaFreePrefix(ogrn, ", ИНН " + b, ogrn', ", ИНН " + b');
    CancelPrefix(", ИНН ", b, b');
    CommaFreePrefix(inn, ", КПП " + c, inn', ", КПП " + c');
    CancelPrefix(", КПП ", c, c');
    CancelSuffix(kpp, kpp', ")\n\n");
  }

  // ---------------------------------------------------------------------------
  // Address: get_final_address

  /** The city segment: title-cased, with the generic word "Город" put back in lower case. */
  function City(segment: string): string {
    Replace(Title(segment), "Город", "город")
  }

  /** "Адрес:" and the street part, after the first-match keyword rewrite. */
  function StreetLine(street: string): string {
    if Contains(street, "Улица") then "Адрес: улица " + Replace(street, "Улица", " ")
    else if Contains(street, "Набережная") then "Адрес: " + Replace(street, "Набережная", "набережная")
    else if Contains(street, "Переулок") then "Адрес: " + Replace(street, "Переулок", "переулок")
    else "Адрес:" + street
  }

  function FinalAddress(address: string): Result<string, AddressError> {
    var segments := Split(address, ", ");
    if |segments| < 2 then Err(IndexError)
    else
      var index := segments[0];
      var city := City(segments[1]);
      var street := Title(Join(segments[2..], " "));
      Ok(StreetLine(street) + ", " + city + ", Россия, " + index)
  }

  /** The address fails exactly when it holds no ", " at all. */
  lemma {:induction false} AddressFailsIff(address: string)
    ensures FinalAddress(address).Err? <==> !Contains(address, ", ")
  {
    SplitCount(address, ", ");
  }

  /** An address with exactly two segments: the index is the text before the ", " and
      the city is made from the text after it. The street part is empty, so no keyword
      occurs and the line starts with "Адрес:" directly followed by ", ". */
  lemma {:induction false} AddressWithoutStreet(address: string, k: nat)
    requires FirstIndex(address, ", ") == Some(k)
    requires FirstIndex(address[k + 2..], ", ") == None
    ensures FinalAddress(address) ==
      Ok("Адрес:" + ", " + City(address[k + 2..]) + ", Россия, " + address[..k])
  {
    var rest := address[k + 2..];
    var segments := Split(address, ", ");
    assert segments == [address[..k]] + Split(rest, ", ");
    assert Split(rest, ", ") == [rest];
    assert segments == [address[..k], rest];
    assert segments[2..] == [];
    assert Title(Join([], " ")) == "";
    assert !Contains("", "Улица") && !Contains("", "Набережная") && !Contains("", "Переулок");
    assert "Адрес:" + "" == "Адрес:";
  }

  /** An address with three or more segments: the index is the text before the first
      ", ", the city is made from the text up to the second ", ", and the street part is
      everything after the second ", " with each further ", " turned into one space,
      title-cased as a whole. */
  lemma {:induction false} AddressWithStreet(address: string, k: nat, j: nat)
    requires FirstIndex(address, ", ") == Some(k)
    requires FirstIndex(address[k + 2..], ", ") == Some(j)
    ensures var rest := address[k + 2..];
      FinalAddress(address) ==
        Ok(StreetLine(Title(Replace(rest[j + 2..], ", ", " "))) + ", " + City(rest[..j]) + ", Россия, " + address[..k])
  {
    var rest := address[k + 2..];
    var tail := rest[j + 2..];
    assert Split(address, ", ") == [address[..k]] + Split(rest, ", ");
    assert Split(rest, ", ") == [rest[..j]] + Split(tail, ", ");
    SegmentsOfThree(Split(address, ", "), address[..k], rest[..j], Split(tail, ", "));
    ReplaceIsSplitJoin(tail, ", ", " ");
  }

  /** Reading the first two segments and the rest off a list of three or more. */
  lemma {:induction false} SegmentsOfThree(segments: seq<string>, a: string, b: string, more: seq<string>)
    requires segments == [a] + ([b] + more)
    ensures |segments| >= 2 && segments[0] == a && segments[1] == b && segments[2..] == more
  {
    assert segments[2..] == ([b] + more)[1..];
  }

  /** The city segment: the text after the first ", " up to the next one, or to the end. */
  function CitySegment(rest: string): (seg: string)
    ensures |seg| <= |rest| && seg == rest[..|seg|]
  {
    match FirstIndex(rest, ", ")
    case None => rest
    case Some(j) => rest[..j]
  }

  /** Every successful result ends with the city, the country and the unchanged index. */
  lemma {:induction false} AddressTail(address: string, k: nat)
    requires FirstIndex(address, ", ") == Some(k)
    ensures FinalAddress(address).Ok?
    ensures var r := FinalAddress(address).value;
      var tail := ", " + City(CitySegment(address[k + 2..])) + ", Россия, " + address[..k];
      |r| >= |tail| && r[|r| - |tail|..] == tail
  {
    var rest := address[k + 2..];
    match FirstIndex(rest, ", ")
    case None =>
      AddressWithoutStreet(address, k);
      LineTail(FinalAddress(address).value, "Адрес:", City(rest), address[..k]);
    case Some(j) =>
      AddressWithStreet(address, k, j);
      LineTail(FinalAddress(address).value, StreetLine(Title(Replace(rest[j + 2..], ", ", " "))),
        City(rest[..j]), address[..k]);
  }

  lemma {:induction false} LineTail(r: string, street: string, city: string, index: string)
    requires r == street + ", " + city + ", Россия, " + index
    ensures var tail := ", " + city + ", Россия, " + index;
      |r| >= |tail| && r[|r| - |tail|..] == tail
  {
    var tail := ", " + city + ", Россия, " + index;
    assert r == street + tail;
  }

  /** A city keeps its length and differs from its title-cased segment at most in case. */
  lemma {:induction false} CityUpToCase(segment: string)
    ensures |City(segment)| == |segment|
    ensures Lower(City(segment)) == Lower(Title(segment))
  {
    assert Lower("город") == Lower("Город");
    ReplaceCaseOnly(Title(segment), "Город", "город");
  }

  /** Улица branch: every occurrence of the keyword becomes a space, none is left, and the
      text between occurrences is kept. */
  lemma {:induction false} StreetUlica(street: string)
    requires Contains(street, "Улица")
    ensures StreetLine(street) == "Адрес: улица " + Join(Split(street, "Улица"), " ")
    ensures !Contains(Replace(street, "Улица", " "), "Улица")
  {
    ReplaceIsSplitJoin(street, "Улица", " ");
    ReplaceEliminates(street, "Улица", " ");
  }

  /** Набережная and Переулок branches: the keyword is lower-cased in place, so the street
      part keeps its length and changes only in case. Набережная is checked first and
      decides whenever it occurs; every occurrence of the deciding keyword is rewritten and
      none is left. */
  lemma {:induction false} StreetLowerInPlace(street: string)
    requires !Contains(street, "Улица")
    requires Contains(street, "Набережная") || Contains(street, "Переулок")
    ensures StreetLine(street)[..7] == "Адрес: "
    ensures |StreetLine(street)| == 7 + |street|
    ensures Lower(StreetLine(street)[7..]) == Lower(street)
    ensures Contains(street, "Набережная") ==>
      StreetLine(street)[7..] == Join(Split(street, "Набережная"), "набережная") &&
      !Contains(StreetLine(street)[7..], "Набережная")
    ensures !Contains(street, "Набережная") ==>
      StreetLine(street)[7..] == Join(Split(street, "Переулок"), "переулок") &&
      !Contains(StreetLine(street)[7..], "Переулок")
  {
    assert Lower("набережная") == Lower("Набережная");
    assert Lower("переулок") == Lower("Переулок");
    if Contains(street, "Набережная") {
      ReplaceCaseOnly(street, "Набережная", "набережная");
      ReplaceIsSplitJoin(street, "Набережная", "набережная");
      EmbankmentNoOverlap();
      ReplaceLeavesNone(street, "Набережная", "набережная");
      assert StreetLine(street)[7..] == Replace(street, "Набережная", "набережная");
    } else {
      ReplaceCaseOnly(street, "Переулок", "переулок");
      ReplaceIsSplitJoin(street, "Переулок", "переулок");
      LaneNoOverlap();
      ReplaceLeavesNone(street, "Переулок", "переулок");
      assert StreetLine(street)[7..] == Replace(street, "Переулок", "переулок");
    }
  }

  /** "набережная" holds no capital Н and starts with no proper suffix of "Набережная". */
  lemma {:induction false} EmbankmentNoOverlap()
    ensures forall d :: 0 < d < 10 ==> "Набережная"[d..] != "набережная"[..10 - d]
    ensures 'Н' !in "набережная"
  {
    forall d | 0 < d < 10
      ensures "Набережная"[d..] != "набережная"[..10 - d]
    {
      if d == 7 {
        assert "Набережная"[d..][2] != "набережная"[..10 - d][2];
      } else {
        assert "Набережная"[d..][0] != "набережная"[..10 - d][0];
      }
    }
  }

  /** "переулок" holds no capital П and starts with no proper suffix of "Переулок". */
  lemma {:induction false} LaneNoOverlap()
    ensures forall d :: 0 < d < 8 ==> "Переулок"[d..] != "переулок"[..8 - d]
    ensures 'П' !in "переулок"
  {
    forall d | 0 < d < 8
      ensures "Переулок"[d..] != "переулок"[..8 - d]
    {
      assert "Переулок"[d..][0] != "переулок"[..8 - d][0];
    }
  }

  /** The keyword rules as an ordered table: keyword, replacement, and the text put before
      the street part. */
  datatype Rule = Rule(keyword: string, replacement: string, lead: string)

  const StreetRules: seq<Rule> := [
    Rule("Улица", " ", "Адрес: улица "),
    Rule("Набережная", "набережная", "Адрес: "),
    Rule("Переулок", "переулок", "Адрес: ")
  ]

  predicate WellFormedRules(rules: seq<Rule>) {
    forall i :: 0 <= i < |rules| ==> |rules[i].keyword| > 0
  }

  /** The first rule whose keyword occurs decides; with none, "Адрес:" and the street part. */
  function ApplyFirstRule(rules: seq<Rule>, street: string): string
    requires WellFormedRules(rules)
    decreases |rules|
  {
    if rules == [] then "Адрес:" + street
    else if Contains(street, rules[0].keyword) then
      rules[0].lead + Replace(street, rules[0].keyword, rules[0].replacement)
    else ApplyFirstRule(rules[1..], street)
  }

  /** First match wins: the rule applied is the earliest one whose keyword occurs,
      whatever later keywords the street part holds. */
  lemma {:induction false} FirstRuleWins(rules: seq<Rule>, street: string, i: nat)
    requires WellFormedRules(rules) && i < |rules|
    requires Contains(street, rules[i].keyword)
    requires forall j :: 0 <= j < i ==> !Contains(street, rules[j].keyword)
    ensures ApplyFirstRule(rules, street) == rules[i].lead + Replace(street, rules[i].keyword, rules[i].replacement)
    decreases i
  {
    if i > 0 {
      assert !Contains(street, rules[0].keyword);
      assert rules[1..][i - 1] == rules[i];
      FirstRuleWins(rules[1..], street, i - 1);
    }
  }

  /** With no keyword present the street part is used untouched. */
  lemma {:induction false} NoRuleApplies(rules: seq<Rule>, street: string)
    requires WellFormedRules(rules)
    requires forall j :: 0 <= j < |rules| ==> !Contains(street, rules[j].keyword)
    ensures ApplyFirstRule(rules, street) == "Адрес:" + street
    decreases |rules|
  {
    if rules != [] {
      assert !Contains(street, rules[0].keyword);
      NoRuleApplies(rules[1..], street);
    }
  }

  /** The if/elif chain of get_final_address is the rule table read first match first. */
  lemma {:induction false} StreetLineIsRuleTable(street: string)
    ensures StreetLine(street) == ApplyFirstRule(StreetRules, street)
  {
    var r := StreetRules;
    assert WellFormedRules(r);
    if Contains(street, "Улица") {
      FirstRuleWins(r, street, 0);
    } else if Contains(street, "Набережная") {
      FirstRuleWins(r, street, 1);
    } else if Contains(street, "Переулок") {
      FirstRuleWins(r, street, 2);
    } else {
      NoRuleApplies(r, street);
    }
  }
}
