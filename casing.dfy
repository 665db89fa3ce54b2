/** Character case as Python's str.lower() and str.title() apply it, restricted to an
    explicit table: the Latin letters A-Z/a-z and the Russian alphabet А-Я/а-я with Ё/ё.
    Every character outside the table is uncased and is never changed. */
module Casing {

  predicate IsUpper(c: char) {
    'A' <= c <= 'Z' || 'А' <= c <= 'Я' || c == 'Ё'
  }

  predicate IsLower(c: char) {
    'a' <= c <= 'z' || 'а' <= c <= 'я' || c == 'ё'
  }

  /** Python's notion of a "cased" character, over the table. */
  predicate IsCased(c: char) {
    IsUpper(c) || IsLower(c)
  }

  function LowerChar(c: char): (d: char)
    ensures IsUpper(c) ==> IsLower(d)
    ensures !IsUpper(c) ==> d == c
    ensures IsCased(d) == IsCased(c)
  {
    if 'A' <= c <= 'Z' || 'А' <= c <= 'Я' then (c as int + 32) as char
    else if c == 'Ё' then 'ё'
    else c
  }

  function UpperChar(c: char): (d: char)
    ensures IsLower(c) ==> IsUpper(d)
    ensures !IsLower(c) ==> d == c
    ensures IsCased(d) == IsCased(c)
  {
    if 'a' <= c <= 'z' || 'а' <= c <= 'я' then (c as int - 32) as char
    else if c == 'ё' then 'Ё'
    else c
  }

  /** str.lower(): every upper-case letter becomes its lower-case partner, nothing else moves. */
  function Lower(s: string): (r: string)
    ensures |r| == |s|
    ensures forall i :: 0 <= i < |s| ==> !IsUpper(r[i])
    ensures forall i :: 0 <= i < |s| && !IsUpper(s[i]) ==> r[i] == s[i]
    ensures forall i :: 0 <= i < |s| && IsUpper(s[i]) ==> UpperChar(r[i]) == s[i]
  {
    seq(|s|, i requires 0 <= i < |s| => LowerChar(s[i]))
  }

  lemma LowerAppend(a: string, b: string)
    ensures Lower(a + b) == Lower(a) + Lower(b)
  {
    assert forall i :: 0 <= i < |a + b| ==> Lower(a + b)[i] == (Lower(a) + Lower(b))[i];
  }

  /** str.title() as CPython computes it: a character is lower-cased when the character
      before it in the INPUT is cased, and title-cased (here: upper-cased) otherwise.
      `afterCased` says whether the character before `s` was cased. */
  function TitleFrom(s: string, afterCased: bool): (r: string)
    ensures |r| == |s|
    decreases |s|
  {
    if s == [] then []
    else [if afterCased then LowerChar(s[0]) else UpperChar(s[0])] + TitleFrom(s[1..], IsCased(s[0]))
  }

  function Title(s: string): (r: string)
    ensures |r| == |s|
  {
    TitleFrom(s, false)
  }

  /** The position-wise reading of title(): each character depends only on itself and its
      predecessor. */
  lemma {:induction false} TitleFromAt(s: string, afterCased: bool, i: nat)
    requires i < |s|
    ensures TitleFrom(s, afterCased)[i] ==
      if (if i == 0 then afterCased else IsCased(s[i - 1])) then LowerChar(s[i]) else UpperChar(s[i])
    decreases i
  {
    if i > 0 {
      TitleFromAt(s[1..], IsCased(s[0]), i - 1);
      assert s[1..][i - 1] == s[i];
      if i > 1 {
        assert s[1..][i - 2] == s[i - 1];
      }
    }
  }

  lemma TitleAt(s: string, i: nat)
    requires i < |s|
    ensures Title(s)[i] == if i > 0 && IsCased(s[i - 1]) then LowerChar(s[i]) else UpperChar(s[i])
  {
    TitleFromAt(s, false, i);
  }
}
