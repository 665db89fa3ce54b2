/** The Python string operations the normalizer is built from: the `in` test,
    str.split(sep), sep.join(parts) and str.replace(old, new), each for a non-empty
    separator or pattern, scanning left to right as CPython does. */
module PyStr {
  import opened Casing

  datatype Option<T> = None | Some(value: T)

  /** `sub` occurs in `s` starting at position `i`. */
  predicate OccursAt(s: string, sub: string, i: nat) {
    i + |sub| <= |s| && s[i..i + |sub|] == sub
  }

  /** Python's `sub in s`. */
  predicate Contains(s: string, sub: string) {
    exists i: nat | i <= |s| :: OccursAt(s, sub, i)
  }

  /** Position of the leftmost occurrence of `sub` in `s` (str.find). */
  function FirstIndex(s: string, sub: string): (r: Option<nat>)
    requires |sub| > 0
    ensures r.Some? ==> r.value + |sub| <= |s|
    decreases |s|
  {
    if |s| < |sub| then None
    else if s[..|sub|] == sub then Some(0)
    else
      match FirstIndex(s[1..], sub)
      case None => None
      case Some(k) => Some(k + 1)
  }

  /** FirstIndex finds the leftmost occurrence: None exactly when there is none, otherwise
      an occurrence with none before it. */
  lemma {:induction false} FirstIndexSpec(s: string, sub: string)
    requires |sub| > 0
    ensures FirstIndex(s, sub).None? <==> !Contains(s, sub)
    ensures FirstIndex(s, sub).Some? ==> OccursAt(s, sub, FirstIndex(s, sub).value)
    ensures FirstIndex(s, sub).Some? ==>
      forall j: nat :: j < FirstIndex(s, sub).value ==> !OccursAt(s, sub, j)
    decreases |s|
  {
    if |s| < |sub| {
    } else if s[..|sub|] == sub {
      assert OccursAt(s, sub, 0);
    } else {
      FirstIndexSpec(s[1..], sub);
      OccursShift(s, sub);
      assert !OccursAt(s, sub, 0);
      if Contains(s, sub) {
        var i: nat :| i <= |s| && OccursAt(s, sub, i);
        assert OccursAt(s[1..], sub, i - 1);
      }
      if Contains(s[1..], sub) {
        var i: nat :| i <= |s[1..]| && OccursAt(s[1..], sub, i);
        assert OccursAt(s, sub, i + 1);
      }
    }
  }

  /** The first occurrence is determined by the occurrences: an occurrence with none
      before it is the one FirstIndex finds. */
  lemma {:induction false} FirstIndexOf(s: string, sub: string, m: nat)
    requires |sub| > 0 && OccursAt(s, sub, m)
    requires forall j: nat :: j < m ==> !OccursAt(s, sub, j)
    ensures FirstIndex(s, sub) == Some(m)
  {
    FirstIndexSpec(s, sub);
    assert Contains(s, sub);
  }

  /** When the first character of `sub` is absent from `x` and `t` starts with `sub`, the
      first occurrence of `sub` in `x + t` is right after `x`. */
  lemma {:induction false} FirstIndexAfter(x: string, sub: string, t: string)
    requires |sub| > 0 && sub[0] !in x
    requires |sub| <= |t| && t[..|sub|] == sub
    ensures FirstIndex(x + t, sub) == Some(|x|)
  {
    var s := x + t;
    assert s[|x|..|x| + |sub|] == t[..|sub|];
    forall j: nat | j < |x|
      ensures !OccursAt(s, sub, j)
    {
      assert j + |sub| <= |s| ==> s[j..j + |sub|][0] == x[j];
    }
    FirstIndexOf(s, sub, |x|);
  }

  /** An occurrence at position `i` of `s[1..]` is one at position `i + 1` of `s`. */
  lemma {:induction false} OccursShift(s: string, sub: string)
    requires |s| > 0
    ensures forall i: nat :: OccursAt(s[1..], sub, i) <==> OccursAt(s, sub, i + 1)
    ensures forall j: nat :: 0 < j ==> (OccursAt(s, sub, j) <==> OccursAt(s[1..], sub, j - 1))
  {
    forall i: nat
      ensures OccursAt(s[1..], sub, i) <==> OccursAt(s, sub, i + 1)
    {
      if i + 1 + |sub| <= |s| {
        assert s[1..][i..i + |sub|] == s[i + 1..i + 1 + |sub|];
      }
    }
  }

  /** str.split(sep): the pieces between the non-overlapping occurrences of `sep`, found
      left to right, each search starting after the previous occurrence. There is always
      at least one piece. */
  function Split(s: string, sep: string): (parts: seq<string>)
    requires |sep| > 0
    ensures |parts| >= 1
    decreases |s|
  {
    match FirstIndex(s, sep)
    case None => [s]
    case Some(k) => [s[..k]] + Split(s[k + |sep|..], sep)
  }

  /** sep.join(parts). */
  function Join(parts: seq<string>, sep: string): string
    decreases |parts|
  {
    if |parts| == 0 then ""
    else if |parts| == 1 then parts[0]
    else parts[0] + sep + Join(parts[1..], sep)
  }

  /** s.replace(pat, rep): every non-overlapping occurrence of `pat`, found left to right,
      becomes `rep`. */
  function Replace(s: string, pat: string, rep: string): string
    requires |pat| > 0
    decreases |s|
  {
    match FirstIndex(s, pat)
    case None => s
    case Some(k) => s[..k] + rep + Replace(s[k + |pat|..], pat, rep)
  }

  /** Past a first character that does not start `sub`, the search moves one place on. */
  lemma {:induction false} FirstIndexStep(s: string, sub: string)
    requires |sub| > 0 && |sub| <= |s| && s[..|sub|] != sub
    ensures FirstIndex(s, sub) ==
      match FirstIndex(s[1..], sub)
      case None => None
      case Some(k) => Some(k + 1)
  {
  }

  /** When `s` does not start with `pat`, replace() keeps the first character and goes on
      with the rest. */
  lemma {:induction false} ReplacePastFirst(s: string, pat: string, rep: string)
    requires |pat| > 0 && |pat| <= |s| && s[..|pat|] != pat
    ensures Replace(s, pat, rep) == [s[0]] + Replace(s[1..], pat, rep)
  {
    FirstIndexStep(s, pat);
    match FirstIndex(s[1..], pat)
    case None =>
      assert s == [s[0]] + s[1..];
    case Some(k) =>
      ReplaceFoundLater(s, pat, rep, k);
  }

  /** The case of ReplacePastFirst where the first occurrence is at `k + 1`. */
  lemma {:induction false} ReplaceFoundLater(s: string, pat: string, rep: string, k: nat)
    requires |pat| > 0 && |s| > 0
    requires FirstIndex(s, pat) == Some(k + 1) && FirstIndex(s[1..], pat) == Some(k)
    ensures Replace(s, pat, rep) == [s[0]] + Replace(s[1..], pat, rep)
  {
    var after := s[k + 1 + |pat|..];
    ReplaceUnfold(s[1..], pat, rep, k);
    ReplaceUnfold(s, pat, rep, k + 1);
    DropAfterFirst(s, k + |pat|);
    ConsPrefix(s, k, rep, Replace(after, pat, rep));
  }

  lemma {:induction false} DropAfterFirst(s: string, n: nat)
    requires n < |s|
    ensures s[1..][n..] == s[n + 1..]
  {
  }

  /** One step of replace() at a known first occurrence. */
  lemma {:induction false} ReplaceUnfold(s: string, pat: string, rep: string, k: nat)
    requires |pat| > 0 && FirstIndex(s, pat) == Some(k)
    ensures Replace(s, pat, rep) == s[..k] + rep + Replace(s[k + |pat|..], pat, rep)
  {
  }

  lemma {:induction false} ConsPrefix(s: string, k: nat, x: string, y: string)
    requires k < |s|
    ensures [s[0]] + (s[1..][..k] + x + y) == s[..k + 1] + x + y
  {
    assert [s[0]] + s[1..][..k] == s[..k + 1];
    assert [s[0]] + (s[1..][..k] + x + y) == [s[0]] + s[1..][..k] + x + y;
  }

  /** Joining the pieces with the separator gives back the original string. */
  lemma {:induction false} SplitJoin(s: string, sep: string)
    requires |sep| > 0
    ensures Join(Split(s, sep), sep) == s
    decreases |s|
  {
    match FirstIndex(s, sep)
    case None =>
    case Some(k) =>
      SplitJoin(s[k + |sep|..], sep);
      JoinCons(s[..k], Split(s[k + |sep|..], sep), sep);
      FirstIndexCut(s, sep, k);
  }

  /** The string around its first occurrence of `sub`. */
  lemma {:induction false} FirstIndexCut(s: string, sub: string, k: nat)
    requires |sub| > 0 && FirstIndex(s, sub) == Some(k)
    ensures s == s[..k] + sub + s[k + |sub|..]
  {
    FirstIndexSpec(s, sub);
    assert s[k..k + |sub|] == sub;
    assert s == s[..k] + s[k..k + |sub|] + s[k + |sub|..];
  }

  /** No piece of a split contains the separator. */
  lemma {:induction false} SplitPiecesFree(s: string, sep: string)
    requires |sep| > 0
    ensures forall i :: 0 <= i < |Split(s, sep)| ==> !Contains(Split(s, sep)[i], sep)
    decreases |s|
  {
    FirstIndexSpec(s, sep);
    match FirstIndex(s, sep)
    case None =>
    case Some(k) =>
      SplitPiecesFree(s[k + |sep|..], sep);
      forall j: nat | OccursAt(s[..k], sep, j)
        ensures false
      {
        assert s[..k][j..j + |sep|] == s[j..j + |sep|];
        assert OccursAt(s, sep, j);
      }
  }

  /** A split has two or more pieces exactly when the separator occurs. */
  lemma {:induction false} SplitCount(s: string, sep: string)
    requires |sep| > 0
    ensures |Split(s, sep)| >= 2 <==> Contains(s, sep)
  {
    FirstIndexSpec(s, sep);
  }

  /** replace() is split() followed by a join with the replacement. */
  lemma {:induction false} ReplaceIsSplitJoin(s: string, pat: string, rep: string)
    requires |pat| > 0
    ensures Replace(s, pat, rep) == Join(Split(s, pat), rep)
    decreases |s|
  {
    match FirstIndex(s, pat)
    case None =>
    case Some(k) =>
      var rest := s[k + |pat|..];
      ReplaceIsSplitJoin(rest, pat, rep);
      JoinCons(s[..k], Split(rest, pat), rep);
  }

  /** Joining a piece in front of at least one more puts the separator after it. */
  lemma {:induction false} JoinCons(a: string, parts: seq<string>, sep: string)
    requires |parts| >= 1
    ensures Join([a] + parts, sep) == a + sep + Join(parts, sep)
  {
    assert ([a] + parts)[1..] == parts;
  }

  /** Replacing a word by a same-length word that differs from it only in case keeps the
      length and leaves the string unchanged up to case. */
  lemma {:induction false} ReplaceCaseOnly(s: string, pat: string, rep: string)
    requires |pat| > 0 && |rep| == |pat| && Lower(rep) == Lower(pat)
    ensures |Replace(s, pat, rep)| == |s|
    ensures Lower(Replace(s, pat, rep)) == Lower(s)
    decreases |s|
  {
    match FirstIndex(s, pat)
    case None =>
    case Some(k) =>
      var rest := s[k + |pat|..];
      ReplaceCaseOnly(rest, pat, rep);
      FirstIndexCut(s, pat, k);
      CaseOnlyStep(s[..k], pat, rep, rest, Replace(rest, pat, rep));
  }

  /** Swapping two parts that agree up to case, in the same place, keeps the whole string
      the same up to case. */
  lemma {:induction false} CaseOnlyStep(x: string, pat: string, rep: string, y: string, r: string)
    requires |rep| == |pat| && Lower(rep) == Lower(pat)
    requires |r| == |y| && Lower(r) == Lower(y)
    ensures |x + rep + r| == |x + pat + y|
    ensures Lower(x + rep + r) == Lower(x + pat + y)
  {
    LowerAppend(x + rep, r);
    LowerAppend(x, rep);
    LowerAppend(x + pat, y);
    LowerAppend(x, pat);
  }

  /** An occurrence in `s[..k]` is one in `s`. */
  lemma {:induction false} OccursInPrefix(s: string, pat: string, k: nat, i: nat)
    requires k <= |s| && OccursAt(s[..k], pat, i)
    ensures OccursAt(s, pat, i) && i + |pat| <= k
  {
    assert s[..k][i..i + |pat|] == s[i..i + |pat|];
  }

  /** An occurrence in `x + y + z`, where no character of `y` is in the pattern, lies
      wholly inside `x` or wholly inside `z`. */
  lemma {:induction false} OccursAroundGap(x: string, y: string, z: string, pat: string, i: nat)
    requires |pat| > 0 && |y| > 0 && forall p :: 0 <= p < |y| ==> y[p] !in pat
    requires OccursAt(x + y + z, pat, i)
    ensures (i + |pat| <= |x| && OccursAt(x, pat, i))
         || (i >= |x| + |y| && OccursAt(z, pat, i - |x| - |y|))
  {
    var s := x + y + z;
    var q := if i < |x| then |x| else i;
    assert i <= q < i + |pat| ==> s[q] == pat[q - i];
    assert |x| <= q < |x| + |y| ==> s[q] == y[q - |x|];
    assert i + |pat| <= |x| ==> s[i..i + |pat|] == x[i..i + |pat|];
    assert i >= |x| + |y| ==> s[i..i + |pat|] == z[i - |x| - |y|..i - |x| - |y| + |pat|];
  }

  /** Replacing a pattern by a non-empty text none of whose characters occurs in the pattern
      leaves no occurrence of the pattern. */
  lemma {:induction false} ReplaceEliminates(s: string, pat: string, rep: string)
    requires |pat| > 0 && |rep| > 0
    requires forall p :: 0 <= p < |rep| ==> rep[p] !in pat
    ensures !Contains(Replace(s, pat, rep), pat)
    decreases |s|
  {
    FirstIndexSpec(s, pat);
    match FirstIndex(s, pat)
    case None =>
    case Some(k) =>
      var x, z := s[..k], Replace(s[k + |pat|..], pat, rep);
      ReplaceEliminates(s[k + |pat|..], pat, rep);
      forall i: nat
        ensures !OccursAt(x + rep + z, pat, i)
      {
        if OccursAt(x + rep + z, pat, i) {
          OccursAroundGap(x, rep, z, pat, i);
          if i + |pat| <= |x| {
            OccursInPrefix(s, pat, k, i);
          }
        }
      }
  }

  /** Replacing a pattern by a text at least as long that does not contain the pattern's
      first character, and that no proper suffix of the pattern starts, leaves no
      occurrence of the pattern: no occurrence can end inside, start inside or straddle
      a replacement. */
  lemma {:induction false} ReplaceLeavesNone(s: string, pat: string, rep: string)
    requires |pat| > 0 && |pat| <= |rep| && pat[0] !in rep
    requires forall d :: 0 < d < |pat| ==> pat[d..] != rep[..|pat| - d]
    ensures !Contains(Replace(s, pat, rep), pat)
    decreases |s|
  {
    FirstIndexSpec(s, pat);
    match FirstIndex(s, pat)
    case None =>
    case Some(k) =>
      var x, z := s[..k], Replace(s[k + |pat|..], pat, rep);
      ReplaceLeavesNone(s[k + |pat|..], pat, rep);
      forall i: nat
        ensures !OccursAt(x + rep + z, pat, i)
      {
        if OccursAt(x + rep + z, pat, i) {
          OccursAroundRep(x, rep, z, pat, i);
          if i + |pat| <= |x| {
            OccursInPrefix(s, pat, k, i);
          }
        }
      }
  }

  /** An occurrence in `x + rep + z`, under the conditions of ReplaceLeavesNone, lies
      wholly inside `x` or wholly inside `z`. */
  lemma {:induction false} OccursAroundRep(x: string, rep: string, z: string, pat: string, i: nat)
    requires |pat| > 0 && |pat| <= |rep| && pat[0] !in rep
    requires forall d :: 0 < d < |pat| ==> pat[d..] != rep[..|pat| - d]
    requires OccursAt(x + rep + z, pat, i)
    ensures (i + |pat| <= |x| && OccursAt(x, pat, i))
         || (i >= |x| + |rep| && OccursAt(z, pat, i - |x| - |rep|))
  {
    var s := x + rep + z;
    OccursStraddling(x, rep, z, pat, i);
    assert s[i..i + |pat|][0] == s[i];
    MiddleIndex(x, rep, z, i);
    assert i + |pat| <= |x| ==> s[i..i + |pat|] == x[i..i + |pat|];
    assert i >= |x| + |rep| ==> s[i..i + |pat|] == z[i - |x| - |rep|..i - |x| - |rep| + |pat|];
  }

  lemma {:induction false} MiddleIndex(x: string, y: string, z: string, i: nat)
    ensures |x| <= i < |x| + |y| ==> (x + y + z)[i] == y[i - |x|]
  {
  }

  /** An occurrence that starts in `x` and ends in `rep` puts a suffix of the pattern at
      the start of `rep`. */
  lemma {:induction false} OccursStraddling(x: string, rep: string, z: string, pat: string, i: nat)
    requires OccursAt(x + rep + z, pat, i) && |pat| <= |rep|
    ensures i < |x| < i + |pat| ==> pat[|x| - i..] == rep[..|pat| - (|x| - i)]
  {
    if i < |x| < i + |pat| {
      var s := x + rep + z;
      var d := |x| - i;
      assert pat[d..] == s[i..i + |pat|][d..] == s[|x|..i + |pat|];
      assert s[|x|..i + |pat|] == rep[..|pat| - d];
    }
  }

  /** The string with every `c` taken out, independently of split and join. */
  function RemoveAll(s: string, c: char): (r: string)
    ensures c !in r
    ensures forall x :: x != c ==> multiset(r)[x] == multiset(s)[x]
    decreases |s|
  {
    if s == [] then []
    else
      assert s == [s[0]] + s[1..];
      if s[0] == c then RemoveAll(s[1..], c)
      else [s[0]] + RemoveAll(s[1..], c)
  }

  /** ''.join(s.split(c)) takes every `c` out of `s`. */
  lemma {:induction false} JoinSplitRemoves(s: string, c: char)
    ensures Join(Split(s, [c]), "") == RemoveAll(s, c)
    decreases |s|
  {
    ReplaceIsSplitJoin(s, [c], "");
    ReplaceRemoves(s, c);
  }

  lemma {:induction false} ReplaceRemoves(s: string, c: char)
    ensures Replace(s, [c], "") == RemoveAll(s, c)
    decreases |s|
  {
    if s != [] {
      ReplaceRemoves(s[1..], c);
      if s[0] == c {
        assert s[..1] == [c];
        assert FirstIndex(s, [c]) == Some(0);
      } else {
        assert s[..1] != [c];
        ReplacePastFirst(s, [c], "");
      }
    }
  }

  /** The characters of a string, each as a one-character string: what iterating over a
      str yields. */
  function Chars(s: string): seq<string> {
    seq(|s|, i requires 0 <= i < |s| => [s[i]])
  }

  /** ''.join over the characters of a string gives the string back. */
  lemma {:induction false} JoinChars(s: string)
    ensures Join(Chars(s), "") == s
    decreases |s|
  {
    if |s| > 1 {
      assert Chars(s)[1..] == Chars(s[1..]);
      JoinChars(s[1..]);
      assert s == [s[0]] + s[1..];
    }
  }
}
