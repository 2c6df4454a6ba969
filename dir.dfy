/** The file-name comparator `dirSort` of src/a2x_pack_dir.c, which orders directory
    listings. A name is the sequence of its `char` values up to the NUL; `char` is
    signed, so every value lies in -128..127 and none is 0. */
module Dir {

  type CChar = c: int | -128 <= c <= 127 && c != 0 witness 'a' as int

  type Name = seq<CChar>

  /** `tolower` in the "C" locale: only 'A'..'Z' change. */
  function ToLower(c: int): int
  {
    if 'A' as int <= c <= 'Z' as int then c + 32 else c
  }

  predicate IsLower(c: int)
  {
    'a' as int <= c <= 'z' as int
  }

  /** The character at `i`, or the terminating NUL past the end. */
  function CharAt(s: Name, i: nat): int
  {
    if i < |s| then s[i] else 0
  }

  /** The length of the longest common prefix of `a` and `b`, ignoring case. */
  function FoldedPrefix(a: Name, b: Name): (n: nat)
    ensures n <= |a| && n <= |b|
    ensures forall k :: 0 <= k < n ==> ToLower(a[k]) == ToLower(b[k])
    ensures n < |a| && n < |b| ==> ToLower(a[n]) != ToLower(b[n])
  {
    if a == [] || b == [] || ToLower(a[0]) != ToLower(b[0]) then 0
    else 1 + FoldedPrefix(a[1..], b[1..])
  }

  /** Among the first `n` positions, `b[k] - a[k]` for the first `k` where the
      characters differ, or 0 when they are all equal. */
  function CaseTie(a: Name, b: Name, n: nat): int
    requires n <= |a| && n <= |b|
  {
    if n == 0 then 0
    else
      var t := CaseTie(a, b, n - 1);
      if t != 0 then t else if a[n - 1] != b[n - 1] then b[n - 1] as int - a[n - 1] as int else 0
  }

  /** The order the comparator defines, stated on the names as a whole: the first
      position where they differ ignoring case decides; a name that runs out first
      compares by the NUL against the other's next character; names equal ignoring
      case and of equal length are decided by their first case-only difference. */
  function DirOrder(a: Name, b: Name): int
  {
    var n := FoldedPrefix(a, b);
    if n < |a| && n < |b| then ToLower(a[n]) - ToLower(b[n])
    else if |a| == |b| then CaseTie(a, b, n)
    else CharAt(a, n) - CharAt(b, n)
  }

  /** `dirSort`: advances both cursors together, remembering the first case-only
      difference, and returns at the first difference that survives `tolower`. */
  method DirSort(nameA: Name, nameB: Name) returns (r: int)
    ensures r == DirOrder(nameA, nameB)
  {
    var i := 0;
    var a := CharAt(nameA, 0);
    var b := CharAt(nameB, 0);
    var lowerCaseUpperCaseCmp := 0;
    while a != 0 && b != 0
      invariant i <= |nameA| && i <= |nameB|
      invariant a == CharAt(nameA, i) && b == CharAt(nameB, i)
      invariant forall k :: 0 <= k < i ==> ToLower(nameA[k]) == ToLower(nameB[k])
      invariant lowerCaseUpperCaseCmp == CaseTie(nameA, nameB, i)
      decreases |nameA| - i
    {
      if a != b {
        var lowerA := ToLower(a);
        var lowerB := ToLower(b);
        if lowerA == lowerB {
          if lowerCaseUpperCaseCmp == 0 {
            lowerCaseUpperCaseCmp := b - a;
          }
        } else {
          FoldedPrefixIs(nameA, nameB, i);
          return lowerA - lowerB;
        }
      }
      i := i + 1;
      a := CharAt(nameA, i);
      b := CharAt(nameB, i);
    }
    FoldedPrefixIs(nameA, nameB, i);
    if a == b {
      return lowerCaseUpperCaseCmp;
    }
    return a - b;
  }

  /** A common prefix ignoring case that cannot be extended is the longest one. */
  lemma {:induction false} FoldedPrefixIs(a: Name, b: Name, i: nat)
    requires i <= |a| && i <= |b|
    requires forall k :: 0 <= k < i ==> ToLower(a[k]) == ToLower(b[k])
    requires i == |a| || i == |b| || ToLower(a[i]) != ToLower(b[i])
    ensures FoldedPrefix(a, b) == i
    decreases i
  {
    if i > 0 {
      FoldedPrefixIs(a[1..], b[1..], i - 1);
    }
  }

  lemma {:induction false} CaseTieAntisymmetric(a: Name, b: Name, n: nat)
    requires n <= |a| && n <= |b|
    ensures CaseTie(a, b, n) == -CaseTie(b, a, n)
  {
    if n > 0 {
      CaseTieAntisymmetric(a, b, n - 1);
    }
  }

  lemma {:induction false} CaseTieZero(a: Name, b: Name, n: nat)
    requires n <= |a| && n <= |b|
    ensures CaseTie(a, b, n) == 0 <==> a[..n] == b[..n]
  {
    if n > 0 {
      CaseTieZero(a, b, n - 1);
      assert a[..n] == a[..n - 1] + [a[n - 1]];
      assert b[..n] == b[..n - 1] + [b[n - 1]];
      if a[..n] == b[..n] {
        assert a[..n][..n - 1] == a[..n - 1] && b[..n][..n - 1] == b[..n - 1];
      }
    }
  }

  lemma {:induction false} CaseTieAt(a: Name, b: Name, n: nat, k: nat)
    requires k < n <= |a| && n <= |b|
    requires a[..k] == b[..k] && a[k] != b[k]
    ensures CaseTie(a, b, n) == b[k] as int - a[k] as int
  {
    if n - 1 == k {
      CaseTieZero(a, b, k);
    } else {
      CaseTieAt(a, b, n - 1, k);
    }
  }

  lemma {:induction false} FoldedPrefixSymmetric(a: Name, b: Name)
    ensures FoldedPrefix(a, b) == FoldedPrefix(b, a)
  {
    if a != [] && b != [] && ToLower(a[0]) == ToLower(b[0]) {
      FoldedPrefixSymmetric(a[1..], b[1..]);
    }
  }

  /** Swapping the names negates the result, so the order is antisymmetric. */
  lemma DirOrderAntisymmetric(a: Name, b: Name)
    ensures DirOrder(a, b) == -DirOrder(b, a)
  {
    FoldedPrefixSymmetric(a, b);
    var n := FoldedPrefix(a, b);
    if !(n < |a| && n < |b|) && |a| == |b| {
      CaseTieAntisymmetric(a, b, n);
    }
  }

  /** Only identical names compare equal. */
  lemma DirOrderZeroIff(a: Name, b: Name)
    ensures DirOrder(a, b) == 0 <==> a == b
  {
    var n := FoldedPrefix(a, b);
    if !(n < |a| && n < |b|) && |a| == |b| {
      CaseTieZero(a, b, n);
      assert a[..n] == a && b[..n] == b;
    }
  }

  /** At the first position where the names differ ignoring case, the lower-cased
      characters decide. */
  lemma FirstFoldedDifference(a: Name, b: Name, i: nat)
    requires i < |a| && i < |b|
    requires forall k :: 0 <= k < i ==> ToLower(a[k]) == ToLower(b[k])
    requires ToLower(a[i]) != ToLower(b[i])
    ensures DirOrder(a, b) == ToLower(a[i]) - ToLower(b[i])
  {
    FoldedPrefixIs(a, b, i);
  }

  /** Names equal ignoring case and of equal length are ordered by their first
      case-only difference, which puts the lower-case name first. */
  lemma CaseOnlyDifference(a: Name, b: Name, k: nat)
    requires |a| == |b| && k < |a|
    requires forall j :: 0 <= j < |a| ==> ToLower(a[j]) == ToLower(b[j])
    requires a[..k] == b[..k] && a[k] != b[k]
    ensures DirOrder(a, b) == b[k] as int - a[k] as int
    ensures IsLower(a[k]) ==> DirOrder(a, b) < 0
  {
    FoldedPrefixIs(a, b, |a|);
    CaseTieAt(a, b, |a|, k);
  }

  /** When `a` is a proper prefix of `b` ignoring case, the result is minus the next
      character of `b`: the shorter name sorts first whenever that character is
      positive, as every ASCII character is. */
  lemma ShorterPrefix(a: Name, b: Name)
    requires |a| < |b|
    requires forall j :: 0 <= j < |a| ==> ToLower(a[j]) == ToLower(b[j])
    ensures DirOrder(a, b) == -(b[|a|] as int)
    ensures b[|a|] > 0 ==> DirOrder(a, b) < 0
  {
    FoldedPrefixIs(a, b, |a|);
  }
}
