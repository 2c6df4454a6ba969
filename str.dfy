/** The string and path helpers of src/a2x_pack_str.c. A C string is modelled by its
    characters up to the terminating NUL, so it never contains '\0'. Results the C code
    returns as NULL are `None`. */
module Str {
  import opened Wrappers

  type CString = s: string | '\0' !in s

  /** `isspace` in the "C" locale: space, tab, newline, vertical tab, form feed, return. */
  predicate IsSpace(c: char)
  {
    c == ' ' || '\t' <= c <= '\r'
  }

  // ---------------------------------------------------------------------------
  // a_str_merge

  /** The characters of all parts, in order. */
  function Concat(parts: seq<CString>): (r: CString)
    ensures |r| == TotalLength(parts)
  {
    if parts == [] then "" else Concat(parts[..|parts| - 1]) + parts[|parts| - 1]
  }

  /** The size the first loop of `a_str_merge` adds up. */
  function TotalLength(parts: seq<CString>): nat
  {
    if parts == [] then 0 else TotalLength(parts[..|parts| - 1]) + |parts[|parts| - 1]|
  }

  lemma {:induction false} TotalLengthMonotone(parts: seq<CString>, i: nat, j: nat)
    requires i <= j <= |parts|
    ensures TotalLength(parts[..i]) <= TotalLength(parts[..j])
    decreases j - i
  {
    if i < j {
      assert parts[..j][..j - 1] == parts[..j - 1];
      TotalLengthMonotone(parts, i, j - 1);
    }
  }

  /** Part `i` sits in the merged string right after the parts before it. */
  lemma {:induction false} ConcatPlacesParts(parts: seq<CString>, i: nat)
    requires i < |parts|
    ensures TotalLength(parts[..i]) + |parts[i]| == TotalLength(parts[..i + 1])
    ensures TotalLength(parts[..i + 1]) <= |Concat(parts)|
    ensures Concat(parts)[TotalLength(parts[..i])..TotalLength(parts[..i + 1])] == parts[i]
    decreases |parts|
  {
    var n := |parts|;
    var init := parts[..n - 1];
    assert parts[..i + 1][..i] == parts[..i];
    assert parts == parts[..n];
    if i == n - 1 {
      assert Concat(parts) == Concat(init) + parts[i];
      assert init == parts[..i];
    } else {
      ConcatPlacesParts(init, i);
      assert init[..i] == parts[..i] && init[..i + 1] == parts[..i + 1];
      assert Concat(parts) == Concat(init) + parts[n - 1];
    }
  }

  /** `a_str_merge(String1, ..., NULL)`: sizes the result, then copies every part. */
  method Merge(parts: seq<CString>) returns (r: CString)
    ensures |r| == TotalLength(parts)
    ensures r == Concat(parts)
  {
    var size := MergedSize(parts);
    var buffer := new char[size + 1](_ => '\0');
    var at := 0;
    var i := 0;
    while i < |parts|
      invariant 0 <= i <= |parts|
      invariant at == TotalLength(parts[..i]) <= size
      invariant buffer[..at] == Concat(parts[..i])
    {
      assert parts[..i + 1][..i] == parts[..i];
      TotalLengthMonotone(parts, i + 1, |parts|);
      assert parts[..|parts|] == parts;
      CopyPart(buffer, at, parts[i]);
      at := at + |parts[i]|;
      i := i + 1;
    }
    assert parts[..|parts|] == parts;
    buffer[at] := '\0';
    r := buffer[..at];
  }

  /** The first loop of `a_str_merge`: the lengths of all parts added up. */
  method MergedSize(parts: seq<CString>) returns (size: nat)
    ensures size == TotalLength(parts)
  {
    size := 0;
    var i := 0;
    while i < |parts|
      invariant 0 <= i <= |parts|
      invariant size == TotalLength(parts[..i])
    {
      assert parts[..i + 1][..i] == parts[..i];
      size := size + |parts[i]|;
      i := i + 1;
    }
    assert parts[..|parts|] == parts;
  }

  /** The inner loop of `a_str_merge`: one part copied character by character to the
      write position `at`, leaving what was already written in place. */
  method CopyPart(buffer: array<char>, at: nat, s: CString)
    requires at + |s| <= buffer.Length
    modifies buffer
    ensures buffer[..at + |s|] == old(buffer[..at]) + s
  {
    var j := 0;
    while j < |s|
      invariant 0 <= j <= |s|
      invariant buffer[..at + j] == old(buffer[..at]) + s[..j]
    {
      buffer[at + j] := s[j];
      assert buffer[..at + j + 1] == buffer[..at + j] + [s[j]];
      assert s[..j + 1] == s[..j] + [s[j]];
      j := j + 1;
    }
    assert s[..j] == s;
  }

  // ---------------------------------------------------------------------------
  // a_str_dup, a_str_getSub, a_str_getPrefix, a_str_getSuffix

  /** `a_str_dup`: NULL stays NULL, anything else becomes an equal fresh copy. */
  function Dup(s: Option<CString>): (r: Option<CString>)
    ensures r.None? <==> s.None?
    ensures r.Some? ==> |r.value| == |s.value| && forall i :: 0 <= i < |r.value| ==> r.value[i] == s.value[i]
  {
    match s
    case None => None
    case Some(t) => Some(t[..])
  }

  /** `a_str_getSub(s, Start, End)`: the `End - Start` characters from `Start`. */
  function GetSub(s: CString, start: nat, end: nat): (r: CString)
    requires start <= end <= |s|
    ensures |r| == end - start
    ensures forall i :: 0 <= i < |r| ==> r[i] == s[start + i]
  {
    s[start..end]
  }

  /** `a_str_getPrefix`: the first `length` characters. */
  function GetPrefix(s: CString, length: nat): (r: CString)
    requires length <= |s|
    ensures |r| == length && r <= s
  {
    GetSub(s, 0, length)
  }

  /** `a_str_getSuffix`: the last `length` characters. */
  function GetSuffix(s: CString, length: nat): (r: CString)
    requires length <= |s|
    ensures |r| == length && s == s[..|s| - length] + r
  {
    GetSub(s, |s| - length, |s|)
  }

  // ---------------------------------------------------------------------------
  // a_str_getFirstIndex, a_str_getLastIndex

  /** The smallest index holding `c`, or -1. */
  function FirstIndexOf(s: CString, c: char): (r: int)
    ensures r == -1 <==> c !in s
    ensures r != -1 ==> 0 <= r < |s| && s[r] == c && c !in s[..r]
  {
    if s == [] then -1
    else if s[0] == c then 0
    else
      var k := FirstIndexOf(s[1..], c);
      assert s == [s[0]] + s[1..];
      if k == -1 then -1
      else
        assert s[..k + 1] == [s[0]] + s[1..][..k];
        k + 1
  }

  /** The largest index holding `c`, or -1. */
  function LastIndexOf(s: CString, c: char): (r: int)
    ensures r == -1 <==> c !in s
    ensures r != -1 ==> 0 <= r < |s| && s[r] == c && c !in s[r + 1..]
  {
    if s == [] then -1
    else if s[|s| - 1] == c then |s| - 1
    else
      var init := s[..|s| - 1];
      assert s == init + [s[|s| - 1]];
      var k := LastIndexOf(init, c);
      assert k != -1 ==> s[k + 1..] == init[k + 1..] + [s[|s| - 1]];
      k
  }

  /** `a_str_getFirstIndex`: scans forward until the NUL. */
  method GetFirstIndex(s: CString, c: char) returns (r: int)
    ensures r == FirstIndexOf(s, c)
  {
    var i := 0;
    while i < |s|
      invariant 0 <= i <= |s|
      invariant c !in s[..i]
    {
      if s[i] == c {
        return i;
      }
      assert s[..i + 1] == s[..i] + [s[i]];
      i := i + 1;
    }
    assert s[..i] == s;
    return -1;
  }

  /** `a_str_getLastIndex`: scans backward from the end. */
  method GetLastIndex(s: CString, c: char) returns (r: int)
    ensures r == LastIndexOf(s, c)
  {
    var i := |s|;
    while i > 0
      invariant 0 <= i <= |s|
      invariant c !in s[i..]
    {
      i := i - 1;
      if s[i] == c {
        return i;
      }
      assert s[i..] == [s[i]] + s[i + 1..];
    }
    assert s[0..] == s;
    return -1;
  }

  // ---------------------------------------------------------------------------
  // a_str_startsWith, a_str_endsWith

  /** `a_str_startsWith`: walks both strings until either ends or they differ. */
  method StartsWith(s: CString, prefix: CString) returns (r: bool)
    ensures r <==> prefix <= s
  {
    var i := 0;
    while i < |s| && i < |prefix|
      invariant 0 <= i <= |s| && i <= |prefix|
      invariant s[..i] == prefix[..i]
    {
      if s[i] != prefix[i] {
        return false;
      }
      i := i + 1;
    }
    r := i == |prefix|;
    if r {
      assert prefix == prefix[..i];
    }
  }

  /** `a_str_endsWith`: false for a longer suffix, else compares the tail. */
  function EndsWith(s: CString, suffix: CString): (r: bool)
    ensures r <==> exists head: string :: s == head + suffix
  {
    if |suffix| > |s| then false
    else
      var head := s[..|s| - |suffix|];
      if s[|s| - |suffix|..] == suffix then
        assert s == head + suffix;
        true
      else
        TailOfConcat(s, suffix);
        false
  }

  lemma TailOfConcat(s: string, suffix: string)
    requires |suffix| <= |s|
    ensures forall head: string :: s == head + suffix ==> s[|s| - |suffix|..] == suffix
  {
    forall head: string | s == head + suffix
      ensures s[|s| - |suffix|..] == suffix
    {
      assert s[|head|..] == suffix;
    }
  }

  // ---------------------------------------------------------------------------
  // Prefix and suffix around a marker

  /** `a_str_getPrefixFirstFind`: what comes before the first marker. */
  function PrefixFirstFind(s: CString, marker: char): (r: Option<CString>)
    ensures r.None? <==> marker !in s
    ensures r.Some? ==> marker !in r.value && r.value + [marker] <= s
  {
    var index := FirstIndexOf(s, marker);
    if index == -1 then None
    else
      assert s[..index + 1] == s[..index] + [marker];
      Some(GetSub(s, 0, index))
  }

  /** `a_str_getPrefixLastFind`: what comes before the last marker. */
  function PrefixLastFind(s: CString, marker: char): (r: Option<CString>)
    ensures r.None? <==> marker !in s
    ensures r.Some? ==> r.value + [marker] <= s && marker !in s[|r.value| + 1..]
  {
    var index := LastIndexOf(s, marker);
    if index == -1 then None
    else
      assert s[..index + 1] == s[..index] + [marker];
      Some(GetSub(s, 0, index))
  }

  /** `a_str_getSuffixFirstFind`: what follows the first marker. */
  function SuffixFirstFind(s: CString, marker: char): (r: Option<CString>)
    ensures r.None? <==> marker !in s
    ensures r.Some? ==> exists head: string :: marker !in head && s == head + [marker] + r.value
  {
    var start := FirstIndexOf(s, marker) + 1;
    if start == 0 then None
    else
      var head := s[..start - 1];
      assert s == head + [marker] + s[start..];
      Some(GetSub(s, start, |s|))
  }

  /** `a_str_getSuffixLastFind`: what follows the last marker. */
  function SuffixLastFind(s: CString, marker: char): (r: Option<CString>)
    ensures r.None? <==> marker !in s
    ensures r.Some? ==> marker !in r.value && |r.value| < |s| && s == s[..|s| - |r.value| - 1] + [marker] + r.value
  {
    var index := LastIndexOf(s, marker);
    if index == -1 then None
    else
      assert s == s[..index] + [marker] + s[index + 1..];
      Some(GetSub(s, index + 1, |s|))
  }

  // ---------------------------------------------------------------------------
  // Paths

  /** `a_str_extractPath`: the directory part, or "." when there is no '/'. */
  function ExtractPath(s: CString): (r: CString)
    ensures '/' !in s ==> r == "."
    ensures '/' in s ==> r + "/" <= s
  {
    match PrefixLastFind(s, '/')
    case Some(path) => path
    case None => "."
  }

  /** `a_str_extractFile`: the part after the last '/', or the whole string. */
  function ExtractFile(s: CString): (r: CString)
    ensures '/' !in r
    ensures '/' !in s ==> r == s
    ensures |r| <= |s| && s[|s| - |r|..] == r
  {
    match SuffixLastFind(s, '/')
    case Some(file) => file
    case None => s
  }

  /** `a_str_extractName`: the file part without its last '.' and what follows it. */
  function ExtractName(s: CString): (r: CString)
    ensures r <= ExtractFile(s)
    ensures '.' !in ExtractFile(s) ==> r == ExtractFile(s)
    ensures '.' in ExtractFile(s) ==> r + "." <= ExtractFile(s)
    ensures '.' in ExtractFile(s) ==> '.' !in ExtractFile(s)[|r| + 1..]
  {
    var file := ExtractFile(s);
    match PrefixLastFind(file, '.')
    case Some(name) => name
    case None => file
  }

  /** Where there is a '/', the directory, a '/' and the file part rebuild the path. */
  lemma PathRoundTrip(s: CString)
    requires '/' in s
    ensures ExtractPath(s) + "/" + ExtractFile(s) == s
  {
    var index := LastIndexOf(s, '/');
    assert ExtractPath(s) == s[..index];
    assert ExtractFile(s) == s[index + 1..];
    assert s == s[..index] + "/" + s[index + 1..];
  }

  // ---------------------------------------------------------------------------
  // a_str_trim

  predicate AllSpace(s: string)
  {
    forall i :: 0 <= i < |s| ==> IsSpace(s[i])
  }

  /** `a_str_trim`: skips leading whitespace, then trailing whitespace, and copies the rest. */
  method Trim(s: CString) returns (r: CString)
    ensures exists a, b :: 0 <= a <= b <= |s| && r == s[a..b] && AllSpace(s[..a]) && AllSpace(s[b..])
    ensures r != "" ==> !IsSpace(r[0]) && !IsSpace(r[|r| - 1])
    ensures AllSpace(s) ==> r == ""
  {
    var start := 0;
    while start < |s| && IsSpace(s[start])
      invariant 0 <= start <= |s|
      invariant AllSpace(s[..start])
    {
      start := start + 1;
    }
    var end := |s| - 1;
    while end > start && IsSpace(s[end])
      invariant start - 1 <= end <= |s| - 1
      invariant AllSpace(s[end + 1..])
    {
      end := end - 1;
    }
    r := GetSub(s, start, end + 1);
    assert r == s[start..end + 1] && AllSpace(s[..start]) && AllSpace(s[end + 1..]);
    if r != "" {
      assert r[0] == s[start] && r[|r| - 1] == s[end];
    }
  }

  // ---------------------------------------------------------------------------
  // a_str_split

  /** The characters of `s` that are not delimiters, in order. */
  function Kept(s: string, delimiters: CString): string
  {
    if s == [] then [] else (if s[0] in delimiters then [] else [s[0]]) + Kept(s[1..], delimiters)
  }

  /** The number of leading non-delimiter characters of `s`. */
  function RunLength(s: string, delimiters: CString): (n: nat)
    ensures n <= |s|
    ensures forall i :: 0 <= i < n ==> s[i] !in delimiters
    ensures n < |s| ==> s[n] in delimiters
  {
    if s == [] || s[0] in delimiters then 0 else 1 + RunLength(s[1..], delimiters)
  }

  /** The maximal runs of non-delimiter characters, left to right. */
  function Split(s: CString, delimiters: CString): seq<CString>
    decreases |s|
  {
    if s == [] then []
    else if s[0] in delimiters then Split(s[1..], delimiters)
    else
      var n := RunLength(s, delimiters);
      [s[..n]] + Split(s[n..], delimiters)
  }

  /** Every piece is non-empty and holds no delimiter. */
  lemma {:induction false} SplitPieces(s: CString, delimiters: CString)
    ensures forall k :: 0 <= k < |Split(s, delimiters)| ==>
              Split(s, delimiters)[k] != [] &&
              forall i :: 0 <= i < |Split(s, delimiters)[k]| ==> Split(s, delimiters)[k][i] !in delimiters
    decreases |s|
  {
    if s == [] {
    } else if s[0] in delimiters {
      SplitPieces(s[1..], delimiters);
    } else {
      SplitPieces(s[RunLength(s, delimiters)..], delimiters);
    }
  }

  /** All pieces joined together are exactly the non-delimiter characters of `s`. */
  lemma {:induction false} SplitKeepsCharacters(s: CString, delimiters: CString)
    ensures Concat(Split(s, delimiters)) == Kept(s, delimiters)
    decreases |s|
  {
    if s == [] {
    } else if s[0] in delimiters {
      SplitKeepsCharacters(s[1..], delimiters);
    } else {
      var n := RunLength(s, delimiters);
      SplitKeepsCharacters(s[n..], delimiters);
      KeptRun(s, n, delimiters);
      ConcatCons(s[..n], Split(s[n..], delimiters));
    }
  }

  lemma {:induction false} ConcatCons(head: CString, tail: seq<CString>)
    ensures Concat([head] + tail) == head + Concat(tail)
    decreases |tail|
  {
    if tail == [] {
      assert [head] + tail == [head];
      assert [head][..0] == [];
    } else {
      var n := |tail|;
      var whole := [head] + tail;
      assert whole[..n] == [head] + tail[..n - 1] && whole[n] == tail[n - 1];
      ConcatCons(head, tail[..n - 1]);
      assert Concat(whole) == Concat(whole[..n]) + whole[n];
      assert Concat(tail) == Concat(tail[..n - 1]) + tail[n - 1];
    }
  }

  lemma {:induction false} KeptRun(s: string, n: nat, delimiters: CString)
    requires n <= |s|
    requires forall i :: 0 <= i < n ==> s[i] !in delimiters
    ensures Kept(s, delimiters) == s[..n] + Kept(s[n..], delimiters)
    decreases n
  {
    if n > 0 {
      KeptRun(s[1..], n - 1, delimiters);
      assert s[1..][n - 1..] == s[n..];
      assert s[..n] == [s[0]] + s[1..][..n - 1];
    }
  }

  /** Splitting distributes over a boundary that follows a delimiter. */
  lemma {:induction false} SplitAppend(p: CString, q: CString, delimiters: CString)
    requires p == [] || p[|p| - 1] in delimiters
    ensures Split(p + q, delimiters) == Split(p, delimiters) + Split(q, delimiters)
    decreases |p|
  {
    if p == [] {
      assert p + q == q;
    } else if p[0] in delimiters {
      assert (p + q)[1..] == p[1..] + q;
      SplitAppend(p[1..], q, delimiters);
    } else {
      var n := RunLength(p, delimiters);
      RunLengthAppend(p, q, delimiters);
      assert (p + q)[..n] == p[..n];
      assert (p + q)[n..] == p[n..] + q;
      SplitAppend(p[n..], q, delimiters);
    }
  }

  lemma RunLengthAppend(p: CString, q: CString, delimiters: CString)
    requires p != [] && p[|p| - 1] in delimiters
    ensures RunLength(p + q, delimiters) == RunLength(p, delimiters)
    decreases |p|
  {
    if p[0] !in delimiters {
      assert (p + q)[1..] == p[1..] + q;
      RunLengthAppend(p[1..], q, delimiters);
    }
  }

  /** A delimiter-free run followed by one delimiter splits into that run, if non-empty. */
  lemma SplitRun(run: CString, c: char, delimiters: CString)
    requires c in delimiters && c != '\0'
    requires forall i :: 0 <= i < |run| ==> run[i] !in delimiters
    ensures Split(run + [c], delimiters) == (if run == [] then [] else [run])
  {
    var s := run + [c];
    assert Split([c], delimiters) == [] by {
      assert [c][1..] == [];
    }
    if run != [] {
      RunLengthStop(run, c, delimiters);
      assert s[..|run|] == run;
      assert s[|run|..] == [c];
    } else {
      assert s == [c];
    }
  }

  lemma {:induction false} RunLengthStop(run: string, c: char, delimiters: CString)
    requires c in delimiters
    requires forall i :: 0 <= i < |run| ==> run[i] !in delimiters
    ensures RunLength(run + [c], delimiters) == |run|
    decreases |run|
  {
    if run != [] {
      assert (run + [c])[1..] == run[1..] + [c];
      RunLengthStop(run[1..], c, delimiters);
    }
  }

  lemma {:induction false} RunLengthAll(run: string, delimiters: CString)
    requires forall i :: 0 <= i < |run| ==> run[i] !in delimiters
    ensures RunLength(run, delimiters) == |run|
    decreases |run|
  {
    if run != [] {
      RunLengthAll(run[1..], delimiters);
    }
  }

  /** Reaching a delimiter at `i` closes the run that began at `start`. */
  lemma SplitAtDelimiter(s: CString, start: nat, i: nat, delimiters: CString)
    requires start <= i < |s| && s[i] in delimiters
    requires start == 0 || s[start - 1] in delimiters
    requires forall k :: start <= k < i ==> s[k] !in delimiters
    ensures Split(s[..i + 1], delimiters) ==
              Split(s[..start], delimiters) + (if i > start then [s[start..i]] else [])
  {
    var run := s[start..i];
    assert s[..i + 1] == s[..start] + (run + [s[i]]);
    SplitRun(run, s[i], delimiters);
    SplitAppend(s[..start], run + [s[i]], delimiters);
  }

  /** The inner loop of `a_str_split`: a scan of the delimiter set for `c`. */
  method IsDelimiter(c: char, delimiters: CString) returns (found: bool)
    ensures found <==> c in delimiters
  {
    var d := 0;
    while d < |delimiters|
      invariant 0 <= d <= |delimiters|
      invariant c !in delimiters[..d]
    {
      if c == delimiters[d] {
        return true;
      }
      assert delimiters[..d + 1] == delimiters[..d] + [delimiters[d]];
      d := d + 1;
    }
    assert delimiters[..d] == delimiters;
    return false;
  }

  /** `a_str_split`: for each character, a search of the delimiter string; a delimiter
      closes the current run, which is kept only when it is non-empty. */
  method SplitString(s: CString, delimiters: CString) returns (pieces: seq<CString>)
    ensures pieces == Split(s, delimiters)
  {
    pieces := [];
    var start := 0;
    var i := 0;
    while i < |s|
      invariant 0 <= start <= i <= |s|
      invariant start == 0 || s[start - 1] in delimiters
      invariant forall k :: start <= k < i ==> s[k] !in delimiters
      invariant pieces == Split(s[..start], delimiters)
    {
      var isDelimiter := IsDelimiter(s[i], delimiters);
      if isDelimiter {
        SplitAtDelimiter(s, start, i, delimiters);
        if i > start {
          pieces := pieces + [GetSub(s, start, i)];
        }
        start := i + 1;
      }
      i := i + 1;
    }
    var run := s[start..];
    SplitRunTail(run, delimiters);
    SplitAppend(s[..start], run, delimiters);
    assert s == s[..start] + run;
    assert Split(s, delimiters) == pieces + Split(run, delimiters);
    if i > start {
      assert GetSub(s, start, i) == run;
      pieces := pieces + [GetSub(s, start, i)];
    }
  }

  lemma SplitRunTail(run: CString, delimiters: CString)
    requires forall i :: 0 <= i < |run| ==> run[i] !in delimiters
    ensures Split(run, delimiters) == (if run == [] then [] else [run])
  {
    if run != [] {
      RunLengthAll(run, delimiters);
      assert run[..|run|] == run;
      assert run[|run|..] == [];
    }
  }
}
