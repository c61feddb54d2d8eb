/** The string operations the descriptions are printed and parsed with: trimming, splitting,
    joining, searching and sorting, with the facts about them that a round trip needs. */
module Strings {

  // ---------------------------------------------------------------- trimming

  /** The characters with the Unicode property White_Space. */
  predicate IsSpace(c: char) {
    || '\t' <= c <= '\r' || c == ' ' || c == '\U{85}' || c == '\U{A0}' || c == '\U{1680}'
    || '\U{2000}' <= c <= '\U{200a}' || c == '\U{2028}' || c == '\U{2029}' || c == '\U{202f}'
    || c == '\U{205f}' || c == '\U{3000}'
  }

  function TrimSpaceLeft(s: string): string {
    if s != "" && IsSpace(s[0]) then TrimSpaceLeft(s[1..]) else s
  }

  function TrimSpaceRight(s: string): string {
    if s != "" && IsSpace(s[|s| - 1]) then TrimSpaceRight(s[..|s| - 1]) else s
  }

  function TrimSpace(s: string): string {
    TrimSpaceRight(TrimSpaceLeft(s))
  }

  /** Blanks and line ends, the characters trimmed from the end of a base text. */
  predicate IsBlank(c: char) {
    c == ' ' || c == '\n'
  }

  function TrimBlankRight(s: string): string {
    if s != "" && IsBlank(s[|s| - 1]) then TrimBlankRight(s[..|s| - 1]) else s
  }

  predicate RightTrimmed(s: string) {
    s != "" ==> !IsBlank(s[|s| - 1])
  }

  predicate NoOuterSpace(s: string) {
    s != "" ==> !IsSpace(s[0]) && !IsSpace(s[|s| - 1])
  }

  lemma {:induction false} TrimBlankRightIsTrimmed(s: string)
    ensures RightTrimmed(TrimBlankRight(s))
  {
    if s != "" && IsBlank(s[|s| - 1]) {
      TrimBlankRightIsTrimmed(s[..|s| - 1]);
    }
  }

  /** What trimming on the right means: a prefix that does not end in a blank or a line end, and nothing
      else was dropped. */
  ghost predicate TrimsTo(text: string, base: string) {
    && base <= text && (base != "" ==> base[|base| - 1] != ' ' && base[|base| - 1] != '\n')
    && forall i | |base| <= i < |text| :: text[i] == ' ' || text[i] == '\n'
  }

  lemma {:induction false} TrimBlankRightTrims(s: string)
    ensures TrimsTo(s, TrimBlankRight(s))
  {
    if s != "" && IsBlank(s[|s| - 1]) {
      TrimBlankRightTrims(s[..|s| - 1]);
    }
  }

  lemma TrimsToIsUnique(text: string, a: string, b: string)
    requires TrimsTo(text, a) && TrimsTo(text, b)
    ensures a == b
  {
    assert a == text[..|a|] && b == text[..|b|];
    assert |a| > 0 ==> text[|a| - 1] == a[|a| - 1];
    assert |b| > 0 ==> text[|b| - 1] == b[|b| - 1];
  }

  lemma {:induction false} TrimSpaceLeftIsSlice(s: string) returns (i: nat)
    ensures i <= |s| && TrimSpaceLeft(s) == s[i..]
    ensures TrimSpaceLeft(s) != "" ==> !IsSpace(TrimSpaceLeft(s)[0])
    ensures forall k | 0 <= k < i :: IsSpace(s[k])
  {
    i := 0;
    if s != "" && IsSpace(s[0]) {
      var j := TrimSpaceLeftIsSlice(s[1..]);
      i := j + 1;
      assert s[1..][j..] == s[i..];
    }
  }

  lemma {:induction false} TrimSpaceRightIsSlice(s: string) returns (j: nat)
    ensures j <= |s| && TrimSpaceRight(s) == s[..j]
    ensures TrimSpaceRight(s) != "" ==> !IsSpace(TrimSpaceRight(s)[j - 1])
    ensures forall k | j <= k < |s| :: IsSpace(s[k])
  {
    j := |s|;
    if s != "" && IsSpace(s[|s| - 1]) {
      j := TrimSpaceRightIsSlice(s[..|s| - 1]);
      assert s[..|s| - 1][..j] == s[..j];
    }
  }

  /** `core` is the text without the space around it. */
  ghost predicate StripsTo(s: string, core: string, i: nat, j: nat) {
    && i <= j <= |s| && core == s[i..j] && NoOuterSpace(core)
    && (forall k | 0 <= k < i :: IsSpace(s[k])) && (forall k | j <= k < |s| :: IsSpace(s[k]))
  }

  lemma TrimSpaceIsSlice(s: string) returns (i: nat, j: nat)
    ensures i <= j <= |s| && TrimSpace(s) == s[i..j] && NoOuterSpace(TrimSpace(s)) && StripsTo(s, TrimSpace(s), i, j)
  {
    i := TrimSpaceLeftIsSlice(s);
    var n := TrimSpaceRightIsSlice(s[i..]);
    j := i + n;
    assert s[i..][..n] == s[i..j];
    forall k | j <= k < |s| ensures IsSpace(s[k]) {
      assert s[k] == s[i..][k - i];
    }
  }

  /** Stripping has one result. */
  lemma StripsToTrimSpace(s: string, core: string, i: nat, j: nat)
    requires StripsTo(s, core, i, j)
    ensures core == TrimSpace(s)
  {
    var a, b := TrimSpaceIsSlice(s);
    if i < j {
      assert core[0] == s[i] && core[|core| - 1] == s[j - 1];
    }
    if a < b {
      assert s[a..b][0] == s[a] && s[a..b][b - a - 1] == s[b - 1];
    }
  }

  /** A leading space makes no difference, and a text without outer space is left alone. */
  lemma TrimSpaceSkips(s: string)
    ensures TrimSpace(" " + s) == TrimSpace(s)
    ensures NoOuterSpace(s) ==> TrimSpace(s) == s
  {}

  // ---------------------------------------------------------------- searching

  /** `sub` occurs in `s` at position `i`. */
  predicate OccursAt(s: string, sub: string, i: nat) {
    i + |sub| <= |s| && s[i..i + |sub|] == sub
  }

  ghost predicate Free(s: string, sub: string) {
    forall i: nat :: !OccursAt(s, sub, i)
  }

  /** The last position of `sub` in `s` not after `n`, or None. */
  function LastOccurrence(s: string, sub: string, n: nat): (r: int)
    ensures r == -1 || (0 <= r <= n && OccursAt(s, sub, r))
    ensures forall i: nat | r < i <= n :: !OccursAt(s, sub, i)
  {
    if OccursAt(s, sub, n) then n else if n == 0 then -1 else LastOccurrence(s, sub, n - 1)
  }

  function LastIndex(s: string, sub: string): (r: int)
    ensures r == -1 ==> Free(s, sub)
    ensures r != -1 ==> 0 <= r && OccursAt(s, sub, r) && forall i: nat | r < i :: !OccursAt(s, sub, i)
  {
    LastOccurrence(s, sub, |s|)
  }

  lemma FreeSlice(s: string, sub: string, i: nat, j: nat)
    requires i <= j <= |s| && Free(s, sub)
    ensures Free(s[i..j], sub)
  {
    forall k: nat ensures !OccursAt(s[i..j], sub, k) {
      OccursInSlice(s, sub, i, j, k);
    }
  }

  lemma OccursInSlice(s: string, sub: string, i: nat, j: nat, k: nat)
    requires i <= j <= |s|
    ensures OccursAt(s[i..j], sub, k) ==> OccursAt(s, sub, i + k)
  {
    var t, n := s[i..j], |sub|;
    if OccursAt(t, sub, k) {
      var a, b := t[k..k + n], s[i + k..i + k + n];
      forall m | 0 <= m < n ensures a[m] == b[m] {}
      assert a == b;
    }
  }

  // ---------------------------------------------------------------- splitting and joining

  function FirstComma(s: string): (r: nat)
    ensures r <= |s| && ',' !in s[..r] && (r < |s| ==> s[r] == ',')
  {
    if s == "" || s[0] == ',' then 0 else
      var n := FirstComma(s[1..]);
      assert s[..n + 1] == [s[0]] + s[1..][..n];
      n + 1
  }

  /** The parts between the commas. */
  function SplitComma(s: string): (r: seq<string>)
    ensures r != []
    decreases |s|
  {
    var i := FirstComma(s);
    if i == |s| then [s] else [s[..i]] + SplitComma(s[i + 1..])
  }

  /** The parts, trimmed, without the empty ones. */
  function Clean(parts: seq<string>): seq<string> {
    if parts == [] then []
    else
      var o := TrimSpace(parts[0]);
      (if o != "" then [o] else []) + Clean(parts[1..])
  }

  function Join(parts: seq<string>): string {
    if parts == [] then "" else if |parts| == 1 then parts[0] else parts[0] + ", " + Join(parts[1..])
  }

  lemma {:induction false} FirstCommaIs(a: string, b: string)
    requires ',' !in a
    ensures FirstComma(a + "," + b) == |a|
  {
    if a != "" {
      assert a[0] in a;
      assert (a + "," + b)[1..] == a[1..] + "," + b;
      FirstCommaIs(a[1..], b);
    }
  }

  lemma SplitCommaHead(a: string, b: string)
    requires ',' !in a
    ensures SplitComma(a + "," + b) == [a] + SplitComma(b)
  {
    var s := a + "," + b;
    FirstCommaIs(a, b);
    assert s[..|a|] == a && s[|a| + 1..] == b;
  }

  /** A leading space of the whole text disappears with the trimming of its first part. */
  lemma CleanSkipsLeadingSpace(s: string)
    ensures Clean(SplitComma(" " + s)) == Clean(SplitComma(s))
  {
    var t := " " + s;
    assert t[1..] == s;
    var i := FirstComma(s);
    assert FirstComma(t) == i + 1;
    TrimSpaceSkips(s[..i]);
    assert t[..i + 1] == " " + s[..i];
    if i < |s| {
      assert t[i + 2..] == s[i + 1..];
    }
  }

  lemma NoComma(s: string)
    requires ',' !in s
    ensures SplitComma(s) == [s] && Clean([s]) == if TrimSpace(s) == "" then [] else [TrimSpace(s)]
  {}

  predicate Listable(o: string) {
    o != "" && ',' !in o && NoOuterSpace(o)
  }

  lemma CleanHead(o: string, parts: seq<string>)
    ensures Clean([o] + parts) == (if TrimSpace(o) == "" then [] else [TrimSpace(o)]) + Clean(parts)
  {}

  /** Splitting a joined list gives the list back. */
  lemma {:induction false} SplitJoin(owners: seq<string>)
    requires owners != [] && forall o | o in owners :: Listable(o)
    ensures Clean(SplitComma(Join(owners))) == owners
  {
    var o := owners[0];
    assert o in owners;
    TrimSpaceSkips(o);
    if |owners| == 1 {
      NoComma(o);
      assert owners == [o];
    } else {
      var rest := Join(owners[1..]);
      SplitJoin(owners[1..]);
      assert Join(owners) == o + "," + (" " + rest);
      SplitCommaHead(o, " " + rest);
      CleanSkipsLeadingSpace(rest);
      CleanHead(o, SplitComma(" " + rest));
      assert owners == [o] + owners[1..];
    }
  }

  /** Everything a split and clean yields is listable, and free of what the text is free of. */
  lemma {:induction false} CleanSplitIsListable(s: string, sub: string)
    requires Free(s, sub)
    ensures forall o | o in Clean(SplitComma(s)) :: Listable(o) && Free(o, sub)
    decreases |s|
  {
    hide TrimSpace;
    var i := FirstComma(s);
    var part := s[..i];
    FreeSlice(s, sub, 0, i);
    var a, b := TrimSpaceIsSlice(part);
    FreeSlice(part, sub, a, b);
    assert ',' !in part[a..b];
    if i == |s| {
      assert part == s;
      NoComma(s);
    } else {
      FreeSlice(s, sub, i + 1, |s|);
      assert s[i + 1..|s|] == s[i + 1..];
      CleanSplitIsListable(s[i + 1..], sub);
      CleanHead(part, SplitComma(s[i + 1..]));
    }
  }

  /** The text from `i` to `j` stands between two commas, or the ends, and has none inside. */
  ghost predicate IsPart(s: string, i: nat, j: nat) {
    && i <= j <= |s| && (i == 0 || s[i - 1] == ',') && (j == |s| || s[j] == ',')
    && forall k | i <= k < j :: s[k] != ','
  }

  /** `o` is what stands between two commas, without the space around it, and is not empty. */
  ghost predicate Item(s: string, o: string) {
    o != "" && exists i: nat, j: nat, a: nat, b: nat :: IsPart(s, i, j) && StripsTo(s[i..j], o, a, b)
  }

  lemma ItemOfPart(s: string, i: nat, j: nat)
    requires IsPart(s, i, j) && TrimSpace(s[i..j]) != ""
    ensures Item(s, TrimSpace(s[i..j]))
  {
    var a, b := TrimSpaceIsSlice(s[i..j]);
  }

  lemma LaterPart(s: string, n: nat, i: nat, j: nat)
    requires n < |s| && s[n] == ','
    ensures IsPart(s[n + 1..], i, j) <==> i + n + 1 <= |s| && IsPart(s, n + 1 + i, n + 1 + j)
    ensures IsPart(s[n + 1..], i, j) ==> s[n + 1..][i..j] == s[n + 1 + i..n + 1 + j]
  {
    var t := s[n + 1..];
    assert forall k | 0 <= k < |t| :: t[k] == s[n + 1 + k];
    if IsPart(t, i, j) {
      forall k | n + 1 + i <= k < n + 1 + j ensures s[k] != ',' {
        assert t[k - n - 1] != ',';
      }
    }
  }

  /** Splitting and cleaning gives exactly the items of the list. */
  lemma {:induction false} CleanSplitIs(s: string, o: string)
    ensures o in Clean(SplitComma(s)) <==> Item(s, o)
    decreases |s|
  {
    var n := FirstComma(s);
    assert IsPart(s, 0, n) && s[0..n] == s[..n];
    if TrimSpace(s[..n]) != "" {
      ItemOfPart(s, 0, n);
    }
    if n == |s| {
      NoComma(s);
      assert s[..n] == s;
      ItemIsFirst(s, o, n);
    } else {
      var rest := s[n + 1..];
      CleanHead(s[..n], SplitComma(rest));
      CleanSplitIs(rest, o);
      ItemIsFirst(s, o, n);
      ItemIsLater(s, o, n);
    }
  }

  /** An item that does not stand in the first part stands after the first comma. */
  lemma ItemIsFirst(s: string, o: string, n: nat)
    requires n <= |s| && IsPart(s, 0, n)
    ensures Item(s, o) ==> o == TrimSpace(s[..n]) || (n < |s| && Item(s[n + 1..], o))
  {
    if Item(s, o) {
      var i: nat, j: nat, a: nat, b: nat :| IsPart(s, i, j) && StripsTo(s[i..j], o, a, b);
      StripsToTrimSpace(s[i..j], o, a, b);
      if i == 0 {
        assert j == n && s[i..j] == s[..n];
      } else {
        assert i > n;
        LaterPart(s, n, i - n - 1, j - n - 1);
      }
    }
  }

  lemma ItemIsLater(s: string, o: string, n: nat)
    requires n < |s| && s[n] == ','
    ensures Item(s[n + 1..], o) ==> Item(s, o)
  {
    var t := s[n + 1..];
    if Item(t, o) {
      var i: nat, j: nat, a: nat, b: nat :| IsPart(t, i, j) && StripsTo(t[i..j], o, a, b);
      LaterPart(s, n, i, j);
      assert IsPart(s, n + 1 + i, n + 1 + j) && StripsTo(s[n + 1 + i..n + 1 + j], o, a, b);
    }
  }

  // ---------------------------------------------------------------- sorting

  /** Lexicographic order of code points, the order of sort.Strings. */
  predicate Leq(a: string, b: string) {
    a == "" || (b != "" && (a[0] < b[0] || (a[0] == b[0] && Leq(a[1..], b[1..]))))
  }

  /** The texts agree up to `n`, where `a` is smaller. */
  ghost predicate SmallerAt(a: string, b: string, n: nat) {
    n < |a| && n < |b| && a[..n] == b[..n] && a[n] < b[n]
  }

  /** The order is lexicographic: a prefix, or smaller at the first difference. */
  lemma {:induction false} LeqIsLexicographic(a: string, b: string)
    ensures Leq(a, b) <==> a <= b || exists n: nat :: SmallerAt(a, b, n)
  {
    if a != "" && b != "" {
      FirstCharacter(a, b);
      hide SmallerAt;
      if a[0] == b[0] {
        LeqIsLexicographic(a[1..], b[1..]);
      }
    }
  }

  lemma FirstCharacter(a: string, b: string)
    requires a != "" && b != ""
    ensures a[0] < b[0] ==> SmallerAt(a, b, 0)
    ensures a[0] > b[0] ==> !(a <= b) && forall n: nat :: !SmallerAt(a, b, n)
    ensures a[0] == b[0] ==> (a <= b <==> a[1..] <= b[1..])
    ensures a[0] == b[0] ==> ((exists n: nat :: SmallerAt(a, b, n)) <==> exists n: nat :: SmallerAt(a[1..], b[1..], n))
  {
    var x, y := a[1..], b[1..];
    assert a == [a[0]] + x && b == [b[0]] + y;
    forall n: nat ensures SmallerAt(a, b, n) ==> n == 0 || a[0] == b[0] {
      if SmallerAt(a, b, n) {
        SameStart(a, b, n);
      }
    }
    if a[0] == b[0] {
      forall n: nat ensures SmallerAt(x, y, n) <==> SmallerAt(a, b, n + 1) {
        SmallerLater(a, b, n);
      }
      if n: nat :| SmallerAt(a, b, n) {
        assert n > 0 && SmallerAt(x, y, n - 1);
      }
    }
  }

  lemma SmallerLater(a: string, b: string, n: nat)
    requires a != "" && b != "" && a[0] == b[0]
    ensures SmallerAt(a[1..], b[1..], n) <==> SmallerAt(a, b, n + 1)
  {
    if n + 1 <= |a| && n + 1 <= |b| {
      assert a[..n + 1] == [a[0]] + a[1..][..n] && b[..n + 1] == [b[0]] + b[1..][..n];
      assert a[..n + 1] == b[..n + 1] ==> a[..n + 1][1..] == b[..n + 1][1..];
      assert a[..n + 1][1..] == a[1..][..n] && b[..n + 1][1..] == b[1..][..n];
    }
  }

  lemma SameStart(a: string, b: string, n: nat)
    requires n <= |a| && n <= |b| && a[..n] == b[..n]
    ensures n == 0 || a[0] == b[0]
  {
    assert n > 0 ==> a[..n][0] == b[..n][0];
  }

  lemma {:induction false} LeqTotal(a: string, b: string)
    ensures Leq(a, b) || Leq(b, a)
  {
    if a != "" && b != "" {
      LeqTotal(a[1..], b[1..]);
    }
  }

  lemma {:induction false} LeqAntisymmetric(a: string, b: string)
    requires Leq(a, b) && Leq(b, a)
    ensures a == b
  {
    if a != "" && b != "" {
      LeqAntisymmetric(a[1..], b[1..]);
      assert a == [a[0]] + a[1..] && b == [b[0]] + b[1..];
    }
  }

  lemma {:induction false} LeqTransitive(a: string, b: string, c: string)
    requires Leq(a, b) && Leq(b, c)
    ensures Leq(a, c)
  {
    if a != "" && a[0] == b[0] == c[0] {
      LeqTransitive(a[1..], b[1..], c[1..]);
    }
  }

  predicate Sorted(s: seq<string>) {
    forall i, j | 0 <= i < j < |s| :: Leq(s[i], s[j])
  }

  function Insert(x: string, s: seq<string>): seq<string> {
    if s == [] || Leq(x, s[0]) then [x] + s else [s[0]] + Insert(x, s[1..])
  }

  function Sort(s: seq<string>): seq<string> {
    if s == [] then [] else Insert(s[0], Sort(s[1..]))
  }

  lemma {:induction false} InsertSorts(x: string, s: seq<string>)
    requires Sorted(s)
    ensures Sorted(Insert(x, s)) && multiset(Insert(x, s)) == multiset(s) + multiset{x}
  {
    if s == [] {
    } else if Leq(x, s[0]) {
      forall j | 0 <= j < |s| ensures Leq(x, s[j]) {
        if j > 0 {
          LeqTransitive(x, s[0], s[j]);
        }
      }
    } else {
      LeqTotal(x, s[0]);
      InsertSorts(x, s[1..]);
      assert s == [s[0]] + s[1..];
      var t := Insert(x, s[1..]);
      forall j | 0 <= j < |t| ensures Leq(s[0], t[j]) {
        assert t[j] in multiset(t);
        if t[j] != x {
          assert t[j] in s[1..];
        }
      }
    }
  }

  lemma {:induction false} SortSorts(s: seq<string>)
    ensures Sorted(Sort(s)) && multiset(Sort(s)) == multiset(s)
  {
    if s != [] {
      SortSorts(s[1..]);
      InsertSorts(s[0], Sort(s[1..]));
      assert s == [s[0]] + s[1..];
    }
  }

  lemma TailMultiset(a: seq<string>)
    requires a != []
    ensures a == [a[0]] + a[1..] && multiset(a[1..]) == multiset(a) - multiset{a[0]}
  {}

  lemma SameHead(a: seq<string>, b: seq<string>)
    requires Sorted(a) && Sorted(b) && multiset(a) == multiset(b) && a != []
    ensures b != [] && a[0] == b[0]
  {
    hide Leq;
    assert a[0] in multiset(b) && b != [];
    assert b[0] in multiset(a);
    var i :| 0 <= i < |b| && b[i] == a[0];
    var j :| 0 <= j < |a| && a[j] == b[0];
    LeqTotal(a[0], a[0]);
    LeqTotal(b[0], b[0]);
    assert Leq(a[0], a[j]) && Leq(b[0], b[i]);
    LeqAntisymmetric(a[0], b[0]);
  }

  /** A sorted arrangement is unique, so any sorting algorithm gives this result. */
  lemma {:induction false} SortedIsUnique(a: seq<string>, b: seq<string>)
    requires Sorted(a) && Sorted(b) && multiset(a) == multiset(b)
    ensures a == b
  {
    hide Leq;
    if a != [] {
      SameHead(a, b);
      TailMultiset(a);
      TailMultiset(b);
      SortedIsUnique(a[1..], b[1..]);
    } else {
      assert |multiset(b)| == 0;
    }
  }
}
