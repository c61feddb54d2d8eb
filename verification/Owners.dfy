/** Owner namespaces of shared ACL entities, printed into and parsed from the free-text
    description of the entity: "base text\n[consul-acl-owners: ns1, ns2]". */
module Owners {
  import opened Strings

  const OWNERS_MARKER := "[consul-acl-owners:"

  datatype Parsed = Parsed(base: string, owners: seq<string>)

  function TrimBracket(s: string): string {
    if s != "" && s[|s| - 1] == ']' then s[..|s| - 1] else s
  }

  /** Splits a description at the last marker into base text and owners. */
  function ParseOwners(description: string): Parsed {
    var idx := LastIndex(description, OWNERS_MARKER);
    if idx == -1 then Parsed(TrimBlankRight(description), [])
    else
      var raw := TrimBracket(TrimSpace(description[idx + |OWNERS_MARKER|..]));
      Parsed(TrimBlankRight(description[..idx]), Clean(SplitComma(raw)))
  }

  /** Reassembles base text and owners; the owners are listed in order. */
  function BuildDescription(base: string, owners: seq<string>): string {
    if owners == [] then base
    else
      var suffix := OWNERS_MARKER + " " + Join(Sort(owners)) + "]";
      if base == "" then suffix else base + "\n" + suffix
  }

  predicate HasOwner(description: string, namespace: string) {
    namespace in ParseOwners(description).owners
  }

  function WithOwnerAdded(spec: string, existing: string, namespace: string): string {
    var owners := ParseOwners(existing).owners;
    BuildDescription(ParseOwners(spec).base, if HasOwner(existing, namespace) then owners else owners + [namespace])
  }

  function Except(owners: seq<string>, namespace: string): seq<string> {
    if owners == [] then []
    else (if owners[0] != namespace then [owners[0]] else []) + Except(owners[1..], namespace)
  }

  datatype Removal = Removal(description: string, last: bool)

  function WithOwnerRemoved(description: string, namespace: string): Removal {
    var parsed := ParseOwners(description);
    var remaining := Except(parsed.owners, namespace);
    Removal(BuildDescription(parsed.base, remaining), remaining == [])
  }

  // ---------------------------------------------------------------- what can be an owner

  /** What the list can hold and give back: not empty, no comma, no outer space, no marker.
      Kubernetes namespaces (section 2.1 of RFC 1123 labels) are of this form. */
  ghost predicate WellFormed(owner: string) {
    Listable(owner) && Free(owner, OWNERS_MARKER)
  }

  lemma MarkerChars(i: nat)
    requires i < |OWNERS_MARKER|
    ensures OWNERS_MARKER[i] != ',' && OWNERS_MARKER[i] != ' ' && OWNERS_MARKER[i] != ']'
    ensures OWNERS_MARKER[i] == '[' <==> i == 0
  {}

  /** Whatever the description, the parsed owners are well formed and the base is trimmed. */
  lemma ParsedIsWellFormed(description: string)
    ensures RightTrimmed(ParseOwners(description).base)
    ensures forall o | o in ParseOwners(description).owners :: WellFormed(o)
  {
    var idx := LastIndex(description, OWNERS_MARKER);
    if idx == -1 {
      TrimBlankRightIsTrimmed(description);
    } else {
      TrimBlankRightIsTrimmed(description[..idx]);
      var rest := description[idx + |OWNERS_MARKER|..];
      AfterLastMarkerIsFree(description, idx);
      var i, j := TrimSpaceIsSlice(rest);
      FreeSlice(rest, OWNERS_MARKER, i, j);
      var raw := TrimSpace(rest);
      FreeSlice(raw, OWNERS_MARKER, 0, |TrimBracket(raw)|);
      assert TrimBracket(raw) == raw[0..|TrimBracket(raw)|];
      CleanSplitIsListable(TrimBracket(raw), OWNERS_MARKER);
    }
  }

  lemma AfterLastMarkerIsFree(s: string, idx: nat)
    requires OccursAt(s, OWNERS_MARKER, idx) && forall i: nat | idx < i :: !OccursAt(s, OWNERS_MARKER, i)
    ensures Free(s[idx + |OWNERS_MARKER|..], OWNERS_MARKER)
  {
    var n := |OWNERS_MARKER|;
    var rest := s[idx + n..];
    forall k: nat ensures !OccursAt(rest, OWNERS_MARKER, k) {
      OccursInSuffix(s, OWNERS_MARKER, idx + n, k);
    }
  }

  lemma OccursInSuffix(s: string, sub: string, m: nat, k: nat)
    requires m <= |s|
    ensures OccursAt(s[m..], sub, k) <==> OccursAt(s, sub, m + k)
  {}

  // ---------------------------------------------------------------- what parsing means

  /** The last marker of the description stands at `n`. */
  ghost predicate LastMarker(description: string, n: nat) {
    OccursAt(description, "[consul-acl-owners:", n) && forall i: nat | n < i :: !OccursAt(description, "[consul-acl-owners:", i)
  }

  /** `text` is what a reader sees of the description: all of it, or what stands before the last marker,
      without the blanks and line ends at its end. */
  ghost predicate Text(description: string, text: string) {
    if Free(description, "[consul-acl-owners:") then TrimsTo(description, text)
    else exists n: nat :: n <= |description| && LastMarker(description, n) && TrimsTo(description[..n], text)
  }

  /** A description has one text. */
  lemma TextIsUnique(description: string, a: string, b: string)
    requires Text(description, a) && Text(description, b)
    ensures a == b
  {
    if Free(description, "[consul-acl-owners:") {
      TrimsToIsUnique(description, a, b);
    } else {
      var n: nat :| n <= |description| && LastMarker(description, n) && TrimsTo(description[..n], a);
      var m: nat :| m <= |description| && LastMarker(description, m) && TrimsTo(description[..m], b);
      assert n == m;
      TrimsToIsUnique(description[..n], a, b);
    }
  }

  /** The list of owners in the text after a marker: without the space around it and without one
      closing bracket at its end. */
  ghost predicate OwnerList(rest: string, list: string) {
    exists raw, i: nat, j: nat ::
      StripsTo(rest, raw, i, j) && (raw == list + "]" || (raw == list && (raw != "" ==> raw[|raw| - 1] != ']')))
  }

  /** The last marker stands at `n` and `list` follows it. */
  ghost predicate Lists(description: string, n: nat, list: string) {
    LastMarker(description, n) && OwnerList(description[n + |"[consul-acl-owners:"|..], list)
  }

  /** What parsing means, for every description: the base is its text, a description without a marker
      has no owners, and otherwise the owners are exactly the items of the list after the last marker. */
  lemma ParseMeans(description: string)
    ensures Text(description, ParseOwners(description).base)
    ensures Free(description, "[consul-acl-owners:") ==> ParseOwners(description).owners == []
    ensures !Free(description, "[consul-acl-owners:") ==>
              exists n: nat, list :: Lists(description, n, list) && forall o :: o in ParseOwners(description).owners <==> Item(list, o)
  {
    var idx := LastIndex(description, OWNERS_MARKER);
    if idx == -1 {
      TrimBlankRightTrims(description);
    } else {
      assert !Free(description, "[consul-acl-owners:") && LastMarker(description, idx);
      TrimBlankRightTrims(description[..idx]);
      var rest := description[idx + |OWNERS_MARKER|..];
      var i, j := TrimSpaceIsSlice(rest);
      var raw := TrimSpace(rest);
      var list := TrimBracket(raw);
      assert OwnerList(rest, list) by {
        assert raw == list + "]" || (raw == list && (raw != "" ==> raw[|raw| - 1] != ']'));
      }
      assert Lists(description, idx, list);
      forall o ensures o in ParseOwners(description).owners <==> Item(list, o) {
        CleanSplitIs(list, o);
      }
    }
  }

  /** The text of a description. */
  function TextOf(description: string): (text: string)
    ensures Text(description, text)
  {
    ParseMeans(description);
    ParseOwners(description).base
  }

  predicate SameText(a: string, b: string) {
    TextOf(a) == TextOf(b)
  }

  // ---------------------------------------------------------------- printing then parsing

  /** An occurrence of the marker does not cross a character that the marker does not have. */
  lemma MarkerDoesNotCross(a: string, c: char, b: string, i: nat)
    requires c == ',' || c == ' ' || c == ']'
    ensures OccursAt(a + [c] + b, OWNERS_MARKER, i) ==>
              OccursAt(a, OWNERS_MARKER, i) || (i > |a| && OccursAt(b, OWNERS_MARKER, i - |a| - 1))
  {
    var s, n := a + [c] + b, |OWNERS_MARKER|;
    assert s[|a|] == c;
    if i + n > |s| {
    } else if i <= |a| < i + n {
      assert s[i..i + n][|a| - i] == c;
      MarkerChars(|a| - i);
    } else if i + n <= |a| {
      assert s[i..i + n] == a[i..i + n];
    } else {
      assert s[i..i + n] == b[i - |a| - 1..i - |a| - 1 + n];
    }
  }

  lemma {:induction false} JoinIsFree(owners: seq<string>)
    requires forall o | o in owners :: WellFormed(o)
    ensures Free(Join(owners), OWNERS_MARKER)
  {
    if owners != [] {
      assert owners[0] in owners;
      if |owners| > 1 {
        var o, rest := owners[0], Join(owners[1..]);
        JoinIsFree(owners[1..]);
        assert Join(owners) == o + [','] + (" " + rest) && " " + rest == "" + [' '] + rest;
        forall k: nat ensures !OccursAt(" " + rest, OWNERS_MARKER, k) {
          MarkerDoesNotCross("", ' ', rest, k);
        }
        forall i: nat ensures !OccursAt(Join(owners), OWNERS_MARKER, i) {
          MarkerDoesNotCross(o, ',', " " + rest, i);
        }
      }
    }
  }

  /** In a printed description the last marker is the one that was printed. */
  lemma PrintedMarkerIsLast(prefix: string, list: string)
    requires Free(list, OWNERS_MARKER)
    ensures LastIndex(prefix + OWNERS_MARKER + " " + list + "]", OWNERS_MARKER) == |prefix|
  {
    var s, p, n := prefix + OWNERS_MARKER + " " + list + "]", |prefix|, |OWNERS_MARKER|;
    assert s[p..p + n] == OWNERS_MARKER;
    assert OccursAt(s, OWNERS_MARKER, p);
    var r := LastIndex(s, OWNERS_MARKER);
    if r > p {
      assert s[r] == OWNERS_MARKER[0] by {
        assert s[r..r + n][0] == s[r];
      }
      if r < p + n {
        assert s[r] == s[p..p + n][r - p];
        MarkerChars(r - p);
        assert false;
      } else {
        var a, b := prefix + OWNERS_MARKER, list + [']'] + "";
        assert s == a + [' '] + b;
        MarkerDoesNotCross(a, ' ', b, r);
        assert !OccursAt(a, OWNERS_MARKER, r);
        MarkerDoesNotCross(list, ']', "", r - |a| - 1);
        assert false;
      }
    }
  }

  lemma {:induction false} JoinEnds(owners: seq<string>)
    requires owners != [] && forall o | o in owners :: Listable(o)
    ensures Join(owners) != "" && !IsSpace(Join(owners)[0])
  {
    assert owners[0] in owners;
  }

  /** The text between marker and bracket is read back as it was printed. */
  lemma PrintedListIsRead(list: string)
    requires list != "" && !IsSpace(list[0])
    ensures TrimBracket(TrimSpace(" " + list + "]")) == list
  {
    var t := list + "]";
    assert " " + list + "]" == " " + t;
    TrimSpaceSkips(t);
    assert t[0] == list[0] && t[|t| - 1] == ']';
  }

  lemma SortKeepsWellFormed(owners: seq<string>)
    requires owners != [] && forall o | o in owners :: WellFormed(o)
    ensures Sort(owners) != [] && forall o | o in Sort(owners) :: WellFormed(o)
  {
    var sorted := Sort(owners);
    SortSorts(owners);
    forall o | o in sorted ensures WellFormed(o) {
      assert o in multiset(sorted);
      assert o in owners;
    }
    assert owners[0] in multiset(owners);
  }

  /** Parsing a printed description, given its parts. */
  lemma ParsePrinted(base: string, list: string)
    requires RightTrimmed(base) && Free(list, OWNERS_MARKER) && list != "" && !IsSpace(list[0])
    ensures var suffix := OWNERS_MARKER + " " + list + "]";
            ParseOwners(if base == "" then suffix else base + "\n" + suffix) == Parsed(base, Clean(SplitComma(list)))
  {
    hide LastIndex, TrimBracket, TrimSpace, TrimBlankRight, Clean, SplitComma, Free;
    var prefix := if base == "" then "" else base + "\n";
    var suffix := OWNERS_MARKER + " " + list + "]";
    var d := prefix + OWNERS_MARKER + " " + list + "]";
    assert d == if base == "" then suffix else base + "\n" + suffix;
    PrintedMarkerIsLast(prefix, list);
    assert d[..|prefix|] == prefix;
    assert d[|prefix| + |OWNERS_MARKER|..] == " " + list + "]";
    PrintedListIsRead(list);
    PrefixIsTrimmed(base);
  }

  lemma PrefixIsTrimmed(base: string)
    requires RightTrimmed(base)
    ensures TrimBlankRight("") == "" && TrimBlankRight(base + "\n") == base
  {}

  /** Printing then parsing gives back the base and the owners, sorted. */
  lemma ParseBuild(base: string, owners: seq<string>)
    requires RightTrimmed(base) && owners != [] && forall o | o in owners :: WellFormed(o)
    ensures ParseOwners(BuildDescription(base, owners)) == Parsed(base, Sort(owners))
  {
    var sorted := Sort(owners);
    SortKeepsWellFormed(owners);
    JoinIsFree(sorted);
    JoinEnds(sorted);
    SplitJoin(sorted);
    ParsePrinted(base, Join(sorted));
  }

  // ---------------------------------------------------------------- the owner operations

  /** Round trip for every string: whatever the spec text and the existing description, adding
      a well-formed namespace and parsing gives the text of the spec and the owners
      of the existing description plus the namespace, once, in order. */
  lemma AddThenParse(spec: string, existing: string, namespace: string)
    requires WellFormed(namespace)
    ensures var before, after := ParseOwners(existing).owners, ParseOwners(WithOwnerAdded(spec, existing, namespace));
            && Text(spec, after.base) && SameText(WithOwnerAdded(spec, existing, namespace), spec)
            && Sorted(after.owners)
            && multiset(after.owners) == multiset(before) + (if namespace in before then multiset{} else multiset{namespace})
  {
    ParsedIsWellFormed(spec);
    ParsedIsWellFormed(existing);
    var before := ParseOwners(existing).owners;
    var owners := if namespace in before then before else before + [namespace];
    ParseBuild(ParseOwners(spec).base, owners);
    SortSorts(owners);
    ParseMeans(spec);
  }

  lemma {:induction false} ExceptIs(owners: seq<string>, namespace: string)
    ensures forall o :: o in Except(owners, namespace) <==> o in owners && o != namespace
    ensures multiset(Except(owners, namespace)) == multiset(owners)[namespace := 0]
  {
    if owners != [] {
      ExceptIs(owners[1..], namespace);
      assert owners == [owners[0]] + owners[1..];
    }
  }

  /** A removal is the last one exactly when no other owner remains; otherwise parsing the
      result gives the same base and exactly the other owners. */
  lemma RemoveThenParse(description: string, namespace: string)
    ensures var before, r := ParseOwners(description), WithOwnerRemoved(description, namespace);
            && (r.last <==> forall o | o in before.owners :: o == namespace)
            && (!r.last ==>
                  && SameText(r.description, description)
                  && Sorted(ParseOwners(r.description).owners)
                  && multiset(ParseOwners(r.description).owners) == multiset(before.owners)[namespace := 0])
  {
    var before := ParseOwners(description);
    var remaining := Except(before.owners, namespace);
    ParsedIsWellFormed(description);
    ExceptIs(before.owners, namespace);
    assert remaining != [] ==> remaining[0] in remaining;
    if remaining != [] {
      ParseBuild(before.base, remaining);
      SortSorts(remaining);
    }
  }

  /** Membership after an addition and after a removal that is not the last. */
  lemma OwnersAfter(spec: string, existing: string, namespace: string, o: string)
    ensures WellFormed(namespace) ==>
              (HasOwner(WithOwnerAdded(spec, existing, namespace), o) <==> HasOwner(existing, o) || o == namespace)
    ensures !WithOwnerRemoved(existing, namespace).last ==>
              (HasOwner(WithOwnerRemoved(existing, namespace).description, o) <==> HasOwner(existing, o) && o != namespace)
    ensures HasOwner(existing, o) && o != namespace ==> !WithOwnerRemoved(existing, namespace).last
  {
    var before := ParseOwners(existing).owners;
    RemoveThenParse(existing, namespace);
    var r := ParseOwners(WithOwnerRemoved(existing, namespace).description).owners;
    assert o in before <==> o in multiset(before);
    assert o in r <==> o in multiset(r);
    if WellFormed(namespace) {
      AddThenParse(spec, existing, namespace);
      var a := ParseOwners(WithOwnerAdded(spec, existing, namespace)).owners;
      assert o in a <==> o in multiset(a);
    }
  }

  // ---------------------------------------------------------------- runs

  datatype OwnerOp = Add(spec: string, namespace: string) | Remove(namespace: string)

  /** The abstract owner collection: a base text and a bag of owners. */
  datatype Abstract = Abstract(base: string, owners: multiset<string>)

  function Apply(description: string, op: OwnerOp): string {
    match op
    case Add(spec, ns) => WithOwnerAdded(spec, description, ns)
    case Remove(ns) => WithOwnerRemoved(description, ns).description
  }

  function ApplyAbstract(a: Abstract, op: OwnerOp): Abstract {
    match op
    case Add(spec, ns) => Abstract(TextOf(spec), if ns in a.owners then a.owners else a.owners + multiset{ns})
    case Remove(ns) => Abstract(a.base, a.owners[ns := 0])
  }

  /** Some owner other than the removed one remains. */
  ghost predicate Legal(a: Abstract, op: OwnerOp) {
    if op.Add? then WellFormed(op.namespace) else exists o :: o in a.owners && o != op.namespace
  }

  ghost predicate LegalRun(a: Abstract, ops: seq<OwnerOp>)
    decreases |ops|
  {
    ops == [] || (Legal(a, ops[0]) && LegalRun(ApplyAbstract(a, ops[0]), ops[1..]))
  }

  function Run(description: string, ops: seq<OwnerOp>): string
    decreases |ops|
  {
    if ops == [] then description else Run(Apply(description, ops[0]), ops[1..])
  }

  function RunAbstract(a: Abstract, ops: seq<OwnerOp>): Abstract
    decreases |ops|
  {
    if ops == [] then a else RunAbstract(ApplyAbstract(a, ops[0]), ops[1..])
  }

  function Meaning(description: string): Abstract {
    Abstract(TextOf(description), multiset(ParseOwners(description).owners))
  }

  lemma ApplyRefines(description: string, op: OwnerOp)
    requires Legal(Meaning(description), op)
    ensures Meaning(Apply(description, op)) == ApplyAbstract(Meaning(description), op)
  {
    match op
    case Add(spec, ns) =>
      AddThenParse(spec, description, ns);
    case Remove(ns) =>
      RemoveThenParse(description, ns);
      var o :| o in Meaning(description).owners && o != ns;
      assert o in ParseOwners(description).owners;
  }

  /** Over every run of additions and removals that are not the last, starting from any
      description, the description means exactly the abstract owner collection. */
  lemma {:induction false} RunRefines(description: string, ops: seq<OwnerOp>)
    requires LegalRun(Meaning(description), ops)
    ensures Meaning(Run(description, ops)) == RunAbstract(Meaning(description), ops)
    decreases |ops|
  {
    if ops != [] {
      ApplyRefines(description, ops[0]);
      RunRefines(Apply(description, ops[0]), ops[1..]);
    }
  }

  // ---------------------------------------------------------------- the printed text

  /** A text and the list of its owners, as a reader sees them. */
  function Shown(text: string, list: string): string {
    (if text == "" then "" else text + "\n") + "[consul-acl-owners: " + list + "]"
  }

  lemma PlainText(text: string)
    requires Free(text, OWNERS_MARKER) && RightTrimmed(text)
    ensures ParseOwners(text) == Parsed(text, [])
  {}

  /** The first apply of an entity shows its text and its one owner. */
  lemma FirstApply(text: string, namespace: string)
    requires Free(text, OWNERS_MARKER) && RightTrimmed(text) && WellFormed(namespace)
    ensures WithOwnerAdded(text, "", namespace) == Shown(text, namespace)
    ensures ParseOwners(Shown(text, namespace)) == Parsed(text, [namespace])
  {
    PlainText(text);
    NoOwners();
    OneOwnerList(namespace);
    hide ParseOwners, Sort, Join, WellFormed, Free;
    assert [] + [namespace] == [namespace];
    ParseBuild(text, [namespace]);
    PrintedIsShown(text, [namespace]);
  }

  lemma PrintedIsShown(text: string, owners: seq<string>)
    requires owners != []
    ensures BuildDescription(text, owners) == Shown(text, Join(Sort(owners)))
  {
    hide Join, Sort;
    var list := Join(Sort(owners));
    assert OWNERS_MARKER + " " == "[consul-acl-owners: ";
    assert OWNERS_MARKER + " " + list + "]" == "[consul-acl-owners: " + list + "]";
  }

  /** The second owner is shown beside the first, in alphabetical order, whichever came first. */
  lemma SecondApply(text: string, a: string, b: string)
    requires Free(text, OWNERS_MARKER) && RightTrimmed(text) && WellFormed(a) && WellFormed(b)
    requires a != b && Leq(a, b)
    ensures WithOwnerAdded(text, Shown(text, a), b) == Shown(text, a + ", " + b)
    ensures WithOwnerAdded(text, Shown(text, b), a) == Shown(text, a + ", " + b)
  {
    FirstApply(text, a);
    FirstApply(text, b);
    PlainText(text);
    hide ParseOwners, WellFormed, Free, Shown;
    TwoOwners(a, b);
    assert [a] + [b] == [a, b] && [b] + [a] == [b, a];
    PrintedIsShown(text, [a, b]);
    PrintedIsShown(text, [b, a]);
  }

  lemma TwoOwners(a: string, b: string)
    requires a != b && Leq(a, b)
    ensures Sort([a, b]) == [a, b] && Sort([b, a]) == [a, b] && Join([a, b]) == a + ", " + b
  {
    if Leq(b, a) {
      LeqAntisymmetric(a, b);
    }
    OneOwnerList(a);
    OneOwnerList(b);
    assert [a, b][1..] == [b] && [b, a][1..] == [a];
    assert [a][1..] == [];
  }

  // ---------------------------------------------------------------- writing without reading

  lemma NoOwners()
    ensures ParseOwners("") == Parsed("", [])
  {
    assert LastIndex("", OWNERS_MARKER) == -1;
  }

  /** The description that lists one owner and has no other text. */
  function Listing(namespace: string): string {
    OWNERS_MARKER + " " + namespace + "]"
  }

  lemma OneOwnerList(namespace: string)
    ensures Sort([namespace]) == [namespace] && Join([namespace]) == namespace
  {
    assert [namespace][1..] == [] && Sort([]) == [];
  }

  lemma OneOwner(namespace: string)
    requires |namespace| == 1 && !IsSpace(namespace[0]) && namespace[0] != ','
    ensures WellFormed(namespace) && BuildDescription("", [namespace]) == Listing(namespace)
    ensures ParseOwners(Listing(namespace)) == Parsed("", [namespace])
  {
    assert WellFormed(namespace) by {
      assert |OWNERS_MARKER| > 1;
    }
    hide ParseOwners, WellFormed, Sort, Join;
    OneOwnerList(namespace);
    ParseBuild("", [namespace]);
  }

  /** Writing a new entity without text lists its writer alone. */
  lemma FirstOwner(namespace: string)
    requires |namespace| == 1 && !IsSpace(namespace[0]) && namespace[0] != ','
    ensures WellFormed(namespace) && WithOwnerAdded("", "", namespace) == Listing(namespace)
    ensures forall o :: HasOwner(Listing(namespace), o) <==> o == namespace
  {
    OneOwner(namespace);
    NoOwners();
    hide ParseOwners, BuildDescription, Listing, WellFormed;
    assert ParseOwners("").owners + [namespace] == [namespace];
  }

  /** An owner that is lost because the existing policy, "[consul-acl-owners: a]", is not read. */
  lemma UnreadOwnerIsLost()
    ensures HasOwner(Listing("a"), "a") && WithOwnerAdded("", "", "b") == Listing("b") && !HasOwner(Listing("b"), "a")
  {
    hide HasOwner, WithOwnerAdded, Listing;
    FirstOwner("a");
    FirstOwner("b");
  }

  /** A policy whose spec carries an ID is written without reading the existing one first. Its
      owners survive exactly when there is none but the writer. */
  lemma UnreadOwnersSurviveIff(spec: string, existing: string, namespace: string)
    requires WellFormed(namespace)
    ensures (forall o | HasOwner(existing, o) :: HasOwner(WithOwnerAdded(spec, "", namespace), o))
            <==> forall o | HasOwner(existing, o) :: o == namespace
  {
    assert ParseOwners("").owners == [] by {
      assert LastIndex("", OWNERS_MARKER) == -1;
    }
    forall o ensures HasOwner(WithOwnerAdded(spec, "", namespace), o) <==> o == namespace {
      OwnersAfter(spec, "", namespace, o);
    }
  }
}
