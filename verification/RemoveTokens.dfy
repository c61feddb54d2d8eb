/** The job that revokes stale tokens of Consul client pods. */
module RemoveTokens {
  import opened Wrappers

  /** The structured part of a token description. */
  datatype Description = Description(component: string, pod: string)

  /** An ACL token; `description` is None when the text could not be parsed. */
  datatype Token = Token(id: string, description: Option<Description>, created: int)

  /** The part of a pod path after the last slash. */
  function PodKey(pod: string): string {
    if pod == "" || pod[|pod| - 1] == '/' then "" else PodKey(pod[..|pod| - 1]) + [pod[|pod| - 1]]
  }

  lemma {:induction false} PodKeyIsLastPart(path: string, name: string)
    requires '/' !in name
    ensures PodKey(path + "/" + name) == name && PodKey(name) == name
  {
    if name != "" {
      var n := |name| - 1;
      assert name[n] in name;
      PodKeyIsLastPart(path, name[..n]);
      assert (path + "/" + name)[..|path| + 1 + n] == path + "/" + name[..n];
      assert name == name[..n] + [name[n]];
    }
  }

  predicate IsClient(t: Token) {
    t.description.Some? && t.description.value.component == "client" && t.description.value.pod != ""
  }

  function Pod(t: Token): string
    requires IsClient(t)
  {
    PodKey(t.description.value.pod)
  }

  predicate OfPod(t: Token, pod: string) {
    IsClient(t) && Pod(t) == pod
  }

  predicate DistinctIds(tokens: seq<Token>) {
    forall i, j | 0 <= i < j < |tokens| :: tokens[i].id != tokens[j].id
  }

  lemma SameIdSameToken(tokens: seq<Token>, a: Token, b: Token)
    requires DistinctIds(tokens) && a in tokens && b in tokens && a.id == b.id
    ensures a == b
  {}

  /** The client tokens of a pod, in order. */
  function TokensOf(tokens: seq<Token>, pod: string): seq<Token> {
    if tokens == [] then []
    else
      var n := |tokens| - 1;
      TokensOf(tokens[..n], pod) + (if OfPod(tokens[n], pod) then [tokens[n]] else [])
  }

  lemma {:induction false} TokensOfAre(tokens: seq<Token>, pod: string)
    ensures forall t :: t in TokensOf(tokens, pod) <==> t in tokens && OfPod(t, pod)
    ensures DistinctIds(tokens) ==> DistinctIds(TokensOf(tokens, pod))
  {
    if tokens != [] {
      var n := |tokens| - 1;
      TokensOfAre(tokens[..n], pod);
      assert tokens == tokens[..n] + [tokens[n]];
      if DistinctIds(tokens) {
        assert DistinctIds(tokens[..n]);
        forall t | t in TokensOf(tokens[..n], pod) ensures t.id != tokens[n].id {
          assert t in tokens[..n];
        }
      }
    }
  }

  method GroupTokensByPod(tokens: seq<Token>) returns (byPod: map<string, seq<Token>>)
    ensures forall p :: p in byPod <==> TokensOf(tokens, p) != []
    ensures forall p | p in byPod :: byPod[p] == TokensOf(tokens, p)
  {
    byPod := map[];
    for i := 0 to |tokens|
      invariant forall p :: p in byPod <==> TokensOf(tokens[..i], p) != []
      invariant forall p | p in byPod :: byPod[p] == TokensOf(tokens[..i], p)
    {
      assert tokens[..i + 1][..i] == tokens[..i];
      var t := tokens[i];
      if t.description.None? || t.description.value.component != "client" || t.description.value.pod == "" {
        continue;
      }
      var p := PodKey(t.description.value.pod);
      var sofar := if p in byPod then byPod[p] else [];
      byPod := byPod[p := sofar + [t]];
    }
    assert tokens[..|tokens|] == tokens;
  }

  // ---------------------------------------------------------------- newest first

  predicate NewestFirst(s: seq<Token>) {
    forall i, j | 0 <= i < j < |s| :: s[i].created >= s[j].created
  }

  method InsertNewest(sorted: seq<Token>, t: Token) returns (r: seq<Token>)
    requires NewestFirst(sorted)
    ensures NewestFirst(r) && multiset(r) == multiset(sorted) + multiset{t}
  {
    var k := 0;
    while k < |sorted| && sorted[k].created > t.created
      invariant k <= |sorted| && forall j | 0 <= j < k :: sorted[j].created > t.created
    {
      k := k + 1;
    }
    assert sorted == sorted[..k] + sorted[k..];
    InsertKeepsOrder(sorted[..k], t, sorted[k..]);
    r := sorted[..k] + [t] + sorted[k..];
  }

  lemma InsertKeepsOrder(a: seq<Token>, t: Token, b: seq<Token>)
    requires NewestFirst(a + b)
    requires forall i | 0 <= i < |a| :: a[i].created >= t.created
    requires b != [] ==> t.created >= b[0].created
    ensures NewestFirst(a + [t] + b)
  {
    var s, r := a + b, a + [t] + b;
    forall j | 0 <= j < |b| ensures t.created >= b[j].created {
      assert s[|a|] == b[0] && s[|a| + j] == b[j];
    }
    forall i, j | 0 <= i < j < |r| ensures r[i].created >= r[j].created {
      if i != |a| && j != |a| {
        assert r[i] == s[if i < |a| then i else i - 1] && r[j] == s[if j < |a| then j else j - 1];
      }
    }
  }

  /** Any arrangement with the newest first will do; the sort need not be stable. */
  method SortNewestFirst(toks: seq<Token>) returns (sorted: seq<Token>)
    ensures NewestFirst(sorted) && multiset(sorted) == multiset(toks)
  {
    sorted := [];
    for i := 0 to |toks|
      invariant NewestFirst(sorted) && multiset(sorted) == multiset(toks[..i])
    {
      assert toks[..i + 1] == toks[..i] + [toks[i]];
      sorted := InsertNewest(sorted, toks[i]);
    }
    assert toks[..|toks|] == toks;
  }

  // ---------------------------------------------------------------- which tokens go

  function Ids(toks: seq<Token>): seq<string> {
    seq(|toks|, i requires 0 <= i < |toks| => toks[i].id)
  }

  predicate DistinctSeq(s: seq<string>) {
    forall i, j | 0 <= i < j < |s| :: s[i] != s[j]
  }

  /** `keeper` is the one token of the pod that stays, and none is newer. */
  ghost predicate Keeps(tokens: seq<Token>, pod: string, gone: seq<string>, keeper: Token) {
    && keeper in tokens && OfPod(keeper, pod)
    && forall t | t in tokens && OfPod(t, pod) :: t.created <= keeper.created && (t.id in gone <==> t != keeper)
  }

  /** A dead pod keeps no token, a live one exactly one, the newest. */
  ghost predicate PodSettled(tokens: seq<Token>, live: set<string>, pod: string, gone: seq<string>) {
    if pod !in live then forall t | t in tokens && OfPod(t, pod) :: t.id in gone
    else (exists t | t in tokens :: OfPod(t, pod)) ==> exists keeper :: Keeps(tokens, pod, gone, keeper)
  }

  /** What the selection promises. */
  ghost predicate Picked(tokens: seq<Token>, live: set<string>, gone: seq<string>) {
    && DistinctSeq(gone)
    && (forall id | id in gone :: exists t | t in tokens :: IsClient(t) && t.id == id)
    && (forall pod :: PodSettled(tokens, live, pod, gone))
  }

  /** The tokens of one pod to revoke. */
  method PickOfPod(tokens: seq<Token>, live: set<string>, pod: string, toks: seq<Token>) returns (gone: seq<string>)
    requires DistinctIds(tokens) && toks == TokensOf(tokens, pod) && toks != []
    ensures DistinctSeq(gone) && PodSettled(tokens, live, pod, gone)
    ensures forall id | id in gone :: exists t | t in tokens :: OfPod(t, pod) && t.id == id
  {
    hide TokensOf, OfPod, NewestFirst, DistinctIds, Ids, DistinctSeq, PodSettled;
    TokensOfAre(tokens, pod);
    var sorted := toks;
    var first := 0;
    if pod in live {
      sorted := SortNewestFirst(toks);
      first := 1;
    }
    SameElements(toks, sorted);
    gone := [];
    assert sorted[first..first] == [];
    IdsMore([], []);
    for i := first to |sorted|
      invariant first <= i && gone == Ids(sorted[first..i])
    {
      assert sorted[first..i + 1] == sorted[first..i] + [sorted[i]];
      IdsMore(sorted[first..i], [sorted[i]]);
      gone := gone + [sorted[i].id];
    }
    assert sorted[first..|sorted|] == sorted[first..];
    IdsOfRest(sorted, first);
    PickSettles(tokens, live, pod, sorted, first, gone);
  }

  lemma IdsMore(s: seq<Token>, more: seq<Token>)
    ensures Ids(s + more) == Ids(s) + Ids(more) && Ids([]) == []
    ensures |more| == 1 ==> Ids(more) == [more[0].id]
  {}

  lemma PickSettles(tokens: seq<Token>, live: set<string>, pod: string, sorted: seq<Token>, first: nat, gone: seq<string>)
    requires sorted != [] && forall t :: t in sorted <==> t in tokens && OfPod(t, pod)
    requires first == (if pod in live then 1 else 0) && (pod in live ==> NewestFirst(sorted))
    requires forall t | t in sorted :: t.id in gone <==> first == 0 || t != sorted[0]
    ensures PodSettled(tokens, live, pod, gone)
  {
    hide OfPod;
    if pod in live {
      assert sorted[0] in sorted;
      assert Keeps(tokens, pod, gone, sorted[0]);
    }
  }

  /** The ids of all tokens but the first `first` (none or one). */
  lemma IdsOfRest(s: seq<Token>, first: nat)
    requires DistinctIds(s) && first <= 1 && first <= |s|
    ensures DistinctSeq(Ids(s[first..]))
    ensures forall t | t in s :: t.id in Ids(s[first..]) <==> first == 0 || t != s[0]
    ensures forall id | id in Ids(s[first..]) :: exists t | t in s :: t.id == id
  {
    var ids := Ids(s[first..]);
    forall j | 0 <= j < |ids| ensures ids[j] == s[first + j].id {}
    forall t | t in s ensures t.id in ids <==> first == 0 || t != s[0] {
      var j :| 0 <= j < |s| && s[j] == t;
      if j >= first {
        assert ids[j - first] == t.id;
      }
    }
    forall id | id in ids ensures exists t | t in s :: t.id == id {
      var j :| 0 <= j < |ids| && ids[j] == id;
      assert s[first + j] in s;
    }
  }

  lemma SameElements(a: seq<Token>, b: seq<Token>)
    requires multiset(a) == multiset(b) && DistinctIds(a)
    ensures |a| == |b| && DistinctIds(b) && forall t :: t in a <==> t in b
  {
    assert |a| == |multiset(a)| && |b| == |multiset(b)|;
    forall t ensures t in a <==> t in b {
      assert t in multiset(a) <==> t in multiset(b);
    }
    forall i, j | 0 <= i < j < |b| ensures b[i].id != b[j].id {
      if b[i].id == b[j].id {
        assert b[i] in a && b[j] in a;
        SameIdSameToken(a, b[i], b[j]);
        TwiceInMultiset(b, i, j);
        OnceInMultiset(a, b[i]);
      }
    }
  }

  lemma TwiceInMultiset(s: seq<Token>, i: nat, j: nat)
    requires i < j < |s| && s[i] == s[j]
    ensures multiset(s)[s[i]] >= 2
  {
    assert s == s[..j] + s[j..];
    assert s[i] in s[..j] && s[j] in s[j..];
  }

  lemma {:induction false} OnceInMultiset(s: seq<Token>, t: Token)
    requires DistinctIds(s)
    ensures multiset(s)[t] <= 1
  {
    if s != [] {
      var n := |s| - 1;
      OnceInMultiset(s[..n], t);
      assert s == s[..n] + [s[n]];
      assert s[n] !in s[..n];
    }
  }

  lemma SettledStays(tokens: seq<Token>, live: set<string>, pod: string, gone: seq<string>, more: seq<string>)
    requires PodSettled(tokens, live, pod, gone)
    requires forall t | t in tokens && OfPod(t, pod) :: t.id in gone <==> t.id in more
    ensures PodSettled(tokens, live, pod, more)
  {
    if pod in live && exists t | t in tokens :: OfPod(t, pod) {
      var keeper :| Keeps(tokens, pod, gone, keeper);
      assert Keeps(tokens, pod, more, keeper);
    }
  }

  // ---------------------------------------------------------------- what the selection means

  /** The name is what follows the last slash of the path. */
  ghost predicate LastPart(path: string, name: string) {
    '/' !in name && (path == name || exists dir :: path == dir + "/" + name)
  }

  /** The token was issued to the client pod of that name. */
  ghost predicate IssuedTo(t: Token, pod: string) {
    && t.description.Some? && t.description.value.component == "client" && t.description.value.pod != ""
    && LastPart(t.description.value.pod, pod)
  }

  lemma {:induction false} PodKeyIs(path: string, name: string)
    ensures LastPart(path, name) <==> PodKey(path) == name
  {
    if LastPart(path, name) {
      if path == name {
        PodKeyIsLastPart("", name);
      } else {
        var dir :| path == dir + "/" + name;
        PodKeyIsLastPart(dir, name);
      }
    }
    PodKeySplits(path);
  }

  lemma {:induction false} PodKeySplits(path: string)
    ensures LastPart(path, PodKey(path))
  {
    if path != "" {
      var n := |path| - 1;
      var dir, last := path[..n], path[n];
      assert path == dir + [last];
      if last == '/' {
        assert path == dir + "/" + "";
      } else {
        PodKeySplits(dir);
        assert PodKey(path) == PodKey(dir) + [last];
        if dir != PodKey(dir) {
          var d :| dir == d + "/" + PodKey(dir);
          assert path == d + "/" + (PodKey(dir) + [last]);
        }
      }
    }
  }

  lemma OfPodIs(t: Token, pod: string)
    ensures OfPod(t, pod) <==> IssuedTo(t, pod)
  {
    if t.description.Some? {
      PodKeyIs(t.description.value.pod, pod);
    }
    hide LastPart, PodKey;
  }

  /** `keeper` stays, no token of the pod is newer, and all the others go. */
  ghost predicate StaysAlone(tokens: seq<Token>, pod: string, gone: seq<string>, keeper: Token) {
    && keeper in tokens && IssuedTo(keeper, pod) && keeper.id !in gone
    && forall t | t in tokens && IssuedTo(t, pod) :: t.created <= keeper.created && (t != keeper ==> t.id in gone)
  }

  /** Only tokens issued to client pods go, none is named twice; of a pod that is gone all tokens go, of
      a live one all but one, the newest. */
  ghost predicate Selected(tokens: seq<Token>, live: set<string>, gone: seq<string>) {
    && DistinctSeq(gone)
    && (forall id | id in gone :: exists t, pod :: t in tokens && IssuedTo(t, pod) && t.id == id)
    && (forall t, pod | t in tokens && IssuedTo(t, pod) && pod !in live :: t.id in gone)
    && (forall t, pod | t in tokens && IssuedTo(t, pod) && pod in live :: exists keeper :: StaysAlone(tokens, pod, gone, keeper))
  }

  lemma PickedMeans(tokens: seq<Token>, live: set<string>, gone: seq<string>)
    requires Picked(tokens, live, gone)
    ensures Selected(tokens, live, gone)
  {
    forall t, pod ensures OfPod(t, pod) <==> IssuedTo(t, pod) {
      OfPodIs(t, pod);
    }
    hide IssuedTo, DistinctSeq, PodKey;
    forall id | id in gone ensures exists t, pod :: t in tokens && IssuedTo(t, pod) && t.id == id {
      var t :| t in tokens && IsClient(t) && t.id == id;
      assert OfPod(t, Pod(t));
    }
    hide OfPod, IsClient;
    forall t, pod | t in tokens && IssuedTo(t, pod)
      ensures pod !in live ==> t.id in gone
      ensures pod in live ==> exists keeper :: StaysAlone(tokens, pod, gone, keeper)
    {
      assert OfPod(t, pod) && PodSettled(tokens, live, pod, gone);
      if pod in live {
        var keeper :| Keeps(tokens, pod, gone, keeper);
        assert StaysAlone(tokens, pod, gone, keeper);
      }
    }
  }

  /** Selects the tokens to revoke, whatever the order in which the pods are visited. */
  method PickTokensToDelete(tokens: seq<Token>, byPod: map<string, seq<Token>>, live: set<string>) returns (gone: seq<string>)
    requires DistinctIds(tokens)
    requires forall p :: p in byPod <==> TokensOf(tokens, p) != []
    requires forall p | p in byPod :: byPod[p] == TokensOf(tokens, p)
    ensures Picked(tokens, live, gone) && Selected(tokens, live, gone)
  {
    hide Selected, Picked, PickedFrom, PodSettled, TokensOf, DistinctIds, DistinctSeq, PodKey;
    gone := [];
    NothingGone(tokens, live);
    var rest := byPod.Keys;
    ghost var done: set<string> := {};
    while rest != {}
      invariant done + rest == byPod.Keys && done !! rest
      invariant PickedFrom(tokens, live, done, gone)
      decreases |rest|
    {
      var pod :| pod in rest;
      var more := PickOfPod(tokens, live, pod, byPod[pod]);
      PickedMore(tokens, live, done, gone, pod, more);
      gone := gone + more;
      done, rest := done + {pod}, rest - {pod};
    }
    AllPicked(tokens, live, done, gone);
    PickedMeans(tokens, live, gone);
  }

  /** The pods `done` are settled, with tokens of theirs alone. */
  ghost predicate PickedFrom(tokens: seq<Token>, live: set<string>, done: set<string>, gone: seq<string>) {
    && DistinctSeq(gone)
    && (forall id | id in gone :: exists t | t in tokens :: IsClient(t) && Pod(t) in done && t.id == id)
    && (forall p | p in done :: PodSettled(tokens, live, p, gone))
  }

  lemma AllPicked(tokens: seq<Token>, live: set<string>, done: set<string>, gone: seq<string>)
    requires PickedFrom(tokens, live, done, gone) && forall p | p !in done :: TokensOf(tokens, p) == []
    ensures Picked(tokens, live, gone)
  {
    hide PodSettled, TokensOf, DistinctSeq, PodKey;
    forall p ensures PodSettled(tokens, live, p, gone) {
      TokensOfAre(tokens, p);
      if p !in done {
        NoTokensSettled(tokens, live, p, gone);
      }
    }
  }

  lemma NothingGone(tokens: seq<Token>, live: set<string>)
    ensures PickedFrom(tokens, live, {}, [])
  {}

  lemma NoTokensSettled(tokens: seq<Token>, live: set<string>, pod: string, gone: seq<string>)
    requires forall t | t in tokens :: !OfPod(t, pod)
    ensures PodSettled(tokens, live, pod, gone)
  {}

  lemma PickedMore(tokens: seq<Token>, live: set<string>, done: set<string>, gone: seq<string>, pod: string, more: seq<string>)
    requires DistinctIds(tokens) && pod !in done && PickedFrom(tokens, live, done, gone) && DistinctSeq(more)
    requires forall id | id in more :: exists t | t in tokens :: OfPod(t, pod) && t.id == id
    requires PodSettled(tokens, live, pod, more)
    ensures PickedFrom(tokens, live, done + {pod}, gone + more)
  {
    assert forall id | id in gone :: id !in more;
    forall i, j | 0 <= i < j < |gone + more| ensures (gone + more)[i] != (gone + more)[j] {
      if i < |gone| <= j {
        assert gone[i] in gone && more[j - |gone|] in more;
      }
    }
    forall t | t in tokens && IsClient(t)
      ensures Pod(t) in done ==> t.id !in more
      ensures Pod(t) == pod ==> t.id !in gone
    {
      if t.id in more {
        var b :| b in tokens && OfPod(b, pod) && b.id == t.id;
        SameIdSameToken(tokens, t, b);
      }
      if t.id in gone {
        var a :| a in tokens && IsClient(a) && Pod(a) in done && a.id == t.id;
        SameIdSameToken(tokens, t, a);
      }
    }
    forall p | p in done + {pod} ensures PodSettled(tokens, live, p, gone + more) {
      if p == pod {
        SettledStays(tokens, live, p, more, gone + more);
      } else {
        SettledStays(tokens, live, p, gone, gone + more);
      }
    }
  }

  /** Tokens without a structured description, of another component or of no pod are never selected. */
  lemma NonClientsStay(tokens: seq<Token>, live: set<string>, gone: seq<string>, t: Token)
    requires DistinctIds(tokens) && Picked(tokens, live, gone) && t in tokens
    requires t.description.None? || t.description.value.component != "client" || t.description.value.pod == ""
    ensures t.id !in gone
  {
    PickedMeans(tokens, live, gone);
    hide LastPart, Picked;
    if t.id in gone {
      var u, pod :| u in tokens && IssuedTo(u, pod) && u.id == t.id;
      SameIdSameToken(tokens, t, u);
    }
  }

  /** The selection converges: a second run on the surviving tokens selects nothing. */
  lemma SecondRunSelectsNothing(tokens: seq<Token>, live: set<string>, gone: seq<string>, survivors: seq<Token>, again: seq<string>)
    requires DistinctIds(tokens) && Picked(tokens, live, gone)
    requires forall t :: t in survivors <==> t in tokens && t.id !in gone
    requires Picked(survivors, live, again)
    ensures again == []
  {
    if again != [] {
      assert again[0] in again;
      var t :| t in survivors && IsClient(t) && t.id == again[0];
      var pod := Pod(t);
      assert OfPod(t, pod) && PodSettled(tokens, live, pod, gone) && PodSettled(survivors, live, pod, again);
      assert false;
    }
  }
}
